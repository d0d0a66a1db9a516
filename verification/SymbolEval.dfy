/**
 sym_calc_value and its companions: the lazily memoised evaluator, with the
 fields of struct symbol that it reads and writes.
 */
module SymbolEval {
  import opened Tristates
  import opened Numbers
  import opened Exprs
  import opened SymbolSpec

  /** struct symbol, without the parts that only the parser or the front ends use. */
  class SymbolCell {
    const decl: Decl
    /** curr */
    var val: string
    var tri: Tristate
    /** def[S_DEF_USER] and SYMBOL_DEF_USER */
    var hasUser: bool
    var userTri: Tristate
    var userVal: string
    var visible: Tristate
    var dirDep: Tristate
    var revDep: Tristate
    var implied: Tristate
    /** SYMBOL_VALID and SYMBOL_WRITE */
    var valid: bool
    var write: bool

    constructor (decl: Decl)
      ensures this.decl == decl && !hasUser && !valid && Now() == State(NO, NO, NO, NO, "", NO, false)
    {
      this.decl := decl;
      val, tri, hasUser, userTri, userVal := "", NO, false, NO, "";
      visible, dirDep, revDep, implied, valid, write := NO, NO, NO, NO, false, false;
    }

    /** The results of the last evaluation. */
    function Now(): State
      reads this
    {
      State(visible, dirDep, revDep, implied, val, tri, write)
    }

    method Assign(now: State)
      modifies this`visible, this`dirDep, this`revDep, this`implied, this`val, this`tri, this`write
      ensures Now() == now
    {
      visible, dirDep, revDep, implied := now.visible, now.dirDep, now.revDep, now.implied;
      val, tri, write := now.val, now.tri, now.write;
    }

    function UserValue(): User
      reads this
    {
      User(hasUser, userTri, userVal)
    }
  }

  /** The two results agree on everything but SYMBOL_WRITE, which writers clear. */
  predicate SameValues(a: State, b: State) { a == b.(write := a.write) }

  predicate Untyped(s: Symbol) { s.typ == S_UNKNOWN || s.typ == S_OTHER }

  /**
   The evaluator. Its ghost parameters are the user values and the table of the
   values they define, which the methods are proved to compute piece by piece.
   */
  class Evaluator {
    const cells: seq<SymbolCell>
    const modules: bool
    ghost const g: Graph

    constructor (cells: seq<SymbolCell>, modules: bool, ghost g: Graph)
      requires Acyclic(g) && |cells| == |g.decls| && modules == g.modules
      requires forall i | 0 <= i < |cells| :: cells[i].decl == g.decls[i] && !cells[i].valid
      requires forall i | 0 <= i < |cells| :: cells[i].Now() == State(NO, NO, NO, NO, "", NO, false)
      requires forall i, j | 0 <= i < j < |cells| :: cells[i] != cells[j]
      ensures this.cells == cells && this.g == g && Wired() && Coherent()
    {
      this.cells := cells;
      this.modules := modules;
      this.g := g;
      new;
      SpecIsSolution(g, Users());
    }

    /** The cells hold the symbols of the acyclic graph g. */
    ghost predicate Wired()
      reads cells
    {
      && Acyclic(g) && |cells| == |g.decls| && modules == g.modules
      && (forall i | 0 <= i < |cells| :: cells[i].decl == g.decls[i])
      && (forall i, j | 0 <= i < j < |cells| :: cells[i] != cells[j])
      && (forall i | 0 <= i < |cells| && Untyped(g.decls[i].sym) :: Idle(cells[i]))
    }

    predicate Idle(c: SymbolCell)
      reads c
    {
      c.visible == NO && c.dirDep == NO && c.revDep == NO && c.implied == NO && c.tri == NO && !c.write
    }

    ghost function Users(): (us: seq<User>)
      reads cells
      ensures |us| == |cells| && forall i | 0 <= i < |cells| :: us[i] == cells[i].UserValue()
    {
      seq(|cells|, i requires 0 <= i < |cells| reads cells => cells[i].UserValue())
    }

    /**
     The user values are us, the table holds what they define, and every symbol
     flagged valid, other than those being evaluated, has its value from there.
     */
    ghost predicate Inv(us: seq<User>, table: seq<State>, busy: set<nat>)
      reads cells
    {
      && Wired() && Solution(g, us, table)
      && (forall i | 0 <= i < |cells| :: cells[i].UserValue() == us[i])
      && (forall i | 0 <= i < |cells| && i !in busy && cells[i].valid :: SameValues(cells[i].Now(), table[i]))
    }

    /** The symbols being evaluated are flagged valid and of rank k at least. */
    ghost predicate Busy(busy: set<nat>, k: nat)
      requires |cells| == |g.rank|
      reads cells
    {
      forall i | i in busy :: i < |cells| && cells[i].valid && g.rank[i] >= k
    }

    /** Every valid symbol has the value that the recursive definition gives for the current user values. */
    ghost predicate Coherent()
      requires Wired()
      reads cells
    {
      forall i | 0 <= i < |cells| && cells[i].valid :: SameValues(cells[i].Now(), Spec(g, Users(), i))
    }

    lemma CoherentIsInv()
      requires Wired()
      ensures Coherent() <==> Inv(Users(), SpecTable(g, Users()), {})
    {
      SpecIsSolution(g, Users());
    }

    /**
     Symbols other than those in hands off were left alone if they were valid,
     and hold their line of the table, SYMBOL_WRITE included, if they became so.
     */
    twostate predicate Progress(table: seq<State>, handsOff: set<nat>)
      requires |table| == |cells|
      reads cells
    {
      forall i | 0 <= i < |cells| && i !in handsOff ::
        if old(cells[i].valid) then cells[i].valid && cells[i].Now() == old(cells[i].Now())
        else cells[i].valid ==> cells[i].Now() == table[i]
    }

    /** expr_calc_value, evaluating the symbols it needs. */
    method CalcExpr(e: Expr, ghost k: nat, ghost us: seq<User>, ghost table: seq<State>, ghost busy: set<nat>)
        returns (v: Tristate)
      requires Inv(us, table, busy) && Busy(busy, k) && ExprBelow(g, e, k)
      modifies cells
      ensures Inv(us, table, busy) && Busy(busy, k) && Progress(table, {})
      ensures v == Value(e, TableEnv(g, table, k))
      decreases k, 1, e
    {
      match e
      case Sym(s) =>
        v := CalcSymbol(s, k, us, table, busy);
      case Not(x) =>
        v := CalcExpr(x, k, us, table, busy);
        v := Not3(v);
      case Bin(op, l, r) =>
        var v1 := CalcExpr(l, k, us, table, busy);
        var v2 := CalcExpr(r, k, us, table, busy);
        v := op.Apply(v1, v2);
      case Cmp(rel, a, b) =>
        v := CalcComparison(rel, a, b, k, us, table, busy);
    }

    method CalcComparison(rel: RelOp, a: Symbol, b: Symbol, ghost k: nat, ghost us: seq<User>, ghost table: seq<State>,
                          ghost busy: set<nat>)
        returns (v: Tristate)
      requires Inv(us, table, busy) && Busy(busy, k) && SymBelow(g, a, k) && SymBelow(g, b, k)
      modifies cells
      ensures Inv(us, table, busy) && Busy(busy, k) && Progress(table, {})
      ensures v == Compare(rel, a, b, TableEnv(g, table, k))
      decreases k, 0, 1
    {
      var _ := CalcSymbol(a, k, us, table, busy);
      label Second:
      var _ := CalcSymbol(b, k, us, table, busy);
      assert StringValue(a) == old@Second(StringValue(a));
      var s1, s2 := StringValue(a), StringValue(b);
      var (ordered, res) := CompareTexts(a.typ, s1, b.typ, s2);
      v := CompareResult(rel, ordered, res);
    }

    /** sym_calc_value(s) followed by reading s->curr.tri. */
    method CalcSymbol(s: Symbol, ghost k: nat, ghost us: seq<User>, ghost table: seq<State>, ghost busy: set<nat>)
        returns (v: Tristate)
      requires Inv(us, table, busy) && Busy(busy, k) && SymBelow(g, s, k)
      modifies cells
      ensures Inv(us, table, busy) && Busy(busy, k) && Progress(table, {})
      ensures !IsTriConst(s) ==> cells[s.id].valid && s.id !in busy
      ensures v == TriOf(s, TableEnv(g, table, k)) && CurrVal(s) == ValOf(s, TableEnv(g, table, k))
      ensures StringValue(s) == TextOf(s, TableEnv(g, table, k))
      decreases k, 0, 0
    {
      if s == SYMBOL_NO { v := NO; }
      else if s == SYMBOL_MOD { v := MOD; }
      else if s == SYMBOL_YES { v := YES; }
      else {
        CalcValue(s.id, us, table, busy);
        v := cells[s.id].tri;
        SolvedLine(g, us, table, s, k);
        assert SameValues(cells[s.id].Now(), table[s.id]);
      }
    }

    /** sym_get_string_value. */
    function StringValue(s: Symbol): string
      requires IsTriConst(s) || s.id < |cells|
      reads cells
    {
      if IsTriConst(s) then s.name
      else if s.IsTri() then TriText(cells[s.id].tri, modules)
      else cells[s.id].val
    }

    /** symbol.curr.val. */
    function CurrVal(s: Symbol): string
      requires IsTriConst(s) || s.id < |cells|
      reads cells
    {
      if IsTriConst(s) then s.name else cells[s.id].val
    }

    /** The value of a condition, and its value when it is missing. */
    method CalcOpt(e: Option<Expr>, missing: Tristate, ghost k: nat, ghost us: seq<User>, ghost table: seq<State>,
                   ghost busy: set<nat>)
        returns (v: Tristate)
      requires Inv(us, table, busy) && Busy(busy, k) && OptBelow(g, e, k)
      modifies cells
      ensures Inv(us, table, busy) && Busy(busy, k) && Progress(table, {})
      ensures v == if e.None? then missing else Value(e.value, TableEnv(g, table, k))
      decreases k, 2
    {
      v := missing;
      if e.Some? { v := CalcExpr(e.value, k, us, table, busy); }
    }

    /** The loop of sym_calc_visibility over the prompts. */
    method CalcPrompts(ps: seq<Option<Expr>>, ghost k: nat, ghost us: seq<User>, ghost table: seq<State>,
                       ghost busy: set<nat>)
        returns (tri: Tristate)
      requires Inv(us, table, busy) && Busy(busy, k)
      requires forall x | 0 <= x < |ps| :: OptBelow(g, ps[x], k)
      modifies cells
      ensures Inv(us, table, busy) && Busy(busy, k) && Progress(table, {})
      ensures tri == AnyPrompt(ps, TableEnv(g, table, k))
      decreases k, 3
    {
      tri := NO;
      ghost var env := TableEnv(g, table, k);
      for n := 0 to |ps|
        invariant Inv(us, table, busy) && Busy(busy, k) && Progress(table, {})
        invariant Or3(tri, AnyPrompt(ps[n..], env)) == AnyPrompt(ps, env)
      {
        var v := CalcOpt(ps[n], YES, k, us, table, busy);
        tri := Or3(tri, v);
        assert ps[n..][1..] == ps[n + 1..];
      }
    }

    /** sym_get_default_prop: the first default whose condition is not n, and that condition. */
    method CalcDefault(ds: seq<Default>, ghost k: nat, ghost us: seq<User>, ghost table: seq<State>,
                       ghost busy: set<nat>)
        returns (p: Option<Default>, cond: Tristate)
      requires Inv(us, table, busy) && Busy(busy, k)
      requires forall x | 0 <= x < |ds| :: OptBelow(g, ds[x].cond, k)
      modifies cells
      ensures Inv(us, table, busy) && Busy(busy, k) && Progress(table, {})
      ensures p == FirstDefault(ds, TableEnv(g, table, k))
      ensures p.Some? ==> cond == ValueOpt(p.value.cond, TableEnv(g, table, k))
      decreases k, 3
    {
      ghost var env := TableEnv(g, table, k);
      cond := NO;
      for n := 0 to |ds|
        invariant Inv(us, table, busy) && Busy(busy, k) && Progress(table, {})
        invariant FirstDefault(ds[n..], env) == FirstDefault(ds, env)
      {
        cond := CalcOpt(ds[n].cond, YES, k, us, table, busy);
        if cond != NO { return Some(ds[n]), cond; }
        assert ds[n..][1..] == ds[n + 1..];
      }
      p := None;
    }

    /** sym_get_range_prop. */
    method CalcRange(rs: seq<Range>, ghost k: nat, ghost us: seq<User>, ghost table: seq<State>, ghost busy: set<nat>)
        returns (p: Option<Range>)
      requires Inv(us, table, busy) && Busy(busy, k)
      requires forall x | 0 <= x < |rs| :: OptBelow(g, rs[x].cond, k)
      modifies cells
      ensures Inv(us, table, busy) && Busy(busy, k) && Progress(table, {})
      ensures p == FirstRange(rs, TableEnv(g, table, k))
      decreases k, 3
    {
      ghost var env := TableEnv(g, table, k);
      for n := 0 to |rs|
        invariant Inv(us, table, busy) && Busy(busy, k) && Progress(table, {})
        invariant FirstRange(rs[n..], env) == FirstRange(rs, env)
      {
        var cond := CalcOpt(rs[n].cond, YES, k, us, table, busy);
        if cond != NO { return Some(rs[n]); }
        assert rs[n..][1..] == rs[n + 1..];
      }
      p := None;
    }

    /** sym_get_range_val. */
    method CalcRangeVal(s: Symbol, base: nat, ghost k: nat, ghost us: seq<User>, ghost table: seq<State>,
                        ghost busy: set<nat>)
        returns (v: int)
      requires Inv(us, table, busy) && Busy(busy, k) && SymBelow(g, s, k)
      modifies cells
      ensures Inv(us, table, busy) && Busy(busy, k) && Progress(table, {})
      ensures v == RangeVal(s, base, TableEnv(g, table, k))
      decreases k, 2
    {
      var _ := CalcSymbol(s, k, us, table, busy);
      v := StrToLL(CurrVal(s), BaseOf(s.typ, base));
    }

    /** sym_calc_value. */
    method CalcValue(i: nat, ghost us: seq<User>, ghost table: seq<State>, ghost busy: set<nat>)
      requires Inv(us, table, busy) && i < |cells| && Busy(busy, g.rank[i] + 1)
      modifies cells
      ensures Inv(us, table, busy) && Busy(busy, g.rank[i] + 1) && Progress(table, {}) && cells[i].valid
      decreases g.rank[i], 8
    {
      if cells[i].valid { return; }
      MarkValid(i, us, table, busy);
      assert Solves(g, us, table, i);
      if Untyped(cells[i].decl.sym) {
        CalcUntyped(i, us, table, busy + {i});
      } else {
        CalcTyped(i, us, table, busy + {i});
      }
      assert SameValues(cells[i].Now(), table[i]);
    }

    /** Sets SYMBOL_VALID, which also marks the symbol as being evaluated. */
    method MarkValid(i: nat, ghost us: seq<User>, ghost table: seq<State>, ghost busy: set<nat>)
      requires Inv(us, table, busy) && i < |cells| && Busy(busy, g.rank[i] + 1) && !cells[i].valid
      modifies cells[i]
      ensures Inv(us, table, busy + {i}) && Busy(busy + {i}, g.rank[i]) && cells[i].valid
      ensures forall j | 0 <= j < |cells| ::
        cells[j].Now() == old(cells[j].Now()) && (j != i ==> cells[j].valid == old(cells[j].valid))
    {
      var c := cells[i];
      assert forall j | 0 <= j < |cells| && j != i :: cells[j] != c;
      c.valid := true;
    }

    /** Its part for symbols that have no type: they stand for their own name. */
    method CalcUntyped(i: nat, ghost us: seq<User>, ghost table: seq<State>, ghost busy: set<nat>)
      requires Inv(us, table, busy) && i < |cells| && i in busy && Busy(busy, g.rank[i]) && Untyped(g.decls[i].sym)
      modifies cells[i]
      ensures Inv(us, table, busy) && Busy(busy, g.rank[i]) && cells[i].valid
      ensures cells[i].Now() == Eval(g.decls[i], us[i], TableEnv(g, table, g.rank[i]))
      ensures forall j | 0 <= j < |cells| && j != i ::
        cells[j].valid == old(cells[j].valid) && cells[j].Now() == old(cells[j].Now())
    {
      var c := cells[i];
      assert forall j | 0 <= j < |cells| && j != i :: cells[j] != c;
      c.val, c.tri := c.decl.sym.name, NO;
    }

    /** Its part for symbols that have a type. */
    method CalcTyped(i: nat, ghost us: seq<User>, ghost table: seq<State>, ghost busy: set<nat>)
      requires Inv(us, table, busy) && i < |cells| && i in busy && Busy(busy, g.rank[i]) && !Untyped(g.decls[i].sym)
      modifies cells
      ensures Inv(us, table, busy) && Busy(busy, g.rank[i]) && Progress(table, {i}) && cells[i].valid
      ensures cells[i].Now() == Eval(g.decls[i], us[i], TableEnv(g, table, g.rank[i]))
      decreases g.rank[i], 7
    {
      var c := cells[i];
      CalcVisibility(i, us, table, busy);
      SetNow(i, c.Now().(write := c.visible != NO), us, table, busy, g.rank[i]);
      if c.decl.sym.IsTri() {
        CalcTri(i, us, table, busy);
      } else {
        CalcText(i, us, table, busy);
      }
      if c.decl.isAuto { SetNow(i, c.Now().(write := false), us, table, busy, g.rank[i]); }
    }

    /** sym_calc_visibility. */
    method CalcVisibility(i: nat, ghost us: seq<User>, ghost table: seq<State>, ghost busy: set<nat>)
      requires Inv(us, table, busy) && i < |cells| && i in busy && Busy(busy, g.rank[i]) && !Untyped(g.decls[i].sym)
      modifies cells
      ensures Inv(us, table, busy) && Busy(busy, g.rank[i]) && Progress(table, {i}) && cells[i].valid
      ensures var env, d := TableEnv(g, table, g.rank[i]), g.decls[i];
        cells[i].Now() == old(cells[i].Now()).(visible := Visible(d, env), dirDep := DirDep(d, env),
          revDep := RevDep(d, env), implied := Implied(d, env))
      decreases g.rank[i], 5
    {
      UpdateVisible(i, us, table, busy);
      UpdateDirDep(i, us, table, busy);
      UpdateRevDep(i, us, table, busy);
      UpdateImplied(i, us, table, busy);
    }

    method UpdateVisible(i: nat, ghost us: seq<User>, ghost table: seq<State>, ghost busy: set<nat>)
      requires Inv(us, table, busy) && i < |cells| && i in busy && Busy(busy, g.rank[i]) && !Untyped(g.decls[i].sym)
      modifies cells
      ensures Inv(us, table, busy) && Busy(busy, g.rank[i]) && Progress(table, {i}) && cells[i].valid
      ensures cells[i].Now() == old(cells[i].Now()).(visible := Visible(g.decls[i], TableEnv(g, table, g.rank[i])))
      decreases g.rank[i], 4
    {
      var c := cells[i];
      var d := c.decl;
      var tri := CalcPrompts(d.prompts, g.rank[i], us, table, busy);
      SetNow(i, c.Now().(visible := if tri == MOD && (d.sym.typ != S_TRISTATE || !modules) then YES else tri), us,
        table, busy, g.rank[i]);
    }

    method UpdateDirDep(i: nat, ghost us: seq<User>, ghost table: seq<State>, ghost busy: set<nat>)
      requires Inv(us, table, busy) && i < |cells| && i in busy && Busy(busy, g.rank[i]) && !Untyped(g.decls[i].sym)
      modifies cells
      ensures Inv(us, table, busy) && Busy(busy, g.rank[i]) && Progress(table, {i}) && cells[i].valid
      ensures cells[i].Now() == old(cells[i].Now()).(dirDep := DirDep(g.decls[i], TableEnv(g, table, g.rank[i])))
      decreases g.rank[i], 4
    {
      var c := cells[i];
      var d := c.decl;
      var tri := CalcOpt(d.dirDep, YES, g.rank[i], us, table, busy);
      SetNow(i, c.Now().(dirDep := if tri == MOD && BoolType(d.sym, modules) then YES else tri), us, table, busy,
        g.rank[i]);
    }

    method UpdateRevDep(i: nat, ghost us: seq<User>, ghost table: seq<State>, ghost busy: set<nat>)
      requires Inv(us, table, busy) && i < |cells| && i in busy && Busy(busy, g.rank[i]) && !Untyped(g.decls[i].sym)
      modifies cells
      ensures Inv(us, table, busy) && Busy(busy, g.rank[i]) && Progress(table, {i}) && cells[i].valid
      ensures cells[i].Now() == old(cells[i].Now()).(revDep := RevDep(g.decls[i], TableEnv(g, table, g.rank[i])))
      decreases g.rank[i], 4
    {
      var c := cells[i];
      var d := c.decl;
      var tri := CalcOpt(d.revDep, NO, g.rank[i], us, table, busy);
      SetNow(i, c.Now().(revDep := if tri == MOD && BoolType(d.sym, modules) then YES else tri), us, table, busy,
        g.rank[i]);
    }

    method UpdateImplied(i: nat, ghost us: seq<User>, ghost table: seq<State>, ghost busy: set<nat>)
      requires Inv(us, table, busy) && i < |cells| && i in busy && Busy(busy, g.rank[i]) && !Untyped(g.decls[i].sym)
      requires cells[i].dirDep == DirDep(g.decls[i], TableEnv(g, table, g.rank[i]))
      modifies cells
      ensures Inv(us, table, busy) && Busy(busy, g.rank[i]) && Progress(table, {i}) && cells[i].valid
      ensures cells[i].Now() == old(cells[i].Now()).(implied := Implied(g.decls[i], TableEnv(g, table, g.rank[i])))
      decreases g.rank[i], 4
    {
      var c := cells[i];
      var d := c.decl;
      var tri := NO;
      if c.dirDep != NO { tri := CalcOpt(d.implied, NO, g.rank[i], us, table, busy); }
      SetNow(i, c.Now().(implied := if tri == MOD && BoolType(d.sym, modules) then YES else tri), us, table, busy,
        g.rank[i]);
    }

    /** Stores results in the symbol i, which is being evaluated. */
    method SetNow(i: nat, now: State, ghost us: seq<User>, ghost table: seq<State>, ghost busy: set<nat>, ghost k: nat)
      requires Inv(us, table, busy) && i < |cells| && i in busy && Busy(busy, k) && !Untyped(g.decls[i].sym)
      modifies cells[i]
      ensures Inv(us, table, busy) && Busy(busy, k) && cells[i].valid && cells[i].Now() == now
      ensures forall j | 0 <= j < |cells| && j != i ::
        cells[j].valid == old(cells[j].valid) && cells[j].Now() == old(cells[j].Now())
    {
      var c := cells[i];
      assert forall j | 0 <= j < |cells| && j != i :: cells[j] != c;
      c.Assign(now);
      assert forall j | 0 <= j < |cells| && j != i :: cells[j].UserValue() == old(cells[j].UserValue());
      assert forall j | 0 <= j < |cells| && j != i ::
        cells[j].Now() == old(cells[j].Now()) && cells[j].valid == old(cells[j].valid);
    }

    /** What sym_calc_visibility has left in the symbol i. */
    ghost predicate Prepared(i: nat, env: Env)
      requires i < |cells| == |g.decls|
      reads cells
    {
      var c, d := cells[i], g.decls[i];
      && c.visible == Visible(d, env) && c.dirDep == DirDep(d, env)
      && c.revDep == RevDep(d, env) && c.implied == Implied(d, env)
    }

    /** The middle of sym_calc_value for a bool or tristate. */
    method CalcTri(i: nat, ghost us: seq<User>, ghost table: seq<State>, ghost busy: set<nat>)
      requires Inv(us, table, busy) && i < |cells| && i in busy && Busy(busy, g.rank[i]) && !Untyped(g.decls[i].sym)
      requires Prepared(i, TableEnv(g, table, g.rank[i])) && cells[i].write == (cells[i].visible != NO)
      modifies cells
      ensures Inv(us, table, busy) && Busy(busy, g.rank[i]) && Progress(table, {i}) && cells[i].valid
      ensures var env, d := TableEnv(g, table, g.rank[i]), g.decls[i];
        cells[i].Now() == old(cells[i].Now()).(val := "n", tri := TriValue(d, us[i], env),
          write := Visible(d, env) != NO || RevDep(d, env) != NO || TriDefault(d, env) != NO || Implied(d, env) != NO)
      decreases g.rank[i], 5
    {
      var c := cells[i];
      SetNow(i, c.Now().(val := "n", tri := NO), us, table, busy, g.rank[i]);
      var t := NO;
      if c.visible != NO && c.hasUser {
        t := And3(c.userTri, c.visible);
      } else {
        t := CalcUnset(i, us, table, busy);
      }
      t := Or3(t, c.revDep);
      if t == MOD && (BoolType(c.decl.sym, modules) || c.implied == YES) { t := YES; }
      SetNow(i, c.Now().(tri := t), us, table, busy, g.rank[i]);
    }

    /** Its branch for a symbol without a usable user value: defaults and implies. */
    method CalcUnset(i: nat, ghost us: seq<User>, ghost table: seq<State>, ghost busy: set<nat>) returns (t: Tristate)
      requires Inv(us, table, busy) && i < |cells| && i in busy && Busy(busy, g.rank[i]) && !Untyped(g.decls[i].sym)
      requires Prepared(i, TableEnv(g, table, g.rank[i]))
      modifies cells
      ensures Inv(us, table, busy) && Busy(busy, g.rank[i]) && Progress(table, {i}) && cells[i].valid
      ensures var env, d := TableEnv(g, table, g.rank[i]), g.decls[i];
        && t == Or3(TriDefault(d, env), Implied(d, env))
        && cells[i].Now() == old(cells[i].Now()).(write := old(cells[i].write) || RevDep(d, env) != NO || t != NO)
      decreases g.rank[i], 5, 0
    {
      var c := cells[i];
      if c.revDep != NO { SetNow(i, c.Now().(write := true), us, table, busy, g.rank[i]); }
      t := CalcTriDefault(i, us, table, busy);
      t := Or3(t, c.implied);
      if t != NO { SetNow(i, c.Now().(write := true), us, table, busy, g.rank[i]); }
    }

    method CalcTriDefault(i: nat, ghost us: seq<User>, ghost table: seq<State>, ghost busy: set<nat>)
        returns (t: Tristate)
      requires Inv(us, table, busy) && i < |cells| && Busy(busy, g.rank[i])
      modifies cells
      ensures Inv(us, table, busy) && Busy(busy, g.rank[i]) && Progress(table, {})
      ensures t == TriDefault(g.decls[i], TableEnv(g, table, g.rank[i]))
      decreases g.rank[i], 4
    {
      var p, cond := CalcDefault(cells[i].decl.defaults, g.rank[i], us, table, busy);
      t := NO;
      if p.Some? {
        t := CalcExpr(p.value.value, g.rank[i], us, table, busy);
        t := And3(t, cond);
      }
    }

    /** The middle of sym_calc_value for a string, int or hex symbol. */
    method CalcText(i: nat, ghost us: seq<User>, ghost table: seq<State>, ghost busy: set<nat>)
      requires Inv(us, table, busy) && i < |cells| && i in busy && Busy(busy, g.rank[i]) && !Untyped(g.decls[i].sym)
      requires Prepared(i, TableEnv(g, table, g.rank[i])) && cells[i].write == (cells[i].visible != NO)
      modifies cells
      ensures Inv(us, table, busy) && Busy(busy, g.rank[i]) && Progress(table, {i}) && cells[i].valid
      ensures var env, d := TableEnv(g, table, g.rank[i]), g.decls[i];
        cells[i].Now() == old(cells[i].Now()).(val := TextValue(d, us[i], env), tri := NO,
          write := Visible(d, env) != NO || TextDefault(d, env).Some?)
      decreases g.rank[i], 6
    {
      var c := cells[i];
      SetNow(i, c.Now().(val := "", tri := NO), us, table, busy, g.rank[i]);
      if c.visible != NO && c.hasUser {
        SetNow(i, c.Now().(val := c.userVal), us, table, busy, g.rank[i]);
      } else {
        var dv := CalcTextDefault(i, us, table, busy);
        if dv.Some? {
          SetNow(i, c.Now().(val := dv.value, write := true), us, table, busy, g.rank[i]);
        }
      }
      ValidateRange(i, us, table, busy);
    }

    method CalcTextDefault(i: nat, ghost us: seq<User>, ghost table: seq<State>, ghost busy: set<nat>)
        returns (v: Option<string>)
      requires Inv(us, table, busy) && i < |cells| && Busy(busy, g.rank[i])
      modifies cells
      ensures Inv(us, table, busy) && Busy(busy, g.rank[i]) && Progress(table, {})
      ensures v == TextDefault(g.decls[i], TableEnv(g, table, g.rank[i]))
      decreases g.rank[i], 4
    {
      var p, _ := CalcDefault(cells[i].decl.defaults, g.rank[i], us, table, busy);
      v := None;
      if p.Some? && p.value.value.Sym? {
        var ds := p.value.value.s;
        var _ := CalcSymbol(ds, g.rank[i], us, table, busy);
        v := Some(CurrVal(ds));
      }
    }

    /** The comparisons of sym_validate_range: the bound that v violates. */
    method Violated(r: Range, v: int, base: nat, ghost k: nat, ghost us: seq<User>, ghost table: seq<State>,
                    ghost busy: set<nat>)
        returns (bound: Option<int>)
      requires Inv(us, table, busy) && Busy(busy, k) && SymBelow(g, r.lo, k) && SymBelow(g, r.hi, k)
      modifies cells
      ensures Inv(us, table, busy) && Busy(busy, k) && Progress(table, {})
      ensures bound == Bound(r, v, base, TableEnv(g, table, k))
      decreases k, 3
    {
      var v2 := CalcRangeVal(r.lo, base, k, us, table, busy);
      if v >= v2 {
        v2 := CalcRangeVal(r.hi, base, k, us, table, busy);
        if v <= v2 { return None; }
      }
      bound := Some(v2);
    }

    /** The bound of the active range that the present text of i violates. */
    method ViolatedBound(i: nat, base: nat, ghost us: seq<User>, ghost table: seq<State>, ghost busy: set<nat>)
        returns (bound: Option<int>)
      requires Inv(us, table, busy) && i < |cells| && i in busy && Busy(busy, g.rank[i]) && !Untyped(g.decls[i].sym)
      modifies cells
      ensures Inv(us, table, busy) && Busy(busy, g.rank[i]) && Progress(table, {})
      ensures var env, d := TableEnv(g, table, g.rank[i]), g.decls[i];
        var r := FirstRange(d.ranges, env);
        bound == if r.None? then None else Bound(r.value, StrToLL(old(cells[i].val), base), base, env)
      decreases g.rank[i], 4
    {
      var c := cells[i];
      var p := CalcRange(c.decl.ranges, g.rank[i], us, table, busy);
      if p.None? { return None; }
      bound := Violated(p.value, StrToLL(c.val, base), base, g.rank[i], us, table, busy);
    }

    /** sym_validate_range. */
    method ValidateRange(i: nat, ghost us: seq<User>, ghost table: seq<State>, ghost busy: set<nat>)
      requires Inv(us, table, busy) && i < |cells| && i in busy && Busy(busy, g.rank[i]) && !Untyped(g.decls[i].sym)
      modifies cells
      ensures Inv(us, table, busy) && Busy(busy, g.rank[i]) && Progress(table, {i}) && cells[i].valid
      ensures var env, d := TableEnv(g, table, g.rank[i]), g.decls[i];
        cells[i].Now() == old(cells[i].Now()).(val :=
          Clamp(d.sym.typ, old(cells[i].val), FirstRange(d.ranges, env), env))
      decreases g.rank[i], 5
    {
      var c := cells[i];
      var t := c.decl.sym.typ;
      if t != S_INT && t != S_HEX { return; }
      var bound := ViolatedBound(i, BaseOf(t, 0), us, table, busy);
      if bound.Some? {
        SetNow(i, c.Now().(val := PrintNumber(t, bound.value)), us, table, busy, g.rank[i]);
      }
    }

    /** sym_clear_all_valid. */
    method ClearAllValid()
      requires Wired()
      modifies cells
      ensures Wired() && forall i | 0 <= i < |cells| :: !cells[i].valid
      ensures forall i | 0 <= i < |cells| ::
        cells[i].Now() == old(cells[i].Now()) && cells[i].UserValue() == old(cells[i].UserValue())
    {
      for n := 0 to |cells|
        invariant Wired() && forall i | 0 <= i < n :: !cells[i].valid
        invariant forall i | 0 <= i < |cells| ::
          cells[i].Now() == old(cells[i].Now()) && cells[i].UserValue() == old(cells[i].UserValue())
      {
        cells[n].valid := false;
      }
    }

    /** sym_tristate_within_range. */
    predicate WithinRangeNow(i: nat, val: Tristate)
      requires i < |cells|
      reads cells[i]
    {
      var c, s := cells[i], cells[i].decl.sym;
      if c.visible == NO then false
      else if !s.IsTri() then false
      else if BoolType(s, modules) && val == MOD then false
      else if c.visible <= c.revDep then false
      else if c.implied == YES && val == MOD then false
      else val >= c.revDep && val <= c.visible
    }

    /**
     sym_set_tristate_value. It looks at the value and the visibility that the
     symbol has now, calculated or not. On a symbol whose value has been
     calculated it leaves the caches coherent exactly if it has reset them or
     KeepsValue held.
     */
    method SetTristate(i: nat, val: Tristate) returns (ok: bool)
      requires Wired() && Coherent() && i < |cells| && g.decls[i].sym.IsTri()
      modifies cells
      ensures Wired()
      ensures ok == (old(cells[i].tri) == val || old(WithinRangeNow(i, val)))
      ensures old(cells[i].valid) ==> ok == Accepts(g, old(Users()), i, val)
      ensures Users() == if ok then old(Users())[i := User(true, val, old(cells[i].userVal))] else old(Users())
      ensures old(cells[i].valid) ==>
        (Coherent() <==> (ok && old(cells[i].tri) == val ==> KeepsValue(old(cells[i].Now()), val)))
      ensures !ok || old(cells[i].tri) != val ==> Coherent()
    {
      ghost var us := Users();
      var c := cells[i];
      var oldval := c.tri;
      if c.valid { AcceptsNow(i, val); }
      if oldval != val && !WithinRangeNow(i, val) { return false; }
      RecordUser(i, val);
      ghost var us2 := us[i := User(true, val, us[i].val)];
      assert Users() == us2;
      if oldval != val {
        ClearAllValid();
        assert Users() == us2;
      } else if c.valid {
        SameValueSet(g, us, i, val, us[i].val);
      }
      ok := true;
    }

    lemma AcceptsNow(i: nat, val: Tristate)
      requires Wired() && Coherent() && i < |cells| && cells[i].valid && g.decls[i].sym.IsTri()
      ensures SameValues(cells[i].Now(), Spec(g, Users(), i))
      ensures (cells[i].tri == val || WithinRangeNow(i, val)) == Accepts(g, Users(), i, val)
    {
    }

    method RecordUser(i: nat, val: Tristate)
      requires Wired() && i < |cells|
      modifies cells[i]
      ensures Wired()
      ensures cells[i].UserValue() == User(true, val, old(cells[i].userVal))
      ensures forall j | 0 <= j < |cells| ::
        cells[j].Now() == old(cells[j].Now()) && cells[j].valid == old(cells[j].valid)
      ensures forall j | 0 <= j < |cells| && j != i :: cells[j].UserValue() == old(cells[j].UserValue())
    {
      cells[i].hasUser, cells[i].userTri := true, val;
    }

    /** A request, as the front ends make it: they look at the value first. */
    method Serve(r: Request) returns (v: string)
      requires Wired() && Coherent() && Servable(g, r) && SafeRequest(g, Users(), r)
      modifies cells
      ensures Wired() && Coherent() && Users() == After(g, old(Users()), r)
      ensures v == TextRead(g, old(Users()), r.i)
    {
      ghost var us := Users();
      CoherentIsInv();
      CalcValue(r.i, us, SpecTable(g, us), {});
      var c := cells[r.i];
      v := if c.decl.sym.IsTri() then TriText(c.tri, modules) else c.val;
      assert SameValues(c.Now(), SpecTable(g, us)[r.i]);
      assert Users() == us;
      CoherentIsInv();
      if r.Set? {
        var _ := SetTristate(r.i, r.val);
      }
    }

    /**
     The memoised evaluator refines the definition over every safe run, and
     without modules all are safe: whatever is read and set, in any order, every
     text read is the one that the cacheless machine computes from the user
     values recorded by then, and every symbol flagged valid at the end holds
     the value they define.
     */
    method Run(rs: seq<Request>) returns (vs: seq<string>)
      requires Wired() && Coherent() && forall n | 0 <= n < |rs| :: rs[n].i < |cells| && Servable(g, rs[n])
      requires !modules || SafeRun(g, Users(), rs)
      modifies cells
      ensures Wired() && Coherent() && Users() == AfterAll(g, old(Users()), rs)
      ensures vs == ReadAll(g, old(Users()), rs)
    {
      if !modules { SafeWithoutModules(g, Users(), rs); }
      vs := [];
      assert rs[..0] == [];
      for n := 0 to |rs|
        invariant Wired() && Coherent() && Users() == AfterAll(g, old(Users()), rs[..n])
        invariant vs == ReadAll(g, old(Users()), rs[..n])
      {
        assert SafeRequest(g, AfterAll(g, old(Users()), rs[..n]), rs[n]);
        var v := Serve(rs[n]);
        vs := vs + [v];
        assert rs[..n + 1][..n] == rs[..n];
      }
      assert rs[..|rs|] == rs;
    }
  }
}

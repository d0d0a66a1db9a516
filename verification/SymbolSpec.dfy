/**
 The value of a configuration symbol as a plain recursive definition: what
 sym_calc_value stands for, without its caches. Symbols depend on symbols of
 lower rank only (no dependency cycle); choices are modelled in Choices.
 */
module SymbolSpec {
  import opened Tristates
  import opened Numbers
  import opened Exprs

  /** A P_DEFAULT property: its condition and its value. */
  datatype Default = Default(cond: Option<Expr>, value: Expr)

  /** A P_RANGE property. */
  datatype Range = Range(cond: Option<Expr>, lo: Symbol, hi: Symbol)

  /** The parts of struct symbol that evaluation reads and never changes. */
  datatype Decl = Decl(
    sym: Symbol,
    prompts: seq<Option<Expr>>,
    defaults: seq<Default>,
    ranges: seq<Range>,
    dirDep: Option<Expr>,
    revDep: Option<Expr>,
    implied: Option<Expr>,
    isAuto: bool)

  /** def[S_DEF_USER] with the flag SYMBOL_DEF_USER. */
  datatype User = User(isSet: bool, tri: Tristate, val: string)

  /** What one evaluation leaves in struct symbol. */
  datatype State = State(
    visible: Tristate,
    dirDep: Tristate,
    revDep: Tristate,
    implied: Tristate,
    val: string,
    tri: Tristate,
    write: bool)

  /** All symbols, the setting of MODULES, and a rank for every symbol. */
  datatype Graph = Graph(decls: seq<Decl>, modules: bool, rank: seq<nat>)

  /** s is y, m, n or a declared symbol of rank below k. */
  predicate SymBelow(g: Graph, s: Symbol, k: nat)
    requires |g.rank| == |g.decls|
  {
    IsTriConst(s) || (s.id < |g.decls| && g.decls[s.id].sym == s && g.rank[s.id] < k)
  }

  predicate ExprBelow(g: Graph, e: Expr, k: nat)
    requires |g.rank| == |g.decls|
  {
    match e
    case Sym(s) => SymBelow(g, s, k)
    case Cmp(_, a, b) => SymBelow(g, a, k) && SymBelow(g, b, k)
    case Not(c) => ExprBelow(g, c, k)
    case Bin(_, l, r) => ExprBelow(g, l, k) && ExprBelow(g, r, k)
  }

  predicate OptBelow(g: Graph, e: Option<Expr>, k: nat)
    requires |g.rank| == |g.decls|
  {
    e.Some? ==> ExprBelow(g, e.value, k)
  }

  predicate DeclBelow(g: Graph, d: Decl, k: nat)
    requires |g.rank| == |g.decls|
  {
    && (forall i | 0 <= i < |d.prompts| :: OptBelow(g, d.prompts[i], k))
    && (forall i | 0 <= i < |d.defaults| :: OptBelow(g, d.defaults[i].cond, k) && ExprBelow(g, d.defaults[i].value, k))
    && (forall i | 0 <= i < |d.ranges| ::
          OptBelow(g, d.ranges[i].cond, k) && SymBelow(g, d.ranges[i].lo, k) && SymBelow(g, d.ranges[i].hi, k))
    && OptBelow(g, d.dirDep, k) && OptBelow(g, d.revDep, k) && OptBelow(g, d.implied, k)
  }

  /** No dependency cycle, select, imply and range edges included. */
  predicate Acyclic(g: Graph) {
    && |g.rank| == |g.decls|
    && var below := forall i | 0 <= i < |g.decls| :: g.decls[i].sym.id == i && DeclBelow(g, g.decls[i], g.rank[i]);
    below
  }

  /** sym_get_type(sym) == S_BOOLEAN. */
  predicate BoolType(s: Symbol, modules: bool) {
    s.typ == S_BOOLEAN || (s.typ == S_TRISTATE && !modules)
  }

  /** m becomes y where the symbol cannot be m. */
  function Promote(t: Tristate, promote: bool): Tristate {
    if t == MOD && promote then YES else t
  }

  /** A missing condition of rev_dep or implied means n. */
  function ValueOrNo(e: Option<Expr>, env: Env): Tristate {
    if e.None? then NO else Value(e.value, env)
  }

  function AnyPrompt(prompts: seq<Option<Expr>>, env: Env): Tristate {
    if prompts == [] then NO else Or3(ValueOpt(prompts[0], env), AnyPrompt(prompts[1..], env))
  }

  /** sym_get_default_prop: the first default whose condition is not n. */
  function FirstDefault(ds: seq<Default>, env: Env): (r: Option<Default>)
    ensures r.Some? ==> r.value in ds && ValueOpt(r.value.cond, env) != NO
  {
    if ds == [] then None
    else if ValueOpt(ds[0].cond, env) != NO then Some(ds[0])
    else FirstDefault(ds[1..], env)
  }

  /** sym_get_range_prop. */
  function FirstRange(rs: seq<Range>, env: Env): (r: Option<Range>)
    ensures r.Some? ==> r.value in rs
  {
    if rs == [] then None
    else if ValueOpt(rs[0].cond, env) != NO then Some(rs[0])
    else FirstRange(rs[1..], env)
  }

  /** symbol.curr.val; bools and tristates keep "n" there whatever their value. */
  function ValOf(s: Symbol, env: Env): string {
    match s.typ
    case S_BOOLEAN => "n"
    case S_TRISTATE => "n"
    case S_UNKNOWN => s.name
    case S_OTHER => s.name
    case _ => env.text(s)
  }

  function BaseOf(t: SymType, base: nat): nat {
    if t == S_INT then 10 else if t == S_HEX then 16 else base
  }

  /** sym_get_range_val. */
  function RangeVal(s: Symbol, base: nat, env: Env): int {
    StrToLL(ValOf(s, env), BaseOf(s.typ, base))
  }

  /** Digits of a number, hexadecimal or decimal, most significant first, lower case. */
  function PrintDigits(n: nat, hex: bool): string {
    if hex then (if n < 16 then [DigitChar(n)] else PrintDigits(n / 16, hex) + [DigitChar(n % 16)])
    else (if n < 10 then [DigitChar(n)] else PrintDigits(n / 10, hex) + [DigitChar(n % 10)])
  }

  function DigitChar(d: nat): char
    requires d < 16
  {
    if d < 10 then '0' + d as char else 'a' + (d - 10) as char
  }

  /** sprintf "%lld", and "0x%llx", of a long long. */
  function PrintNumber(t: SymType, v: int): string {
    if t != S_INT then "0x" + PrintDigits(v % (ULLONG_MAX + 1), true)
    else if v < 0 then "-" + PrintDigits(-v, false)
    else PrintDigits(v, false)
  }

  /** The bound of the range that the number v violates; the lower one is compared first. */
  function Bound(r: Range, v: int, base: nat, env: Env): Option<int> {
    var lo, hi := RangeVal(r.lo, base, env), RangeVal(r.hi, base, env);
    if v < lo then Some(lo) else if v > hi then Some(hi) else None
  }

  /** sym_validate_range, given the active range. */
  function Clamp(t: SymType, val: string, r: Option<Range>, env: Env): string {
    if (t != S_INT && t != S_HEX) || r.None? then val
    else
      var base := BaseOf(t, 0);
      match Bound(r.value, StrToLL(val, base), base, env)
      case None => val
      case Some(limit) => PrintNumber(t, limit)
  }

  /** The first half of sym_calc_value: sym_calc_visibility. */
  function Visible(d: Decl, env: Env): Tristate {
    Promote(AnyPrompt(d.prompts, env), d.sym.typ != S_TRISTATE || !env.modules)
  }

  function DirDep(d: Decl, env: Env): Tristate {
    Promote(ValueOpt(d.dirDep, env), BoolType(d.sym, env.modules))
  }

  function RevDep(d: Decl, env: Env): Tristate {
    Promote(ValueOrNo(d.revDep, env), BoolType(d.sym, env.modules))
  }

  function Implied(d: Decl, env: Env): Tristate {
    Promote(if DirDep(d, env) != NO then ValueOrNo(d.implied, env) else NO, BoolType(d.sym, env.modules))
  }

  /** The default of a bool or tristate, limited by its condition; n if there is none. */
  function TriDefault(d: Decl, env: Env): Tristate {
    var p := FirstDefault(d.defaults, env);
    if p.None? then NO else And3(Value(p.value.value, env), ValueOpt(p.value.cond, env))
  }

  /** The default of a string, int or hex symbol: only a single symbol counts. */
  function TextDefault(d: Decl, env: Env): Option<string> {
    var p := FirstDefault(d.defaults, env);
    if p.Some? && p.value.value.Sym? then Some(ValOf(p.value.value.s, env)) else None
  }

  /** The value of a bool or tristate before promotion. */
  function TriBase(d: Decl, user: User, env: Env): Tristate {
    Or3(if Visible(d, env) != NO && user.isSet then And3(user.tri, Visible(d, env))
        else Or3(TriDefault(d, env), Implied(d, env)),
      RevDep(d, env))
  }

  function TriValue(d: Decl, user: User, env: Env): Tristate {
    Promote(TriBase(d, user, env), BoolType(d.sym, env.modules) || Implied(d, env) == YES)
  }

  /** The value of a string, int or hex symbol before the range check. */
  function TextBase(d: Decl, user: User, env: Env): string {
    if Visible(d, env) != NO && user.isSet then user.val
    else TextDefault(d, env).GetOr("")
  }

  function TextValue(d: Decl, user: User, env: Env): string {
    Clamp(d.sym.typ, TextBase(d, user, env), FirstRange(d.ranges, env), env)
  }

  /** The flag SYMBOL_WRITE. */
  predicate Written(d: Decl, user: User, env: Env) {
    !d.isAuto &&
    (Visible(d, env) != NO ||
     if d.sym.IsTri() then RevDep(d, env) != NO || TriDefault(d, env) != NO || Implied(d, env) != NO
     else TextDefault(d, env).Some?)
  }

  /** sym_calc_value, given the values of the symbols it depends on. */
  function Eval(d: Decl, user: User, env: Env): State {
    if d.sym.typ == S_UNKNOWN || d.sym.typ == S_OTHER then State(NO, NO, NO, NO, d.sym.name, NO, false)
    else State(
      Visible(d, env), DirDep(d, env), RevDep(d, env), Implied(d, env),
      if d.sym.IsTri() then "n" else TextValue(d, user, env),
      if d.sym.IsTri() then TriValue(d, user, env) else NO,
      Written(d, user, env))
  }

  /** The value of symbol i for the given user values. */
  ghost function Spec(g: Graph, users: seq<User>, i: nat): State
    requires |g.rank| == |g.decls| == |users| && i < |users|
    decreases g.rank[i], 1
  {
    Eval(g.decls[i], users[i], EnvBelow(g, users, g.rank[i]))
  }

  /** The values of the symbols of rank below k. */
  ghost function EnvBelow(g: Graph, users: seq<User>, k: nat): Env
    requires |g.rank| == |g.decls| == |users|
    decreases k, 0
  {
    Env((s: Symbol) => if Declared(g, s, k) then Spec(g, users, s.id).tri else NO,
        (s: Symbol) => if Declared(g, s, k) then Spec(g, users, s.id).val else "",
        g.modules)
  }

  /** The values of the symbols of rank below k, read off a table. */
  function TableEnv(g: Graph, table: seq<State>, k: nat): Env
    requires |g.rank| == |g.decls| == |table|
  {
    Env((s: Symbol) => if Declared(g, s, k) then table[s.id].tri else NO,
        (s: Symbol) => if Declared(g, s, k) then table[s.id].val else "",
        g.modules)
  }

  /** Line i of the table is what sym_calc_value computes from the lines of lower rank. */
  predicate Solves(g: Graph, users: seq<User>, table: seq<State>, i: nat)
    requires |g.rank| == |g.decls| == |users| == |table| && i < |table|
  {
    table[i] == Eval(g.decls[i], users[i], TableEnv(g, table, g.rank[i]))
  }

  predicate Solution(g: Graph, users: seq<User>, table: seq<State>) {
    && |g.rank| == |g.decls| == |users| == |table|
    && var solved := forall i {:trigger Solves(g, users, table, i)} | 0 <= i < |table| :: Solves(g, users, table, i);
    solved
  }

  /** Reading a symbol through the assignment is reading its line of the table. */
  lemma SolvedLine(g: Graph, users: seq<User>, table: seq<State>, s: Symbol, k: nat)
    requires Solution(g, users, table) && Declared(g, s, k) && !IsTriConst(s)
    ensures TriOf(s, TableEnv(g, table, k)) == table[s.id].tri
    ensures ValOf(s, TableEnv(g, table, k)) == table[s.id].val
    ensures TextOf(s, TableEnv(g, table, k)) == if s.IsTri() then TriText(table[s.id].tri, g.modules)
      else table[s.id].val
  {
    assert Solves(g, users, table, s.id);
  }

  ghost function SpecTable(g: Graph, users: seq<User>): (table: seq<State>)
    requires |g.rank| == |g.decls| == |users|
    ensures |table| == |users| && forall i | 0 <= i < |table| :: table[i] == Spec(g, users, i)
  {
    seq(|users|, i requires 0 <= i < |users| => Spec(g, users, i))
  }

  /** The recursive definition is the one solution of the equations. */
  lemma {:induction false} SolutionIsSpec(g: Graph, users: seq<User>, table: seq<State>, i: nat)
    requires Acyclic(g) && Solution(g, users, table) && i < |table|
    ensures table[i] == Spec(g, users, i)
    decreases g.rank[i]
  {
    var env, env2 := TableEnv(g, table, g.rank[i]), EnvBelow(g, users, g.rank[i]);
    forall s: Symbol | Declared(g, s, g.rank[i])
      ensures env.tri(s) == env2.tri(s) && env.text(s) == env2.text(s)
    {
      SolutionIsSpec(g, users, table, s.id);
    }
    assert Solves(g, users, table, i);
    EvalAgrees(g, g.rank[i], g.decls[i], users[i], env, env2);
  }

  lemma SpecIsSolution(g: Graph, users: seq<User>)
    requires Acyclic(g) && |users| == |g.decls|
    ensures Solution(g, users, SpecTable(g, users))
  {
    var table := SpecTable(g, users);
    forall i | 0 <= i < |table| ensures Solves(g, users, table, i) {
      var env, env2 := TableEnv(g, table, g.rank[i]), EnvBelow(g, users, g.rank[i]);
      EvalAgrees(g, g.rank[i], g.decls[i], users[i], env, env2);
    }
  }

  predicate Declared(g: Graph, s: Symbol, k: nat)
    requires |g.rank| == |g.decls|
  {
    s.id < |g.decls| && g.decls[s.id].sym == s && g.rank[s.id] < k
  }

  lemma SpecNeverMod(g: Graph, users: seq<User>, i: nat)
    requires |g.rank| == |g.decls| == |users| && i < |users|
    ensures BoolType(g.decls[i].sym, g.modules) ==> Spec(g, users, i).tri != MOD
  {
  }

  /** The evaluator only ever produces well-formed assignments. */
  lemma EnvIsWellFormed(g: Graph, users: seq<User>, k: nat)
    requires |g.rank| == |g.decls| == |users|
    ensures WfEnv(EnvBelow(g, users, k))
  {
    var env := EnvBelow(g, users, k);
    forall s: Symbol | s.typ == S_BOOLEAN || (!env.modules && s.IsTri())
      ensures env.tri(s) != MOD
    {
      if Declared(g, s, k) {
        SpecNeverMod(g, users, s.id);
        assert env.tri(s) == Spec(g, users, s.id).tri;
      }
    }
  }

  /** Two assignments that agree on the symbols of rank below k. */
  ghost predicate AgreeBelow(g: Graph, k: nat, env: Env, env2: Env)
    requires |g.rank| == |g.decls|
  {
    && env.modules == env2.modules
    && forall s: Symbol :: Declared(g, s, k) ==> env.tri(s) == env2.tri(s) && env.text(s) == env2.text(s)
  }

  lemma {:induction false} ValueAgrees(g: Graph, k: nat, e: Expr, env: Env, env2: Env)
    requires |g.rank| == |g.decls| && ExprBelow(g, e, k) && AgreeBelow(g, k, env, env2)
    ensures Value(e, env) == Value(e, env2)
  {
    match e
    case Not(c) => ValueAgrees(g, k, c, env, env2);
    case Bin(_, l, r) => ValueAgrees(g, k, l, env, env2); ValueAgrees(g, k, r, env, env2);
    case Cmp(_, a, b) => assert TextOf(a, env) == TextOf(a, env2) && TextOf(b, env) == TextOf(b, env2);
    case Sym(s) => assert IsTriConst(s) || Declared(g, s, k);
  }

  lemma OptAgrees(g: Graph, k: nat, e: Option<Expr>, env: Env, env2: Env)
    requires |g.rank| == |g.decls| && OptBelow(g, e, k) && AgreeBelow(g, k, env, env2)
    ensures ValueOpt(e, env) == ValueOpt(e, env2) && ValueOrNo(e, env) == ValueOrNo(e, env2)
  {
    if e.Some? { ValueAgrees(g, k, e.value, env, env2); }
  }

  lemma {:induction false} PromptsAgree(g: Graph, k: nat, ps: seq<Option<Expr>>, env: Env, env2: Env)
    requires |g.rank| == |g.decls| && AgreeBelow(g, k, env, env2)
    requires forall i | 0 <= i < |ps| :: OptBelow(g, ps[i], k)
    ensures AnyPrompt(ps, env) == AnyPrompt(ps, env2)
  {
    if ps != [] {
      OptAgrees(g, k, ps[0], env, env2);
      PromptsAgree(g, k, ps[1..], env, env2);
    }
  }

  lemma {:induction false} DefaultsAgree(g: Graph, k: nat, ds: seq<Default>, env: Env, env2: Env)
    requires |g.rank| == |g.decls| && AgreeBelow(g, k, env, env2)
    requires forall i | 0 <= i < |ds| :: OptBelow(g, ds[i].cond, k)
    ensures FirstDefault(ds, env) == FirstDefault(ds, env2)
  {
    if ds != [] {
      OptAgrees(g, k, ds[0].cond, env, env2);
      DefaultsAgree(g, k, ds[1..], env, env2);
    }
  }

  lemma {:induction false} RangesAgree(g: Graph, k: nat, rs: seq<Range>, env: Env, env2: Env)
    requires |g.rank| == |g.decls| && AgreeBelow(g, k, env, env2)
    requires forall i | 0 <= i < |rs| :: OptBelow(g, rs[i].cond, k)
    ensures FirstRange(rs, env) == FirstRange(rs, env2)
  {
    if rs != [] {
      OptAgrees(g, k, rs[0].cond, env, env2);
      RangesAgree(g, k, rs[1..], env, env2);
    }
  }

  /** The value of a symbol depends only on its user value and on symbols of lower rank. */
  lemma EvalAgrees(g: Graph, k: nat, d: Decl, user: User, env: Env, env2: Env)
    requires |g.rank| == |g.decls| && DeclBelow(g, d, k) && AgreeBelow(g, k, env, env2)
    ensures Eval(d, user, env) == Eval(d, user, env2)
  {
    ConditionsAgree(g, k, d, env, env2);
    DefaultAgrees(g, k, d, env, env2);
    ClampAgrees(g, k, d, TextBase(d, user, env), env, env2);
  }

  lemma ConditionsAgree(g: Graph, k: nat, d: Decl, env: Env, env2: Env)
    requires |g.rank| == |g.decls| && DeclBelow(g, d, k) && AgreeBelow(g, k, env, env2)
    ensures Visible(d, env) == Visible(d, env2) && DirDep(d, env) == DirDep(d, env2)
    ensures RevDep(d, env) == RevDep(d, env2) && Implied(d, env) == Implied(d, env2)
  {
    PromptsAgree(g, k, d.prompts, env, env2);
    OptAgrees(g, k, d.dirDep, env, env2);
    OptAgrees(g, k, d.revDep, env, env2);
    OptAgrees(g, k, d.implied, env, env2);
  }

  lemma DefaultAgrees(g: Graph, k: nat, d: Decl, env: Env, env2: Env)
    requires |g.rank| == |g.decls| && DeclBelow(g, d, k) && AgreeBelow(g, k, env, env2)
    ensures TriDefault(d, env) == TriDefault(d, env2) && TextDefault(d, env) == TextDefault(d, env2)
  {
    DefaultsAgree(g, k, d.defaults, env, env2);
    var p := FirstDefault(d.defaults, env);
    if p.Some? {
      OptAgrees(g, k, p.value.cond, env, env2);
      ValueAgrees(g, k, p.value.value, env, env2);
      if p.value.value.Sym? { ValAgrees(g, k, p.value.value.s, env, env2); }
    }
  }

  lemma ClampAgrees(g: Graph, k: nat, d: Decl, val: string, env: Env, env2: Env)
    requires |g.rank| == |g.decls| && DeclBelow(g, d, k) && AgreeBelow(g, k, env, env2)
    ensures Clamp(d.sym.typ, val, FirstRange(d.ranges, env), env) ==
      Clamp(d.sym.typ, val, FirstRange(d.ranges, env2), env2)
  {
    RangesAgree(g, k, d.ranges, env, env2);
    var r := FirstRange(d.ranges, env);
    if r.Some? { BoundAgrees(g, k, r.value, StrToLL(val, BaseOf(d.sym.typ, 0)), BaseOf(d.sym.typ, 0), env, env2); }
  }

  lemma BoundAgrees(g: Graph, k: nat, r: Range, v: int, base: nat, env: Env, env2: Env)
    requires |g.rank| == |g.decls| && SymBelow(g, r.lo, k) && SymBelow(g, r.hi, k) && AgreeBelow(g, k, env, env2)
    ensures Bound(r, v, base, env) == Bound(r, v, base, env2)
  {
    ValAgrees(g, k, r.lo, env, env2);
    ValAgrees(g, k, r.hi, env, env2);
  }

  lemma ValAgrees(g: Graph, k: nat, s: Symbol, env: Env, env2: Env)
    requires |g.rank| == |g.decls| && SymBelow(g, s, k) && AgreeBelow(g, k, env, env2)
    ensures ValOf(s, env) == ValOf(s, env2)
  {
  }

  /** User values that give every symbol of rank below k the same value give rise to the same assignment. */
  lemma EnvAgrees(g: Graph, users: seq<User>, users2: seq<User>, k: nat)
    requires |g.rank| == |g.decls| == |users| == |users2|
    requires forall x | 0 <= x < |users| && g.rank[x] < k ::
      Spec(g, users, x).tri == Spec(g, users2, x).tri && Spec(g, users, x).val == Spec(g, users2, x).val
    ensures AgreeBelow(g, k, EnvBelow(g, users, k), EnvBelow(g, users2, k))
  {
  }

  /** Changing the user value of i without changing its value changes nothing anywhere else. */
  lemma {:induction false} SameValueSameRest(g: Graph, users: seq<User>, users2: seq<User>, i: nat, j: nat)
    requires Acyclic(g) && |g.decls| == |users| == |users2| && i < |users| && j < |users|
    requires forall x | 0 <= x < |users| && x != i :: users[x] == users2[x]
    requires Spec(g, users, i).tri == Spec(g, users2, i).tri && Spec(g, users, i).val == Spec(g, users2, i).val
    ensures j != i ==> Spec(g, users, j) == Spec(g, users2, j)
    decreases g.rank[j]
  {
    if j != i {
      forall x | 0 <= x < |users| && g.rank[x] < g.rank[j]
        ensures Spec(g, users, x).tri == Spec(g, users2, x).tri && Spec(g, users, x).val == Spec(g, users2, x).val
      {
        if x != i { SameValueSameRest(g, users, users2, i, x); }
      }
      EnvAgrees(g, users, users2, g.rank[j]);
      EvalAgrees(g, g.rank[j], g.decls[j], users[j], EnvBelow(g, users, g.rank[j]), EnvBelow(g, users2, g.rank[j]));
    }
  }

  /** The user value of i cannot influence symbols that are not above i. */
  lemma {:induction false} UserReachesOnlyUp(g: Graph, users: seq<User>, users2: seq<User>, i: nat, j: nat)
    requires Acyclic(g) && |g.decls| == |users| == |users2| && i < |users| && j < |users|
    requires forall x | 0 <= x < |users| && x != i :: users[x] == users2[x]
    requires j != i && g.rank[j] <= g.rank[i]
    ensures Spec(g, users, j) == Spec(g, users2, j)
    decreases g.rank[j]
  {
    forall x | 0 <= x < |users| && g.rank[x] < g.rank[j]
      ensures Spec(g, users, x) == Spec(g, users2, x)
    {
      UserReachesOnlyUp(g, users, users2, i, x);
    }
    EnvAgrees(g, users, users2, g.rank[j]);
    EvalAgrees(g, g.rank[j], g.decls[j], users[j], EnvBelow(g, users, g.rank[j]), EnvBelow(g, users2, g.rank[j]));
  }

  /** The value does not depend on which ranks witness that the graph has no cycle. */
  lemma {:induction false} RankIrrelevant(g: Graph, g2: Graph, users: seq<User>, i: nat)
    requires Acyclic(g) && Acyclic(g2) && g2.decls == g.decls && g2.modules == g.modules
    requires |users| == |g.decls| && i < |users|
    ensures Spec(g, users, i) == Spec(g2, users, i)
    decreases g.rank[i]
  {
    var d := g.decls[i];
    var env, env2 := EnvBelow(g, users, g.rank[i]), EnvBelow(g2, users, g2.rank[i]);
    var both := Graph(g.decls, g.modules,
      seq(|g.rank|, x requires 0 <= x < |g.rank| => if g.rank[x] < g.rank[i] && g2.rank[x] < g2.rank[i] then 0 else 1));
    BelowBoth(g, g2, both, d, g.rank[i], g2.rank[i]);
    forall s: Symbol | Declared(both, s, 1)
      ensures env.tri(s) == env2.tri(s) && env.text(s) == env2.text(s)
    {
      RankIrrelevant(g, g2, users, s.id);
    }
    EvalAgrees(both, 1, d, users[i], env, env2);
  }

  lemma BelowBoth(g: Graph, g2: Graph, both: Graph, d: Decl, k: nat, k2: nat)
    requires |g.rank| == |g.decls| == |g2.rank| == |both.rank| && g2.decls == g.decls == both.decls
    requires forall x | 0 <= x < |g.rank| :: g.rank[x] < k && g2.rank[x] < k2 ==> both.rank[x] < 1
    requires DeclBelow(g, d, k) && DeclBelow(g2, d, k2)
    ensures DeclBelow(both, d, 1)
  {
    forall i | 0 <= i < |d.prompts| ensures OptBelow(both, d.prompts[i], 1) {
      OptBelowBoth(g, g2, both, d.prompts[i], k, k2);
    }
    forall i | 0 <= i < |d.defaults|
      ensures OptBelow(both, d.defaults[i].cond, 1) && ExprBelow(both, d.defaults[i].value, 1)
    {
      OptBelowBoth(g, g2, both, d.defaults[i].cond, k, k2);
      ExprBelowBoth(g, g2, both, d.defaults[i].value, k, k2);
    }
    forall i | 0 <= i < |d.ranges| ensures OptBelow(both, d.ranges[i].cond, 1) {
      OptBelowBoth(g, g2, both, d.ranges[i].cond, k, k2);
    }
    OptBelowBoth(g, g2, both, d.dirDep, k, k2);
    OptBelowBoth(g, g2, both, d.revDep, k, k2);
    OptBelowBoth(g, g2, both, d.implied, k, k2);
  }

  lemma OptBelowBoth(g: Graph, g2: Graph, both: Graph, e: Option<Expr>, k: nat, k2: nat)
    requires |g.rank| == |g.decls| == |g2.rank| == |both.rank| && g2.decls == g.decls == both.decls
    requires forall x | 0 <= x < |g.rank| :: g.rank[x] < k && g2.rank[x] < k2 ==> both.rank[x] < 1
    requires OptBelow(g, e, k) && OptBelow(g2, e, k2)
    ensures OptBelow(both, e, 1)
  {
    if e.Some? { ExprBelowBoth(g, g2, both, e.value, k, k2); }
  }

  lemma {:induction false} ExprBelowBoth(g: Graph, g2: Graph, both: Graph, e: Expr, k: nat, k2: nat)
    requires |g.rank| == |g.decls| == |g2.rank| == |both.rank| && g2.decls == g.decls == both.decls
    requires forall x | 0 <= x < |g.rank| :: g.rank[x] < k && g2.rank[x] < k2 ==> both.rank[x] < 1
    requires ExprBelow(g, e, k) && ExprBelow(g2, e, k2)
    ensures ExprBelow(both, e, 1)
  {
    match e
    case Not(c) => ExprBelowBoth(g, g2, both, c, k, k2);
    case Bin(_, l, r) => ExprBelowBoth(g, g2, both, l, k, k2); ExprBelowBoth(g, g2, both, r, k, k2);
    case _ =>
  }

  /** sym_tristate_within_range, on the results of the last evaluation. */
  predicate WithinRange(s: Symbol, now: State, val: Tristate, modules: bool) {
    && now.visible != NO
    && s.IsTri()
    && !(BoolType(s, modules) && val == MOD)
    && now.visible > now.revDep
    && !(now.implied == YES && val == MOD)
    && now.revDep <= val <= now.visible
  }

  /** When a user value equal to the current value can be recorded without evaluating again. */
  predicate KeepsValue(now: State, val: Tristate) {
    now.visible == NO || val <= now.visible || val <= now.revDep || now.implied == YES
  }

  /** The value after a change of the symbol's own user value: its dependencies are what they were. */
  lemma SpecAfterSet(g: Graph, users: seq<User>, i: nat, u: User)
    requires Acyclic(g) && |users| == |g.decls| && i < |users|
    ensures Spec(g, users[i := u], i) == Eval(g.decls[i], u, EnvBelow(g, users, g.rank[i]))
  {
    var users2 := users[i := u];
    forall x | 0 <= x < |users| && g.rank[x] < g.rank[i]
      ensures Spec(g, users, x) == Spec(g, users2, x)
    {
      UserReachesOnlyUp(g, users, users2, i, x);
    }
    EnvAgrees(g, users, users2, g.rank[i]);
    EvalAgrees(g, g.rank[i], g.decls[i], u, EnvBelow(g, users, g.rank[i]), EnvBelow(g, users2, g.rank[i]));
  }

  /**
   Set then get: a value that sym_tristate_within_range accepts is exactly the
   value the symbol has afterwards, whatever is selected, implied or promoted.
   */
  lemma SetThenGet(g: Graph, users: seq<User>, i: nat, val: Tristate, text: string)
    requires Acyclic(g) && |users| == |g.decls| && i < |users|
    requires WithinRange(g.decls[i].sym, Spec(g, users, i), val, g.modules)
    ensures Spec(g, users[i := User(true, val, text)], i).tri == val
  {
    SpecAfterSet(g, users, i, User(true, val, text));
  }

  /**
   Recording the value a symbol already has keeps that value, and with it every
   other one, exactly when KeepsValue holds; SYMBOL_VALID need not be reset then.
   */
  lemma SameValueSet(g: Graph, users: seq<User>, i: nat, val: Tristate, text: string)
    requires Acyclic(g) && |users| == |g.decls| && i < |users| && g.decls[i].sym.IsTri()
    requires Spec(g, users, i).tri == val
    ensures var users2 := users[i := User(true, val, text)];
      && (KeepsValue(Spec(g, users, i), val) <==> Spec(g, users2, i) == Spec(g, users, i))
      && (KeepsValue(Spec(g, users, i), val) ==> forall j | 0 <= j < |users| :: Spec(g, users2, j) == Spec(g, users, j))
  {
    var users2 := users[i := User(true, val, text)];
    SpecAfterSet(g, users, i, User(true, val, text));
    SameValueTri(g.decls[i], users[i], val, text, EnvBelow(g, users, g.rank[i]));
    if KeepsValue(Spec(g, users, i), val) {
      forall j | 0 <= j < |users| ensures Spec(g, users2, j) == Spec(g, users, j) {
        SameValueSameRest(g, users, users2, i, j);
      }
    }
  }

  lemma SameValueTri(d: Decl, u: User, val: Tristate, text: string, env: Env)
    requires d.sym.IsTri() && TriValue(d, u, env) == val
    ensures var now := Eval(d, u, env);
      KeepsValue(now, val) <==> TriValue(d, User(true, val, text), env) == val
  {
  }

  /** Without modules it always holds: a visible bool or tristate is visible as y. */
  lemma KeepsValueWithoutModules(g: Graph, users: seq<User>, i: nat, val: Tristate)
    requires |g.rank| == |g.decls| == |users| && i < |users| && g.decls[i].sym.IsTri() && !g.modules
    ensures KeepsValue(Spec(g, users, i), val)
  {
  }

  /** With modules it can fail: a default y, not limited by a prompt visible as m, recorded as the user's y. */
  lemma SameValueSetCanFail(s: Symbol)
    requires s.typ == S_TRISTATE && s.id == 0
    ensures var d := Decl(s, [Some(Sym(SYMBOL_MOD))], [Default(None, Sym(SYMBOL_YES))], [], None, None, None, false);
      var g := Graph([d], true, [0]);
      && Acyclic(g)
      && Spec(g, [User(false, NO, "")], 0).tri == YES
      && Spec(g, [User(true, YES, "")], 0).tri == MOD
  {
    var d := Decl(s, [Some(Sym(SYMBOL_MOD))], [Default(None, Sym(SYMBOL_YES))], [], None, None, None, false);
    var g := Graph([d], true, [0]);
    var env := EnvBelow(g, [User(false, NO, "")], 0);
    var env2 := EnvBelow(g, [User(true, YES, "")], 0);
    assert d.prompts[1..] == [];
    assert AnyPrompt(d.prompts, env) == MOD && AnyPrompt(d.prompts, env2) == MOD;
    assert FirstDefault(d.defaults, env) == Some(d.defaults[0]);
    assert FirstDefault(d.defaults, env2) == Some(d.defaults[0]);
  }

  /** A request of a front end: read a symbol, or set it. */
  datatype Request = Get(i: nat) | Set(i: nat, val: Tristate)

  /** Whether sym_set_tristate_value accepts. */
  ghost predicate Accepts(g: Graph, users: seq<User>, i: nat, val: Tristate)
    requires |g.rank| == |g.decls| == |users| && i < |users|
  {
    var now := Spec(g, users, i);
    now.tri == val || WithinRange(g.decls[i].sym, now, val, g.modules)
  }

  /** The user values after a request, in terms of the definition alone. */
  ghost function After(g: Graph, users: seq<User>, r: Request): (users2: seq<User>)
    requires |g.rank| == |g.decls| == |users|
    ensures |users2| == |users|
  {
    if r.Set? && r.i < |users| && g.decls[r.i].sym.IsTri() && Accepts(g, users, r.i, r.val)
    then users[r.i := User(true, r.val, users[r.i].val)]
    else users
  }

  ghost function AfterAll(g: Graph, users: seq<User>, rs: seq<Request>): (users2: seq<User>)
    requires |g.rank| == |g.decls| == |users|
    ensures |users2| == |users|
    decreases |rs|
  {
    if rs == [] then users
    else After(g, AfterAll(g, users, rs[..|rs| - 1]), rs[|rs| - 1])
  }

  /** sym_get_string_value of symbol i, in terms of the definition alone. */
  ghost function TextRead(g: Graph, users: seq<User>, i: nat): string
    requires |g.rank| == |g.decls| == |users| && i < |users|
  {
    var now := Spec(g, users, i);
    if g.decls[i].sym.IsTri() then TriText(now.tri, g.modules) else now.val
  }

  /** What the requests of a run read. */
  ghost function ReadAll(g: Graph, users: seq<User>, rs: seq<Request>): (vs: seq<string>)
    requires |g.rank| == |g.decls| == |users| && forall n | 0 <= n < |rs| :: rs[n].i < |users|
    ensures |vs| == |rs|
    decreases |rs|
  {
    if rs == [] then []
    else
      var before := rs[..|rs| - 1];
      ReadAll(g, users, before) + [TextRead(g, AfterAll(g, users, before), rs[|rs| - 1].i)]
  }

  /** The request is for a symbol there is, and sets bools and tristates only. */
  predicate Servable(g: Graph, r: Request) { r.i < |g.decls| && (r.Set? ==> g.decls[r.i].sym.IsTri()) }

  /** Setting the value that the symbol has already can do without evaluating again. */
  ghost predicate SafeRequest(g: Graph, users: seq<User>, r: Request)
    requires |g.rank| == |g.decls| == |users|
  {
    r.Set? && r.i < |users| && Spec(g, users, r.i).tri == r.val ==> KeepsValue(Spec(g, users, r.i), r.val)
  }

  /** Every request of the run is such. */
  ghost predicate SafeRun(g: Graph, users: seq<User>, rs: seq<Request>)
    requires |g.rank| == |g.decls| == |users|
  {
    forall n | 0 <= n < |rs| :: SafeRequest(g, AfterAll(g, users, rs[..n]), rs[n])
  }

  /** Without modules every run is safe. */
  lemma SafeWithoutModules(g: Graph, users: seq<User>, rs: seq<Request>)
    requires |g.rank| == |g.decls| == |users| && !g.modules && forall n | 0 <= n < |rs| :: Servable(g, rs[n])
    ensures SafeRun(g, users, rs)
  {
    forall n | 0 <= n < |rs| ensures SafeRequest(g, AfterAll(g, users, rs[..n]), rs[n]) {
      if rs[n].Set? { KeepsValueWithoutModules(g, AfterAll(g, users, rs[..n]), rs[n].i, rs[n].val); }
    }
  }
}

/**
 Conditions that name symbols which are neither bool nor tristate: exactly when
 expr_trans_compare still brackets them, and how the submenu test fails on others.
 */
module SubmenuLimits {
  import opened Tristates
  import opened Exprs
  import opened Transforms
  import opened EliminateEqs
  import opened EliminateDups
  import opened Joins
  import opened Spines
  import opened Submenus

  /** Both bounds of TransCompareSandwich. */
  predicate Bracketed(e: Expr, env: Env) {
    && BoundedAbove(e, UNEQUAL, env) && BoundedBelow(e, UNEQUAL, env)
    && BoundedAbove(e, EQUAL, env) && BoundedBelow(e, EQUAL, env)
  }

  lemma LeafBracketed(s: Symbol, env: Env)
    requires WfEnv(env)
    ensures Bracketed(Sym(s), env) <==> LeafOk(s, env)
  {
    SymAgainstNo(s, env);
  }

  /** The symbols that stand alone in e are among these. */
  predicate LeavesIn(e: Expr, leaves: set<Symbol>) {
    match e
    case Sym(s) => s in leaves
    case Not(c) => LeavesIn(c, leaves)
    case Bin(_, l, r) => LeavesIn(l, leaves) && LeavesIn(r, leaves)
    case Cmp(_, _, _) => true
  }

  lemma {:induction false} LeavesInOk(e: Expr, leaves: set<Symbol>, even: bool, env: Env)
    requires LeavesIn(e, leaves) && forall s | s in leaves :: LeafOk(s, env)
    ensures LeavesOk(e, even, env)
  {
    match e
    case Not(c) => LeavesInOk(c, leaves, !even, env);
    case Bin(_, l, r) => LeavesInOk(l, leaves, even, env); LeavesInOk(r, leaves, even, env);
    case _ =>
  }

  /**
   All expressions over some symbols are bracketed exactly if none of the symbols reads n under another text than "n".
   */
  lemma BracketedIff(leaves: set<Symbol>, env: Env)
    requires WfEnv(env)
    ensures (forall e | LeavesIn(e, leaves) :: Bracketed(e, env)) <==> (forall s | s in leaves :: LeafOk(s, env))
  {
    if forall s | s in leaves :: LeafOk(s, env) {
      forall e | LeavesIn(e, leaves) ensures Bracketed(e, env) {
        LeavesInOk(e, leaves, true, env);
        LeavesInOk(e, leaves, false, env);
        TransCompareSandwich(e, UNEQUAL, env);
        TransCompareSandwich(e, EQUAL, env);
      }
    } else {
      var s :| s in leaves && !LeafOk(s, env);
      LeafBracketed(s, env);
      assert LeavesIn(Sym(s), leaves);
    }
  }

  /** Bools, tristates, y, m and n; and what is undefined but named n. */
  predicate SafeLeaf(s: Symbol) {
    s.IsTri() || IsTriConst(s) || ((s.typ == S_UNKNOWN || s.typ == S_OTHER) && s.name == "n")
  }

  /** Every other symbol reads n under another text in some assignment. */
  lemma UnsafeLeaf(s: Symbol) returns (env: Env)
    requires !SafeLeaf(s)
    ensures WfEnv(env) && !LeafOk(s, env) && forall x: Symbol :: env.tri(x) == if x.typ == S_TRISTATE then YES else NO
  {
    env := Env((x: Symbol) => if x.typ == S_TRISTATE then YES else NO, _ => "x", true);
  }

  lemma SafeLeafIff(s: Symbol)
    ensures (forall env | WfEnv(env) :: LeafOk(s, env)) <==> SafeLeaf(s)
  {
    if !SafeLeaf(s) { var env := UnsafeLeaf(s); }
  }

  /** All expressions over some symbols are bracketed in all well-formed assignments exactly if the symbols are safe. */
  lemma AlwaysBracketedIff(leaves: set<Symbol>)
    ensures (forall env | WfEnv(env) :: forall e | LeavesIn(e, leaves) :: Bracketed(e, env)) <==>
      (forall s | s in leaves :: SafeLeaf(s))
  {
    forall env | WfEnv(env)
      ensures (forall e | LeavesIn(e, leaves) :: Bracketed(e, env)) <==> (forall s | s in leaves :: LeafOk(s, env))
    {
      BracketedIff(leaves, env);
    }
    forall s | s in leaves ensures (forall env | WfEnv(env) :: LeafOk(s, env)) <==> SafeLeaf(s) { SafeLeafIff(s); }
  }

  /** The condition (sym || q) && u != n. */
  function FailingChild(sym: Symbol, q: Symbol, u: Symbol): Expr {
    Bin(AND, Bin(OR, Sym(sym), Sym(q)), Cmp(UNEQUAL, u, SYMBOL_NO))
  }

  /** The same in the form in which it is examined. */
  function Examined(sym: Symbol, q: Symbol, u: Symbol): Expr {
    Bin(AND, Bin(OR, Cmp(UNEQUAL, sym, SYMBOL_NO), Cmp(UNEQUAL, q, SYMBOL_NO)), Cmp(UNEQUAL, u, SYMBOL_NO))
  }

  /** Two operands that do not join are left alone. */
  lemma NoJoin(op: BoolOp, x: Expr, y: Expr)
    requires !x.IsOp(op) && !y.IsOp(op) && Nested(x) == (x, 0) && Nested(y) == (y, 0)
    requires Join(op, x, y).None? && Join(op, y, x).None?
    ensures Nested(Bin(op, x, y)) == (Bin(op, x, y), 0)
  {
    var t := Bin(op, x, y);
    Dups1AtLeaves(op, t, [false], [true], t);
    Dups1AtLeaves(op, t, [true], [false], t);
    WalkOfPair(op, t, [false]);
    WalkOfPair(op, t, [true]);
    assert [] + [false] == [false] && [] + [true] == [true];
    assert Dups1(op, t, [false], []) == (t, 0);
    assert Dups1(op, t, [true], []) == (t, 0);
  }

  /** One operand against both. */
  lemma WalkOfPair(op: BoolOp, t: Expr, p: Path)
    requires t.IsOp(op) && !t.l.IsOp(op) && !t.r.IsOp(op) && (p == [false] || p == [true])
    requires p == [true] ==> Dups1(op, t, [true], [false]) == (t, 0)
    requires p == [false] ==> Dups1(op, t, [false], [true]) == (t, 0)
    ensures Dups1(op, t, p, []) == (t, 0)
  {
    assert [] + [false] == [false] && [] + [true] == [true];
    assert At(op, t, p) == if p[0] then t.r else t.l;
    assert Dups1(op, t, p, p) == (t, 0);
  }

  lemma ExaminedChild(sym: Symbol, q: Symbol, u: Symbol)
    requires sym.typ == q.typ == S_TRISTATE && sym != q && !u.IsTri()
    ensures Simplified(Some(FailingChild(sym, q, u))) == Examined(sym, q, u)
  {
    var a, b, c := Cmp(UNEQUAL, sym, SYMBOL_NO), Cmp(UNEQUAL, q, SYMBOL_NO), Cmp(UNEQUAL, u, SYMBOL_NO);
    TransformedChild(sym, q, u);
    NoJoin(OR, a, b);
    NoJoin(AND, Bin(OR, a, b), c);
  }

  lemma TransformedChild(sym: Symbol, q: Symbol, u: Symbol)
    requires sym.typ == q.typ == S_TRISTATE && sym != q && !u.IsTri()
    ensures Transform(TransCompare(FailingChild(sym, q, u), UNEQUAL)) == Examined(sym, q, u)
  {
    var a, b, c := Cmp(EQUAL, sym, SYMBOL_NO), Cmp(EQUAL, q, SYMBOL_NO), Cmp(UNEQUAL, u, SYMBOL_NO);
    var inner := Bin(AND, a, b);
    assert TransCompare(Bin(OR, Sym(sym), Sym(q)), EQUAL) == inner;
    assert TransCompare(FailingChild(sym, q, u), UNEQUAL) == Not(Bin(OR, inner, Not(c)));
    assert TransformCmp(UNEQUAL, u, SYMBOL_NO) == c && TransformCmp(EQUAL, sym, SYMBOL_NO) == a &&
      TransformCmp(EQUAL, q, SYMBOL_NO) == b;
    assert Transform(c) == c;
    assert Transform(inner) == inner;
    assert Transform(Not(c)) == TransformNot(c) == Cmp(EQUAL, u, SYMBOL_NO);
    assert Transform(Bin(OR, inner, Not(c))) == Bin(OR, inner, Cmp(EQUAL, u, SYMBOL_NO));
    assert TransformNot(Bin(OR, inner, Cmp(EQUAL, u, SYMBOL_NO))) ==
      Transform(Bin(AND, Not(inner), Not(Cmp(EQUAL, u, SYMBOL_NO))));
    assert Transform(Not(inner)) == TransformNot(inner) == Transform(Bin(OR, Not(a), Not(b)));
    assert Transform(Not(a)) == Cmp(UNEQUAL, sym, SYMBOL_NO) && Transform(Not(b)) == Cmp(UNEQUAL, q, SYMBOL_NO);
    assert Transform(Not(Cmp(EQUAL, u, SYMBOL_NO))) == c;
  }

  lemma FailingValues(sym: Symbol, q: Symbol, u: Symbol, env: Env)
    requires sym.typ == q.typ == S_TRISTATE && !u.IsTri() && !IsTriConst(u)
    requires WfEnv(env) && !LeafOk(u, env) && env.tri(q) == YES
    ensures Value(FailingChild(sym, q, u), env) == YES && Value(Sym(u), env) == NO
  {
    SymAgainstNo(u, env);
    assert Value(Bin(OR, Sym(sym), Sym(q)), env) == YES;
  }

  /**
   An entry that depends on (sym || q) && u != n, after sym with the condition u,
   goes into a submenu of sym; but wherever u reads n under another text, the
   entry can be y although the condition of sym is n.
   */
  lemma SubmenuFails(sym: Symbol, q: Symbol, u: Symbol, env: Env)
    requires sym.typ == q.typ == S_TRISTATE && sym != q && !u.IsTri() && !IsTriConst(u)
    requires WfEnv(env) && !LeafOk(u, env) && env.tri(q) == YES
    ensures InSubmenu(sym, Some(Sym(u)), Some(FailingChild(sym, q, u))) && !DependsSymbol(FailingChild(sym, q, u), sym)
    ensures Value(FailingChild(sym, q, u), env) == YES && Value(Sym(u), env) == NO
  {
    var e, c := Examined(sym, q, u), Cmp(UNEQUAL, u, SYMBOL_NO);
    ExaminedChild(sym, q, u);
    assert Simplified(Some(Sym(u))) == c;
    FailingValues(sym, q, u, env);
    assert EliminateEq1(AND, e.l, c) == (e.l, c);
    assert EliminateEq1(AND, c, c) == (Sym(SYMBOL_YES), Sym(SYMBOL_YES));
    assert EliminateEq1(AND, e, c) == (Bin(AND, e.l, Sym(SYMBOL_YES)), Sym(SYMBOL_YES));
    assert EliminateEq(e, c).1 == Sym(SYMBOL_YES);
  }

  /** So the submenu test is unsound for every symbol that is not safe. */
  lemma SubmenuUnsound(sym: Symbol, q: Symbol, u: Symbol) returns (child: Expr, env: Env)
    requires sym.typ == q.typ == S_TRISTATE && sym != q && !SafeLeaf(u)
    ensures WfEnv(env) && InSubmenu(sym, Some(Sym(u)), Some(child)) && !DependsSymbol(child, sym)
    ensures Value(child, env) == YES && Value(Sym(u), env) == NO
  {
    env := UnsafeLeaf(u);
    child := FailingChild(sym, q, u);
    SubmenuFails(sym, q, u, env);
  }
}

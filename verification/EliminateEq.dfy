/**
 expr_eliminate_yn, expr_eq, __expr_eliminate_eq and expr_eliminate_eq: removal
 of operands common to two expressions, and equality up to operand order.
 */
module EliminateEqs {
  import opened Tristates
  import opened Exprs

  /** The constant folding done at one AND or OR node whose operands are already folded. */
  function Fold(op: BoolOp, l: Expr, r: Expr): (e: Expr)
    ensures e.Size() <= 1 + l.Size() + r.Size()
  {
    if l == Sym(op.Absorbing()) then l
    else if l == Sym(op.Neutral()) then r
    else if r == Sym(op.Absorbing()) then r
    else if r == Sym(op.Neutral()) then l
    else Bin(op, l, r)
  }

  /** expr_eliminate_yn. Negations and comparisons are not entered. */
  function EliminateYn(e: Expr): (r: Expr)
    ensures r.Size() <= e.Size()
  {
    match e
    case Bin(op, x, y) => Fold(op, EliminateYn(x), EliminateYn(y))
    case _ => e
  }

  lemma {:induction false} EliminateYnKeepsValue(e: Expr, env: Env)
    ensures Value(EliminateYn(e), env) == Value(e, env)
  {
    match e
    case Bin(op, x, y) => EliminateYnKeepsValue(x, env); EliminateYnKeepsValue(y, env);
    case _ =>
  }

  lemma {:induction false} EliminateYnWf(e: Expr)
    requires WfExpr(e)
    ensures WfExpr(EliminateYn(e))
  {
    match e
    case Bin(op, x, y) => EliminateYnWf(x); EliminateYnWf(y);
    case _ =>
  }

  /** Some AND or OR node, reachable through AND and OR nodes, has an operand y or n. */
  predicate Foldable(e: Expr) {
    e.Bin? && (IsYn(e.l) || IsYn(e.r) || Foldable(e.l) || Foldable(e.r))
  }

  predicate IsYn(e: Expr) { e == Sym(SYMBOL_YES) || e == Sym(SYMBOL_NO) }

  /** EliminateYn removes every foldable operand, and shrinks exactly the foldable expressions. */
  lemma {:induction false} EliminateYnFolds(e: Expr)
    ensures !Foldable(EliminateYn(e))
    ensures Foldable(e) ==> EliminateYn(e).Size() < e.Size()
    ensures !Foldable(e) ==> EliminateYn(e) == e
  {
    match e
    case Bin(op, x, y) =>
      EliminateYnFolds(x);
      EliminateYnFolds(y);
      assert IsYn(x) ==> EliminateYn(x) == x;
      assert IsYn(y) ==> EliminateYn(y) == y;
    case _ =>
  }

  /** Order of the calls that do not make the two expressions smaller. */
  function Rank(op: BoolOp, e1: Expr, e2: Expr): nat {
    if e1.IsOp(op) || e2.IsOp(op) then 0 else 4
  }

  /** expr_eq. */
  predicate ExprEq(e1: Expr, e2: Expr)
    decreases e1.Size() + e2.Size(), 3
  {
    match (e1, e2)
    case (Cmp(_, _, _), Cmp(_, _, _)) => e1 == e2
    case (Sym(_), Sym(_)) => e1 == e2
    case (Not(c1), Not(c2)) => ExprEq(c1, c2)
    case (Bin(o1, _, _), Bin(o2, _, _)) =>
      o1 == o2 &&
      var (r1, r2) := EliminateEq(e1, e2);
      r1.Sym? && r2.Sym? && r1.s == r2.s
    case _ => false
  }

  /** expr_eliminate_eq on non-NULL expressions. */
  function EliminateEq(e1: Expr, e2: Expr): (r: (Expr, Expr))
    ensures r.0.Size() <= e1.Size() && r.1.Size() <= e2.Size()
    decreases e1.Size() + e2.Size(), 2
  {
    var (a1, a2) := FirstSwitch(e1, e2);
    var (b1, b2) := SecondSwitch(a1, a2);
    (EliminateYn(b1), EliminateYn(b2))
  }

  /** Its walk at the kind of the first expression ... */
  function FirstSwitch(e1: Expr, e2: Expr): (r: (Expr, Expr))
    ensures r.0.Size() <= e1.Size() && r.1.Size() <= e2.Size()
    decreases e1.Size() + e2.Size(), 1
  {
    if e1.Bin? then EliminateEq1(e1.op, e1, e2) else (e1, e2)
  }

  /** ... and at the kind of the second one, if that is another. */
  function SecondSwitch(e1: Expr, e2: Expr): (r: (Expr, Expr))
    ensures r.0.Size() <= e1.Size() && r.1.Size() <= e2.Size()
    decreases e1.Size() + e2.Size(), 1
  {
    if e2.Bin? && !e1.IsOp(e2.op) then EliminateEq1(e2.op, e1, e2) else (e1, e2)
  }

  /** __expr_eliminate_eq: every leaf of e1 against every leaf of e2, in order. */
  function EliminateEq1(op: BoolOp, e1: Expr, e2: Expr): (r: (Expr, Expr))
    ensures r.0.Size() <= e1.Size() && r.1.Size() <= e2.Size()
    decreases e1.Size() + e2.Size(), Rank(op, e1, e2)
  {
    if e1.IsOp(op) then
      var (l, a2) := EliminateEq1(op, e1.l, e2);
      var (r, b2) := EliminateEq1(op, e1.r, a2);
      (Bin(op, l, r), b2)
    else if e2.IsOp(op) then
      var (a1, l) := EliminateEq1(op, e1, e2.l);
      var (b1, r) := EliminateEq1(op, a1, e2.r);
      (b1, Bin(op, l, r))
    else if e1 == e2 && IsYn(e1) then (e1, e2)
    else if ExprEq(e1, e2) then (Sym(op.Neutral()), Sym(op.Neutral()))
    else (e1, e2)
  }

  /** expr_eq is sound: what it calls equal has the same value under every assignment. */
  lemma {:induction false} ExprEqSound(e1: Expr, e2: Expr, env: Env)
    requires ExprEq(e1, e2)
    ensures Value(e1, env) == Value(e2, env)
    decreases e1.Size() + e2.Size(), 3
  {
    match (e1, e2)
    case (Not(c1), Not(c2)) => ExprEqSound(c1, c2, env);
    case (Bin(o1, _, _), Bin(o2, _, _)) =>
      var (a1, a2) := EliminateEq1(o1, e1, e2);
      var c := EliminateEq1Factors(o1, e1, e2, env);
      EliminateEq1KeepsRoots(o1, e1, e2);
      assert FirstSwitch(e1, e2) == (a1, a2) && SecondSwitch(a1, a2) == (a1, a2);
      EliminateYnKeepsValue(a1, env);
      EliminateYnKeepsValue(a2, env);
    case _ =>
  }

  /** An operand that is itself an AND or OR of the walked kind stays one. */
  lemma EliminateEq1KeepsRoots(op: BoolOp, e1: Expr, e2: Expr)
    ensures e1.IsOp(op) ==> EliminateEq1(op, e1, e2).0.IsOp(op)
    ensures e2.IsOp(op) ==> EliminateEq1(op, e1, e2).1.IsOp(op)
    decreases e1.Size() + e2.Size()
  {
    if e1.IsOp(op) {
      EliminateEq1KeepsRoots(op, e1.l, e2);
      EliminateEq1KeepsRoots(op, e1.r, EliminateEq1(op, e1.l, e2).1);
    }
  }

  lemma FactorTwice(op: BoolOp, x: Tristate, y: Tristate, z: Tristate, c1: Tristate, c2: Tristate)
      returns (c: Tristate)
    ensures op.Apply(op.Apply(x, c1), op.Apply(y, c2)) == op.Apply(op.Apply(x, y), c)
    ensures op.Apply(op.Apply(z, c2), c1) == op.Apply(z, c)
  {
    c := op.Apply(c1, c2);
  }

  /**
   What __expr_eliminate_eq takes out of the two expressions has one and the
   same value c: each original is its remainder joined with c.
   */
  lemma {:induction false} EliminateEq1Factors(op: BoolOp, e1: Expr, e2: Expr, env: Env) returns (c: Tristate)
    ensures Value(e1, env) == op.Apply(Value(EliminateEq1(op, e1, e2).0, env), c)
    ensures Value(e2, env) == op.Apply(Value(EliminateEq1(op, e1, e2).1, env), c)
    decreases e1.Size() + e2.Size(), Rank(op, e1, e2)
  {
    if e1.IsOp(op) {
      var (l, a2) := EliminateEq1(op, e1.l, e2);
      var (r, b2) := EliminateEq1(op, e1.r, a2);
      var c1 := EliminateEq1Factors(op, e1.l, e2, env);
      var c2 := EliminateEq1Factors(op, e1.r, a2, env);
      c := FactorTwice(op, Value(l, env), Value(r, env), Value(b2, env), c1, c2);
      assert EliminateEq1(op, e1, e2) == (Bin(op, l, r), b2);
    } else if e2.IsOp(op) {
      var (a1, l) := EliminateEq1(op, e1, e2.l);
      var (b1, r) := EliminateEq1(op, a1, e2.r);
      var c1 := EliminateEq1Factors(op, e1, e2.l, env);
      var c2 := EliminateEq1Factors(op, a1, e2.r, env);
      c := FactorTwice(op, Value(l, env), Value(r, env), Value(b1, env), c1, c2);
      assert EliminateEq1(op, e1, e2) == (b1, Bin(op, l, r));
    } else if !(e1 == e2 && IsYn(e1)) && ExprEq(e1, e2) {
      ExprEqSound(e1, e2, env);
      c := Value(e1, env);
    } else {
      c := op.NeutralValue();
    }
  }

  /**
   The use menu_finalize makes of expr_eliminate_eq: when nothing but y is left
   of the second expression, the first implies the second, in every assignment.
   */
  lemma EliminateEqResidual(e1: Expr, e2: Expr, env: Env)
    requires EliminateEq(e1, e2).1 == Sym(SYMBOL_YES)
    ensures Value(e1, env) <= Value(e2, env)
  {
    var (a1, a2) := FirstSwitch(e1, e2);
    var (b1, b2) := SecondSwitch(a1, a2);
    assert EliminateYn(b2) == Sym(SYMBOL_YES);
    EliminateYnKeepsValue(b2, env);
    assert Value(b1, env) <= Value(b2, env);
    if a2.Bin? && !a1.IsOp(a2.op) { FactorsMonotone(a2.op, a1, a2, b1, b2, env); }
    if e1.Bin? { FactorsMonotone(e1.op, e1, e2, a1, a2, env); }
  }

  lemma FactorsMonotone(op: BoolOp, e1: Expr, e2: Expr, a1: Expr, a2: Expr, env: Env)
    requires (a1, a2) == EliminateEq1(op, e1, e2) && Value(a1, env) <= Value(a2, env)
    ensures Value(e1, env) <= Value(e2, env)
  {
    var c := EliminateEq1Factors(op, e1, e2, env);
    ApplyMonotone(op, Value(a1, env), Value(a2, env), c);
  }

  lemma ApplyMonotone(op: BoolOp, x: Tristate, y: Tristate, c: Tristate)
    requires x <= y
    ensures op.Apply(x, c) <= op.Apply(y, c)
  {
  }
}

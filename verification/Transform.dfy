/**
 expr_transform: negation push-down and removal of comparisons of bool symbols.
 */
module Transforms {
  import opened Tristates
  import opened Exprs

  /**
   Termination measure of Transform. De Morgan steps add nodes, so node count
   does not decrease; this weight lets a negation outweigh the two it becomes.
   */
  function Weight(e: Expr): (w: nat)
    ensures w >= 1
  {
    match e
    case Sym(_) => 1
    case Cmp(_, _, _) => 3
    case Not(c) => 2 * Weight(c)
    case Bin(_, l, r) => 1 + Weight(l) + Weight(r)
  }

  lemma DeMorganWeight(op: BoolOp, x: Expr, y: Expr)
    ensures Weight(Bin(op.Dual(), Not(x), Not(y))) < 2 * Weight(Bin(op, x, y))
  {
    assert Weight(Not(x)) == 2 * Weight(x) && Weight(Not(y)) == 2 * Weight(y);
  }

  /** The second switch of expr_transform on a comparison. */
  function TransformCmp(rel: RelOp, a: Symbol, b: Symbol): (r: Expr)
    ensures Weight(r) <= 3
  {
    if a.typ != S_BOOLEAN then Cmp(rel, a, b)
    else if rel == EQUAL && b == SYMBOL_NO then Not(Sym(a))
    else if rel == EQUAL && b == SYMBOL_MOD then Sym(SYMBOL_NO)
    else if rel == EQUAL && b == SYMBOL_YES then Sym(a)
    else if rel == UNEQUAL && b == SYMBOL_NO then Sym(a)
    else if rel == UNEQUAL && b == SYMBOL_MOD then Sym(SYMBOL_YES)
    else if rel == UNEQUAL && b == SYMBOL_YES then Not(Sym(a))
    else Cmp(rel, a, b)
  }

  function NotConst(s: Symbol): Expr {
    if s == SYMBOL_YES then Sym(SYMBOL_NO)
    else if s == SYMBOL_MOD then Sym(SYMBOL_MOD)
    else if s == SYMBOL_NO then Sym(SYMBOL_YES)
    else Not(Sym(s))
  }

  /** expr_transform: children first, then one rewrite at the root, which may start over. */
  function Transform(e: Expr): (r: Expr)
    ensures Weight(r) <= Weight(e)
    decreases Weight(e), 1
  {
    match e
    case Sym(_) => e
    case Cmp(rel, a, b) => TransformCmp(rel, a, b)
    case Bin(op, x, y) => Bin(op, Transform(x), Transform(y))
    case Not(c) => TransformNot(Transform(c))
  }

  /** The E_NOT case, once the operand c has been transformed. */
  function TransformNot(c: Expr): (r: Expr)
    ensures Weight(r) <= 2 * Weight(c)
    decreases 2 * Weight(c), 0
  {
    match c
    case Not(a) => Transform(a)
    case Cmp(rel, a, b) => Cmp(rel.Negated(), a, b)
    case Bin(op, x, y) => DeMorganWeight(op, x, y); Transform(Bin(op.Dual(), Not(x), Not(y)))
    case Sym(s) => NotConst(s)
  }

  /** A comparison that expr_transform leaves alone. */
  predicate KeptCmp(rel: RelOp, a: Symbol, b: Symbol) {
    !(a.typ == S_BOOLEAN && (rel == EQUAL || rel == UNEQUAL) && IsTriConst(b))
  }

  /** Negation normal form: NOT only directly over a symbol other than y, m, n. */
  predicate Normal(e: Expr) {
    match e
    case Sym(_) => true
    case Cmp(rel, a, b) => KeptCmp(rel, a, b)
    case Bin(_, l, r) => Normal(l) && Normal(r)
    case Not(c) => c.Sym? && !IsTriConst(c.s)
  }

  /** NOT only directly over a symbol: what is left of the normal form once operands have been joined. */
  predicate Nnf(e: Expr) {
    match e
    case Bin(_, l, r) => Nnf(l) && Nnf(r)
    case Not(c) => c.Sym?
    case _ => true
  }

  lemma {:induction false} NormalIsNnf(e: Expr)
    requires Normal(e)
    ensures Nnf(e)
  {
    match e
    case Bin(_, l, r) => NormalIsNnf(l); NormalIsNnf(r);
    case _ =>
  }

  lemma {:induction false} TransformIsNormal(e: Expr)
    ensures Normal(Transform(e))
    decreases Weight(e), 1
  {
    match e
    case Sym(_) =>
    case Cmp(_, _, _) =>
    case Bin(_, x, y) => TransformIsNormal(x); TransformIsNormal(y);
    case Not(c) => TransformIsNormal(c); TransformNotIsNormal(Transform(c));
  }

  lemma {:induction false} TransformNotIsNormal(c: Expr)
    requires Normal(c)
    ensures Normal(TransformNot(c))
    decreases 2 * Weight(c), 0
  {
    match c
    case Not(a) => TransformIsNormal(a);
    case Bin(op, x, y) => DeMorganWeight(op, x, y); TransformIsNormal(Bin(op.Dual(), Not(x), Not(y)));
    case _ =>
  }

  /** Normal forms are exactly the fixed points of Transform. */
  lemma {:induction false} NormalIffFixed(e: Expr)
    ensures Normal(e) <==> Transform(e) == e
  {
    TransformIsNormal(e);
    if Normal(e) { NormalIsFixed(e); }
  }

  lemma {:induction false} NormalIsFixed(e: Expr)
    requires Normal(e)
    ensures Transform(e) == e
  {
    match e
    case Bin(_, l, r) => NormalIsFixed(l); NormalIsFixed(r);
    case Not(c) => assert Transform(c) == c;
    case _ =>
  }

  lemma TransformIdempotent(e: Expr)
    ensures Transform(Transform(e)) == Transform(e)
  {
    TransformIsNormal(e);
    NormalIsFixed(Transform(e));
  }

  /** Transform stays inside the well-formed expressions. */
  lemma {:induction false} TransformWf(e: Expr)
    requires WfExpr(e)
    ensures WfExpr(Transform(e))
    decreases Weight(e), 1
  {
    match e
    case Bin(_, x, y) => TransformWf(x); TransformWf(y);
    case Not(c) => TransformWf(c); TransformNotWf(Transform(c));
    case _ =>
  }

  lemma {:induction false} TransformNotWf(c: Expr)
    requires WfExpr(c)
    ensures WfExpr(TransformNot(c))
    decreases 2 * Weight(c), 0
  {
    match c
    case Not(a) => TransformWf(a);
    case Bin(op, x, y) => DeMorganWeight(op, x, y); TransformWf(Bin(op.Dual(), Not(x), Not(y)));
    case _ =>
  }

  /** expr_transform keeps the value of every well-formed expression under every well-formed assignment. */
  lemma {:induction false} TransformKeepsValue(e: Expr, env: Env)
    requires WfExpr(e) && WfEnv(env)
    ensures Value(Transform(e), env) == Value(e, env)
    decreases Weight(e), 1
  {
    match e
    case Sym(_) =>
    case Cmp(rel, a, b) => TransformCmpKeepsValue(rel, a, b, env);
    case Bin(_, x, y) => TransformKeepsValue(x, env); TransformKeepsValue(y, env);
    case Not(c) =>
      TransformKeepsValue(c, env);
      TransformWf(c);
      TransformNotKeepsValue(Transform(c), env);
  }

  lemma {:induction false} TransformNotKeepsValue(c: Expr, env: Env)
    requires WfExpr(c) && WfEnv(env)
    ensures Value(TransformNot(c), env) == Not3(Value(c, env))
    decreases 2 * Weight(c), 0
  {
    match c
    case Not(a) => TransformKeepsValue(a, env);
    case Cmp(rel, a, b) => NegatedCompare(rel, a, b, env);
    case Bin(op, x, y) =>
      DeMorganWeight(op, x, y);
      TransformKeepsValue(Bin(op.Dual(), Not(x), Not(y)), env);
    case Sym(_) =>
  }

  lemma TransformCmpKeepsValue(rel: RelOp, a: Symbol, b: Symbol, env: Env)
    requires WfExpr(Cmp(rel, a, b)) && WfEnv(env)
    ensures Value(TransformCmp(rel, a, b), env) == Compare(rel, a, b, env)
  {
    if a.typ == S_BOOLEAN && IsTriConst(b) {
      CompareTri(rel, a, b, env);
    }
  }
}

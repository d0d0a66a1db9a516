/**
 Positions in the part of an expression made of nodes of one kind: its spine.
 The operands of a nested AND (or OR) are the leaves of its spine.
 */
module Spines {
  import opened Tristates
  import opened Exprs
  import opened EliminateEqs

  /** Which way to turn at each node: false is left. */
  type Path = seq<bool>

  function Child(t: Expr, right: bool): Expr
    requires t.Bin?
  {
    if right then t.r else t.l
  }

  predicate InSpine(op: BoolOp, t: Expr, p: Path) {
    p == [] || (t.IsOp(op) && InSpine(op, Child(t, p[0]), p[1..]))
  }

  function At(op: BoolOp, t: Expr, p: Path): Expr
    requires InSpine(op, t, p)
  {
    if p == [] then t else At(op, Child(t, p[0]), p[1..])
  }

  function Put(op: BoolOp, t: Expr, p: Path, x: Expr): Expr
    requires InSpine(op, t, p)
  {
    if p == [] then x
    else if p[0] then Bin(op, t.l, Put(op, t.r, p[1..], x))
    else Bin(op, Put(op, t.l, p[1..], x), t.r)
  }

  /** A position holding an operand. */
  predicate IsLeaf(op: BoolOp, t: Expr, p: Path) {
    InSpine(op, t, p) && !At(op, t, p).IsOp(op)
  }

  /** Number of spine nodes. */
  function SpineSize(op: BoolOp, t: Expr): nat {
    if t.IsOp(op) then 1 + SpineSize(op, t.l) + SpineSize(op, t.r) else 0
  }

  function Max(a: nat, b: nat): nat { if a < b then b else a }

  /**
   How often the kind of node changes on the way down, below the op spine. A
   walk may copy a high operand to a deep place, so heights can grow; this cannot.
   */
  function Alternation(op: BoolOp, t: Expr): nat
    decreases t
  {
    if t.IsOp(op) then Max(Alternation(op, t.l), Alternation(op, t.r))
    else if t.Bin? then 1 + Max(Alternation(t.op, t.l), Alternation(t.op, t.r))
    else 0
  }

  /** t and u have their op nodes at the same places; only the operands may differ. */
  predicate SameSpine(op: BoolOp, t: Expr, u: Expr) {
    t.IsOp(op) == u.IsOp(op) && (t.IsOp(op) ==> SameSpine(op, t.l, u.l) && SameSpine(op, t.r, u.r))
  }

  lemma {:induction false} SpineStep(op: BoolOp, t: Expr, p: Path, right: bool)
    requires InSpine(op, t, p) && At(op, t, p).IsOp(op)
    ensures InSpine(op, t, p + [right]) && At(op, t, p + [right]) == Child(At(op, t, p), right)
  {
    if p != [] {
      SpineStep(op, Child(t, p[0]), p[1..], right);
      assert (p + [right])[1..] == p[1..] + [right];
    }
  }

  lemma {:induction false} SameSpineAt(op: BoolOp, t: Expr, u: Expr, p: Path)
    requires SameSpine(op, t, u) && InSpine(op, t, p)
    ensures InSpine(op, u, p) && SameSpine(op, At(op, t, p), At(op, u, p))
    ensures SpineSize(op, At(op, t, p)) == SpineSize(op, At(op, u, p))
  {
    if p != [] { SameSpineAt(op, Child(t, p[0]), Child(u, p[0]), p[1..]); }
    else { SameSpineSize(op, t, u); }
  }

  lemma {:induction false} SameSpineSize(op: BoolOp, t: Expr, u: Expr)
    requires SameSpine(op, t, u)
    ensures SpineSize(op, t) == SpineSize(op, u)
  {
    if t.IsOp(op) { SameSpineSize(op, t.l, u.l); SameSpineSize(op, t.r, u.r); }
  }

  lemma {:induction false} SameSpineReflexive(op: BoolOp, t: Expr)
    ensures SameSpine(op, t, t)
  {
    if t.IsOp(op) { SameSpineReflexive(op, t.l); SameSpineReflexive(op, t.r); }
  }

  lemma {:induction false} SameSpineTransitive(op: BoolOp, t: Expr, u: Expr, v: Expr)
    requires SameSpine(op, t, u) && SameSpine(op, u, v)
    ensures SameSpine(op, t, v)
  {
    if t.IsOp(op) { SameSpineTransitive(op, t.l, u.l, v.l); SameSpineTransitive(op, t.r, u.r, v.r); }
  }

  lemma {:induction false} LeafAlternation(op: BoolOp, t: Expr, p: Path)
    requires IsLeaf(op, t, p)
    ensures Alternation(op, At(op, t, p)) <= Alternation(op, t)
  {
    if p != [] { LeafAlternation(op, Child(t, p[0]), p[1..]); }
  }

  /** Replacing one operand by another. */
  lemma {:induction false} PutLeaf(op: BoolOp, t: Expr, p: Path, x: Expr)
    requires IsLeaf(op, t, p) && !x.IsOp(op)
    ensures InSpine(op, Put(op, t, p, x), p) && At(op, Put(op, t, p, x), p) == x
    ensures SameSpine(op, t, Put(op, t, p, x))
    ensures Alternation(op, Put(op, t, p, x)) <= Max(Alternation(op, t), Alternation(op, x))
    ensures Put(op, t, p, x).Size() == t.Size() - At(op, t, p).Size() + x.Size()
  {
    if p != [] {
      PutLeaf(op, Child(t, p[0]), p[1..], x);
      SameSpineReflexive(op, t.l);
      SameSpineReflexive(op, t.r);
    }
  }

  /** ... leaves every other operand alone. */
  lemma {:induction false} PutElsewhere(op: BoolOp, t: Expr, p: Path, x: Expr, q: Path)
    requires IsLeaf(op, t, p) && !x.IsOp(op) && IsLeaf(op, t, q) && p != q
    ensures IsLeaf(op, Put(op, t, p, x), q) && At(op, Put(op, t, p, x), q) == At(op, t, q)
  {
    if p != [] && q != [] && p[0] == q[0] {
      assert p == [p[0]] + p[1..] && q == [q[0]] + q[1..];
      PutElsewhere(op, Child(t, p[0]), p[1..], x, q[1..]);
    }
  }

  /** ... and is forgotten when the same place is replaced again. */
  lemma {:induction false} PutPut(op: BoolOp, t: Expr, p: Path, x: Expr, y: Expr, q: Path)
    requires IsLeaf(op, t, p) && !x.IsOp(op) && !y.IsOp(op) && IsLeaf(op, t, q) && p != q
    ensures IsLeaf(op, Put(op, t, p, x), p) && Put(op, Put(op, t, p, x), p, y) == Put(op, t, p, y)
    ensures At(op, Put(op, t, p, x), p) == x
    ensures IsLeaf(op, Put(op, t, p, x), q) && At(op, Put(op, t, p, x), q) == At(op, t, q)
    ensures IsLeaf(op, Put(op, t, p, y), q)
  {
    PutLeaf(op, t, p, x);
    PutElsewhere(op, t, p, x, q);
    PutElsewhere(op, t, p, y, q);
    PutTwice(op, t, p, x, y);
  }

  lemma {:induction false} PutTwice(op: BoolOp, t: Expr, p: Path, x: Expr, y: Expr)
    requires InSpine(op, t, p) && InSpine(op, Put(op, t, p, x), p)
    ensures Put(op, Put(op, t, p, x), p, y) == Put(op, t, p, y)
  {
    if p != [] { PutTwice(op, Child(t, p[0]), p[1..], x, y); }
  }

  /** ... and keeps a foldable place, if the operand it replaces held none or the new one holds one. */
  lemma {:induction false} PutFoldable(op: BoolOp, t: Expr, p: Path, x: Expr)
    requires IsLeaf(op, t, p)
    ensures p != [] && IsYn(x) ==> Foldable(Put(op, t, p, x))
    ensures Foldable(t) && (Foldable(At(op, t, p)) ==> Foldable(x)) && (IsYn(At(op, t, p)) ==> IsYn(x)) ==>
      Foldable(Put(op, t, p, x))
  {
    if p != [] { PutFoldable(op, Child(t, p[0]), p[1..], x); }
  }

  /** The value of everything in t but the operand at p. */
  function Around(op: BoolOp, t: Expr, p: Path, env: Env): Tristate
    requires InSpine(op, t, p)
  {
    if p == [] then op.NeutralValue()
    else op.Apply(Value(Child(t, !p[0]), env), Around(op, Child(t, p[0]), p[1..], env))
  }

  lemma {:induction false} PutValue(op: BoolOp, t: Expr, p: Path, x: Expr, env: Env)
    requires InSpine(op, t, p)
    ensures Value(Put(op, t, p, x), env) == op.Apply(Value(x, env), Around(op, t, p, env))
  {
    if p != [] {
      PutValue(op, Child(t, p[0]), p[1..], x, env);
      Reassociate(op, Value(x, env), Value(Child(t, !p[0]), env), Around(op, Child(t, p[0]), p[1..], env));
    }
  }

  lemma Reassociate(op: BoolOp, x: Tristate, s: Tristate, a: Tristate)
    ensures op.Apply(s, op.Apply(x, a)) == op.Apply(op.Apply(x, a), s) == op.Apply(x, op.Apply(s, a))
  {
  }

  lemma {:induction false} PutBack(op: BoolOp, t: Expr, p: Path)
    requires InSpine(op, t, p)
    ensures Put(op, t, p, At(op, t, p)) == t
  {
    if p != [] { PutBack(op, Child(t, p[0]), p[1..]); }
  }

  /** Replacing two operands by two others of the same joint value keeps the value of the whole. */
  lemma {:induction false} PutTwoKeepsValue(op: BoolOp, t: Expr, p: Path, x: Expr, q: Path, y: Expr, env: Env)
    requires IsLeaf(op, t, p) && IsLeaf(op, t, q) && p != q && !x.IsOp(op)
    requires op.Apply(Value(x, env), Value(y, env)) == op.Apply(Value(At(op, t, p), env), Value(At(op, t, q), env))
    ensures InSpine(op, Put(op, t, p, x), q)
    ensures Value(Put(op, Put(op, t, p, x), q, y), env) == Value(t, env)
  {
    PutElsewhere(op, t, p, x, q);
    assert p != [] && q != [];
    var a, b := Child(t, p[0]), Child(t, q[0]);
    if p[0] == q[0] {
      assert p == [p[0]] + p[1..] && q == [q[0]] + q[1..];
      PutTwoKeepsValue(op, a, p[1..], x, q[1..], y, env);
    } else {
      PutBack(op, a, p[1..]); PutBack(op, b, q[1..]);
      PutValue(op, a, p[1..], x, env); PutValue(op, a, p[1..], At(op, t, p), env);
      PutValue(op, b, q[1..], y, env); PutValue(op, b, q[1..], At(op, t, q), env);
      Regroup(op, Value(x, env), Value(y, env), Value(At(op, t, p), env), Value(At(op, t, q), env),
        Around(op, a, p[1..], env), Around(op, b, q[1..], env));
    }
  }

  lemma Regroup(op: BoolOp, x: Tristate, y: Tristate, u: Tristate, v: Tristate, c: Tristate, d: Tristate)
    requires op.Apply(x, y) == op.Apply(u, v)
    ensures op.Apply(op.Apply(x, c), op.Apply(y, d)) == op.Apply(op.Apply(u, c), op.Apply(v, d))
    ensures op.Apply(op.Apply(y, d), op.Apply(x, c)) == op.Apply(op.Apply(v, d), op.Apply(u, c))
  {
    Exchange(op, x, c, y, d);
    Exchange(op, u, c, v, d);
  }

  lemma Exchange(op: BoolOp, x: Tristate, c: Tristate, y: Tristate, d: Tristate)
    ensures op.Apply(op.Apply(x, c), op.Apply(y, d)) == op.Apply(op.Apply(x, y), op.Apply(c, d))
    ensures op.Apply(op.Apply(y, d), op.Apply(x, c)) == op.Apply(op.Apply(x, y), op.Apply(c, d))
  {
  }
}

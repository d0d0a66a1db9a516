/**
 expr_eliminate_dups1 and expr_eliminate_dups: joining of redundant operands by
 walking one tree against itself. The two pointers of the walk point into the
 same tree, so here there is one tree and two positions in it.
 */
module EliminateDups {
  import opened Exprs
  import opened EliminateEqs
  import opened Joins
  import opened Spines

  /**
   expr_eliminate_dups1(op, &p, &q) in the tree t: the tree afterwards, and by
   how much trans_count grew. The test e1 == e2 on pointers is p == q.
   */
  function Dups1(op: BoolOp, t: Expr, p: Path, q: Path): (r: (Expr, nat))
    requires InSpine(op, t, p) && InSpine(op, t, q)
    ensures SameSpine(op, t, r.0) && Alternation(op, r.0) <= Alternation(op, t)
    decreases Alternation(op, t), SpineSize(op, At(op, t, p)) + SpineSize(op, At(op, t, q))
  {
    var e1, e2 := At(op, t, p), At(op, t, q);
    if e1.IsOp(op) then
      SpineStep(op, t, p, false);
      var (t1, c1) := Dups1(op, t, p + [false], q);
      SecondStep(op, t, t1, p, q);
      var (t2, c2) := Dups1(op, t1, p + [true], q);
      SameSpineTransitive(op, t, t1, t2);
      (t2, c1 + c2)
    else if e2.IsOp(op) then
      SpineStep(op, t, q, false);
      var (t1, c1) := Dups1(op, t, p, q + [false]);
      SecondStep(op, t, t1, q, p);
      var (t2, c2) := Dups1(op, t1, p, q + [true]);
      SameSpineTransitive(op, t, t1, t2);
      (t2, c1 + c2)
    else if p == q then
      SameSpineReflexive(op, t);
      (t, 0)
    else
      LeafAlternation(op, t, p);
      var (n1, c1) := if e1.Bin? then Dups1(e1.op, e1, [], []) else (e1, 0);
      JoinLeaves(op, t, p, q, n1, c1)
  }

  /** The end of a walk step: two different operands, the first (walked on its own) now being n1. */
  function JoinLeaves(op: BoolOp, t: Expr, p: Path, q: Path, n1: Expr, c1: nat): (r: (Expr, nat))
    requires IsLeaf(op, t, p) && IsLeaf(op, t, q) && p != q && !n1.IsOp(op)
    requires Alternation(op, n1) <= Alternation(op, At(op, t, p))
    ensures SameSpine(op, t, r.0) && Alternation(op, r.0) <= Alternation(op, t)
  {
    var e2 := At(op, t, q);
    var j := Join(op, n1, e2);
    if j.Some? then
      PutLeaf(op, t, p, Sym(op.Neutral()));
      PutElsewhere(op, t, p, Sym(op.Neutral()), q);
      var t1 := Put(op, t, p, Sym(op.Neutral()));
      JoinShape(op, n1, e2);
      PutLeaf(op, t1, q, j.value);
      LeafAlternation(op, t, p);
      var t2 := Put(op, t1, q, j.value);
      SameSpineTransitive(op, t, t1, t2);
      (t2, c1 + 1)
    else
      PutLeaf(op, t, p, n1);
      LeafAlternation(op, t, p);
      (Put(op, t, p, n1), c1)
  }

  /** The nested walk over an operand that is itself an AND or OR. */
  function Nested(e: Expr): (Expr, nat) {
    if e.Bin? then Dups1(e.op, e, [], []) else (e, 0)
  }

  /** A walk at two operands, as a nested walk stored back into the tree followed by a join in that tree. */
  lemma Dups1AtLeaves(op: BoolOp, t: Expr, p: Path, q: Path, m: Expr)
    requires IsLeaf(op, t, p) && IsLeaf(op, t, q) && p != q
    requires m == Put(op, t, p, Nested(At(op, t, p)).0)
    ensures IsLeaf(op, m, p) && IsLeaf(op, m, q) && InSpine(op, Put(op, m, p, Sym(op.Neutral())), q)
    ensures var c1 := Nested(At(op, t, p)).1;
      Dups1(op, t, p, q) ==
        match Join(op, At(op, m, p), At(op, m, q))
        case None => (m, c1)
        case Some(j) => (Put(op, Put(op, m, p, Sym(op.Neutral())), q, j), c1 + 1)
  {
    var (n1, c1) := Nested(At(op, t, p));
    PutPut(op, t, p, n1, Sym(op.Neutral()), q);
  }

  lemma SecondStep(op: BoolOp, t: Expr, t1: Expr, p: Path, q: Path)
    requires InSpine(op, t, p) && InSpine(op, t, q) && At(op, t, p).IsOp(op) && SameSpine(op, t, t1)
    ensures InSpine(op, t1, p + [true]) && InSpine(op, t1, q)
    ensures SpineSize(op, At(op, t1, p + [true])) < SpineSize(op, At(op, t, p))
    ensures SpineSize(op, At(op, t1, q)) == SpineSize(op, At(op, t, q))
  {
    SpineStep(op, t, p, true);
    SameSpineAt(op, t, t1, p + [true]);
    SameSpineAt(op, t, t1, q);
  }

  /** A walk never makes the tree larger, and leaves a foldable operand exactly where it joined something. */
  ghost predicate Shrinks(t: Expr, r: (Expr, nat)) {
    && r.0.Size() <= t.Size()
    && (Foldable(t) || r.1 > 0 ==> Foldable(r.0))
    && (r.1 == 0 ==> r.0 == t)
  }

  lemma {:induction false} Dups1Shrinks(op: BoolOp, t: Expr, p: Path, q: Path)
    requires InSpine(op, t, p) && InSpine(op, t, q)
    ensures Shrinks(t, Dups1(op, t, p, q))
    decreases Alternation(op, t), SpineSize(op, At(op, t, p)) + SpineSize(op, At(op, t, q))
  {
    var e1, e2 := At(op, t, p), At(op, t, q);
    if e1.IsOp(op) {
      SpineStep(op, t, p, false);
      Dups1Shrinks(op, t, p + [false], q);
      var t1 := Dups1(op, t, p + [false], q).0;
      SecondStep(op, t, t1, p, q);
      Dups1Shrinks(op, t1, p + [true], q);
    } else if e2.IsOp(op) {
      SpineStep(op, t, q, false);
      Dups1Shrinks(op, t, p, q + [false]);
      var t1 := Dups1(op, t, p, q + [false]).0;
      SecondStep(op, t, t1, q, p);
      Dups1Shrinks(op, t1, p, q + [true]);
    } else if p != q {
      LeafAlternation(op, t, p);
      var (n1, c1) := if e1.Bin? then Dups1(e1.op, e1, [], []) else (e1, 0);
      if e1.Bin? { Dups1Shrinks(e1.op, e1, [], []); }
      JoinLeavesShrinks(op, t, p, q, n1, c1);
    }
  }

  lemma JoinLeavesShrinks(op: BoolOp, t: Expr, p: Path, q: Path, n1: Expr, c1: nat)
    requires IsLeaf(op, t, p) && IsLeaf(op, t, q) && p != q && !n1.IsOp(op)
    requires Alternation(op, n1) <= Alternation(op, At(op, t, p))
    requires Shrinks(At(op, t, p), (n1, c1))
    requires IsYn(At(op, t, p)) ==> n1 == At(op, t, p)
    requires c1 > 0 ==> Foldable(n1)
    ensures Shrinks(t, JoinLeaves(op, t, p, q, n1, c1))
  {
    var e2 := At(op, t, q);
    var j := Join(op, n1, e2);
    PutElsewhere(op, t, p, Sym(op.Neutral()), q);
    assert p != [] && q != [];
    if j.Some? {
      var t1 := Put(op, t, p, Sym(op.Neutral()));
      PutLeaf(op, t, p, Sym(op.Neutral()));
      PutFoldable(op, t, p, Sym(op.Neutral()));
      JoinShape(op, n1, e2);
      PutLeaf(op, t1, q, j.value);
      PutElsewhere(op, t1, q, j.value, p);
      FoldableLeaf(op, Put(op, t1, q, j.value), p);
    } else {
      PutLeaf(op, t, p, n1);
      PutFoldable(op, t, p, n1);
      if c1 > 0 { FoldableLeaf(op, Put(op, t, p, n1), p); } else { PutBack(op, t, p); }
    }
  }

  lemma {:induction false} FoldableLeaf(op: BoolOp, t: Expr, p: Path)
    requires IsLeaf(op, t, p) && (Foldable(At(op, t, p)) || (p != [] && IsYn(At(op, t, p))))
    ensures Foldable(t)
  {
    if p != [] && !(|p| == 1 && IsYn(At(op, t, p))) { FoldableLeaf(op, Child(t, p[0]), p[1..]); }
  }

  /** expr_eliminate_dups: walk and fold until a walk joins nothing. */
  function EliminateDups(e: Expr): (r: Expr)
    decreases e.Size()
  {
    var (t, count) := DupsPass(e);
    if count == 0 then t
    else
      PassShrinks(e);
      EliminateDups(EliminateYn(t))
  }

  /** One iteration of its loop, before the folding. */
  function DupsPass(e: Expr): (Expr, nat) {
    if e.Bin? then Dups1(e.op, e, [], []) else (e, 0)
  }

  /** Why the loop ends: a pass that joined something leaves a constant that folding removes. */
  lemma PassShrinks(e: Expr)
    ensures DupsPass(e).1 > 0 ==> EliminateYn(DupsPass(e).0).Size() < e.Size()
    ensures DupsPass(e).1 == 0 ==> DupsPass(e).0 == e
  {
    if e.Bin? { Dups1Shrinks(e.op, e, [], []); }
    EliminateYnFolds(DupsPass(e).0);
  }

  /** A walk keeps the value of the whole tree, although both positions are in it. */
  lemma {:induction false} Dups1KeepsValue(op: BoolOp, t: Expr, p: Path, q: Path, env: Env)
    requires InSpine(op, t, p) && InSpine(op, t, q)
    requires WfExpr(t) && WfEnv(env)
    ensures WfExpr(Dups1(op, t, p, q).0)
    ensures Value(Dups1(op, t, p, q).0, env) == Value(t, env)
    decreases Alternation(op, t), SpineSize(op, At(op, t, p)) + SpineSize(op, At(op, t, q))
  {
    var e1, e2 := At(op, t, p), At(op, t, q);
    if e1.IsOp(op) {
      SpineStep(op, t, p, false);
      Dups1KeepsValue(op, t, p + [false], q, env);
      var t1 := Dups1(op, t, p + [false], q).0;
      SecondStep(op, t, t1, p, q);
      Dups1KeepsValue(op, t1, p + [true], q, env);
    } else if e2.IsOp(op) {
      SpineStep(op, t, q, false);
      Dups1KeepsValue(op, t, p, q + [false], env);
      var t1 := Dups1(op, t, p, q + [false]).0;
      SecondStep(op, t, t1, q, p);
      Dups1KeepsValue(op, t1, p, q + [true], env);
    } else if p != q {
      LeafAlternation(op, t, p);
      WfAt(op, t, p);
      var (n1, c1) := if e1.Bin? then Dups1(e1.op, e1, [], []) else (e1, 0);
      if e1.Bin? { Dups1KeepsValue(e1.op, e1, [], [], env); }
      JoinLeavesKeepsValue(op, t, p, q, n1, c1, env);
    }
  }

  lemma JoinLeavesKeepsValue(op: BoolOp, t: Expr, p: Path, q: Path, n1: Expr, c1: nat, env: Env)
    requires IsLeaf(op, t, p) && IsLeaf(op, t, q) && p != q && !n1.IsOp(op)
    requires Alternation(op, n1) <= Alternation(op, At(op, t, p))
    requires WfExpr(t) && WfExpr(n1) && WfEnv(env)
    requires Value(n1, env) == Value(At(op, t, p), env)
    ensures WfExpr(JoinLeaves(op, t, p, q, n1, c1).0)
    ensures Value(JoinLeaves(op, t, p, q, n1, c1).0, env) == Value(t, env)
  {
    var e2 := At(op, t, q);
    var j := Join(op, n1, e2);
    WfAt(op, t, q);
    WfPut(op, t, p, n1);
    if j.Some? {
      var neutral := Sym(op.Neutral());
      JoinKeepsValue(op, n1, e2, env);
      JoinShape(op, n1, e2);
      PutTwoKeepsValue(op, t, p, neutral, q, j.value, env);
      WfPut(op, t, p, neutral);
      WfPut(op, Put(op, t, p, neutral), q, j.value);
    } else {
      PutBack(op, t, p);
      PutValue(op, t, p, n1, env);
      PutValue(op, t, p, At(op, t, p), env);
    }
  }

  lemma {:induction false} WfAt(op: BoolOp, t: Expr, p: Path)
    requires InSpine(op, t, p) && WfExpr(t)
    ensures WfExpr(At(op, t, p))
  {
    if p != [] { WfAt(op, Child(t, p[0]), p[1..]); }
  }

  lemma {:induction false} WfPut(op: BoolOp, t: Expr, p: Path, x: Expr)
    requires InSpine(op, t, p) && WfExpr(t) && WfExpr(x)
    ensures WfExpr(Put(op, t, p, x))
  {
    if p != [] { WfPut(op, Child(t, p[0]), p[1..], x); }
  }

  /** expr_eliminate_dups keeps the value of every well-formed expression under every well-formed assignment. */
  lemma {:induction false} EliminateDupsKeepsValue(e: Expr, env: Env)
    requires WfExpr(e) && WfEnv(env)
    ensures WfExpr(EliminateDups(e)) && Value(EliminateDups(e), env) == Value(e, env)
    decreases e.Size()
  {
    var (t, count) := DupsPass(e);
    if e.Bin? { Dups1KeepsValue(e.op, e, [], [], env); }
    if count != 0 {
      PassShrinks(e);
      EliminateYnKeepsValue(t, env);
      EliminateYnWf(t);
      EliminateDupsKeepsValue(EliminateYn(t), env);
    }
  }

  /** What is left has no operand to join and is a fixed point. */
  lemma {:induction false} EliminateDupsIsFixed(e: Expr)
    ensures DupsPass(EliminateDups(e)).1 == 0
    ensures EliminateDups(EliminateDups(e)) == EliminateDups(e)
    decreases e.Size()
  {
    PassShrinks(e);
    if DupsPass(e).1 != 0 { EliminateDupsIsFixed(EliminateYn(DupsPass(e).0)); }
  }
}

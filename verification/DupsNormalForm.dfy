/** expr_eliminate_dups keeps negations where they are: at symbols. */
module DupsNormalForm {
  import opened Exprs
  import opened Transforms
  import opened EliminateEqs
  import opened Joins
  import opened Spines
  import opened EliminateDups

  lemma {:induction false} EliminateYnNnf(e: Expr)
    requires Nnf(e)
    ensures Nnf(EliminateYn(e))
  {
    match e
    case Bin(_, x, y) => EliminateYnNnf(x); EliminateYnNnf(y);
    case _ =>
  }

  lemma {:induction false} NnfAt(op: BoolOp, t: Expr, p: Path)
    requires InSpine(op, t, p) && Nnf(t)
    ensures Nnf(At(op, t, p))
  {
    if p != [] { NnfAt(op, Child(t, p[0]), p[1..]); }
  }

  lemma {:induction false} NnfPut(op: BoolOp, t: Expr, p: Path, x: Expr)
    requires InSpine(op, t, p) && Nnf(t) && Nnf(x)
    ensures Nnf(Put(op, t, p, x))
  {
    if p != [] { NnfPut(op, Child(t, p[0]), p[1..], x); }
  }

  lemma {:induction false} Dups1KeepsNnf(op: BoolOp, t: Expr, p: Path, q: Path)
    requires InSpine(op, t, p) && InSpine(op, t, q) && Nnf(t)
    ensures Nnf(Dups1(op, t, p, q).0)
    decreases Alternation(op, t), SpineSize(op, At(op, t, p)) + SpineSize(op, At(op, t, q))
  {
    var e1, e2 := At(op, t, p), At(op, t, q);
    if e1.IsOp(op) {
      SpineStep(op, t, p, false);
      Dups1KeepsNnf(op, t, p + [false], q);
      var t1 := Dups1(op, t, p + [false], q).0;
      SecondStep(op, t, t1, p, q);
      Dups1KeepsNnf(op, t1, p + [true], q);
    } else if e2.IsOp(op) {
      SpineStep(op, t, q, false);
      Dups1KeepsNnf(op, t, p, q + [false]);
      var t1 := Dups1(op, t, p, q + [false]).0;
      SecondStep(op, t, t1, q, p);
      Dups1KeepsNnf(op, t1, p, q + [true]);
    } else if p != q {
      LeafAlternation(op, t, p);
      NnfAt(op, t, p);
      var (n1, c1) := if e1.Bin? then Dups1(e1.op, e1, [], []) else (e1, 0);
      if e1.Bin? { Dups1KeepsNnf(e1.op, e1, [], []); }
      JoinLeavesKeepsNnf(op, t, p, q, n1, c1);
    }
  }

  lemma JoinLeavesKeepsNnf(op: BoolOp, t: Expr, p: Path, q: Path, n1: Expr, c1: nat)
    requires IsLeaf(op, t, p) && IsLeaf(op, t, q) && p != q && !n1.IsOp(op)
    requires Alternation(op, n1) <= Alternation(op, At(op, t, p))
    requires Nnf(t) && Nnf(n1)
    ensures Nnf(JoinLeaves(op, t, p, q, n1, c1).0)
  {
    var e2, neutral := At(op, t, q), Sym(op.Neutral());
    var j := Join(op, n1, e2);
    if j.Some? {
      JoinShape(op, n1, e2);
      PutLeaf(op, t, p, neutral);
      PutElsewhere(op, t, p, neutral, q);
      NnfPut(op, t, p, neutral);
      NnfPut(op, Put(op, t, p, neutral), q, j.value);
    } else {
      NnfPut(op, t, p, n1);
    }
  }

  lemma {:induction false} EliminateDupsKeepsNnf(e: Expr)
    requires Nnf(e)
    ensures Nnf(EliminateDups.EliminateDups(e))
    decreases e.Size()
  {
    var (t, count) := DupsPass(e);
    if e.Bin? { Dups1KeepsNnf(e.op, e, [], []); }
    if count != 0 {
      PassShrinks(e);
      EliminateYnNnf(t);
      EliminateDupsKeepsNnf(EliminateYn(t));
    }
  }
}

/**
 The mutually recursive part of expr.c on the heap: expr_eq, expr_eliminate_eq,
 expr_join_or, expr_join_and and expr_eliminate_dups, with their global counter.
 */
module ExprOptimizer {
  import opened Tristates
  import opened Exprs
  import opened EliminateEqs
  import opened Joins
  import opened Spines
  import opened EliminateDups
  import opened ExprNodes
  import opened ExprSlots

  class Optimizer {
    /** trans_count. */
    var transCount: nat

    constructor ()
      ensures transCount == 0
    {
      transCount := 0;
    }

    /** expr_eq: compares copies, so neither expression nor the counter changes. */
    method Eq(e1: Node, e2: Node, ghost d1: Shape, ghost d2: Shape) returns (res: bool)
      requires Rep(d1) && Rep(d2) && e1 == d1.n && e2 == d2.n
      modifies this
      ensures transCount == old(transCount)
      ensures res == ExprEq(View(d1), View(d2))
      decreases View(d1).Size() + View(d2).Size(), 3
    {
      if e1.kind != e2.kind { return false; }
      match e1.kind
      case KCmp(_) => res := e1.lsym == e2.lsym && e1.rsym == e2.rsym;
      case KSym => res := e1.lsym == e2.lsym;
      case KNot => res := Eq(e1.left, e2.left, d1.c, d2.c);
      case KBin(_) =>
        var oldCount := transCount;
        res := EqCopies(e1, e2, d1, d2);
        transCount := oldCount;
    }

    /** Its case of two ANDs or two ORs. */
    method EqCopies(e1: Node, e2: Node, ghost d1: Shape, ghost d2: Shape) returns (res: bool)
      requires Rep(d1) && Rep(d2) && e1 == d1.n && e2 == d2.n
      modifies this
      ensures var (r1, r2) := EliminateEq(View(d1), View(d2)); res == (r1.Sym? && r2.Sym? && r1.s == r2.s)
      decreases View(d1).Size() + View(d2).Size(), 2
    {
      Allocated(d2);
      var c1, dc1 := Copy(e1, d1);
      Allocated(dc1);
      var c2, dc2 := Copy(e2, d2);
      ghost var r1, r2;
      c1, c2, r1, r2 := EliminateEqIn(c1, c2, dc1, dc2);
      res := c1.kind == KSym && c2.kind == KSym && c1.lsym == c2.lsym;
    }

    /** expr_eliminate_eq on non-NULL expressions; the pointers *ep1 and *ep2 are in- and out-parameters. */
    method EliminateEqIn(e1: Node, e2: Node, ghost d1: Shape, ghost d2: Shape)
        returns (f1: Node, f2: Node, ghost r1: Shape, ghost r2: Shape)
      requires Rep(d1) && Rep(d2) && Nodes(d1) !! Nodes(d2) && e1 == d1.n && e2 == d2.n
      modifies this, Nodes(d1), Nodes(d2)
      ensures Rep(r1) && Rep(r2) && Nodes(r1) !! Nodes(r2) && f1 == r1.n && f2 == r2.n
      ensures From(d1, r1) && From(d2, r2)
      ensures (View(r1), View(r2)) == EliminateEq(View(d1), View(d2))
      decreases View(d1).Size() + View(d2).Size(), 1, 2
    {
      f1, f2, r1, r2 := BothWalks(e1, e2, d1, d2);
      r1, r2 := FoldBoth(f1, f2, r1, r2);
    }

    /** Its two switches. */
    method BothWalks(e1: Node, e2: Node, ghost d1: Shape, ghost d2: Shape)
        returns (f1: Node, f2: Node, ghost r1: Shape, ghost r2: Shape)
      requires Rep(d1) && Rep(d2) && Nodes(d1) !! Nodes(d2) && e1 == d1.n && e2 == d2.n
      modifies this, Nodes(d1), Nodes(d2)
      ensures Rep(r1) && Rep(r2) && Nodes(r1) !! Nodes(r2) && f1 == r1.n && f2 == r2.n
      ensures From(d1, r1) && From(d2, r2)
      ensures var (a1, a2) := FirstSwitch(View(d1), View(d2)); (View(r1), View(r2)) == SecondSwitch(a1, a2)
      decreases View(d1).Size() + View(d2).Size(), 1, 1
    {
      f1, f2, r1, r2 := FirstWalk(e1, e2, d1, d2);
      Allocated(r1); Allocated(r2);
      if f2.kind.KBin? && f1.kind != f2.kind {
        f1, f2, r1, r2 := EliminateEq1In(f2.kind.op, f1, f2, r1, r2);
      }
    }

    /** Its first switch. */
    method FirstWalk(e1: Node, e2: Node, ghost d1: Shape, ghost d2: Shape)
        returns (f1: Node, f2: Node, ghost r1: Shape, ghost r2: Shape)
      requires Rep(d1) && Rep(d2) && Nodes(d1) !! Nodes(d2) && e1 == d1.n && e2 == d2.n
      modifies this, Nodes(d1), Nodes(d2)
      ensures Rep(r1) && Rep(r2) && Nodes(r1) !! Nodes(r2) && f1 == r1.n && f2 == r2.n
      ensures From(d1, r1) && From(d2, r2)
      ensures (View(r1), View(r2)) == FirstSwitch(View(d1), View(d2))
      decreases View(d1).Size() + View(d2).Size(), 1, 0
    {
      f1, f2, r1, r2 := e1, e2, d1, d2;
      if e1.kind.KBin? {
        f1, f2, r1, r2 := EliminateEq1In(e1.kind.op, e1, e2, d1, d2);
      }
    }

    /** Its last two statements. */
    method FoldBoth(e1: Node, e2: Node, ghost d1: Shape, ghost d2: Shape) returns (ghost r1: Shape, ghost r2: Shape)
      requires Rep(d1) && Rep(d2) && Nodes(d1) !! Nodes(d2) && e1 == d1.n && e2 == d2.n
      modifies Nodes(d1), Nodes(d2)
      ensures Rep(r1) && Rep(r2) && e1 == r1.n && e2 == r2.n && Nodes(r1) <= Nodes(d1) && Nodes(r2) <= Nodes(d2)
      ensures View(r1) == EliminateYn(View(d1)) && View(r2) == EliminateYn(View(d2))
    {
      Allocated(d1); Allocated(d2);
      r1 := EliminateYnInPlace(e1, d1);
      r2 := EliminateYnInPlace(e2, d2);
    }

    /** __expr_eliminate_eq. */
    method EliminateEq1In(op: BoolOp, e1: Node, e2: Node, ghost d1: Shape, ghost d2: Shape)
        returns (f1: Node, f2: Node, ghost r1: Shape, ghost r2: Shape)
      requires Rep(d1) && Rep(d2) && Nodes(d1) !! Nodes(d2) && e1 == d1.n && e2 == d2.n
      modifies this, Nodes(d1), Nodes(d2)
      ensures Rep(r1) && Rep(r2) && Nodes(r1) !! Nodes(r2) && f1 == r1.n && f2 == r2.n
      ensures From(d1, r1) && From(d2, r2)
      ensures (View(r1), View(r2)) == EliminateEq1(op, View(d1), View(d2))
      decreases View(d1).Size() + View(d2).Size(), Rank(op, View(d1), View(d2)), 1
    {
      f1, f2 := e1, e2;
      if e1.kind == KBin(op) {
        f2, r1, r2 := BothFirst(op, e1, e2, d1, d2);
      } else if e2.kind == KBin(op) {
        f1, r1, r2 := BothSecond(op, e1, e2, d1, d2);
      } else {
        f1, f2, r1, r2 := EliminateLeaves(op, e1, e2, d1, d2);
      }
    }

    /** Its calls for the two operands of e1. */
    method BothFirst(op: BoolOp, e1: Node, e2: Node, ghost d1: Shape, ghost d2: Shape)
        returns (f2: Node, ghost r1: Shape, ghost r2: Shape)
      requires Rep(d1) && Rep(d2) && Nodes(d1) !! Nodes(d2) && e1 == d1.n && e2 == d2.n && IsSpineNode(op, d1)
      modifies this, Nodes(d1), Nodes(d2)
      ensures Rep(r1) && Rep(r2) && Nodes(r1) !! Nodes(r2) && e1 == r1.n && f2 == r2.n
      ensures From(d1, r1) && From(d2, r2)
      ensures (View(r1), View(r2)) == EliminateEq1(op, View(d1), View(d2))
      decreases View(d1).Size() + View(d2).Size(), Rank(op, View(d1), View(d2)), 0
    {
      f2, r1, r2 := StepFirst(op, false, e1, e2, d1, d2);
      f2, r1, r2 := StepFirst(op, true, e1, f2, r1, r2);
    }

    /** Its calls for the two operands of e2, e1 being an operand. */
    method BothSecond(op: BoolOp, e1: Node, e2: Node, ghost d1: Shape, ghost d2: Shape)
        returns (f1: Node, ghost r1: Shape, ghost r2: Shape)
      requires Rep(d1) && Rep(d2) && Nodes(d1) !! Nodes(d2) && e1 == d1.n && e2 == d2.n
      requires !View(d1).IsOp(op) && IsSpineNode(op, d2)
      modifies this, Nodes(d1), Nodes(d2)
      ensures Rep(r1) && Rep(r2) && Nodes(r1) !! Nodes(r2) && f1 == r1.n && e2 == r2.n
      ensures From(d1, r1) && From(d2, r2)
      ensures (View(r1), View(r2)) == EliminateEq1(op, View(d1), View(d2))
      decreases View(d1).Size() + View(d2).Size(), Rank(op, View(d1), View(d2)), 0
    {
      f1, r1, r2 := StepSecond(op, false, e1, e2, d1, d2);
      f1, r1, r2 := StepSecond(op, true, f1, e2, r1, r2);
    }

    /** Its comparison of two operands. */
    method EliminateLeaves(op: BoolOp, e1: Node, e2: Node, ghost d1: Shape, ghost d2: Shape)
        returns (f1: Node, f2: Node, ghost r1: Shape, ghost r2: Shape)
      requires Rep(d1) && Rep(d2) && Nodes(d1) !! Nodes(d2) && e1 == d1.n && e2 == d2.n
      requires !View(d1).IsOp(op) && !View(d2).IsOp(op)
      modifies this
      ensures Rep(r1) && Rep(r2) && Nodes(r1) !! Nodes(r2) && f1 == r1.n && f2 == r2.n
      ensures From(d1, r1) && From(d2, r2)
      ensures (View(r1), View(r2)) == EliminateEq1(op, View(d1), View(d2))
      decreases View(d1).Size() + View(d2).Size(), 4, 0
    {
      Allocated(d1); Allocated(d2);
      f1, f2, r1, r2 := e1, e2, d1, d2;
      if e1.kind == KSym && e2.kind == KSym && e1.lsym == e2.lsym && (e1.lsym == SYMBOL_YES || e1.lsym == SYMBOL_NO) {
        return;
      }
      var eq := Eq(e1, e2, d1, d2);
      if eq {
        transCount := transCount + 1;
        f1, r1 := AllocSymbol(op.Neutral());
        f2, r2 := AllocSymbol(op.Neutral());
      }
    }

    /** __expr_eliminate_eq(type, &e1->left.expr, &e2), or the same for e1->right. */
    method StepFirst(op: BoolOp, right: bool, e1: Node, e2: Node, ghost d1: Shape, ghost d2: Shape)
        returns (f2: Node, ghost r1: Shape, ghost r2: Shape)
      requires Rep(d1) && Rep(d2) && Nodes(d1) !! Nodes(d2) && e1 == d1.n && e2 == d2.n && IsSpineNode(op, d1)
      modifies this, e1`left, e1`right, Nodes(ChildShape(d1, right)), Nodes(d2)
      ensures Rep(r1) && Rep(r2) && f2 == r2.n && IsSpineNode(op, r1) && r1.n == e1
      ensures e1 !in Nodes(r2) && Nodes(ChildShape(r1, right)) !! Nodes(r2) &&
        Nodes(ChildShape(r1, !right)) !! Nodes(r2)
      ensures ChildShape(r1, !right) == ChildShape(d1, !right)
      ensures From(ChildShape(d1, right), ChildShape(r1, right)) && From(d2, r2)
      ensures (View(ChildShape(r1, right)), View(r2)) == EliminateEq1(op, View(ChildShape(d1, right)), View(d2))
      decreases View(ChildShape(d1, right)).Size() + View(d2).Size(), 5, 1
    {
      var x; ghost var dx;
      x, f2, dx, r2 := CallFirst(op, right, e1, e2, d1, d2);
      r1 := Attach(right, e1, x, d1, dx, r2);
    }

    /** The call, before its result is stored. */
    method CallFirst(op: BoolOp, right: bool, e1: Node, e2: Node, ghost d1: Shape, ghost d2: Shape)
        returns (x: Node, f2: Node, ghost dx: Shape, ghost r2: Shape)
      requires Rep(d1) && Rep(d2) && Nodes(d1) !! Nodes(d2) && e1 == d1.n && e2 == d2.n && IsSpineNode(op, d1)
      modifies this, Nodes(ChildShape(d1, right)), Nodes(d2)
      ensures Rep(dx) && Rep(r2) && x == dx.n && f2 == r2.n && Rep(ChildShape(d1, !right))
      ensures e1 !in Nodes(r2) && Nodes(dx) !! Nodes(r2) && Nodes(ChildShape(d1, !right)) !! Nodes(r2)
      ensures e1 !in Nodes(dx) && e1 !in Nodes(ChildShape(d1, !right)) && Nodes(dx) !! Nodes(ChildShape(d1, !right))
      ensures From(ChildShape(d1, right), dx) && From(d2, r2)
      ensures (View(dx), View(r2)) == EliminateEq1(op, View(ChildShape(d1, right)), View(d2))
      decreases View(ChildShape(d1, right)).Size() + View(d2).Size(), 5, 0
    {
      ghost var c, sib := ChildShape(d1, right), ChildShape(d1, !right);
      Allocated(sib);
      assert Rep(c) && Rep(sib) && Nodes(c) !! Nodes(sib) && e1 !in Nodes(c) && e1 !in Nodes(sib);
      assert Nodes(c) !! Nodes(d2) && Nodes(sib) !! Nodes(d2) && e1 !in Nodes(d2);
      x, f2, dx, r2 := EliminateEq1In(op, Operand(e1, right), e2, c, d2);
      Allocated(dx); Allocated(r2);
      assert e1 !in Nodes(r2) && Nodes(r2) !! Nodes(sib);
      assert e1 !in Nodes(dx) && Nodes(dx) !! Nodes(sib);
    }

    /** __expr_eliminate_eq(type, &e1, &e2->left.expr), or the same for e2->right. */
    method StepSecond(op: BoolOp, right: bool, e1: Node, e2: Node, ghost d1: Shape, ghost d2: Shape)
        returns (f1: Node, ghost r1: Shape, ghost r2: Shape)
      requires Rep(d1) && Rep(d2) && Nodes(d1) !! Nodes(d2) && e1 == d1.n && e2 == d2.n && IsSpineNode(op, d2)
      modifies this, e2`left, e2`right, Nodes(ChildShape(d2, right)), Nodes(d1)
      ensures Rep(r1) && Rep(r2) && f1 == r1.n && IsSpineNode(op, r2) && r2.n == e2
      ensures e2 !in Nodes(r1) && Nodes(ChildShape(r2, right)) !! Nodes(r1) &&
        Nodes(ChildShape(r2, !right)) !! Nodes(r1)
      ensures ChildShape(r2, !right) == ChildShape(d2, !right)
      ensures From(d1, r1) && From(ChildShape(d2, right), ChildShape(r2, right))
      ensures (View(r1), View(ChildShape(r2, right))) == EliminateEq1(op, View(d1), View(ChildShape(d2, right)))
      decreases View(d1).Size() + View(ChildShape(d2, right)).Size(), 5, 1
    {
      var x; ghost var dx;
      f1, x, r1, dx := CallSecond(op, right, e1, e2, d1, d2);
      r2 := Attach(right, e2, x, d2, dx, r1);
    }

    /** The call, before its result is stored. */
    method CallSecond(op: BoolOp, right: bool, e1: Node, e2: Node, ghost d1: Shape, ghost d2: Shape)
        returns (f1: Node, x: Node, ghost r1: Shape, ghost dx: Shape)
      requires Rep(d1) && Rep(d2) && Nodes(d1) !! Nodes(d2) && e1 == d1.n && e2 == d2.n && IsSpineNode(op, d2)
      modifies this, Nodes(ChildShape(d2, right)), Nodes(d1)
      ensures Rep(r1) && Rep(dx) && f1 == r1.n && x == dx.n && Rep(ChildShape(d2, !right))
      ensures e2 !in Nodes(r1) && Nodes(dx) !! Nodes(r1) && Nodes(ChildShape(d2, !right)) !! Nodes(r1)
      ensures e2 !in Nodes(dx) && e2 !in Nodes(ChildShape(d2, !right)) && Nodes(dx) !! Nodes(ChildShape(d2, !right))
      ensures From(d1, r1) && From(ChildShape(d2, right), dx)
      ensures (View(r1), View(dx)) == EliminateEq1(op, View(d1), View(ChildShape(d2, right)))
      decreases View(d1).Size() + View(ChildShape(d2, right)).Size(), 5, 0
    {
      ghost var c, sib := ChildShape(d2, right), ChildShape(d2, !right);
      Allocated(sib);
      assert Rep(c) && Rep(sib) && Nodes(c) !! Nodes(sib) && e2 !in Nodes(c) && e2 !in Nodes(sib);
      assert Nodes(c) !! Nodes(d1) && Nodes(sib) !! Nodes(d1) && e2 !in Nodes(d1);
      f1, x, r1, dx := EliminateEq1In(op, e1, Operand(e2, right), d1, c);
      Allocated(dx); Allocated(r1);
      assert e2 !in Nodes(r1) && Nodes(r1) !! Nodes(sib);
      assert e2 !in Nodes(dx) && Nodes(dx) !! Nodes(sib);
    }

    /** expr_join_or: a new expression, or NULL. */
    method JoinOrNew(e1: Node, e2: Node, ghost d1: Shape, ghost d2: Shape) returns (r: Node?, ghost dr: Shape)
      requires Rep(d1) && Rep(d2) && e1 == d1.n && e2 == d2.n
      modifies this
      ensures transCount == old(transCount)
      ensures IsNew(r, dr, JoinOr(View(d1), View(d2)))
    {
      Allocated(d1); Allocated(d2);
      r, dr := null, d1;
      var eq := Eq(e1, e2, d1, d2);
      if eq { r, dr := Copy(e1, d1); return; }
      if !MayJoin(e1.kind) || !MayJoin(e2.kind) { return; }
      if e1.kind == KNot && (!MayJoin(e1.left.kind) || e1.left.kind == KNot) { return; }
      if e2.kind == KNot && e2.left.kind != KSym { return; }
      var sym1 := if e1.kind == KNot then e1.left.lsym else e1.lsym;
      var sym2 := if e2.kind == KNot then e2.left.lsym else e2.lsym;
      if sym1 != sym2 || !sym1.IsTri() { return; }
      if sym1.typ == S_TRISTATE && e1.kind == KCmp(EQUAL) && e2.kind == KCmp(EQUAL) {
        if Either(e1, e2, SYMBOL_YES, SYMBOL_MOD) {
          r, dr := AllocComp(UNEQUAL, sym1, SYMBOL_NO);
        } else if Either(e1, e2, SYMBOL_YES, SYMBOL_NO) {
          r, dr := AllocComp(UNEQUAL, sym1, SYMBOL_MOD);
        } else if Either(e1, e2, SYMBOL_MOD, SYMBOL_NO) {
          r, dr := AllocComp(UNEQUAL, sym1, SYMBOL_YES);
        }
      } else if sym1.typ == S_BOOLEAN {
        if (e1.kind == KNot && e1.left.kind == KSym && e2.kind == KSym) ||
           (e2.kind == KNot && e2.left.kind == KSym && e1.kind == KSym) {
          r, dr := AllocSymbol(SYMBOL_YES);
        }
      }
    }

    /** expr_join_and: a new expression, or NULL. */
    method JoinAndNew(e1: Node, e2: Node, ghost d1: Shape, ghost d2: Shape) returns (r: Node?, ghost dr: Shape)
      requires Rep(d1) && Rep(d2) && e1 == d1.n && e2 == d2.n
      modifies this
      ensures transCount == old(transCount)
      ensures IsNew(r, dr, JoinAnd(View(d1), View(d2)))
    {
      Allocated(d1); Allocated(d2);
      r, dr := null, d1;
      var eq := Eq(e1, e2, d1, d2);
      if eq { r, dr := Copy(e1, d1); return; }
      if !MayJoin(e1.kind) || !MayJoin(e2.kind) { return; }
      if e1.kind == KNot && (!MayJoin(e1.left.kind) || e1.left.kind == KNot) { return; }
      if e2.kind == KNot && e2.left.kind != KSym { return; }
      var sym1 := if e1.kind == KNot then e1.left.lsym else e1.lsym;
      var sym2 := if e2.kind == KNot then e2.left.lsym else e2.lsym;
      if sym1 != sym2 || !sym1.IsTri() { return; }
      r, dr := JoinBare(e1, e2, d1, d2, sym1);
      if r == null && sym1.typ == S_TRISTATE {
        r, dr := JoinTristates(e1, e2, d1, d2, sym1);
      }
    }

    /** Its rules for a bare symbol and a comparison of it. */
    method JoinBare(e1: Node, e2: Node, ghost d1: Shape, ghost d2: Shape, sym: Symbol)
        returns (r: Node?, ghost dr: Shape)
      requires Rep(d1) && Rep(d2) && e1 == d1.n && e2 == d2.n
      ensures IsNew(r, dr, JoinAndBare(sym, View(d1), View(d2)))
    {
      r, dr := null, d1;
      if Bare(e1, e2, EQUAL, SYMBOL_YES) {
        r, dr := AllocComp(EQUAL, sym, SYMBOL_YES);
      } else if Bare(e1, e2, UNEQUAL, SYMBOL_NO) {
        r, dr := AllocSymbol(sym);
      } else if Bare(e1, e2, UNEQUAL, SYMBOL_MOD) {
        r, dr := AllocComp(EQUAL, sym, SYMBOL_YES);
      }
    }

    /** Its rules for two comparisons of a tristate. */
    method JoinTristates(e1: Node, e2: Node, ghost d1: Shape, ghost d2: Shape, sym: Symbol)
        returns (r: Node?, ghost dr: Shape)
      requires Rep(d1) && Rep(d2) && e1 == d1.n && e2 == d2.n
      requires sym.typ == S_TRISTATE && JoinAndBare(sym, View(d1), View(d2)).None?
      ensures IsNew(r, dr, JoinAndRules(sym, View(d1), View(d2)))
    {
      r, dr := null, d1;
      if e1.kind == KCmp(EQUAL) && e2.kind == KCmp(UNEQUAL) && e1.rsym.isConst && e2.rsym.isConst {
        if e1.rsym != e2.rsym {
          r, dr := AllocComp(EQUAL, sym, e1.rsym);
        } else {
          r, dr := AllocSymbol(SYMBOL_NO);
        }
      } else if e1.kind == KCmp(UNEQUAL) && e2.kind == KCmp(EQUAL) && e1.rsym.isConst && e2.rsym.isConst {
        if e1.rsym != e2.rsym {
          r, dr := AllocComp(EQUAL, sym, e2.rsym);
        } else {
          r, dr := AllocSymbol(SYMBOL_NO);
        }
      } else if e1.kind == KCmp(UNEQUAL) && e2.kind == KCmp(UNEQUAL) {
        if Either(e1, e2, SYMBOL_YES, SYMBOL_NO) {
          r, dr := AllocComp(EQUAL, sym, SYMBOL_MOD);
        } else if Either(e1, e2, SYMBOL_YES, SYMBOL_MOD) {
          r, dr := AllocComp(EQUAL, sym, SYMBOL_NO);
        } else if Either(e1, e2, SYMBOL_MOD, SYMBOL_NO) {
          r, dr := AllocComp(EQUAL, sym, SYMBOL_YES);
        }
      }
    }

    /** expr_eliminate_dups: walks and folds until a walk joins nothing; the counter is restored. */
    method EliminateDupsIn(e: Node, ghost d: Shape) returns (r: Node, ghost dr: Shape)
      requires Rep(d) && e == d.n
      modifies this, Nodes(d)
      ensures Rep(dr) && r == dr.n && From(d, dr)
      ensures View(dr) == EliminateDups.EliminateDups(View(d))
      ensures transCount == old(transCount)
    {
      var oldCount := transCount;
      Allocated(d);
      var ref := new Ref(e);
      dr := d;
      while true
        invariant Holds(Local(ref), dr) && From(d, dr)
        invariant EliminateDups.EliminateDups(View(dr)) == EliminateDups.EliminateDups(View(d))
        decreases View(dr).Size()
      {
        transCount := 0;
        ghost var before := View(dr);
        dr := Pass(ref, dr);
        if transCount == 0 { break; }
        PassShrinks(before);
        dr := EliminateYnInPlace(ref.e, dr);
      }
      PassShrinks(View(dr));
      r := ref.e;
      transCount := oldCount;
    }

    /** One iteration of its loop, before the folding. */
    method Pass(ref: Ref, ghost d: Shape) returns (ghost r: Shape)
      requires Holds(Local(ref), d) && transCount == 0
      modifies this, ref, Nodes(d)
      ensures Holds(Local(ref), r) && From(d, r)
      ensures (View(r), transCount) == DupsPass(View(d))
    {
      r := d;
      if ref.e.kind.KBin? {
        r := Dups1At(ref.e.kind.op, Local(ref), Local(ref), Local(ref), d, [], []);
      }
    }

    /**
     expr_eliminate_dups1(op, s1, s2): both slots point into the tree d at root,
     at positions p and q, and every store through one is seen through the other.
     */
    method Dups1At(op: BoolOp, s1: Slot, s2: Slot, ghost root: Slot, ghost d: Shape, ghost p: Path, ghost q: Path)
        returns (ghost r: Shape)
      requires Holds(root, d) && InSpine(op, View(d), p) && InSpine(op, View(d), q)
      requires s1 == SlotAt(op, root, d, p) && s2 == SlotAt(op, root, d, q)
      modifies this, Refs(root), LeftNodes(root)`left, RightNodes(root)`right, Nodes(d)
      ensures Holds(root, r) && SpineKept(op, d, r) && From(d, r)
      ensures View(r) == Dups1(op, View(d), p, q).0
      ensures transCount == old(transCount) + Dups1(op, View(d), p, q).1
      decreases Alternation(op, View(d)), SpineSize(op, At(op, View(d), p)) + SpineSize(op, At(op, View(d), q)), 1, 0
    {
      HoldsAt(op, root, d, p);
      HoldsAt(op, root, d, q);
      var e1: Node, e2: Node := Load(s1), Load(s2);
      if e1.kind == KBin(op) {
        r := WalkFirst(op, s1, s2, root, d, p, q);
      } else if e2.kind == KBin(op) {
        r := WalkSecond(op, s1, s2, root, d, p, q);
      } else {
        r := Dups1Leaves(op, s1, s2, root, d, p, q);
      }
    }

    /** Its two recursive calls for the operands of e1. */
    method WalkFirst(op: BoolOp, s1: Slot, s2: Slot, ghost root: Slot, ghost d: Shape, ghost p: Path, ghost q: Path)
        returns (ghost r: Shape)
      requires Holds(root, d) && InSpine(op, View(d), p) && InSpine(op, View(d), q)
      requires s1 == SlotAt(op, root, d, p) && s2 == SlotAt(op, root, d, q)
      requires At(op, View(d), p).IsOp(op)
      modifies this, Refs(root), LeftNodes(root)`left, RightNodes(root)`right, Nodes(d)
      ensures Holds(root, r) && SpineKept(op, d, r) && From(d, r)
      ensures View(r) == Dups1(op, View(d), p, q).0
      ensures transCount == old(transCount) + Dups1(op, View(d), p, q).1
      decreases Alternation(op, View(d)), SpineSize(op, At(op, View(d), p)) + SpineSize(op, At(op, View(d), q)), 0, 0
    {
      HoldsAt(op, root, d, p);
      var e1: Node := Load(s1);
      SlotOfChild(op, root, d, p, false);
      SpineStep(op, View(d), p, false);
      r := Dups1At(op, LeftOf(e1), s2, root, d, p + [false], q);
      NextSlots(op, root, d, r, p, q);
      SecondStep(op, View(d), View(r), p, q);
      Allocated(r);
      r := SecondWalk(op, RightOf(e1), s2, root, d, r, p + [true], q);
    }

    /** Its two recursive calls for the operands of e2, e1 being an operand. */
    method WalkSecond(op: BoolOp, s1: Slot, s2: Slot, ghost root: Slot, ghost d: Shape, ghost p: Path, ghost q: Path)
        returns (ghost r: Shape)
      requires Holds(root, d) && InSpine(op, View(d), p) && InSpine(op, View(d), q)
      requires s1 == SlotAt(op, root, d, p) && s2 == SlotAt(op, root, d, q)
      requires !At(op, View(d), p).IsOp(op) && At(op, View(d), q).IsOp(op)
      modifies this, Refs(root), LeftNodes(root)`left, RightNodes(root)`right, Nodes(d)
      ensures Holds(root, r) && SpineKept(op, d, r) && From(d, r)
      ensures View(r) == Dups1(op, View(d), p, q).0
      ensures transCount == old(transCount) + Dups1(op, View(d), p, q).1
      decreases Alternation(op, View(d)), SpineSize(op, At(op, View(d), p)) + SpineSize(op, At(op, View(d), q)), 0, 0
    {
      HoldsAt(op, root, d, q);
      var e2: Node := Load(s2);
      SlotOfChild(op, root, d, q, false);
      SpineStep(op, View(d), q, false);
      r := Dups1At(op, s1, LeftOf(e2), root, d, p, q + [false]);
      NextSlots(op, root, d, r, q, p);
      SecondStep(op, View(d), View(r), q, p);
      Allocated(r);
      r := SecondWalk(op, s1, RightOf(e2), root, d, r, p, q + [true]);
    }

    /** The second recursive call at a spine node: on the tree m that the first has made of d. */
    method SecondWalk(op: BoolOp, s1: Slot, s2: Slot, ghost root: Slot, ghost d: Shape, ghost m: Shape, ghost p: Path,
                      ghost q: Path)
        returns (ghost r: Shape)
      requires Holds(root, m) && SpineKept(op, d, m) && InSpine(op, View(m), p) && InSpine(op, View(m), q)
      requires s1 == SlotAt(op, root, m, p) && s2 == SlotAt(op, root, m, q)
      modifies this, Refs(root), LeftNodes(root)`left, RightNodes(root)`right, Nodes(m)
      ensures Holds(root, r) && SpineKept(op, d, r) && From(m, r)
      ensures View(r) == Dups1(op, View(m), p, q).0
      ensures transCount == old(transCount) + Dups1(op, View(m), p, q).1
      decreases Alternation(op, View(m)), SpineSize(op, At(op, View(m), p)) + SpineSize(op, At(op, View(m), q)), 2, 0
    {
      r := Dups1At(op, s1, s2, root, m, p, q);
      SpineKeptTransitive(op, d, m, r);
    }

    /** The walk at two operands: nested walk over the first, then the join. */
    method Dups1Leaves(op: BoolOp, s1: Slot, s2: Slot, ghost root: Slot, ghost d: Shape, ghost p: Path, ghost q: Path)
        returns (ghost r: Shape)
      requires Holds(root, d) && IsLeaf(op, View(d), p) && IsLeaf(op, View(d), q)
      requires s1 == SlotAt(op, root, d, p) && s2 == SlotAt(op, root, d, q)
      modifies this, Refs(root), LeftNodes(root)`left, RightNodes(root)`right, Nodes(d)
      ensures Holds(root, r) && SpineKept(op, d, r) && From(d, r)
      ensures View(r) == Dups1(op, View(d), p, q).0
      ensures transCount == old(transCount) + Dups1(op, View(d), p, q).1
      decreases Alternation(op, View(d)), 0, 0, 2
    {
      HoldsAt(op, root, d, p);
      HoldsAt(op, root, d, q);
      SamePointers(op, root, d, p, q);
      r := d;
      SpineKeptReflexive(op, d);
      if Load(s1) == Load(s2) { return; }
      ghost var m := NestedWalk(op, s1, root, d, p);
      SpineKeptSlots(op, root, d, m, p);
      SpineKeptSlots(op, root, d, m, q);
      Dups1AtLeaves(op, View(d), p, q, View(m));
      Allocated(m);
      r := JoinAt(op, s1, s2, root, m, p, q);
      SpineKeptTransitive(op, d, m, r);
    }

    /** expr_eliminate_dups1(e1->type, &e1, &e1), if the first operand is itself an AND or OR. */
    method NestedWalk(op: BoolOp, s1: Slot, ghost root: Slot, ghost d: Shape, ghost p: Path) returns (ghost r: Shape)
      requires Holds(root, d) && IsLeaf(op, View(d), p) && p != [] && s1 == SlotAt(op, root, d, p)
      modifies this, Nodes(d)
      ensures Holds(root, r) && SpineKept(op, d, r) && From(d, r)
      ensures View(r) == Put(op, View(d), p, Nested(At(op, View(d), p)).0)
      ensures transCount == old(transCount) + Nested(At(op, View(d), p)).1
      decreases Alternation(op, View(d)), 0, 0, 1
    {
      HoldsAt(op, root, d, p);
      var e1: Node := Load(s1);
      if e1.kind.KBin? {
        r := NestedWalkIn(op, e1.kind.op, s1, root, d, p);
      } else {
        r := d;
        SpineKeptReflexive(op, d);
        PutBack(op, View(d), p);
      }
    }

    method NestedWalkIn(op: BoolOp, inner: BoolOp, s1: Slot, ghost root: Slot, ghost d: Shape, ghost p: Path)
        returns (ghost r: Shape)
      requires Holds(root, d) && IsLeaf(op, View(d), p) && p != [] && s1 == SlotAt(op, root, d, p)
      requires At(op, View(d), p).IsOp(inner)
      modifies this, Nodes(d)
      ensures Holds(root, r) && SpineKept(op, d, r) && From(d, r)
      ensures View(r) == Put(op, View(d), p, Nested(At(op, View(d), p)).0)
      ensures transCount == old(transCount) + Nested(At(op, View(d), p)).1
      decreases Alternation(op, View(d)), 0, 0, 0
    {
      LeafAlternation(op, View(d), p);
      RepIsTree(d);
      Allocated(d);
      HoldsAt(op, root, d, p);
      ghost var x := WalkOperand(op, inner, s1, root, d, p, ShapeAt(op, d, p));
      Replaced(op, root, d, p, x);
      r := PutShape(op, d, p, x);
      SpineKeptByPut(op, d, p, x);
    }

    /** The nested call itself, and what it leaves alone in the surrounding tree. */
    method WalkOperand(op: BoolOp, inner: BoolOp, s1: Slot, ghost root: Slot, ghost d: Shape, ghost p: Path,
                       ghost c: Shape)
        returns (ghost x: Shape)
      requires Holds(root, d) && InSpine(op, View(d), p) && p != [] && s1 == SlotAt(op, root, d, p) && Holds(s1, c)
      requires View(c).IsOp(inner) && Nodes(c) <= Nodes(d)
      modifies this, LeftNodes(s1)`left, RightNodes(s1)`right, Nodes(c)
      ensures Rep(x) && Load(s1) == x.n && SpineKept(inner, c, x) && From(c, x)
      ensures Load(root) == d.n
      ensures forall n | n in Nodes(d) - Nodes(c) :: Is(n, Redirected(WantAt(d, n), n, s1, x.n))
      ensures View(x) == Nested(View(c)).0 && transCount == old(transCount) + Nested(View(c)).1
      decreases Alternation(inner, View(c)), SpineSize(inner, View(c)) + SpineSize(inner, View(c)), 1, 2
    {
      Allocated(d);
      HoldsNodewise(root, d);
      SlotOwner(op, root, d, p);
      x := WalkWhole(inner, s1, c);
      forall n | n in Nodes(d) - Nodes(c)
        ensures Is(n, Redirected(WantAt(d, n), n, s1, x.n))
      {
        assert old(Is(n, WantAt(d, n)));
      }
    }

    /** expr_eliminate_dups1(inner, slot, slot) at the tree there. */
    method WalkWhole(inner: BoolOp, slot: Slot, ghost c: Shape) returns (ghost x: Shape)
      requires Holds(slot, c) && View(c).IsOp(inner)
      modifies this, Refs(slot), LeftNodes(slot)`left, RightNodes(slot)`right, Nodes(c)
      ensures Holds(slot, x) && SpineKept(inner, c, x) && From(c, x)
      ensures View(x) == Nested(View(c)).0 && transCount == old(transCount) + Nested(View(c)).1
      decreases Alternation(inner, View(c)), SpineSize(inner, View(c)) + SpineSize(inner, View(c)), 1, 1
    {
      x := Dups1At(inner, slot, slot, slot, c, [], []);
    }

    /** *slot = e, where slot is the one at position p of the tree d. */
    method StoreAt(op: BoolOp, slot: Slot, e: Node, ghost root: Slot, ghost d: Shape, ghost p: Path, ghost x: Shape)
        returns (ghost r: Shape)
      requires Holds(root, d) && InSpine(op, View(d), p) && slot == SlotAt(op, root, d, p)
      requires Rep(x) && e == x.n && Nodes(x) !! Nodes(d) && Owners(root) !! Nodes(x)
      modifies Refs(slot), LeftNodes(slot)`left, RightNodes(slot)`right
      ensures r == PutShape(op, d, p, x) && Holds(root, r)
      ensures Nodes(r) == Nodes(d) - Nodes(ShapeAt(op, d, p)) + Nodes(x)
    {
      Allocated(d); Allocated(x);
      HoldsNodewise(root, d);
      if p != [] { SlotOwner(op, root, d, p); }
      label Before:
      Store(slot, e);
      assert Rep(x) by { assert forall n | n in Nodes(x) :: unchanged@Before(n); }
      forall n | n in Nodes(d) - Nodes(ShapeAt(op, d, p))
        ensures Is(n, Redirected(WantAt(d, n), n, slot, x.n))
      {
        assert old(Is(n, WantAt(d, n)));
      }
      RepIsTree(x);
      PutIsTree(op, d, p, x);
      Replaced(op, root, d, p, x);
      r := PutShape(op, d, p, x);
    }

    /** The end of expr_eliminate_dups1: joins two different operands if a rule applies. */
    method JoinAt(op: BoolOp, s1: Slot, s2: Slot, ghost root: Slot, ghost d: Shape, ghost p: Path, ghost q: Path)
        returns (ghost r: Shape)
      requires Holds(root, d) && IsLeaf(op, View(d), p) && IsLeaf(op, View(d), q) && p != q
      requires s1 == SlotAt(op, root, d, p) && s2 == SlotAt(op, root, d, q)
      modifies this, Refs(s1), LeftNodes(s1)`left, RightNodes(s1)`right, Refs(s2), LeftNodes(s2)`left,
        RightNodes(s2)`right
      ensures Holds(root, r) && SpineKept(op, d, r) && From(d, r)
      ensures InSpine(op, Put(op, View(d), p, Sym(op.Neutral())), q)
      ensures match Join(op, At(op, View(d), p), At(op, View(d), q))
        case None => r == d && transCount == old(transCount)
        case Some(j) =>
          View(r) == Put(op, Put(op, View(d), p, Sym(op.Neutral())), q, j) && transCount == old(transCount) + 1
    {
      PutElsewhere(op, View(d), p, Sym(op.Neutral()), q);
      var tmp, dt := JoinSlots(op, s1, s2, root, d, p, q);
      if tmp == null {
        r := d;
        SpineKeptReflexive(op, d);
      } else {
        transCount := transCount + 1;
        r := ReplaceBoth(op, s1, s2, tmp, root, d, p, q, dt);
      }
    }

    /** tmp = expr_join_or(e1, e2), or expr_join_and. */
    method JoinSlots(op: BoolOp, s1: Slot, s2: Slot, ghost root: Slot, ghost d: Shape, ghost p: Path, ghost q: Path)
        returns (tmp: Node?, ghost dt: Shape)
      requires Holds(root, d) && IsLeaf(op, View(d), p) && IsLeaf(op, View(d), q)
      requires s1 == SlotAt(op, root, d, p) && s2 == SlotAt(op, root, d, q)
      modifies this
      ensures transCount == old(transCount) && Holds(root, d)
      ensures IsNew(tmp, dt, Join(op, At(op, View(d), p), At(op, View(d), q)))
      ensures tmp != null ==> Nodes(dt) !! Nodes(d) && Owners(root) !! Nodes(dt) && !IsSpineNode(op, dt)
    {
      Allocated(d);
      HoldsAt(op, root, d, p);
      HoldsAt(op, root, d, q);
      var e1: Node, e2: Node := Load(s1), Load(s2);
      tmp, dt := JoinNew(op, e1, e2, ShapeAt(op, d, p), ShapeAt(op, d, q));
      if tmp != null { JoinShape(op, At(op, View(d), p), At(op, View(d), q)); }
    }

    /** Its switch on the type of the walk. */
    method JoinNew(op: BoolOp, e1: Node, e2: Node, ghost d1: Shape, ghost d2: Shape) returns (r: Node?, ghost dr: Shape)
      requires Rep(d1) && Rep(d2) && e1 == d1.n && e2 == d2.n
      modifies this
      ensures transCount == old(transCount)
      ensures IsNew(r, dr, Join(op, View(d1), View(d2)))
    {
      if op == OR {
        r, dr := JoinOrNew(e1, e2, d1, d2);
      } else {
        r, dr := JoinAndNew(e1, e2, d1, d2);
      }
    }

    /** e1 = neutral constant, e2 = tmp. */
    method ReplaceBoth(op: BoolOp, s1: Slot, s2: Slot, tmp: Node, ghost root: Slot, ghost d: Shape, ghost p: Path,
                       ghost q: Path, ghost dt: Shape)
        returns (ghost r: Shape)
      requires Holds(root, d) && IsLeaf(op, View(d), p) && IsLeaf(op, View(d), q) && p != q
      requires s1 == SlotAt(op, root, d, p) && s2 == SlotAt(op, root, d, q)
      requires Rep(dt) && tmp == dt.n && Nodes(dt) !! Nodes(d) && Owners(root) !! Nodes(dt) && !IsSpineNode(op, dt)
      modifies Refs(s1), LeftNodes(s1)`left, RightNodes(s1)`right, Refs(s2), LeftNodes(s2)`left, RightNodes(s2)`right
      ensures Holds(root, r) && SpineKept(op, d, r)
      ensures forall n | n in Nodes(r) :: n in Nodes(d) || n in Nodes(dt) || fresh(n)
      ensures InSpine(op, Put(op, View(d), p, Sym(op.Neutral())), q)
      ensures View(r) == Put(op, Put(op, View(d), p, Sym(op.Neutral())), q, View(dt))
    {
      RepIsTree(d);
      LeavesInside(op, root, d, p, q, Sym(op.Neutral()));
      ghost var m := PutNeutral(op, s1, root, d, p, dt);
      SpineKeptSlots(op, root, d, m, q);
      Allocated(m); Allocated(dt);
      r := StoreAt(op, s2, tmp, root, m, q, dt);
      SpineKeptByPut(op, m, q, dt);
      SpineKeptTransitive(op, d, m, r);
    }

    /** e1 = neutral constant; the tree dt is elsewhere. */
    method PutNeutral(op: BoolOp, s1: Slot, ghost root: Slot, ghost d: Shape, ghost p: Path, ghost dt: Shape)
        returns (ghost m: Shape)
      requires Holds(root, d) && IsLeaf(op, View(d), p) && s1 == SlotAt(op, root, d, p)
      requires !s1.Local? && s1.n in Nodes(d) && Rep(dt) && Nodes(dt) !! Nodes(d)
      modifies LeftNodes(s1)`left, RightNodes(s1)`right
      ensures Holds(root, m) && SpineKept(op, d, m) && Rep(dt) && Nodes(dt) !! Nodes(m)
      ensures View(m) == Put(op, View(d), p, Sym(op.Neutral()))
      ensures forall n | n in Nodes(m) :: n in Nodes(d) || fresh(n)
    {
      Allocated(d); Allocated(dt);
      var c, dc := AllocSymbol(op.Neutral());
      Allocated(dc);
      label Before:
      m := StoreAt(op, s1, c, root, d, p, dc);
      assert Rep(dt) by { assert forall n | n in Nodes(dt) :: unchanged@Before(n); }
      SpineKeptByPut(op, d, p, dc);
    }
  }

  /** The slots of the second recursive call, found again in the tree the first one left. */
  lemma NextSlots(op: BoolOp, root: Slot, d: Shape, r: Shape, p: Path, q: Path)
    requires SpineKept(op, d, r) && InSpine(op, View(d), p) && InSpine(op, View(d), q) && At(op, View(d), p).IsOp(op)
    ensures InSpine(op, View(r), p + [true]) && SlotAt(op, root, r, p + [true]) == RightOf(ShapeAt(op, d, p).n)
    ensures InSpine(op, View(r), q) && SlotAt(op, root, r, q) == SlotAt(op, root, d, q)
  {
    SlotOfChild(op, root, d, p, true);
    SpineKeptSlots(op, root, d, r, p + [true]);
    SpineKeptSlots(op, root, d, r, q);
  }

  /** Two operands are the same node exactly when they are at the same position. */
  lemma SamePointers(op: BoolOp, root: Slot, d: Shape, p: Path, q: Path)
    requires Holds(root, d) && IsLeaf(op, View(d), p) && IsLeaf(op, View(d), q)
    ensures ShapeAt(op, d, p).n == ShapeAt(op, d, q).n <==> p == q
  {
    if p != q {
      LeavesApart(op, root, d, p, q);
      assert ShapeAt(op, d, p).n in Nodes(ShapeAt(op, d, p)) && ShapeAt(op, d, q).n in Nodes(ShapeAt(op, d, q));
    }
  }

  /** Where the slots of two different operands are, and that the second survives a replacement of the first. */
  lemma LeavesInside(op: BoolOp, root: Slot, d: Shape, p: Path, q: Path, x: Expr)
    requires Tree(d) && IsLeaf(op, View(d), p) && IsLeaf(op, View(d), q) && p != q && !x.IsOp(op)
    ensures IsLeaf(op, Put(op, View(d), p, x), q)
    ensures !SlotAt(op, root, d, p).Local? && SlotAt(op, root, d, p).n in Nodes(d)
    ensures !SlotAt(op, root, d, q).Local? && SlotAt(op, root, d, q).n in Nodes(d)
  {
    PutElsewhere(op, View(d), p, x, q);
    assert p != [] && q != [];
    SlotOwner(op, root, d, p);
    SlotOwner(op, root, d, q);
  }

  predicate MayJoin(k: Kind) { k == KCmp(EQUAL) || k == KCmp(UNEQUAL) || k == KSym || k == KNot }

  /** The right-hand symbols of two comparisons are x and y, in either order. */
  predicate Either(e1: Node, e2: Node, x: Symbol, y: Symbol)
    reads e1, e2
  {
    (e1.rsym == x && e2.rsym == y) || (e1.rsym == y && e2.rsym == x)
  }

  /** One of the two is a bare symbol, the other a comparison with b. */
  predicate Bare(e1: Node, e2: Node, rel: RelOp, b: Symbol)
    reads e1, e2
  {
    (e1.kind == KSym && e2.kind == KCmp(rel) && e2.rsym == b) ||
      (e2.kind == KSym && e1.kind == KCmp(rel) && e1.rsym == b)
  }

  /** r is NULL if there is no expected result, and otherwise a new tree representing it. */
  twostate predicate IsNew(new r: Node?, new d: Shape, expected: Option<Expr>)
    reads Nodes(d)
  {
    if r == null then expected == None
    else r == d.n && Rep(d) && fresh(Nodes(d)) && expected == Some(View(d))
  }

  function Operand(e: Node, right: bool): Node?
    reads e
  {
    if right then e.right else e.left
  }

  /** e->left.expr = x, or e->right.expr = x, in an AND or OR whose other operand is intact. */
  method SetChild(right: bool, e: Node, x: Node, ghost d: Shape, ghost dx: Shape) returns (ghost r: Shape)
    requires d.SBin? && e == d.n && e.kind == KBin(d.op) && Rep(dx) && x == dx.n && Rep(ChildShape(d, !right))
    requires Operand(e, !right) == ChildShape(d, !right).n
    requires e !in Nodes(dx) && e !in Nodes(ChildShape(d, !right)) && Nodes(dx) !! Nodes(ChildShape(d, !right))
    modifies e`left, e`right
    ensures Rep(r) && IsSpineNode(d.op, r) && r.n == e
    ensures ChildShape(r, right) == dx && ChildShape(r, !right) == ChildShape(d, !right)
  {
    if right {
      e.right := x;
      r := SBin(e, d.op, d.l, dx);
    } else {
      e.left := x;
      r := SBin(e, d.op, dx, d.r);
    }
  }

  /** The same, when there is another tree. */
  method Attach(right: bool, e: Node, x: Node, ghost d: Shape, ghost dx: Shape, ghost other: Shape)
      returns (ghost r: Shape)
    requires d.SBin? && e == d.n && e.kind == KBin(d.op) && Rep(dx) && x == dx.n && Rep(ChildShape(d, !right))
    requires Operand(e, !right) == ChildShape(d, !right).n
    requires e !in Nodes(dx) && e !in Nodes(ChildShape(d, !right)) && Nodes(dx) !! Nodes(ChildShape(d, !right))
    requires Rep(other) && e !in Nodes(other)
    modifies e`left, e`right
    ensures Rep(r) && IsSpineNode(d.op, r) && r.n == e && Rep(other)
    ensures ChildShape(r, right) == dx && ChildShape(r, !right) == ChildShape(d, !right)
  {
    Allocated(other);
    label Before:
    r := SetChild(right, e, x, d, dx);
    assert forall n | n in Nodes(other) :: unchanged@Before(n);
  }

  /** Every node of r was one of d or is new. */
  twostate predicate From(d: Shape, new r: Shape) {
    forall n | n in Nodes(r) :: n in Nodes(d) || fresh(n)
  }
}

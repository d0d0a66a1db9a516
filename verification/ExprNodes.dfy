/**
 struct expr on the heap: nodes, the tree a node represents, and the functions
 that rewrite one tree in place. Every method is proved to compute the function
 on expressions of the same name; the ghost Shape says which node is where.
 */
module ExprNodes {
  import opened Exprs
  import opened Transforms
  import opened EliminateEqs
  import opened Submenus

  datatype Kind = KSym | KNot | KBin(op: BoolOp) | KCmp(rel: RelOp)

  /** The unions left and right are kept apart: an operand node, or a symbol. */
  class Node {
    var kind: Kind
    var left: Node?
    var right: Node?
    var lsym: Symbol
    var rsym: Symbol
  }

  /** An expression together with the nodes that hold it. */
  datatype Shape =
    | SSym(n: Node, s: Symbol)
    | SNot(n: Node, c: Shape)
    | SBin(n: Node, op: BoolOp, l: Shape, r: Shape)
    | SCmp(n: Node, rel: RelOp, a: Symbol, b: Symbol)

  function View(d: Shape): Expr {
    match d
    case SSym(_, s) => Sym(s)
    case SNot(_, c) => Not(View(c))
    case SBin(_, op, l, r) => Bin(op, View(l), View(r))
    case SCmp(_, rel, a, b) => Cmp(rel, a, b)
  }

  ghost function Nodes(d: Shape): set<Node> {
    match d
    case SSym(n, _) => {n}
    case SNot(n, c) => {n} + Nodes(c)
    case SBin(n, _, l, r) => {n} + Nodes(l) + Nodes(r)
    case SCmp(n, _, _, _) => {n}
  }

  /** The heap holds the shape, as a tree: no node occurs twice. */
  ghost predicate Rep(d: Shape)
    reads Nodes(d)
  {
    var holds :=
      match d
      case SSym(n, s) => n.kind == KSym && n.lsym == s
      case SNot(n, c) => n.kind == KNot && n.left == c.n && n !in Nodes(c) && Rep(c)
      case SBin(n, op, l, r) =>
        && n.kind == KBin(op) && n.left == l.n && n.right == r.n
        && n !in Nodes(l) && n !in Nodes(r) && Nodes(l) !! Nodes(r)
        && Rep(l) && Rep(r)
      case SCmp(n, rel, a, b) => n.kind == KCmp(rel) && n.lsym == a && n.rsym == b;
    holds
  }

  /** All nodes of a shape at hand have been allocated; so new nodes are different ones. */
  lemma Allocated(d: Shape)
    ensures d.n in Nodes(d)
    ensures forall n | n in Nodes(d) :: allocated(n)
  {
    match d
    case SNot(_, c) => Allocated(c);
    case SBin(_, _, l, r) => Allocated(l); Allocated(r);
    case _ =>
  }

  /** expr_alloc_symbol. */
  method AllocSymbol(s: Symbol) returns (e: Node, ghost d: Shape)
    ensures fresh(e) && d == SSym(e, s) && Rep(d)
  {
    e := new Node;
    e.kind, e.lsym := KSym, s;
    d := SSym(e, s);
  }

  /** expr_alloc_comp. */
  method AllocComp(rel: RelOp, a: Symbol, b: Symbol) returns (e: Node, ghost d: Shape)
    ensures fresh(e) && d == SCmp(e, rel, a, b) && Rep(d)
  {
    e := new Node;
    e.kind, e.lsym, e.rsym := KCmp(rel), a, b;
    d := SCmp(e, rel, a, b);
  }

  /** expr_alloc_one with type E_NOT. */
  method AllocNot(c: Node, ghost dc: Shape) returns (e: Node, ghost d: Shape)
    requires Rep(dc) && c == dc.n
    ensures fresh(e) && d == SNot(e, dc) && Rep(d)
  {
    Allocated(dc);
    e := new Node;
    e.kind, e.left := KNot, c;
    d := SNot(e, dc);
  }

  /** expr_alloc_two. */
  method AllocTwo(op: BoolOp, l: Node, r: Node, ghost dl: Shape, ghost dr: Shape) returns (e: Node, ghost d: Shape)
    requires Rep(dl) && Rep(dr) && l == dl.n && r == dr.n && Nodes(dl) !! Nodes(dr)
    ensures fresh(e) && d == SBin(e, op, dl, dr) && Rep(d)
  {
    Allocated(dl); Allocated(dr);
    e := new Node;
    e.kind, e.left, e.right := KBin(op), l, r;
    d := SBin(e, op, dl, dr);
  }

  /** expr_copy: a tree of new nodes. */
  method Copy(org: Node, ghost d: Shape) returns (e: Node, ghost de: Shape)
    requires Rep(d) && org == d.n
    ensures Rep(de) && e == de.n && fresh(Nodes(de)) && View(de) == View(d)
    decreases d
  {
    Allocated(d);
    match org.kind
    case KSym => e, de := AllocSymbol(org.lsym);
    case KCmp(rel) => e, de := AllocComp(rel, org.lsym, org.rsym);
    case KNot =>
      var c, dc := Copy(org.left, d.c);
      e, de := AllocNot(c, dc);
    case KBin(op) =>
      var l, dl := Copy(org.left, d.l);
      Allocated(dl);
      var r, dr := Copy(org.right, d.r);
      e, de := AllocTwo(op, l, r, dl, dr);
  }

  /** The shape d with its root moved to node n. */
  ghost function Rerooted(d: Shape, n: Node): Shape {
    match d
    case SSym(_, s) => SSym(n, s)
    case SNot(_, c) => SNot(n, c)
    case SBin(_, op, l, r) => SBin(n, op, l, r)
    case SCmp(_, rel, a, b) => SCmp(n, rel, a, b)
  }

  /** *e = *src: the node takes over the contents of another one. */
  method Overwrite(e: Node, src: Node, ghost d: Shape) returns (ghost de: Shape)
    requires Rep(d) && src == d.n && e !in Nodes(d)
    modifies e
    ensures de == Rerooted(d, e) && Rep(de) && View(de) == View(d) && Nodes(de) <= Nodes(d) + {e}
  {
    e.kind, e.left, e.right, e.lsym, e.rsym := src.kind, src.left, src.right, src.lsym, src.rsym;
    de := Rerooted(d, e);
  }

  /** e becomes the bare symbol s. */
  method BecomeSymbol(e: Node, s: Symbol) returns (ghost de: Shape)
    modifies e
    ensures de == SSym(e, s) && Rep(de)
  {
    e.kind, e.lsym, e.right := KSym, s, null;
    de := SSym(e, s);
  }

  /** expr_eliminate_yn: folds constants bottom-up, keeping the root node. */
  method EliminateYnInPlace(e: Node, ghost d: Shape) returns (ghost de: Shape)
    requires Rep(d) && e == d.n
    modifies Nodes(d)
    ensures Rep(de) && de.n == e && Nodes(de) <= Nodes(d)
    ensures View(de) == EliminateYn(View(d))
    decreases d
  {
    Allocated(d);
    if !e.kind.KBin? { de := d; return; }
    var op := e.kind.op;
    ghost var dl := EliminateYnInPlace(e.left, d.l);
    ghost var dr := EliminateYnInPlace(e.right, d.r);
    de := FoldInPlace(op, e, dl, dr);
  }

  /** The folding of one AND or OR node. */
  method FoldInPlace(op: BoolOp, e: Node, ghost dl: Shape, ghost dr: Shape) returns (ghost de: Shape)
    requires Rep(SBin(e, op, dl, dr))
    modifies e
    ensures Rep(de) && de.n == e && Nodes(de) <= {e} + Nodes(dl) + Nodes(dr)
    ensures View(de) == Fold(op, View(dl), View(dr))
  {
    var l, r: Node := e.left, e.right;
    if l.kind == KSym && l.lsym == op.Absorbing() {
      de := BecomeSymbol(e, op.Absorbing());
    } else if l.kind == KSym && l.lsym == op.Neutral() {
      de := Overwrite(e, r, dr);
    } else if r.kind == KSym && r.lsym == op.Absorbing() {
      de := BecomeSymbol(e, op.Absorbing());
    } else if r.kind == KSym && r.lsym == op.Neutral() {
      de := Overwrite(e, l, dl);
    } else {
      de := SBin(e, op, dl, dr);
    }
  }

  /** expr_trans_bool. */
  method TransBoolInPlace(e: Node, ghost d: Shape) returns (ghost de: Shape)
    requires Rep(d) && e == d.n
    modifies Nodes(d)
    ensures Rep(de) && de.n == e && Nodes(de) == Nodes(d)
    ensures View(de) == TransBool(View(d))
    decreases d
  {
    Allocated(d);
    match e.kind
    case KSym => de := d;
    case KNot =>
      ghost var dc := TransBoolInPlace(e.left, d.c);
      de := SNot(e, dc);
    case KBin(op) =>
      ghost var dl := TransBoolInPlace(e.left, d.l);
      ghost var dr := TransBoolInPlace(e.right, d.r);
      de := SBin(e, op, dl, dr);
    case KCmp(rel) =>
      de := d;
      if rel == UNEQUAL && e.lsym.typ == S_TRISTATE && e.rsym == SYMBOL_NO {
        e.kind := KSym;
        de := SSym(e, e.lsym);
      }
  }

  /** expr_trans_compare against n, on a non-NULL expression: builds a new tree. */
  method TransCompareNew(e: Node, rel: RelOp, ghost d: Shape) returns (r: Node, ghost dr: Shape)
    requires Rep(d) && e == d.n && (rel == EQUAL || rel == UNEQUAL)
    ensures Rep(dr) && r == dr.n && fresh(Nodes(dr))
    ensures View(dr) == TransCompare(View(d), rel)
    decreases d
  {
    Allocated(d);
    match e.kind
    case KBin(op) =>
      r, dr := TransCompareBoth(op, e, d);
      if rel == UNEQUAL { r, dr := AllocNot(r, dr); }
    case KNot =>
      r, dr := TransCompareNew(e.left, if rel == EQUAL then UNEQUAL else EQUAL, d.c);
    case KCmp(_) =>
      r, dr := Copy(e, d);
      if rel == EQUAL { r, dr := AllocNot(r, dr); }
    case KSym =>
      r, dr := AllocComp(rel, e.lsym, SYMBOL_NO);
  }

  /** Its handling of AND and OR. */
  method TransCompareBoth(op: BoolOp, e: Node, ghost d: Shape) returns (r: Node, ghost dr: Shape)
    requires Rep(d) && e == d.n && e.kind == KBin(op)
    ensures Rep(dr) && r == dr.n && fresh(Nodes(dr))
    ensures View(dr) == Bin(op.Dual(), TransCompare(View(d.l), EQUAL), TransCompare(View(d.r), EQUAL))
    decreases d, 0
  {
    Allocated(d);
    var x, dx := TransCompareNew(e.left, EQUAL, d.l);
    Allocated(dx);
    var y, dy := TransCompareNew(e.right, EQUAL, d.r);
    r, dr := AllocTwo(op.Dual(), x, y, dx, dy);
  }

  /** expr_transform: reuses nodes, allocates one per De Morgan step. */
  method TransformInPlace(e: Node, ghost d: Shape) returns (r: Node, ghost dr: Shape)
    requires Rep(d) && e == d.n
    modifies Nodes(d)
    ensures Rep(dr) && r == dr.n && forall n | n in Nodes(dr) :: n in Nodes(d) || fresh(n)
    ensures View(dr) == Transform(View(d))
    decreases Weight(View(d)), 1
  {
    Allocated(d);
    match e.kind
    case KSym => r, dr := e, d;
    case KBin(op) =>
      r := e;
      ghost var dm := TransformLeft(e, d);
      Allocated(dm);
      dr := TransformRight(e, dm, Weight(View(d)));
    case KCmp(rel) =>
      r := e;
      dr := TransformComparison(e, d);
    case KNot =>
      var c, dc := TransformInPlace(e.left, d.c);
      e.left := c;
      Allocated(dc);
      r, dr := TransformNegation(e, c, dc);
  }

  /** e->left = expr_transform(e->left), at an AND or OR. */
  method TransformLeft(e: Node, ghost d: Shape) returns (ghost dr: Shape)
    requires Rep(d) && e == d.n && d.SBin?
    modifies {e} + Nodes(d.l)
    ensures dr.SBin? && dr == SBin(e, d.op, dr.l, d.r) && Rep(dr) && View(dr.l) == Transform(View(d.l))
    ensures forall n | n in Nodes(dr.l) :: n in Nodes(d.l) || fresh(n)
    decreases Weight(View(d)), 0
  {
    Allocated(d.r);
    var x, dx := TransformInPlace(e.left, d.l);
    e.left := x;
    dr := SBin(e, d.op, dx, d.r);
  }

  /** e->right = expr_transform(e->right), at an AND or OR. */
  method TransformRight(e: Node, ghost d: Shape, ghost bound: nat) returns (ghost dr: Shape)
    requires Rep(d) && e == d.n && d.SBin? && Weight(View(d.r)) < bound
    modifies {e} + Nodes(d.r)
    ensures dr.SBin? && dr == SBin(e, d.op, d.l, dr.r) && Rep(dr) && View(dr.r) == Transform(View(d.r))
    ensures forall n | n in Nodes(dr.r) :: n in Nodes(d.r) || fresh(n)
    decreases bound, 0
  {
    Allocated(d.l);
    var y, dy := TransformInPlace(e.right, d.r);
    e.right := y;
    dr := SBin(e, d.op, d.l, dy);
  }

  /** Its E_NOT case: e is a negation whose operand c has been transformed already. */
  method TransformNegation(e: Node, c: Node, ghost dc: Shape) returns (r: Node, ghost dr: Shape)
    requires Rep(SNot(e, dc)) && c == dc.n
    modifies {e} + Nodes(dc)
    ensures Rep(dr) && r == dr.n && forall n | n in Nodes(dr) :: n == e || n in Nodes(dc) || fresh(n)
    ensures View(dr) == TransformNot(View(dc))
    decreases 2 * Weight(View(dc)), 0
  {
    Allocated(dc);
    match c.kind
    case KNot =>
      r, dr := TransformInPlace(c.left, dc.c);
    case KCmp(rel) =>
      c.kind := KCmp(rel.Negated());
      r, dr := c, SCmp(c, rel.Negated(), c.lsym, c.rsym);
    case KBin(op) =>
      DeMorganWeight(op, View(dc.l), View(dc.r));
      ghost var de := DeMorganStep(e, c, dc);
      r, dr := TransformInPlace(e, de);
    case KSym =>
      if IsTriConst(c.lsym) {
        c.lsym := if c.lsym == SYMBOL_YES then SYMBOL_NO else if c.lsym == SYMBOL_NO then SYMBOL_YES else SYMBOL_MOD;
        r, dr := c, SSym(c, c.lsym);
      } else {
        r, dr := e, SNot(e, dc);
      }
  }

  /** !(a || b) becomes !a && !b, and the other way round; the operand node is reused for !a. */
  method DeMorganStep(e: Node, c: Node, ghost dc: Shape) returns (ghost de: Shape)
    requires Rep(SNot(e, dc)) && c == dc.n && dc.SBin?
    modifies e, c
    ensures Rep(de) && de.n == e && forall n | n in Nodes(de) :: n == e || n in Nodes(dc) || fresh(n)
    ensures View(de) == Bin(dc.op.Dual(), Not(View(dc.l)), Not(View(dc.r)))
  {
    Allocated(dc);
    var y, dy := AllocNot(c.right, dc.r);
    e.kind, e.right := KBin(c.kind.op.Dual()), y;
    c.kind, c.right := KNot, null;
    de := SBin(e, dc.op.Dual(), SNot(c, dc.l), dy);
  }

  /** The rewriting of a comparison by expr_transform. */
  method TransformComparison(e: Node, ghost d: Shape) returns (ghost dr: Shape)
    requires Rep(d) && e == d.n && d.SCmp?
    modifies e
    ensures Rep(dr) && dr.n == e && forall n | n in Nodes(dr) :: n in Nodes(d) || fresh(n)
    ensures View(dr) == TransformCmp(d.rel, d.a, d.b)
  {
    dr := d;
    var rel := e.kind.rel;
    if e.lsym.typ != S_BOOLEAN || (rel != EQUAL && rel != UNEQUAL) { return; }
    if e.rsym == (if rel == EQUAL then SYMBOL_NO else SYMBOL_YES) {
      var c, dc := AllocSymbol(e.lsym);
      e.kind, e.left := KNot, c;
      dr := SNot(e, dc);
    } else if e.rsym == SYMBOL_MOD {
      dr := BecomeSymbol(e, if rel == EQUAL then SYMBOL_NO else SYMBOL_YES);
    } else if IsTriConst(e.rsym) {
      dr := BecomeSymbol(e, e.lsym);
    }
  }
}

/**
 Pointers to expression pointers (struct expr **), and what storing through one
 does to the tree it points into.
 */
module ExprSlots {
  import opened Exprs
  import opened Spines
  import opened ExprNodes

  /** A local variable of type struct expr *. */
  class Ref {
    var e: Node
    constructor (e: Node)
      ensures this.e == e
    {
      this.e := e;
    }
  }

  /** &local, &n->left.expr or &n->right.expr. */
  datatype Slot = Local(ref: Ref) | LeftOf(n: Node) | RightOf(n: Node)

  ghost function Refs(s: Slot): set<Ref> { if s.Local? then {s.ref} else {} }
  ghost function LeftNodes(s: Slot): set<Node> { if s.LeftOf? then {s.n} else {} }
  ghost function RightNodes(s: Slot): set<Node> { if s.RightOf? then {s.n} else {} }
  ghost function Owners(s: Slot): set<Node> { LeftNodes(s) + RightNodes(s) }

  function Load(s: Slot): Node?
    reads Refs(s), LeftNodes(s)`left, RightNodes(s)`right
  {
    match s
    case Local(ref) => ref.e
    case LeftOf(n) => n.left
    case RightOf(n) => n.right
  }

  method Store(s: Slot, e: Node)
    modifies Refs(s), LeftNodes(s)`left, RightNodes(s)`right
    ensures Load(s) == e
  {
    match s
    case Local(ref) => ref.e := e;
    case LeftOf(n) => n.left := e;
    case RightOf(n) => n.right := e;
  }

  /** The slot points to the tree d and is not part of it. */
  ghost predicate Holds(s: Slot, d: Shape)
    reads Refs(s), Owners(s), Nodes(d)
  {
    Load(s) == d.n && Rep(d) && Owners(s) !! Nodes(d)
  }

  predicate IsSpineNode(op: BoolOp, d: Shape) { d.SBin? && d.op == op }

  function ChildShape(d: Shape, right: bool): Shape
    requires d.SBin?
  {
    if right then d.r else d.l
  }

  function ChildSlot(d: Shape, right: bool): Slot {
    if right then RightOf(d.n) else LeftOf(d.n)
  }

  function ShapeAt(op: BoolOp, d: Shape, p: Path): (c: Shape)
    requires InSpine(op, View(d), p)
    ensures View(c) == At(op, View(d), p)
    decreases p
  {
    if p == [] then d else ShapeAt(op, ChildShape(d, p[0]), p[1..])
  }

  /** The slot at position p of the tree d, which itself hangs at root. */
  function SlotAt(op: BoolOp, root: Slot, d: Shape, p: Path): Slot
    requires InSpine(op, View(d), p)
    decreases p
  {
    if p == [] then root else SlotAt(op, ChildSlot(d, p[0]), ChildShape(d, p[0]), p[1..])
  }

  function PutShape(op: BoolOp, d: Shape, p: Path, x: Shape): (r: Shape)
    requires InSpine(op, View(d), p)
    ensures View(r) == Put(op, View(d), p, View(x))
    decreases p
  {
    if p == [] then x else WithChild(d, p[0], PutShape(op, ChildShape(d, p[0]), p[1..], x))
  }

  function WithChild(d: Shape, right: bool, y: Shape): Shape
    requires d.SBin?
  {
    if right then SBin(d.n, d.op, d.l, y) else SBin(d.n, d.op, y, d.r)
  }

  /** The spine consists of the same nodes, so slots in it stay where they are. */
  ghost predicate SpineKept(op: BoolOp, d: Shape, r: Shape) {
    && IsSpineNode(op, d) == IsSpineNode(op, r)
    && (IsSpineNode(op, d) ==> d.n == r.n && SpineKept(op, d.l, r.l) && SpineKept(op, d.r, r.r))
  }

  lemma {:induction false} SpineKeptSlots(op: BoolOp, root: Slot, d: Shape, r: Shape, p: Path)
    requires SpineKept(op, d, r) && InSpine(op, View(d), p)
    ensures InSpine(op, View(r), p) && SlotAt(op, root, r, p) == SlotAt(op, root, d, p)
    decreases p
  {
    if p != [] { SpineKeptSlots(op, ChildSlot(d, p[0]), ChildShape(d, p[0]), ChildShape(r, p[0]), p[1..]); }
  }

  lemma {:induction false} SpineKeptReflexive(op: BoolOp, d: Shape)
    ensures SpineKept(op, d, d)
  {
    if IsSpineNode(op, d) { SpineKeptReflexive(op, d.l); SpineKeptReflexive(op, d.r); }
  }

  lemma {:induction false} SpineKeptTransitive(op: BoolOp, d: Shape, r: Shape, u: Shape)
    requires SpineKept(op, d, r) && SpineKept(op, r, u)
    ensures SpineKept(op, d, u)
  {
    if IsSpineNode(op, d) { SpineKeptTransitive(op, d.l, r.l, u.l); SpineKeptTransitive(op, d.r, r.r, u.r); }
  }

  lemma {:induction false} SpineKeptByPut(op: BoolOp, d: Shape, p: Path, x: Shape)
    requires IsLeaf(op, View(d), p) && !IsSpineNode(op, x)
    ensures SpineKept(op, d, PutShape(op, d, p, x))
    decreases p
  {
    if p != [] {
      SpineKeptByPut(op, ChildShape(d, p[0]), p[1..], x);
      SpineKeptReflexive(op, d.l);
      SpineKeptReflexive(op, d.r);
    }
  }

  /** A slot in the spine holds the subtree at its position. */
  lemma {:induction false} HoldsAt(op: BoolOp, root: Slot, d: Shape, p: Path)
    requires Holds(root, d) && InSpine(op, View(d), p)
    ensures Holds(SlotAt(op, root, d, p), ShapeAt(op, d, p)) && Nodes(ShapeAt(op, d, p)) <= Nodes(d)
    ensures Owners(SlotAt(op, root, d, p)) <= Owners(root) + Nodes(d)
    ensures if p == [] then SlotAt(op, root, d, p) == root
            else !SlotAt(op, root, d, p).Local? && SlotAt(op, root, d, p).n in Nodes(d)
    decreases p
  {
    if p != [] { HoldsAt(op, ChildSlot(d, p[0]), ChildShape(d, p[0]), p[1..]); }
  }

  lemma {:induction false} SlotOfChild(op: BoolOp, root: Slot, d: Shape, p: Path, right: bool)
    requires InSpine(op, View(d), p) && At(op, View(d), p).IsOp(op)
    ensures InSpine(op, View(d), p + [right])
    ensures SlotAt(op, root, d, p + [right]) == ChildSlot(ShapeAt(op, d, p), right)
    decreases p
  {
    SpineStep(op, View(d), p, right);
    if p != [] {
      assert (p + [right])[1..] == p[1..] + [right];
      SlotOfChild(op, ChildSlot(d, p[0]), ChildShape(d, p[0]), p[1..], right);
    }
  }

  /** Different operands have no node in common and hang at different slots. */
  lemma {:induction false} LeavesApart(op: BoolOp, root: Slot, d: Shape, p: Path, q: Path)
    requires Holds(root, d) && IsLeaf(op, View(d), p) && IsLeaf(op, View(d), q) && p != q
    ensures Nodes(ShapeAt(op, d, p)) !! Nodes(ShapeAt(op, d, q))
    ensures SlotAt(op, root, d, p) != SlotAt(op, root, d, q)
    ensures Owners(SlotAt(op, root, d, q)) !! Nodes(ShapeAt(op, d, p))
    decreases p
  {
    assert p != [] && q != [];
    HoldsAt(op, ChildSlot(d, p[0]), ChildShape(d, p[0]), p[1..]);
    HoldsAt(op, ChildSlot(d, q[0]), ChildShape(d, q[0]), q[1..]);
    if p[0] == q[0] {
      assert p == [p[0]] + p[1..] && q == [q[0]] + q[1..];
      LeavesApart(op, ChildSlot(d, p[0]), ChildShape(d, p[0]), p[1..], q[1..]);
    }
  }

  /** What the heap must hold at one node of a tree. */
  datatype Want =
    | WSym(s: Symbol)
    | WNot(c: Node)
    | WBin(op: BoolOp, l: Node, r: Node)
    | WCmp(rel: RelOp, a: Symbol, b: Symbol)

  ghost predicate Is(n: Node, w: Want)
    reads n
  {
    match w
    case WSym(s) => n.kind == KSym && n.lsym == s
    case WNot(c) => n.kind == KNot && n.left == c
    case WBin(op, l, r) => n.kind == KBin(op) && n.left == l && n.right == r
    case WCmp(rel, a, b) => n.kind == KCmp(rel) && n.lsym == a && n.rsym == b
  }

  ghost function WantAt(d: Shape, n: Node): Want
    requires n in Nodes(d)
  {
    match d
    case SSym(_, s) => WSym(s)
    case SCmp(_, rel, a, b) => WCmp(rel, a, b)
    case SNot(m, c) => if n == m then WNot(c.n) else WantAt(c, n)
    case SBin(m, op, l, r) =>
      if n == m then WBin(op, l.n, r.n) else if n in Nodes(l) then WantAt(l, n) else WantAt(r, n)
  }

  /** No node occurs twice. */
  ghost predicate Tree(d: Shape) {
    match d
    case SNot(n, c) => n !in Nodes(c) && Tree(c)
    case SBin(n, _, l, r) => n !in Nodes(l) && n !in Nodes(r) && Nodes(l) !! Nodes(r) && Tree(l) && Tree(r)
    case _ => true
  }

  lemma {:induction false} RepIsNodewise(d: Shape, n: Node)
    requires Rep(d) && n in Nodes(d)
    ensures Is(n, WantAt(d, n))
  {
    match d
    case SNot(m, c) => if n != m { RepIsNodewise(c, n); }
    case SBin(m, _, l, r) =>
      if n in Nodes(l) { RepIsNodewise(l, n); } else if n in Nodes(r) { RepIsNodewise(r, n); }
    case _ =>
  }

  lemma {:induction false} RepIsTree(d: Shape)
    requires Rep(d)
    ensures Tree(d)
  {
    match d
    case SNot(_, c) => RepIsTree(c);
    case SBin(_, _, l, r) => RepIsTree(l); RepIsTree(r);
    case _ =>
  }

  lemma {:induction false} NodewiseIsRep(d: Shape)
    requires Tree(d) && forall n | n in Nodes(d) :: Is(n, WantAt(d, n))
    ensures Rep(d)
  {
    assert Is(d.n, WantAt(d, d.n));
    match d
    case SNot(m, c) =>
      forall n | n in Nodes(c) ensures Is(n, WantAt(c, n)) { assert Is(n, WantAt(d, n)); }
      NodewiseIsRep(c);
    case SBin(m, op, l, r) =>
      forall n | n in Nodes(l) ensures Is(n, WantAt(l, n)) { assert Is(n, WantAt(d, n)); }
      forall n | n in Nodes(r) ensures Is(n, WantAt(r, n)) { assert Is(n, WantAt(d, n)); }
      NodewiseIsRep(l);
      NodewiseIsRep(r);
    case _ =>
  }

  /** The node contents asked for once the slot s has been redirected to node e. */
  function Redirected(w: Want, n: Node, s: Slot, e: Node): Want {
    if w.WBin? && s == LeftOf(n) then w.(l := e)
    else if w.WBin? && s == RightOf(n) then w.(r := e)
    else w
  }

  /** Replacing the subtree at p by x. */
  lemma {:induction false} PutIsTree(op: BoolOp, d: Shape, p: Path, x: Shape)
    requires Tree(d) && InSpine(op, View(d), p)
    requires Tree(x) && Nodes(x) !! Nodes(d) - Nodes(ShapeAt(op, d, p))
    ensures Nodes(ShapeAt(op, d, p)) <= Nodes(d)
    ensures Tree(PutShape(op, d, p, x))
    ensures Nodes(PutShape(op, d, p, x)) == Nodes(d) - Nodes(ShapeAt(op, d, p)) + Nodes(x)
    decreases p
  {
    if p != [] {
      NodesAt(op, ChildShape(d, p[0]), p[1..]);
      PutIsTree(op, ChildShape(d, p[0]), p[1..], x);
      WithChildIsTree(d, p[0], PutShape(op, ChildShape(d, p[0]), p[1..], x));
    }
  }

  lemma WithChildIsTree(d: Shape, right: bool, y: Shape)
    requires Tree(d) && d.SBin? && Tree(y)
    requires Nodes(y) !! Nodes(d) - Nodes(ChildShape(d, right))
    ensures Tree(WithChild(d, right, y))
    ensures Nodes(WithChild(d, right, y)) == Nodes(d) - Nodes(ChildShape(d, right)) + Nodes(y)
  {
  }

  lemma {:induction false} NodesAt(op: BoolOp, d: Shape, p: Path)
    requires InSpine(op, View(d), p)
    ensures Nodes(ShapeAt(op, d, p)) <= Nodes(d)
    decreases p
  {
    if p != [] { NodesAt(op, ChildShape(d, p[0]), p[1..]); }
  }

  /** ... brings in the nodes of x as they are ... */
  lemma {:induction false} PutWantsInside(op: BoolOp, d: Shape, p: Path, x: Shape, n: Node)
    requires Tree(d) && InSpine(op, View(d), p) && n in Nodes(x)
    requires Tree(x) && Nodes(x) !! Nodes(d) - Nodes(ShapeAt(op, d, p))
    ensures n in Nodes(PutShape(op, d, p, x)) && WantAt(PutShape(op, d, p, x), n) == WantAt(x, n)
    decreases p
  {
    if p != [] {
      var c := ChildShape(d, p[0]);
      NodesAt(op, c, p[1..]);
      PutIsTree(op, c, p[1..], x);
      PutWantsInside(op, c, p[1..], x, n);
    }
  }

  /** ... and changes, outside x, only the slot at p. */
  lemma {:induction false} PutWantsOutside(op: BoolOp, root: Slot, d: Shape, p: Path, x: Shape, n: Node)
    requires Tree(d) && Owners(root) !! Nodes(d) && InSpine(op, View(d), p)
    requires Tree(x) && Nodes(x) !! Nodes(d) - Nodes(ShapeAt(op, d, p))
    requires n in Nodes(d) - Nodes(ShapeAt(op, d, p))
    ensures n in Nodes(PutShape(op, d, p, x))
    ensures WantAt(PutShape(op, d, p, x), n) == Redirected(WantAt(d, n), n, SlotAt(op, root, d, p), x.n)
    decreases p
  {
    if p != [] {
      var c := ChildShape(d, p[0]);
      NodesAt(op, c, p[1..]);
      if n in Nodes(c) {
        PutWantsOutside(op, ChildSlot(d, p[0]), c, p[1..], x, n);
        SameWants(d, p[0], PutShape(op, c, p[1..], x), n);
      } else {
        PutWantsAbove(op, root, d, p, x, n);
      }
    }
  }

  /** The same for a node outside the operand on the way to p. */
  lemma PutWantsAbove(op: BoolOp, root: Slot, d: Shape, p: Path, x: Shape, n: Node)
    requires Tree(d) && Owners(root) !! Nodes(d) && InSpine(op, View(d), p) && p != []
    requires Tree(x) && Nodes(x) !! Nodes(d) - Nodes(ShapeAt(op, d, p))
    requires n in Nodes(d) && n !in Nodes(ChildShape(d, p[0]))
    ensures n in Nodes(PutShape(op, d, p, x))
    ensures WantAt(PutShape(op, d, p, x), n) == Redirected(WantAt(d, n), n, SlotAt(op, root, d, p), x.n)
  {
    var c := ChildShape(d, p[0]);
    NodesAt(op, c, p[1..]);
    PutIsTree(op, c, p[1..], x);
    SlotInside(op, ChildSlot(d, p[0]), c, p[1..]);
    OtherWants(d, p[0], PutShape(op, c, p[1..], x), n);
  }

  /** Inside an operand that is replaced, only the operand matters. */
  lemma SameWants(d: Shape, right: bool, y: Shape, n: Node)
    requires Tree(d) && d.SBin? && n in Nodes(ChildShape(d, right)) && n in Nodes(y)
    ensures WantAt(d, n) == WantAt(ChildShape(d, right), n)
    ensures WantAt(WithChild(d, right, y), n) == WantAt(y, n)
  {
  }

  /** Elsewhere only the node above it sees another one. */
  lemma OtherWants(d: Shape, right: bool, y: Shape, n: Node)
    requires Tree(d) && d.SBin? && Nodes(y) !! Nodes(d) - Nodes(ChildShape(d, right))
    requires n in Nodes(d) && n !in Nodes(ChildShape(d, right))
    ensures n in Nodes(WithChild(d, right, y))
    ensures WantAt(WithChild(d, right, y), n) ==
            if n == d.n then Redirected(WantAt(d, n), n, ChildSlot(d, right), y.n) else WantAt(d, n)
  {
  }

  lemma {:induction false} SlotInside(op: BoolOp, root: Slot, d: Shape, p: Path)
    requires InSpine(op, View(d), p)
    ensures if p == [] then SlotAt(op, root, d, p) == root
            else !SlotAt(op, root, d, p).Local? && SlotAt(op, root, d, p).n in Nodes(d)
    decreases p
  {
    if p != [] { SlotInside(op, ChildSlot(d, p[0]), ChildShape(d, p[0]), p[1..]); }
  }

  /** The node that owns an inner slot is an AND or OR. */
  lemma {:induction false} SlotOwner(op: BoolOp, root: Slot, d: Shape, p: Path)
    requires Tree(d) && InSpine(op, View(d), p) && p != []
    ensures !SlotAt(op, root, d, p).Local? && SlotAt(op, root, d, p).n in Nodes(d)
    ensures WantAt(d, SlotAt(op, root, d, p).n).WBin?
    decreases p
  {
    var c := ChildShape(d, p[0]);
    if |p| > 1 { SlotOwner(op, ChildSlot(d, p[0]), c, p[1..]); }
  }

  ghost predicate Nodewise(d: Shape)
    reads Nodes(d)
  {
    forall n | n in Nodes(d) :: Is(n, WantAt(d, n))
  }

  lemma HoldsNodewise(root: Slot, d: Shape)
    requires Holds(root, d)
    ensures Tree(d) && Nodewise(d)
  {
    RepIsTree(d);
    forall n | n in Nodes(d) ensures Is(n, WantAt(d, n)) { RepIsNodewise(d, n); }
  }

  /** Once x hangs at p and nothing else outside has changed, the slot holds the tree with x put at p. */
  lemma Replaced(op: BoolOp, root: Slot, d: Shape, p: Path, x: Shape)
    requires Tree(d) && Owners(root) !! Nodes(d) && InSpine(op, View(d), p)
    requires Rep(x) && Owners(root) !! Nodes(x) && Nodes(x) !! Nodes(d) - Nodes(ShapeAt(op, d, p))
    requires Load(root) == if p == [] then x.n else d.n
    requires forall n | n in Nodes(d) - Nodes(ShapeAt(op, d, p)) ::
      Is(n, Redirected(WantAt(d, n), n, SlotAt(op, root, d, p), x.n))
    ensures Holds(root, PutShape(op, d, p, x))
    ensures Nodes(PutShape(op, d, p, x)) == Nodes(d) - Nodes(ShapeAt(op, d, p)) + Nodes(x)
  {
    var r := PutShape(op, d, p, x);
    RepIsTree(x);
    PutIsTree(op, d, p, x);
    forall n | n in Nodes(r) ensures Is(n, WantAt(r, n)) {
      if n in Nodes(x) {
        PutWantsInside(op, d, p, x, n);
        RepIsNodewise(x, n);
      } else {
        PutWantsOutside(op, root, d, p, x, n);
      }
    }
    NodewiseIsRep(r);
  }
}

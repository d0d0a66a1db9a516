/**
 struct menu and the tree its links form, and the stackless walk over it that
 conf_write and conf_write_defconfig share.
 */
module MenuTree {
  import opened Tristates
  import opened Exprs

  /** A prompt: whether it has a text, and its condition. */
  datatype Prompt = Prompt(hasText: bool, cond: Option<Expr>)

  datatype PropKind = DefaultProp | RangeProp | SelectProp(target: nat) | ImplyProp(target: nat)

  /** Another property of a symbol, at the place where it is defined. */
  datatype Prop = Prop(kind: PropKind, cond: Option<Expr>)

  /** What a menu node holds besides its links; choice is the choice of which its symbol is a value by this entry. */
  datatype MenuData = MenuData(sym: Option<Symbol>, isChoice: bool, isOptional: bool, prompt: Option<Prompt>,
                               dep: Option<Expr>, props: seq<Prop>, choice: Option<Symbol>)

  class Menu {
    var next: Menu?
    var parent: Menu?
    var list: Menu?
    const sym: Option<Symbol>
    /** SYMBOL_CHOICE and SYMBOL_OPTIONAL of the symbol */
    const isChoice: bool
    const isOptional: bool
    var prompt: Option<Prompt>
    var dep: Option<Expr>
    var props: seq<Prop>
    /** the property of type P_CHOICE that stands at this entry */
    var choice: Option<Symbol>

    constructor (data: MenuData)
      ensures next == null && parent == null && list == null && Data() == data
    {
      next, parent, list := null, null, null;
      sym, isChoice, isOptional := data.sym, data.isChoice, data.isOptional;
      prompt, dep, props, choice := data.prompt, data.dep, data.props, data.choice;
    }

    function Data(): MenuData
      reads this
    {
      MenuData(sym, isChoice, isOptional, prompt, dep, props, choice)
    }
  }

  /** A list of sibling nodes, each with the list of its children. */
  datatype Forest = Nil | Cons(node: Menu, data: MenuData, kids: Forest, rest: Forest) {
    function Head(): Menu? { if Nil? then null else node }

    function Size(): nat { if Nil? then 0 else 1 + kids.Size() + rest.Size() }

    ghost function Nodes(): set<Menu> { if Nil? then {} else {node} + kids.Nodes() + rest.Nodes() }

    /** All nodes, parents before children. */
    function Preorder(): (s: seq<Menu>)
      ensures |s| == Size()
    {
      if Nil? then [] else [node] + kids.Preorder() + rest.Preorder()
    }
  }

  /** The links of the nodes form f, a list of children of parent that leads on to end. */
  ghost predicate Linked(f: Forest, parent: Menu?, end: Menu?)
    reads f.Nodes()
    decreases f
  {
    var linked := f.Cons? ==>
      && f.node.Data() == f.data && f.node.parent == parent && f.node.list == f.kids.Head()
      && f.node.next == (if f.rest.Cons? then f.rest.node else end)
      && Linked(f.kids, f.node, null) && Linked(f.rest, parent, end);
    linked
  }

  lemma {:induction false} InMemory(f: Forest)
    ensures forall m | m in f.Nodes() :: allocated(m)
  {
    if f.Cons? {
      InMemory(f.kids);
      InMemory(f.rest);
    }
  }

  /** The ancestors of a node, each with the siblings that follow it. */
  datatype Ancestors = Top | Below(node: Menu, rest: Forest, up: Ancestors) {
    function Parent(): Menu? { if Top? then null else node }

    /** The nodes that come after the node and its siblings. */
    function Later(): seq<Menu> { if Top? then [] else rest.Preorder() + up.Later() }

    ghost function Nodes(): set<Menu> { if Top? then {} else {node} + rest.Nodes() + up.Nodes() }
  }

  ghost predicate LinkedUp(a: Ancestors)
    reads a.Nodes()
  {
    a.Below? ==>
      && a.node.parent == a.up.Parent() && a.node.next == a.rest.Head()
      && Linked(a.rest, a.up.Parent(), null) && LinkedUp(a.up)
  }

  /** A position of the walk: a node with its children and later siblings, and its ancestors. */
  datatype Place = Place(here: Forest, up: Ancestors) {
    function Todo(): seq<Menu> { here.Preorder() + up.Later() }

    ghost function Nodes(): set<Menu> { here.Nodes() + up.Nodes() }

    /** The position of the next node in preorder. */
    function Succ(): (q: Place)
      requires here.Cons?
      ensures [here.node] + q.Todo() == Todo()
    {
      if here.kids.Cons? then
        assert Todo() == [here.node] + (here.kids.Preorder() + (here.rest.Preorder() + up.Later()));
        Place(here.kids, Below(here.node, here.rest, up))
      else if here.rest.Cons? then Place(here.rest, up)
      else After(up)
    }
  }

  /** The position that follows all descendants of the closest ancestor. */
  function After(up: Ancestors): (q: Place)
    ensures q.Todo() == up.Later() && (q.here.Nil? ==> q.up.Top?)
  {
    if up.Top? then Place(Nil, Top)
    else if up.rest.Cons? then Place(up.rest, up.up)
    else After(up.up)
  }

  ghost predicate At(p: Place, menu: Menu?)
    reads p.Nodes()
  {
    && menu == p.here.Head() && (menu == null ==> p.up.Top?)
    && Linked(p.here, p.up.Parent(), null) && LinkedUp(p.up)
  }

  lemma PlaceInMemory(p: Place)
    ensures forall m | m in p.Nodes() :: allocated(m)
  {
    InMemory(p.here);
    AncestorsInMemory(p.up);
  }

  lemma {:induction false} AncestorsInMemory(a: Ancestors)
    ensures forall m | m in a.Nodes() :: allocated(m)
  {
    if a.Below? {
      InMemory(a.rest);
      AncestorsInMemory(a.up);
    }
  }

  /**
   One step of the walk: to the first child, else to the next sibling, else to
   the next sibling of the closest ancestor that has one. It leads to the next
   node in preorder.
   */
  method Next(menu: Menu, ghost p: Place) returns (m: Menu?)
    requires At(p, menu)
    ensures At(p.Succ(), m)
  {
    if menu.list != null { return menu.list; }
    if menu.next != null { return menu.next; }
    ghost var a := p.up;
    m := menu.parent;
    while m != null
      invariant m == a.Parent() && LinkedUp(a) && After(a) == After(p.up)
      decreases a
    {
      if m.next != null { return m.next; }
      a := a.up;
      m := m.parent;
    }
  }

  /** A node has one place only: its links determine what is below, beside and above it. */
  lemma {:induction false} OnePlace(f: Forest, g: Forest, p: Menu?, q: Menu?)
    requires Linked(f, p, null) && Linked(g, q, null) && f.Head() == g.Head()
    ensures f == g
  {
    if f.Cons? {
      OnePlace(f.kids, g.kids, f.node, g.node);
      OnePlace(f.rest, g.rest, p, q);
    }
  }

  lemma {:induction false} OneAncestry(a: Ancestors, b: Ancestors)
    requires LinkedUp(a) && LinkedUp(b) && a.Parent() == b.Parent()
    ensures a == b
  {
    if a.Below? {
      OnePlace(a.rest, b.rest, a.up.Parent(), b.up.Parent());
      OneAncestry(a.up, b.up);
    }
  }

  lemma SuccIsLinked(p: Place)
    requires p.here.Cons? && At(p, p.here.node)
    ensures At(p.Succ(), p.Succ().here.Head())
  {
    if p.here.kids.Nil? && p.here.rest.Nil? { AfterIsLinked(p.up); }
  }

  lemma {:induction false} AfterIsLinked(up: Ancestors)
    requires LinkedUp(up)
    ensures At(After(up), After(up).here.Head())
  {
    if up.Below? && up.rest.Nil? { AfterIsLinked(up.up); }
  }

  /** Every node still to be visited has a place of its own, with what comes from there on. */
  lemma {:induction false} PlaceOf(p: Place, k: nat) returns (q: Place)
    requires At(p, p.here.Head()) && k < |p.Todo()|
    ensures At(q, p.Todo()[k]) && q.Todo() == p.Todo()[k..]
    decreases k
  {
    q := p;
    if k > 0 {
      SuccIsLinked(p);
      q := PlaceOf(p.Succ(), k - 1);
      assert p.Todo()[1..] == p.Succ().Todo();
    }
  }

  predicate Distinct(s: seq<Menu>) { forall i, j | 0 <= i < j < |s| :: s[i] != s[j] }

  /** The walk visits no node twice. */
  lemma NoRepeats(p: Place)
    requires At(p, p.here.Head())
    ensures Distinct(p.Todo())
  {
    forall i, j | 0 <= i < j < |p.Todo()| ensures p.Todo()[i] != p.Todo()[j] {
      var a := PlaceOf(p, i);
      var b := PlaceOf(p, j);
      if p.Todo()[i] == p.Todo()[j] {
        OnePlace(a.here, b.here, a.up.Parent(), b.up.Parent());
        OneAncestry(a.up, b.up);
      }
    }
  }

  /** Where the walk over the descendants of the root menu starts. */
  function Start(root: Menu, kids: Forest): (p: Place)
    ensures p.Todo() == kids.Preorder()
  {
    if kids.Nil? then Place(Nil, Top)
    else
      assert Below(root, Nil, Top).Later() == [];
      Place(kids, Below(root, Nil, Top))
  }

  ghost predicate Rooted(root: Menu, kids: Forest)
    reads root, kids.Nodes()
  {
    && root.parent == null && root.next == null
    && root.list == kids.Head() && Linked(kids, root, null)
  }

  /** n of all nodes have been visited; the next one is menu. */
  ghost predicate Walking(p: Place, menu: Menu?, all: seq<Menu>, n: nat)
    reads p.Nodes()
  {
    At(p, menu) && n <= |all| && p.Todo() == all[n..]
  }

  lemma StartWalking(root: Menu, kids: Forest)
    requires Rooted(root, kids)
    ensures Walking(Start(root, kids), root.list, kids.Preorder(), 0)
  {
    assert LinkedUp(Top);
    assert kids.Cons? ==> LinkedUp(Below(root, Nil, Top));
  }

  lemma NowAt(p: Place, menu: Menu, all: seq<Menu>, n: nat)
    requires Walking(p, menu, all, n)
    ensures n < |all| && menu == all[n]
  {
    assert p.Todo()[0] == menu;
  }

  method Advance(menu: Menu, ghost p: Place, ghost all: seq<Menu>, ghost n: nat) returns (m: Menu?)
    requires Walking(p, menu, all, n)
    ensures n < |all| && menu == all[n] && Walking(p.Succ(), m, all, n + 1)
  {
    m := Next(menu, p);
    assert p.Todo()[0] == menu && p.Todo()[1..] == p.Succ().Todo();
  }

  lemma OneMoreVisited(all: seq<Menu>, n: nat)
    ensures n < |all| ==> all[..n + 1] == all[..n] + [all[n]]
  {
  }

  lemma Walked(p: Place, all: seq<Menu>, n: nat)
    requires Walking(p, null, all, n)
    ensures n == |all| && all[..n] == all
  {
    assert p.Todo() == [];
  }

  /** The whole walk from the root menu visits exactly its descendants, each once, in preorder. */
  method Walk(root: Menu, ghost kids: Forest) returns (visited: seq<Menu>)
    requires Rooted(root, kids)
    ensures visited == kids.Preorder() && Distinct(visited)
  {
    var menu := root.list;
    ghost var all, p := kids.Preorder(), Start(root, kids);
    StartWalking(root, kids);
    NoRepeats(p);
    visited := [];
    ghost var n := 0;
    while menu != null
      invariant Walking(p, menu, all, n) && visited == all[..n]
      decreases |all| - n
    {
      OneMoreVisited(all, n);
      visited := visited + [menu];
      menu := Advance(menu, p, all, n);
      p, n := p.Succ(), n + 1;
    }
    Walked(p, all, n);
  }
}

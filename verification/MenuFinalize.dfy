/** menu_finalize on the linked menu nodes. */
module MenuFinalize {
  import opened Tristates
  import opened Exprs
  import opened MenuTree
  import opened MenuSpec
  import opened MenuInheritance
  import opened MenuClaims

  /** No node occurs twice. */
  ghost predicate Disjoint(f: Forest) {
    var disjoint := f.Cons? ==>
      && f.node !in f.kids.Nodes() && f.node !in f.rest.Nodes() && f.kids.Nodes() !! f.rest.Nodes()
      && Disjoint(f.kids) && Disjoint(f.rest);
    disjoint
  }

  function HeadOr(f: Forest, end: Menu?): Menu? { if f.Cons? then f.node else end }

  lemma {:induction false} LinkedAppend(f: Forest, g: Forest, parent: Menu?, end: Menu?)
    requires Linked(f, parent, HeadOr(g, end)) && Linked(g, parent, end)
    ensures Linked(Append(f, g), parent, end)
  {
    if f.Cons? { LinkedAppend(f.rest, g, parent, end); }
  }

  lemma {:induction false} DisjointAppend(f: Forest, g: Forest)
    requires Disjoint(f) && Disjoint(g) && f.Nodes() !! g.Nodes()
    ensures Disjoint(Append(f, g)) && Append(f, g).Nodes() == f.Nodes() + g.Nodes()
  {
    if f.Cons? { DisjointAppend(f.rest, g); }
  }

  lemma {:induction false} AppendAssoc(f: Forest, g: Forest, h: Forest)
    ensures Append(Append(f, g), h) == Append(f, Append(g, h))
  {
    if f.Cons? { AppendAssoc(f.rest, g, h); }
  }

  lemma {:induction false} AppendNil(f: Forest)
    ensures Append(f, Nil) == f
  {
    if f.Cons? { AppendNil(f.rest); }
  }

  lemma {:induction false} NodesArePreorder(f: Forest, m: Menu)
    ensures m in f.Nodes() <==> m in f.Preorder()
  {
    if f.Cons? {
      NodesArePreorder(f.kids, m);
      NodesArePreorder(f.rest, m);
    }
  }

  lemma {:induction false} HaveParents(f: Forest, parent: Menu, m: Menu)
    requires Linked(f, parent, null) && m in f.Nodes()
    ensures m.parent != null
  {
    if m in f.kids.Nodes() { HaveParents(f.kids, f.node, m); }
    else if m in f.rest.Nodes() { HaveParents(f.rest, parent, m); }
  }

  lemma DistinctParts(x: Menu, a: seq<Menu>, b: seq<Menu>)
    requires Distinct([x] + a + b)
    ensures x !in a && x !in b && Distinct(a) && Distinct(b) && forall m | m in a :: m !in b
  {
    var s := [x] + a + b;
    assert s[0] == x;
    assert forall i | 0 <= i < |a| :: a[i] == s[1 + i];
    assert forall i | 0 <= i < |b| :: b[i] == s[1 + |a| + i];
  }

  /** Nodes that are all different form disjoint parts. */
  lemma {:induction false} DistinctIsDisjoint(f: Forest)
    requires Distinct(f.Preorder())
    ensures Disjoint(f)
  {
    if f.Cons? {
      DistinctParts(f.node, f.kids.Preorder(), f.rest.Preorder());
      DistinctIsDisjoint(f.kids);
      DistinctIsDisjoint(f.rest);
      PartsAreApart(f);
    }
  }

  lemma PartsAreApart(f: Forest)
    requires f.Cons? && f.node !in f.kids.Preorder() && f.node !in f.rest.Preorder()
    requires forall m | m in f.kids.Preorder() :: m !in f.rest.Preorder()
    ensures f.node !in f.kids.Nodes() && f.node !in f.rest.Nodes() && f.kids.Nodes() !! f.rest.Nodes()
  {
    NodesArePreorder(f.kids, f.node);
    NodesArePreorder(f.rest, f.node);
    forall m | m in f.kids.Nodes() ensures m !in f.rest.Nodes() {
      NodesArePreorder(f.kids, m);
      NodesArePreorder(f.rest, m);
    }
  }

  /** The nodes below the root menu are all different, and different from it. */
  lemma RootedIsDisjoint(root: Menu, kids: Forest)
    requires Rooted(root, kids)
    ensures Disjoint(Cons(root, root.Data(), kids, Nil)) && Distinct([root] + kids.Preorder())
  {
    StartWalking(root, kids);
    NoRepeats(Start(root, kids));
    DistinctIsDisjoint(kids);
    if root in kids.Nodes() { HaveParents(kids, root, root); }
    NodesArePreorder(kids, root);
  }

  lemma OneReplaced<T>(goal: seq<T>, s: seq<T>, n: nat)
    requires n < |s| == |goal|
    ensures (goal[..n] + s[n..])[n] == s[n]
    ensures (goal[..n] + s[n..])[n := goal[n]] == goal[..n + 1] + s[n + 1..]
    ensures goal[..n] + [goal[n]] == goal[..n + 1]
  {
  }

  lemma Assoc<T>(a: seq<T>, b: seq<T>, c: seq<T>)
    ensures a + (b + c) == a + b + c
  {
  }

  lemma {:induction false} PropagateDisjoint(f: Forest, above: Option<Expr>, rules: Rules)
    requires Disjoint(f)
    ensures Disjoint(PropagateAll(f, above, rules)) && PropagateAll(f, above, rules).Nodes() == f.Nodes()
  {
    if f.Cons? { PropagateDisjoint(f.rest, above, rules); }
  }

  lemma {:induction false} FlattenDisjoint(f: Forest)
    requires Disjoint(f)
    ensures Disjoint(Flatten(f)) && Flatten(f).Nodes() == f.Nodes()
    decreases f.Size()
  {
    if f.Cons? {
      if f.kids.Cons? && !HasText(f.data) {
        DisjointAppend(f.kids, f.rest);
        FlattenDisjoint(Append(f.kids, f.rest));
      } else {
        FlattenDisjoint(f.rest);
      }
    }
  }

  lemma {:induction false} MarkDisjoint(parent: MenuData, f: Forest, es: seq<Effect>)
    requires Disjoint(f)
    ensures Disjoint(MarkAll(parent, f, es)) && MarkAll(parent, f, es).Nodes() == f.Nodes()
  {
    if f.Cons? { MarkDisjoint(parent, f.rest, AfterMark(parent, f.data, es)); }
  }

  lemma {:induction false} FinalizeDisjoint(f: Forest, rules: Rules, es: seq<Effect>)
    requires f.Cons? && Disjoint(f)
    ensures Disjoint(MenuSpec.Finalize(f, rules, es)) && MenuSpec.Finalize(f, rules, es).Nodes() == f.Nodes()
    decreases f.Size(), 0
  {
    if f.kids.Cons? {
      var kids, es1 := PropagateAll(f.kids, HandsDown(f.data), rules),
        AfterPropagate(f.kids, HandsDown(f.data), rules, es);
      PropagateDisjoint(f.kids, HandsDown(f.data), rules);
      FinalizeAllDisjoint(kids, rules, es1);
      FlattenDisjoint(FinalizeAll(kids, rules, es1));
      MarkDisjoint(f.data, Flatten(FinalizeAll(kids, rules, es1)), AfterAll(kids, rules, es1));
    } else if f.data.sym.Some? {
      var taken := Absorb(f.data.sym.value, f.data, f.rest, rules, es).0;
      AbsorbDisjoint(f.data.sym.value, f.data, f.rest, rules, es);
      FlattenDisjoint(taken);
      MarkDisjoint(f.data, Flatten(taken), AfterAbsorb(f.data.sym.value, f.data, f.rest, rules, es));
    }
  }

  lemma {:induction false} FinalizeAllDisjoint(f: Forest, rules: Rules, es: seq<Effect>)
    requires Disjoint(f)
    ensures Disjoint(FinalizeAll(f, rules, es)) && FinalizeAll(f, rules, es).Nodes() == f.Nodes()
    decreases f.Size(), 1
  {
    if f.Cons? {
      FinalizeDisjoint(f, rules, es);
      FinalizeAllDisjoint(MenuSpec.Finalize(f, rules, es).rest, rules, AfterFinalize(f, rules, es));
    }
  }

  lemma {:induction false} AbsorbDisjoint(sym: Symbol, parent: MenuData, f: Forest, rules: Rules, es: seq<Effect>)
    requires Disjoint(f)
    ensures var r := Absorb(sym, parent, f, rules, es);
      Disjoint(r.0) && Disjoint(r.1) && r.0.Nodes() !! r.1.Nodes() && r.0.Nodes() + r.1.Nodes() == f.Nodes()
    decreases f.Size(), 1
  {
    if f.Cons? && rules.belongs(sym, parent, f.data) {
      FinalizeDisjoint(f, rules, es);
      AbsorbDisjoint(sym, parent, MenuSpec.Finalize(f, rules, es).rest, rules, AfterFinalize(f, rules, es));
    }
  }

  /** Other data with as much text do not change how a list is flattened. */
  lemma SameFlatten(f: Forest, d: MenuData)
    requires f.Cons? && HasText(d) == HasText(f.data)
    ensures var x := Flatten(f);
      x.Cons? && x.data == f.data && Flatten(Cons(f.node, d, f.kids, f.rest)) == Cons(x.node, d, x.kids, x.rest)
  {
  }

  /** The list as the last loop leaves it, from its first node on. */
  lemma MarkedFirst(parent: MenuData, todo: Forest, f: Forest, es: seq<Effect>)
    requires todo.Cons? && f.Cons? && (f.kids.Cons? ==> HasText(f.data))
    requires Flatten(f) == Flatten(Cons(todo.node, Mark(parent, todo.data, es), todo.kids, todo.rest))
    ensures var es2 := AfterMark(parent, todo.data, es);
      && Append(Single(f, f.data, f.kids), MarkAll(parent, Flatten(f.rest), es2)) == MarkAll(parent, Flatten(todo), es)
      && AfterMarkAll(parent, Flatten(f.rest), es2) == AfterMarkAll(parent, Flatten(todo), es)
  {
    SameFlatten(todo, Mark(parent, todo.data, es));
    NotBare(f);
    SingleFirst(f, MarkAll(parent, Flatten(f.rest), AfterMark(parent, todo.data, es)));
  }

  lemma NotBare(f: Forest)
    requires f.Cons? && (f.kids.Cons? ==> HasText(f.data))
    ensures Flatten(f) == Cons(f.node, f.data, f.kids, Flatten(f.rest))
  {
  }

  lemma SingleFirst(f: Forest, g: Forest)
    requires f.Cons?
    ensures Append(Single(f, f.data, f.kids), g) == Cons(f.node, f.data, f.kids, g)
  {
  }

  class MenuFinalizer {
    const modulesSym: Symbol
    const rules: Rules
    /** what has been added to symbols: values to choices, conditions to rev_dep and implied */
    var effects: seq<Effect>
    /** the nodes that menu_finalize has been called on */
    ghost var entered: seq<Menu>

    constructor (modulesSym: Symbol)
      ensures this.modulesSym == modulesSym && rules == RulesOf(modulesSym) && Ready() && entered == [] && effects == []
    {
      this.modulesSym := modulesSym;
      rules := RulesOf(modulesSym);
      entered, effects := [], [];
    }

    /** Conditions are inherited as Propagate says. */
    ghost predicate Ready() {
      forall d: MenuData, above: Option<Expr> {:trigger Propagate(d, above, modulesSym)} ::
        rules.inherit(d, above) == Propagate(d, above, modulesSym)
    }

    /** The loop over the properties of one child. */
    method PropagateProps(menu: Menu, dep: Option<Expr>)
      modifies menu`props, this`effects
      ensures menu.props == MenuSpec.PropagateProps(old(menu.props), dep, menu.sym, modulesSym)
      ensures effects == old(effects) + PropEffects(menu.sym, menu.props)
    {
      ghost var ps := menu.props;
      ghost var goal := MenuSpec.PropagateProps(ps, dep, menu.sym, modulesSym);
      var n := 0;
      while n < |menu.props|
        invariant n <= |menu.props| == |ps| && menu.props == goal[..n] + ps[n..]
        invariant effects == old(effects) + PropEffects(menu.sym, goal[..n])
      {
        PropagatePropsAt(ps, dep, menu.sym, modulesSym, n);
        PropEffectsSnoc(menu.sym, goal[..n], goal[n]);
        OneReplaced(goal, ps, n);
        var p := menu.props[n];
        p := p.(cond := PropCond(dep, p.cond, menu.sym, modulesSym));
        menu.props := menu.props[n := p];
        effects := effects + PropEffect(menu.sym, p);
        n := n + 1;
      }
      assert goal[..n] == goal;
    }

    /** What the first loop does to one child. */
    method PropagateTo(menu: Menu, above: Option<Expr>)
      requires Ready()
      modifies menu`dep, menu`prompt, menu`props, this`effects
      ensures menu.Data() == rules.inherit(old(menu.Data()), above)
      ensures effects == old(effects) + Requests(menu.Data())
    {
      ghost var d := Propagate(menu.Data(), above, modulesSym);
      var basedep := Under(above, menu.dep, modulesSym);
      menu.dep := basedep;
      if menu.prompt.Some? {
        menu.prompt := Some(menu.prompt.value.(cond :=
          PropCond(basedep, menu.prompt.value.cond, menu.sym, modulesSym)));
      }
      PropagateProps(menu, basedep);
      assert menu.Data() == d;
    }

    /** The first loop over the children. */
    method PropagateLoop(first: Menu?, above: Option<Expr>, ghost f: Forest, ghost parent: Menu?)
      requires Ready()
      requires first == f.Head() && Linked(f, parent, null) && Disjoint(f)
      modifies f.Nodes(), this`effects
      ensures Linked(PropagateAll(f, above, rules), parent, null)
      ensures effects == AfterPropagate(f, above, rules, old(effects))
    {
      var menu := first;
      ghost var done, todo := Nil, f;
      while menu != null
        invariant Split(done, todo, parent, menu) && todo.Nodes() <= f.Nodes()
        invariant Append(done, PropagateAll(todo, above, rules)) == PropagateAll(f, above, rules)
        invariant AfterPropagate(todo, above, rules, effects) == AfterPropagate(f, above, rules, old(effects))
        decreases todo.Size()
      {
        ghost var one := Single(todo, rules.inherit(todo.data, above), todo.kids);
        AppendAssoc(done, one, PropagateAll(todo.rest, above, rules));
        menu := PropagateOne(menu, above, done, todo, parent);
        done, todo := Append(done, one), todo.rest;
      }
      AppendNil(done);
    }

    method PropagateOne(menu: Menu, above: Option<Expr>, ghost done: Forest, ghost todo: Forest, ghost parent: Menu?)
        returns (next: Menu?)
      requires Ready()
      requires Split(done, todo, parent, menu)
      modifies menu`dep, menu`prompt, menu`props, this`effects
      ensures Split(Append(done, Single(todo, rules.inherit(todo.data, above), todo.kids)), todo.rest, parent, next)
      ensures effects == old(effects) + Requests(rules.inherit(todo.data, above))
    {
      InMemory(todo);
      InMemory(done);
      PropagateTo(menu, above);
      next := menu.next;
      OneDone(done, Single(todo, rules.inherit(todo.data, above), todo.kids), todo.rest, parent, next);
    }

    /** The children of a node without prompt text move behind it. */
    method Splice(menu: Menu, parent: Menu, ghost f: Forest)
      requires f.Cons? && menu == f.node && f.kids.Cons? && Linked(f, parent, null) && Disjoint(f)
      modifies f.Nodes()
      ensures Linked(Cons(f.node, f.data, Nil, Append(f.kids, f.rest)), parent, null)
    {
      var last := menu.list;
      ghost var done, todo := Nil, f.kids;
      while true
        invariant todo.Cons? && Reparented(done, todo, parent, menu, last) && Append(done, todo) == f.kids
        invariant todo.Nodes() <= f.kids.Nodes() && Spliceable(menu, parent, f)
        decreases todo.Size()
      {
        var next := MoveUp(last, parent, done, todo, menu, f);
        if next == null {
          EndSplice(menu, last, parent, done, todo, f);
          return;
        }
        last := next;
        AppendAssoc(done, Single(todo, todo.data, todo.kids), todo.rest);
        done, todo := Append(done, Single(todo, todo.data, todo.kids)), todo.rest;
      }
    }

    /** last_menu->parent = parent. */
    method MoveUp(last: Menu, parent: Menu, ghost done: Forest, ghost todo: Forest, ghost menu: Menu, ghost f: Forest)
        returns (next: Menu?)
      requires Spliceable(menu, parent, f) && Disjoint(f)
      requires todo.Cons? && Reparented(done, todo, parent, menu, last) && todo.Nodes() <= f.kids.Nodes()
      modifies last`parent
      ensures next == last.next == todo.rest.Head() && Spliceable(menu, parent, f)
      ensures todo.rest.Cons? ==>
        Reparented(Append(done, Single(todo, todo.data, todo.kids)), todo.rest, parent, menu, next)
      ensures todo.rest.Nil? ==> Linked(done, parent, last) && Linked(todo, parent, null)
    {
      InMemory(done);
      InMemory(todo);
      InMemory(f.rest);
      last.parent := parent;
      next := last.next;
      LinkedAppend(done, Single(todo, todo.data, todo.kids), parent, next);
      AppendNodes(done, Single(todo, todo.data, todo.kids));
    }

    /** The three assignments behind the inner loop. */
    method EndSplice(menu: Menu, last: Menu, parent: Menu, ghost done: Forest, ghost todo: Forest, ghost f: Forest)
      requires Spliceable(menu, parent, f) && Disjoint(f)
      requires todo.Cons? && todo.rest.Nil? && last == todo.node && Append(done, todo) == f.kids &&
        todo.Nodes() <= f.kids.Nodes()
      requires Disjoint(todo) && done.Nodes() !! todo.Nodes()
      requires Linked(done, parent, last) && Linked(todo, parent, null)
      modifies menu`next, menu`list, last`next
      ensures Linked(Cons(f.node, f.data, Nil, Append(f.kids, f.rest)), parent, null)
    {
      LinkLast(last, menu.next, parent, done, todo, f);
      LinkedAppend(f.kids, f.rest, parent, null);
      AppendNodes(f.kids, f.rest);
      Relink(menu, parent, f.data, Append(f.kids, f.rest));
    }

    method LinkLast(last: Menu, next: Menu?, parent: Menu, ghost done: Forest, ghost todo: Forest, ghost f: Forest)
      requires f.Cons? && Disjoint(f) && next == f.rest.Head() && todo.Nodes() <= f.kids.Nodes()
      requires todo.Cons? && todo.rest.Nil? && last == todo.node && Append(done, todo) == f.kids
      requires Disjoint(todo) && done.Nodes() !! todo.Nodes()
      requires Linked(done, parent, last) && Linked(todo, parent, null) && Linked(f.rest, parent, null)
      modifies last`next
      ensures Linked(f.kids, parent, f.rest.Head()) && Linked(f.rest, parent, null)
    {
      InMemory(f.rest);
      InMemory(done);
      InMemory(todo);
      last.next := next;
      LinkedAppend(done, todo, parent, next);
    }

    method Relink(menu: Menu, parent: Menu, ghost data: MenuData, ghost rest: Forest)
      requires Linked(rest, parent, null) && menu !in rest.Nodes()
      requires menu.Data() == data && menu.parent == parent && menu.list == rest.Head()
      modifies menu`next, menu`list
      ensures Linked(Cons(menu, data, Nil, rest), parent, null)
    {
      InMemory(rest);
      menu.next := menu.list;
      menu.list := null;
    }

    /** The condition that the choice is y, added to the properties of a value. */
    method StrictLoop(menu: Menu, choice: Symbol)
      modifies menu`props
      ensures menu.props == StrictProps(choice, old(menu.props))
    {
      ghost var ps := menu.props;
      var n := 0;
      while n < |menu.props|
        invariant n <= |menu.props| == |ps| && menu.props[n..] == ps[n..]
        invariant menu.props[..n] + StrictProps(choice, ps[n..]) == StrictProps(choice, ps)
      {
        assert ps[n..][1..] == ps[n + 1..];
        menu.props := menu.props[n := menu.props[n].(cond := Strict(choice, menu.props[n].cond))];
        n := n + 1;
      }
    }

    /** The first half of the last loop: an entry of a choice becomes one of its values. */
    method MarkEntry(menu: Menu, parent: Menu)
      requires menu != parent
      modifies menu`dep, menu`prompt, menu`props, menu`choice, this`effects
      ensures menu.Data() == Mark(parent.Data(), old(menu.Data()), old(effects))
      ensures effects == AfterMark(parent.Data(), old(menu.Data()), old(effects))
    {
      if parent.sym.Some? && parent.isChoice && menu.sym.Some? && !Claimed(effects, menu.sym.value) {
        var choice, value := parent.sym.value, menu.sym.value;
        if choice.typ == S_TRISTATE && value.typ != S_TRISTATE {
          menu.dep := Strict(choice, menu.dep);
          if menu.prompt.Some? {
            menu.prompt := Some(menu.prompt.value.(cond := Strict(choice, menu.prompt.value.cond)));
          }
          StrictLoop(menu, choice);
        }
        menu.choice := Some(choice);
        effects := effects + [Claims(choice, value)];
      }
    }

    /** The last loop over the children. */
    method FlattenLoop(parent: Menu, ghost f: Forest)
      requires parent.list == f.Head() && Linked(f, parent, null) && Disjoint(f) && parent !in f.Nodes()
      modifies f.Nodes(), this`effects
      ensures Linked(MarkAll(parent.Data(), Flatten(f), old(effects)), parent, null)
      ensures effects == AfterMarkAll(parent.Data(), Flatten(f), old(effects))
    {
      var menu := parent.list;
      ghost var done, todo, data := Nil, f, parent.Data();
      while menu != null
        invariant Split(done, todo, parent, menu) && todo.Nodes() <= f.Nodes()
        invariant Append(done, MarkAll(data, Flatten(todo), effects)) == MarkAll(data, Flatten(f), old(effects))
        invariant AfterMarkAll(data, Flatten(todo), effects) == AfterMarkAll(data, Flatten(f), old(effects))
        decreases todo.Size()
      {
        ghost var one, todo2;
        menu, one, todo2 := FlattenOne(menu, parent, done, todo);
        AppendAssoc(done, one, MarkAll(data, Flatten(todo2), effects));
        done, todo := Append(done, one), todo2;
      }
      AppendNil(done);
    }

    method FlattenOne(menu: Menu, parent: Menu, ghost done: Forest, ghost todo: Forest)
        returns (next: Menu?, ghost one: Forest, ghost todo2: Forest)
      requires Split(done, todo, parent, menu) && parent !in todo.Nodes()
      modifies todo.Nodes(), this`effects
      ensures Split(Append(done, one), todo2, parent, next) && todo2.Nodes() <= todo.Nodes() &&
        todo2.Size() < todo.Size()
      ensures Append(one, MarkAll(parent.Data(), Flatten(todo2), effects)) ==
        MarkAll(parent.Data(), Flatten(todo), old(effects))
      ensures AfterMarkAll(parent.Data(), Flatten(todo2), effects) ==
        AfterMarkAll(parent.Data(), Flatten(todo), old(effects))
    {
      InMemory(done);
      InMemory(todo);
      ghost var es, data := effects, parent.Data();
      MarkEntry(menu, parent);
      ghost var marked := Cons(todo.node, Mark(data, todo.data, es), todo.kids, todo.rest);
      ghost var f := SpliceIfBare(menu, parent, marked);
      next := menu.next;
      one, todo2 := Single(f, f.data, f.kids), f.rest;
      MarkedFirst(data, todo, f, es);
      OneDone(done, one, todo2, parent, next);
    }

    method SpliceIfBare(menu: Menu, parent: Menu, ghost todo: Forest) returns (ghost f: Forest)
      requires menu == todo.Head() && Linked(todo, parent, null) && Disjoint(todo)
      modifies todo.Nodes()
      ensures f.Cons? && f.node == menu && Linked(f, parent, null) && Disjoint(f)
      ensures f.Nodes() == todo.Nodes() && f.Size() == todo.Size()
      ensures Flatten(f) == Flatten(todo) && (f.kids.Cons? ==> HasText(f.data))
    {
      f := todo;
      if menu.list != null && !HasText(menu.Data()) {
        Splice(menu, parent, todo);
        DisjointAppend(todo.kids, todo.rest);
        f := Cons(todo.node, todo.data, Nil, Append(todo.kids, todo.rest));
      }
    }

    /** menu_finalize. */
    method Finalize(parent: Menu, ghost f: Forest, ghost up: Menu?) returns (ghost h: Forest)
      requires Ready()
      requires f.Cons? && parent == f.node && Linked(f, up, null) && Disjoint(f)
      modifies f.Nodes(), this`entered, this`effects
      ensures h == MenuSpec.Finalize(f, rules, old(effects)) && Linked(h, up, null) && Disjoint(h) &&
        h.Nodes() == f.Nodes()
      ensures effects == AfterFinalize(f, rules, old(effects))
      ensures entered == old(entered) + Log(f, rules, old(effects))
      decreases f.Size(), 2
    {
      ghost var before, es := entered, effects;
      entered := entered + [parent];
      ghost var g := f;
      if parent.list != null {
        g := FinalizeChildren(parent, f, up);
      } else if parent.sym.Some? {
        g := TakeFollowing(parent, f, up);
      }
      h := FinishNode(parent, g, up);
      Assoc(before, [parent], Log(f, rules, es)[1..]);
    }

    /** Its last loop and what follows it. */
    method FinishNode(parent: Menu, ghost g: Forest, ghost up: Menu?) returns (ghost h: Forest)
      requires g.Cons? && parent == g.node && Linked(g, up, null) && Disjoint(g)
      modifies g.Nodes(), this`effects
      ensures h == Cons(g.node, g.data, MarkAll(g.data, Flatten(g.kids), old(effects)), g.rest)
      ensures Linked(h, up, null) && Disjoint(h) && h.Nodes() == g.Nodes()
      ensures effects == AfterMarkAll(g.data, Flatten(g.kids), old(effects)) + Forced(g.data)
    {
      FlattenDisjoint(g.kids);
      MarkDisjoint(g.data, Flatten(g.kids), effects);
      h := Cons(g.node, g.data, MarkAll(g.data, Flatten(g.kids), effects), g.rest);
      FlattenChildren(parent, g, up);
      effects := effects + Forced(parent.Data());
    }

    /**
     The call on the root menu. It keeps the order of all nodes and their links
     consistent, finalizes every node exactly once, and leaves no other node
     with children but without prompt text. Every entry has the conditions it
     inherits and, if it has become a value of a choice, what that adds.
     */
    method FinalizeRoot(root: Menu, ghost kids: Forest)
      requires Ready() && entered == [] && effects == [] && Rooted(root, kids)
      requires root.choice.None? && Fresh(Datas(kids))
      modifies root, kids.Nodes(), this`entered, this`effects
      ensures var g := MenuSpec.Finalize(Cons(root, old(root.Data()), kids, Nil), rules, []);
        && Rooted(root, g.kids) && g.kids.Preorder() == kids.Preorder() && Tidy(g.kids)
        && AllMade(Datas(g.kids), Inherited(kids, HandsDown(old(root.Data())), rules), effects)
        && (Shown(Datas(kids)) ==> Placed(g.kids, old(root.Data()), effects))
      ensures effects == AfterFinalize(Cons(root, old(root.Data()), kids, Nil), rules, []) && ClaimedOnce(effects)
      ensures entered == [root] + kids.Preorder() && Distinct(entered)
    {
      ghost var f := Cons(root, root.Data(), kids, Nil);
      RootedIsDisjoint(root, kids);
      RootIsFinalized(f);
      ghost var g := Finalize(root, f, null);
    }

    lemma RootIsFinalized(f: Forest)
      requires Ready() && f.Cons? && f.rest.Nil? && f.data.choice.None? && Fresh(Datas(f.kids))
      ensures var g, es := MenuSpec.Finalize(f, rules, []), AfterFinalize(f, rules, []);
        && g.rest.Nil? && g.kids.Preorder() == f.kids.Preorder() && Tidy(g.kids)
        && Log(f, rules, []) == [f.node] + f.kids.Preorder()
        && AllMade(Datas(g.kids), Inherited(f.kids, HandsDown(f.data), rules), es)
        && (Shown(Datas(f.kids)) ==> Placed(g.kids, f.data, es)) && ClaimedOnce(es)
    {
      var g := MenuSpec.Finalize(f, rules, []);
      FinalizeKeepsPreorder(f, rules, []);
      FinalizeTidies(f, rules, []);
      LogIsPreorder(f, rules, []);
      FinalizeOnce(f, rules, []);
      assert g.rest.Nil?;
      SameTail(f.node, g.kids.Preorder(), f.kids.Preorder());
      ReadyKeepsKind();
      FreshStays(f.kids, HandsDown(f.data), rules);
      RootInherits(f, rules, []);
      if Shown(Datas(f.kids)) {
        ShownStays(f.kids, HandsDown(f.data), rules);
        RootPlaces(f, rules, []);
      }
    }

    lemma ReadyKeepsKind()
      requires Ready()
      ensures KeepsKind(rules)
    {
      forall d, above ensures SameKind(rules.inherit(d, above), d) {
        assert rules.inherit(d, above) == Propagate(d, above, modulesSym);
      }
    }

    /** Its last loop, in the place of the node among its siblings. */
    method FlattenChildren(parent: Menu, ghost g: Forest, ghost up: Menu?)
      requires g.Cons? && parent == g.node && Linked(g, up, null) && Disjoint(g)
      modifies g.kids.Nodes(), this`effects
      ensures Linked(Cons(g.node, g.data, MarkAll(g.data, Flatten(g.kids), old(effects)), g.rest), up, null)
      ensures effects == AfterMarkAll(g.data, Flatten(g.kids), old(effects))
    {
      InMemory(g.rest);
      InMemory(g.kids);
      FlattenLoop(parent, g.kids);
      FlattenKeepsNodes(g.kids);
      MarkKeeps(g.data, Flatten(g.kids), old(effects));
      assert Linked(g.rest, up, null);
    }

    /** Its first branch: the children inherit conditions, then each is finalized. */
    method FinalizeChildren(parent: Menu, ghost f: Forest, ghost up: Menu?) returns (ghost g: Forest)
      requires Ready()
      requires f.Cons? && parent == f.node && f.kids.Cons? && Linked(f, up, null) && Disjoint(f)
      modifies f.Nodes(), this`entered, this`effects
      ensures var kids, above := PropagateAll(f.kids, HandsDown(f.data), rules), HandsDown(f.data);
        var es := AfterPropagate(f.kids, above, rules, old(effects));
        && g == Cons(f.node, f.data, FinalizeAll(kids, rules, es), f.rest)
        && effects == AfterAll(kids, rules, es) && entered == old(entered) + LogAll(kids, rules, es)
      ensures Linked(g, up, null) && Disjoint(g) && g.Nodes() == f.Nodes()
      decreases f.Size(), 1
    {
      InMemory(f);
      var parentdep := HandsDown(parent.Data());
      ghost var kids := PropagateAll(f.kids, parentdep, rules);
      PropagateDisjoint(f.kids, parentdep, rules);
      PropagateLoop(parent.list, parentdep, f.kids, parent);
      ghost var es := effects;
      FinalizeLoop(parent.list, parent, kids);
      FinalizeAllDisjoint(kids, rules, es);
      g := Cons(f.node, f.data, FinalizeAll(kids, rules, es), f.rest);
    }

    method FinalizeLoop(first: Menu?, parent: Menu, ghost f: Forest)
      requires Ready()
      requires first == f.Head() && Linked(f, parent, null) && Disjoint(f)
      modifies f.Nodes(), this`entered, this`effects
      ensures Linked(FinalizeAll(f, rules, old(effects)), parent, null)
      ensures effects == AfterAll(f, rules, old(effects))
      ensures entered == old(entered) + LogAll(f, rules, old(effects))
      decreases f.Size(), 5
    {
      var menu := first;
      ghost var done, todo := Nil, f;
      while menu != null
        invariant Finalizing(done, todo, f, parent, menu, old(entered), old(effects))
        decreases todo.Size()
      {
        menu, done, todo := FinalizeStep(menu, parent, done, todo, f, old(entered), old(effects));
      }
      AppendNil(done);
    }

    /** Its state: with the siblings that are left finalized as well, the result is complete. */
    ghost predicate Finalizing(done: Forest, todo: Forest, f: Forest, parent: Menu, menu: Menu?, before: seq<Menu>,
                               es: seq<Effect>)
      reads this`entered, this`effects, done.Nodes(), todo.Nodes()
    {
      var state :=
        && Split(done, todo, parent, menu) && todo.Nodes() <= f.Nodes() && todo.Size() <= f.Size()
        && Append(done, FinalizeAll(todo, rules, effects)) == FinalizeAll(f, rules, es)
        && AfterAll(todo, rules, effects) == AfterAll(f, rules, es)
        && entered + LogAll(todo, rules, effects) == before + LogAll(f, rules, es);
      state
    }

    method FinalizeStep(menu: Menu, parent: Menu, ghost done: Forest, ghost todo: Forest, ghost f: Forest,
                        ghost before: seq<Menu>, ghost es: seq<Effect>)
        returns (next: Menu?, ghost done2: Forest, ghost todo2: Forest)
      requires Ready()
      requires Finalizing(done, todo, f, parent, menu, before, es)
      modifies todo.Nodes(), this`entered, this`effects
      ensures Finalizing(done2, todo2, f, parent, next, before, es) && todo2.Size() < todo.Size()
      decreases todo.Size(), 4
    {
      ghost var h, was, es1 := todo, entered, effects;
      next, h := FinalizeOne(menu, parent, done, todo);
      ghost var one := Single(h, h.data, h.kids);
      AppendAssoc(done, one, FinalizeAll(h.rest, rules, effects));
      Assoc(was, Log(todo, rules, es1), LogAll(h.rest, rules, effects));
      done2, todo2 := Append(done, one), h.rest;
    }

    method FinalizeOne(menu: Menu, parent: Menu, ghost done: Forest, ghost todo: Forest)
        returns (next: Menu?, ghost h: Forest)
      requires Ready()
      requires Split(done, todo, parent, menu)
      modifies todo.Nodes(), this`entered, this`effects
      ensures h == MenuSpec.Finalize(todo, rules, old(effects)) && h.rest.Nodes() <= todo.Nodes()
      ensures Split(Append(done, Single(h, h.data, h.kids)), h.rest, parent, next)
      ensures effects == AfterFinalize(todo, rules, old(effects))
      ensures entered == old(entered) + Log(todo, rules, old(effects))
      decreases todo.Size(), 3
    {
      InMemory(done);
      h := Finalize(menu, todo, parent);
      next := FinishStep(menu, parent, done, h);
    }

    method FinishStep(menu: Menu, parent: Menu, ghost done: Forest, ghost g: Forest) returns (next: Menu?)
      requires g.Cons? && g.node == menu && Linked(g, parent, null) && Disjoint(g)
      requires Linked(done, parent, menu) && done.Nodes() !! g.Nodes()
      ensures Split(Append(done, Single(g, g.data, g.kids)), g.rest, parent, next)
    {
      next := menu.next;
      OneDone(done, Single(g, g.data, g.kids), g.rest, parent, next);
    }

    /** Its second branch: automatic submenus. */
    method TakeFollowing(parent: Menu, ghost f: Forest, ghost up: Menu?) returns (ghost g: Forest)
      requires Ready()
      requires f.Cons? && parent == f.node && f.kids.Nil? && f.data.sym.Some? && Linked(f, up, null) && Disjoint(f)
      modifies f.Nodes(), this`entered, this`effects
      ensures var r := Absorb(f.data.sym.value, f.data, f.rest, rules, old(effects));
        g == Cons(f.node, f.data, r.0, r.1)
      ensures Linked(g, up, null) && Disjoint(g) && g.Nodes() == f.Nodes()
      ensures effects == AfterAbsorb(f.data.sym.value, f.data, f.rest, rules, old(effects))
      ensures entered == old(entered) + LogAbsorb(f.data.sym.value, f.data, f.rest, rules, old(effects))
      decreases f.Size(), 1
    {
      ghost var taken, todo;
      AbsorbDisjoint(f.data.sym.value, f.data, f.rest, rules, effects);
      taken, todo := TakeLoop(parent, f, up);
      g := Cons(f.node, f.data, taken, todo);
    }

    method TakeLoop(parent: Menu, ghost f: Forest, ghost up: Menu?) returns (ghost taken: Forest, ghost todo: Forest)
      requires Ready()
      requires f.Cons? && parent == f.node && f.kids.Nil? && f.data.sym.Some? && Linked(f, up, null) && Disjoint(f)
      modifies f.Nodes(), this`entered, this`effects
      ensures (taken, todo) == Absorb(f.data.sym.value, f.data, f.rest, rules, old(effects))
      ensures Linked(Cons(f.node, f.data, taken, todo), up, null)
      ensures effects == AfterAbsorb(f.data.sym.value, f.data, f.rest, rules, old(effects))
      ensures entered == old(entered) + LogAbsorb(f.data.sym.value, f.data, f.rest, rules, old(effects))
      decreases f.Size(), 0
    {
      var last: Menu? := null;
      ghost var prev, one := Nil, Nil;
      todo := f.rest;
      NothingTaken(f, parent, up);
      var menu := parent.next;
      while menu != null
        invariant Forming(prev, one, todo, f, parent, up, menu, last)
        invariant Taken(Append(prev, one), todo, f, old(entered), old(effects))
        decreases todo.Size()
      {
        if !rules.belongs(parent.sym.value, parent.Data(), menu.Data()) { break; }
        last, menu, prev, one, todo := TakeStep(menu, parent, prev, one, todo, f, up, old(entered), old(effects));
      }
      taken := Append(prev, one);
      Stopped(taken, todo, f, old(entered), old(effects));
      CloseSubmenu(parent, last, prev, one, todo, f, up);
    }

    lemma NothingTaken(f: Forest, parent: Menu, up: Menu?)
      requires f.Cons? && parent == f.node && f.kids.Nil? && f.data.sym.Some? && Linked(f, up, null) && Disjoint(f)
      ensures Forming(Nil, Nil, f.rest, f, parent, up, parent.next, null)
      ensures Taken(Nil, f.rest, f, entered, effects)
    {
    }

    /** The loop has ended because the next node does not belong to the symbol, or there is none. */
    lemma Stopped(taken: Forest, todo: Forest, f: Forest, before: seq<Menu>, es: seq<Effect>)
      requires Taken(taken, todo, f, before, es) && (todo.Cons? ==> !rules.belongs(f.data.sym.value, f.data, todo.data))
      ensures (taken, todo) == Absorb(f.data.sym.value, f.data, f.rest, rules, es)
      ensures effects == AfterAbsorb(f.data.sym.value, f.data, f.rest, rules, es)
      ensures entered == before + LogAbsorb(f.data.sym.value, f.data, f.rest, rules, es)
    {
      AppendNil(taken);
    }

    /** Its state: a submenu of parent is being formed. */
    ghost predicate Forming(prev: Forest, one: Forest, todo: Forest, f: Forest, parent: Menu, up: Menu?, menu: Menu?,
                            last: Menu?)
      reads parent, prev.Nodes(), one.Nodes(), todo.Nodes()
    {
      var state :=
        && f.Cons? && Taking(prev, one, todo, parent, up, menu, last)
        && Within(prev, one, todo, f.rest.Nodes()) && todo.Size() < f.Size()
        && Waiting(parent, f, up, HeadOr(Append(prev, one), menu));
      state
    }

    /** What has been taken, and what would be taken from the rest, is what Absorb takes. */
    ghost predicate Taken(taken: Forest, todo: Forest, f: Forest, before: seq<Menu>, es: seq<Effect>)
      reads this`entered, this`effects
    {
      f.Cons? && f.data.sym.Some? &&
      var sym, d := f.data.sym.value, f.data;
      var more, all := Absorb(sym, d, todo, rules, effects), Absorb(sym, d, f.rest, rules, es);
      && all.0 == Append(taken, more.0) && all.1 == more.1
      && AfterAbsorb(sym, d, todo, rules, effects) == AfterAbsorb(sym, d, f.rest, rules, es)
      && entered + LogAbsorb(sym, d, todo, rules, effects) == before + LogAbsorb(sym, d, f.rest, rules, es)
    }

    method TakeStep(menu: Menu, parent: Menu, ghost prev: Forest, ghost one: Forest, ghost todo: Forest,
                    ghost f: Forest, ghost up: Menu?,
                    ghost before: seq<Menu>, ghost es: seq<Effect>)
        returns (last: Menu, next: Menu?, ghost prev2: Forest, ghost one2: Forest, ghost todo2: Forest)
      requires Ready()
      requires Disjoint(f) && Forming(prev, one, todo, f, parent, up, menu, one.Head())
      requires Taken(Append(prev, one), todo, f, before, es)
      requires rules.belongs(f.data.sym.value, f.data, todo.data)
      modifies todo.Nodes(), this`entered, this`effects
      ensures Forming(prev2, one2, todo2, f, parent, up, next, last) && todo2.Size() < todo.Size()
      ensures Taken(Append(prev2, one2), todo2, f, before, es)
      decreases todo.Size(), 4
    {
      InMemory(todo);
      prev2 := Append(prev, one);
      AllSettled(prev, one, todo, f, parent, up, menu);
      ghost var h;
      next, h := TakeTaken(menu, parent, prev2, todo, f, up, before, es);
      one2, todo2 := Single(h, h.data, h.kids), h.rest;
      last := menu;
      FormedAgain(prev2, one2, todo2, f, parent, up, next, last);
    }

    lemma AllSettled(prev: Forest, one: Forest, todo: Forest, f: Forest, parent: Menu, up: Menu?, menu: Menu)
      requires Disjoint(f) && Forming(prev, one, todo, f, parent, up, menu, one.Head())
      ensures var taken := Append(prev, one);
        && menu == todo.Head() && Linked(taken, parent, menu) && Linked(todo, up, null) && Disjoint(todo)
        && taken.Nodes() !! todo.Nodes() && taken.Nodes() <= f.rest.Nodes() && todo.Nodes() <= f.rest.Nodes()
        && parent !in todo.Nodes() && Waiting(parent, f, up, HeadOr(taken, menu)) && todo.Size() < f.Size()
    {
      Settled(prev, one, todo, parent, up, menu, one.Head());
    }

    lemma FormedAgain(prev: Forest, one: Forest, todo: Forest, f: Forest, parent: Menu, up: Menu?, menu: Menu?,
                      last: Menu)
      requires f.Cons? && Taking(prev, one, todo, parent, up, menu, last) && todo.Size() < f.Size()
      requires prev.Nodes() <= f.rest.Nodes() && one.Nodes() + todo.Nodes() <= f.rest.Nodes()
      requires Waiting(parent, f, up, HeadOr(prev, last))
      ensures Forming(prev, one, todo, f, parent, up, menu, last)
    {
      SameHead(prev, one, menu);
    }

    method TakeTaken(menu: Menu, parent: Menu, ghost taken: Forest, ghost todo: Forest, ghost f: Forest,
                     ghost up: Menu?,
                     ghost before: seq<Menu>, ghost es: seq<Effect>)
        returns (next: Menu?, ghost h: Forest)
      requires Ready()
      requires menu == todo.Head() && Linked(taken, parent, menu) && Linked(todo, up, null)
      requires Disjoint(todo) && taken.Nodes() !! todo.Nodes() && Taken(taken, todo, f, before, es)
      requires rules.belongs(f.data.sym.value, f.data, todo.data)
      modifies todo.Nodes(), this`entered, this`effects
      ensures h.Cons? && h.node == menu && h.Nodes() == todo.Nodes() && h.Size() == todo.Size()
      ensures Taking(taken, Single(h, h.data, h.kids), h.rest, parent, up, next, menu)
      ensures Taken(Append(taken, Single(h, h.data, h.kids)), h.rest, f, before, es)
      decreases todo.Size(), 3, 1
    {
      ghost var was, es1, sym := entered, effects, f.data.sym.value;
      next, h := TakeOne(menu, parent, taken, todo, up);
      AppendAssoc(taken, Single(h, h.data, h.kids), Absorb(sym, f.data, h.rest, rules, effects).0);
      Assoc(was, Log(todo, rules, es1), LogAbsorb(sym, f.data, h.rest, rules, effects));
    }

    method TakeOne(menu: Menu, parent: Menu, ghost taken: Forest, ghost todo: Forest, ghost up: Menu?)
        returns (next: Menu?, ghost h: Forest)
      requires Ready()
      requires menu == todo.Head() && Linked(taken, parent, menu) && Linked(todo, up, null)
      requires Disjoint(todo) && taken.Nodes() !! todo.Nodes()
      modifies todo.Nodes(), this`entered, this`effects
      ensures h == MenuSpec.Finalize(todo, rules, old(effects)) && h.Nodes() == todo.Nodes()
      ensures Taking(taken, Single(h, h.data, h.kids), h.rest, parent, up, next, menu)
      ensures effects == AfterFinalize(todo, rules, old(effects))
      ensures entered == old(entered) + Log(todo, rules, old(effects))
      decreases todo.Size(), 3, 0
    {
      InMemory(taken);
      h := Finalize(menu, todo, up);
      next := Adopt(menu, parent, taken, h, up);
    }

    /** menu->parent = parent. */
    method Adopt(menu: Menu, parent: Menu, ghost prev: Forest, ghost h: Forest, ghost up: Menu?) returns (next: Menu?)
      requires h.Cons? && h.node == menu && Disjoint(h) && Linked(h, up, null)
      requires Linked(prev, parent, menu) && prev.Nodes() !! h.Nodes()
      modifies menu`parent
      ensures Taking(prev, Single(h, h.data, h.kids), h.rest, parent, up, next, menu)
    {
      InMemory(prev);
      InMemory(h.kids);
      InMemory(h.rest);
      menu.parent := parent;
      next := menu.next;
      ghost var one := Single(h, h.data, h.kids);
      assert Disjoint(one) && Linked(one, parent, next) && Linked(h.rest, up, null);
    }

    /** The assignments behind that loop. */
    method CloseSubmenu(parent: Menu, last: Menu?, ghost prev: Forest, ghost one: Forest, ghost todo: Forest,
                        ghost f: Forest, ghost up: Menu?)
      requires Taking(prev, one, todo, parent, up, todo.Head(), last)
      requires Waiting(parent, f, up, HeadOr(Append(prev, one), todo.Head()))
      requires Disjoint(f) && Within(prev, one, todo, f.rest.Nodes())
      modifies parent`list, parent`next, if last == null then {} else {last}
      ensures Linked(Cons(f.node, f.data, Append(prev, one), todo), up, null)
    {
      if last != null {
        InMemory(prev);
        InMemory(one);
        InMemory(todo);
        parent.list := parent.next;
        parent.next := last.next;
        CutBehind(last, parent, prev, one, todo, up);
      }
    }

    method CutBehind(last: Menu, parent: Menu, ghost prev: Forest, ghost one: Forest, ghost todo: Forest,
                     ghost up: Menu?)
      requires Taking(prev, one, todo, parent, up, todo.Head(), last)
      modifies last`next
      ensures Linked(Append(prev, one), parent, null) && Linked(todo, up, null)
    {
      InMemory(prev);
      InMemory(one);
      InMemory(todo);
      last.next := null;
      assert Linked(one, parent, null);
      LinkedAppend(prev, one, parent, null);
    }
  }

  /** The first node of f alone, with new data and children. */
  function Single(f: Forest, data: MenuData, kids: Forest): (r: Forest)
    requires f.Cons?
  {
    Cons(f.node, data, kids, Nil)
  }

  /** The state of a loop over siblings: some are done, menu is the first of the others. */
  ghost predicate Split(done: Forest, todo: Forest, parent: Menu?, menu: Menu?)
    reads done.Nodes(), todo.Nodes()
  {
    var split :=
      && menu == todo.Head() && Linked(done, parent, menu) && Linked(todo, parent, null)
      && Disjoint(todo) && done.Nodes() !! todo.Nodes();
    split
  }

  /** One more sibling is done. */
  lemma OneDone(done: Forest, one: Forest, rest: Forest, parent: Menu?, next: Menu?)
    requires one.Cons? && one.rest.Nil? && Linked(done, parent, one.node) && Linked(one, parent, next)
    requires next == rest.Head() && Linked(rest, parent, null)
    requires Disjoint(rest) && done.Nodes() !! rest.Nodes() && one.Nodes() !! rest.Nodes()
    ensures Split(Append(done, one), rest, parent, next)
  {
    LinkedAppend(done, one, parent, next);
    AppendNodes(done, one);
  }

  /** The inner loop of flattening: the children done have the new parent, the others still the old one. */
  ghost predicate Reparented(done: Forest, todo: Forest, parent: Menu?, menu: Menu?, last: Menu?)
    reads done.Nodes(), todo.Nodes()
  {
    var moved :=
      && last == todo.Head() && Linked(done, parent, last) && Linked(todo, menu, null)
      && Disjoint(todo) && done.Nodes() !! todo.Nodes();
    moved
  }

  /** The node whose children are being moved, with the siblings that follow it. */
  ghost predicate Spliceable(menu: Menu, parent: Menu?, f: Forest)
    reads menu, if f.Cons? then f.rest.Nodes() else {}
  {
    && f.Cons? && f.kids.Cons? && menu == f.node && menu.Data() == f.data && menu.parent == parent
    && menu.list == f.kids.node && menu.next == f.rest.Head() && Linked(f.rest, parent, null)
  }

  /** The state of the loop that takes siblings: prev and one have been taken, one being the last. */
  ghost predicate Taking(prev: Forest, one: Forest, todo: Forest, parent: Menu, up: Menu?, menu: Menu?, last: Menu?)
    reads prev.Nodes(), one.Nodes(), todo.Nodes()
  {
    var taking :=
      && menu == todo.Head() && last == one.Head() && (one.Nil? ==> prev.Nil?) && (one.Cons? ==> one.rest.Nil?)
      && Linked(prev, parent, HeadOr(one, menu)) && Linked(one, parent, menu) && Linked(todo, up, null)
      && Disjoint(one) && Disjoint(todo)
      && prev.Nodes() !! one.Nodes() && prev.Nodes() !! todo.Nodes() && one.Nodes() !! todo.Nodes();
    taking
  }

  lemma SameHead(f: Forest, one: Forest, end: Menu?)
    requires one.Cons?
    ensures HeadOr(Append(f, one), end) == HeadOr(f, one.node)
  {
  }

  /** All that has been taken is a list. */
  lemma Settled(prev: Forest, one: Forest, todo: Forest, parent: Menu, up: Menu?, menu: Menu?, last: Menu?)
    requires Taking(prev, one, todo, parent, up, menu, last)
    ensures Linked(Append(prev, one), parent, menu) && Append(prev, one).Nodes() == prev.Nodes() + one.Nodes()
  {
    LinkedAppend(prev, one, parent, menu);
    AppendNodes(prev, one);
  }

  ghost predicate Within(prev: Forest, one: Forest, todo: Forest, all: set<Menu>) {
    prev.Nodes() <= all && one.Nodes() <= all && todo.Nodes() <= all
  }

  /** The node whose submenu is being formed: its siblings, taken or not, still follow it. */
  ghost predicate Waiting(parent: Menu, f: Forest, up: Menu?, next: Menu?)
    reads parent
  {
    && f.Cons? && f.data.sym.Some? && parent == f.node && parent.Data() == f.data
    && parent.parent == up && parent.list == null && parent.next == next
  }
}

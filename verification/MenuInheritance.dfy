/**
 What menu_finalize leaves in the entries: the conditions they inherit, and what becoming a value of a choice adds.
 */
module MenuInheritance {
  import opened Tristates
  import opened Exprs
  import opened MenuTree
  import opened MenuSpec

  lemma {:induction false} DatasLength(f: Forest)
    ensures |Datas(f)| == f.Size()
  {
    if f.Cons? {
      DatasLength(f.kids);
      DatasLength(f.rest);
    }
  }

  lemma {:induction false} PropagateInherits(f: Forest, above: Option<Expr>, rules: Rules)
    ensures InheritedBelow(PropagateAll(f, above, rules), rules) == Inherited(f, above, rules)
  {
    if f.Cons? { PropagateInherits(f.rest, above, rules); }
  }

  lemma {:induction false} DatasAppend(f: Forest, g: Forest)
    ensures Datas(Append(f, g)) == Datas(f) + Datas(g)
  {
    if f.Cons? {
      DatasAppend(f.rest, g);
      Regroup2(f.data, Datas(f.kids), Datas(f.rest), Datas(g), Datas(f.rest) + Datas(g));
    }
  }

  lemma {:induction false} FlattenKeepsDatas(f: Forest)
    ensures Datas(Flatten(f)) == Datas(f)
    decreases f.Size()
  {
    if f.Cons? {
      if f.kids.Cons? && !HasText(f.data) {
        FlattenKeepsDatas(Append(f.kids, f.rest));
        DatasAppend(f.kids, f.rest);
        Regroup(f.data, Datas(f.kids), Datas(f.rest), Datas(f.kids) + Datas(f.rest));
      } else {
        FlattenKeepsDatas(f.rest);
      }
    }
  }

  /** No entry stands for a value of a choice yet. */
  predicate Fresh(ds: seq<MenuData>) { forall n | 0 <= n < |ds| :: ds[n].choice.None? }

  /** The entry has what it inherits, i; if it has become a value of a choice, with the condition that adds. */
  predicate Made(d: MenuData, i: MenuData, es: seq<Effect>) {
    && i.choice.None?
    && (d.choice.None? ==> d == i)
    && (d.choice.Some? ==> d == Claim(i, d.choice.value) && d.sym.Some? && Claims(d.choice.value, d.sym.value) in es)
  }

  predicate AllMade(ds: seq<MenuData>, inherited: seq<MenuData>, es: seq<Effect>) {
    |ds| == |inherited| && forall n | 0 <= n < |ds| :: Made(ds[n], inherited[n], es)
  }

  lemma StillMade(ds: seq<MenuData>, inherited: seq<MenuData>, es: seq<Effect>, es2: seq<Effect>)
    requires AllMade(ds, inherited, es) && es <= es2
    ensures AllMade(ds, inherited, es2)
  {
    forall e | e in es ensures e in es2 {
      var k :| 0 <= k < |es| && es[k] == e;
      assert es2[k] == e;
    }
  }

  lemma MadeJoin(a: seq<MenuData>, b: seq<MenuData>, x: seq<MenuData>, y: seq<MenuData>, es: seq<Effect>)
    requires AllMade(a, x, es) && AllMade(b, y, es)
    ensures AllMade(a + b, x + y, es)
  {
  }

  lemma MadeParts(a: seq<MenuData>, b: seq<MenuData>, inherited: seq<MenuData>, es: seq<Effect>)
    requires AllMade(a + b, inherited, es)
    ensures AllMade(a, inherited[..|a|], es) && AllMade(b, inherited[|a|..], es)
  {
    forall n | 0 <= n < |a| ensures Made(a[n], inherited[..|a|][n], es) { assert (a + b)[n] == a[n]; }
    forall n | 0 <= n < |b| ensures Made(b[n], inherited[|a|..][n], es) { assert (a + b)[|a| + n] == b[n]; }
  }

  /** The last loop keeps this for the list it works on. */
  lemma {:induction false} MarkMakes(parent: MenuData, f: Forest, es: seq<Effect>, inherited: seq<MenuData>)
    requires AllMade(Datas(f), inherited, es)
    ensures AllMade(Datas(MarkAll(parent, f, es)), inherited, AfterMarkAll(parent, f, es))
  {
    if f.Cons? {
      var d, es2, k := Mark(parent, f.data, es), AfterMark(parent, f.data, es), 1 + |Datas(f.kids)|;
      MadeParts([f.data] + Datas(f.kids), Datas(f.rest), inherited, es);
      MarkOneMakes(parent, f.data, es, Datas(f.kids), inherited[..k]);
      StillMade(Datas(f.rest), inherited[k..], es, es2);
      MarkMakes(parent, f.rest, es2, inherited[k..]);
      StillMade([d] + Datas(f.kids), inherited[..k], es2, AfterMarkAll(parent, f, es));
      MadeJoin([d] + Datas(f.kids), Datas(MarkAll(parent, f.rest, es2)), inherited[..k], inherited[k..],
        AfterMarkAll(parent, f, es));
      assert inherited[..k] + inherited[k..] == inherited;
    }
  }

  lemma MarkOneMakes(parent: MenuData, d: MenuData, es: seq<Effect>, kids: seq<MenuData>, inherited: seq<MenuData>)
    requires AllMade([d] + kids, inherited, es)
    ensures AllMade([Mark(parent, d, es)] + kids, inherited, AfterMark(parent, d, es))
  {
    var es2 := AfterMark(parent, d, es);
    StillMade([d] + kids, inherited, es, es2);
    assert ([d] + kids)[0] == d && Made(d, inherited[0], es);
    forall n | 0 <= n < |inherited| ensures Made(([Mark(parent, d, es)] + kids)[n], inherited[n], es2) {
      if n > 0 { assert ([d] + kids)[n] == kids[n - 1] && Made(kids[n - 1], inherited[n], es2); }
    }
  }

  lemma FreshParts(a: seq<MenuData>, b: seq<MenuData>, c: seq<MenuData>)
    requires Fresh(a + b + c)
    ensures Fresh(a) && Fresh(b) && Fresh(c)
  {
    forall n | 0 <= n < |a| ensures a[n].choice.None? { assert (a + b + c)[n] == a[n]; }
    forall n | 0 <= n < |b| ensures b[n].choice.None? { assert (a + b + c)[|a| + n] == b[n]; }
    forall n | 0 <= n < |c| ensures c[n].choice.None? { assert (a + b + c)[|a| + |b| + n] == c[n]; }
  }

  /** A node with all that is below it. */
  lemma Finished(d: MenuData, kids: seq<MenuData>, below: seq<MenuData>, rest: seq<MenuData>, es: seq<Effect>,
                 es2: seq<Effect>)
    requires AllMade(kids, below, es) && Fresh([d]) && es <= es2
    ensures var all, k := [d] + below + rest, 1 + |kids|;
      k <= |all| && all[k..] == rest && AllMade([d] + kids, all[..k], es2)
  {
    StillMade(kids, below, es, es2);
    assert [d][0].choice.None?;
    MadeJoin([d], kids, [d], below, es2);
    assert ([d] + below + rest)[..1 + |kids|] == [d] + below;
  }

  /**
   Wherever a node ends up, its conditions are those inherited from its original
   parent; what is not finalized yet is left alone.
   */
  lemma {:induction false} FinalizeInherits(f: Forest, rules: Rules, es: seq<Effect>)
    requires f.Cons? && Fresh(InheritedBelow(f, rules))
    ensures Inherits(f, Finalize(f, rules, es), rules, AfterFinalize(f, rules, es))
    decreases f.Size(), 1
  {
    if f.kids.Cons? {
      ChildrenInherit(f, rules, es);
    } else if f.data.sym.Some? {
      SubmenuInherits(f, rules, es);
    } else {
      var all := InheritedBelow(f, rules);
      assert Inherited(f.kids, HandsDown(f.data), rules) == [] && all == [f.data] + [] + InheritedBelow(f.rest, rules);
      FreshParts([f.data], [], InheritedBelow(f.rest, rules));
      Finished(f.data, [], [], InheritedBelow(f.rest, rules), es, es);
    }
  }

  /** g is f with its first node finalized. */
  predicate Inherits(f: Forest, g: Forest, rules: Rules, es: seq<Effect>) {
    g.Cons? &&
    var all, k := InheritedBelow(f, rules), 1 + |Datas(g.kids)|;
    k <= |all| && all[k..] == InheritedBelow(g.rest, rules) && AllMade([g.data] + Datas(g.kids), all[..k], es)
  }

  lemma {:induction false} ChildrenInherit(f: Forest, rules: Rules, es: seq<Effect>)
    requires f.Cons? && f.kids.Cons? && Fresh(InheritedBelow(f, rules))
    ensures Inherits(f, Finalize(f, rules, es), rules, AfterFinalize(f, rules, es))
    decreases f.Size(), 0
  {
    var kids, es1 := PropagateAll(f.kids, HandsDown(f.data), rules),
      AfterPropagate(f.kids, HandsDown(f.data), rules, es);
    var below, es2 := InheritedBelow(kids, rules), AfterAll(kids, rules, es1);
    var list := Flatten(FinalizeAll(kids, rules, es1));
    PropagateInherits(f.kids, HandsDown(f.data), rules);
    FreshParts([f.data], below, InheritedBelow(f.rest, rules));
    FinalizeAllInherits(kids, rules, es1);
    FlattenKeepsDatas(FinalizeAll(kids, rules, es1));
    MarkMakes(f.data, list, es2, below);
    Finished(f.data, Datas(MarkAll(f.data, list, es2)), below, InheritedBelow(f.rest, rules),
             AfterMarkAll(f.data, list, es2), AfterFinalize(f, rules, es));
  }

  lemma {:induction false} SubmenuInherits(f: Forest, rules: Rules, es: seq<Effect>)
    requires f.Cons? && f.kids.Nil? && f.data.sym.Some? && Fresh(InheritedBelow(f, rules))
    ensures Inherits(f, Finalize(f, rules, es), rules, AfterFinalize(f, rules, es))
    decreases f.Size(), 0
  {
    var (taken, left) := Absorb(f.data.sym.value, f.data, f.rest, rules, es);
    var es1, below := AfterAbsorb(f.data.sym.value, f.data, f.rest, rules, es), InheritedBelow(f.rest, rules);
    var k := |Datas(taken)|;
    assert Inherited(f.kids, HandsDown(f.data), rules) == [] && InheritedBelow(f, rules) == [f.data] + [] + below;
    FreshParts([f.data], [], below);
    AbsorbInherits(f.data.sym.value, f.data, f.rest, rules, es);
    FlattenKeepsDatas(taken);
    MarkMakes(f.data, Flatten(taken), es1, below[..k]);
    Finished(f.data, Datas(MarkAll(f.data, Flatten(taken), es1)), below[..k], below[k..],
             AfterMarkAll(f.data, Flatten(taken), es1), AfterFinalize(f, rules, es));
    SplitAt([f.data], below, k);
  }

  lemma SplitAt<T>(a: seq<T>, b: seq<T>, k: nat)
    requires k <= |b|
    ensures a + b[..k] + b[k..] == a + [] + b && b[..k] + b[k..] == b && b[..k] + b[k..] + [] == b
  {
  }

  lemma {:induction false} FinalizeAllInherits(f: Forest, rules: Rules, es: seq<Effect>)
    requires Fresh(InheritedBelow(f, rules))
    ensures AllMade(Datas(FinalizeAll(f, rules, es)), InheritedBelow(f, rules), AfterAll(f, rules, es))
    decreases f.Size(), 2
  {
    if f.Cons? {
      var g, es2, all := Finalize(f, rules, es), AfterFinalize(f, rules, es), InheritedBelow(f, rules);
      var k := 1 + |Datas(g.kids)|;
      FinalizeInherits(f, rules, es);
      SplitAt([], all, k);
      FreshParts(all[..k], all[k..], []);
      FinalizeAllInherits(g.rest, rules, es2);
      StillMade([g.data] + Datas(g.kids), all[..k], es2, AfterAll(f, rules, es));
      MadeJoin([g.data] + Datas(g.kids), Datas(FinalizeAll(g.rest, rules, es2)), all[..k], all[k..],
        AfterAll(f, rules, es));
    }
  }

  lemma {:induction false} AbsorbInherits(sym: Symbol, parent: MenuData, f: Forest, rules: Rules, es: seq<Effect>)
    requires Fresh(InheritedBelow(f, rules))
    ensures var (r, all) := (Absorb(sym, parent, f, rules, es), InheritedBelow(f, rules));
      var k := |Datas(r.0)|;
      && k <= |all| && all[k..] == InheritedBelow(r.1, rules)
      && AllMade(Datas(r.0), all[..k], AfterAbsorb(sym, parent, f, rules, es))
    decreases f.Size(), 2
  {
    if f.Cons? && rules.belongs(sym, parent, f.data) {
      var g, es2, all := Finalize(f, rules, es), AfterFinalize(f, rules, es), InheritedBelow(f, rules);
      var k := 1 + |Datas(g.kids)|;
      FinalizeInherits(f, rules, es);
      SplitAt([], all, k);
      FreshParts(all[..k], all[k..], []);
      AbsorbInherits(sym, parent, g.rest, rules, es2);
      var (taken, left) := Absorb(sym, parent, g.rest, rules, es2);
      var es3 := AfterAbsorb(sym, parent, f, rules, es);
      StillMade([g.data] + Datas(g.kids), all[..k], es2, es3);
      OneMore([g.data] + Datas(g.kids), Datas(taken), all, es3);
    }
  }

  lemma OneMore(a: seq<MenuData>, b: seq<MenuData>, all: seq<MenuData>, es: seq<Effect>)
    requires |a| + |b| <= |all| && AllMade(a, all[..|a|], es) && AllMade(b, all[|a|..][..|b|], es)
    ensures AllMade(a + b, all[..|a + b|], es) && all[|a|..][|b|..] == all[|a + b|..]
  {
    MadeJoin(a, b, all[..|a|], all[|a|..][..|b|], es);
    assert all[..|a|] + all[|a|..][..|b|] == all[..|a + b|];
  }

  /** The same for the root menu, which has no siblings. */
  lemma RootInherits(f: Forest, rules: Rules, es: seq<Effect>)
    requires f.Cons? && f.rest.Nil? && f.data.choice.None? && Fresh(Inherited(f.kids, HandsDown(f.data), rules))
    ensures AllMade(Datas(Finalize(f, rules, es).kids), Inherited(f.kids, HandsDown(f.data), rules),
      AfterFinalize(f, rules, es))
  {
    var g, all := Finalize(f, rules, es), InheritedBelow(f, rules);
    assert InheritedBelow(f.rest, rules) == [];
    assert all == [f.data] + Inherited(f.kids, HandsDown(f.data), rules);
    FinalizeInherits(f, rules, es);
    assert g.rest.Nil?;
    MadeParts([g.data], Datas(g.kids), all[..1 + |Datas(g.kids)|], AfterFinalize(f, rules, es));
    assert |all| == 1 + |Datas(g.kids)| && all[..|all|][1..] == Inherited(f.kids, HandsDown(f.data), rules);
  }
}

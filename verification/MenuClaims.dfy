/** Which entries become values of a choice: those that end up in it. */
module MenuClaims {
  import opened Tristates
  import opened Exprs
  import opened MenuTree
  import opened MenuSpec
  import opened MenuInheritance

  /**
   The symbol of every entry in a choice is a value of a choice, and an entry
   by which a symbol has become one is in that choice.
   */
  predicate Placed(f: Forest, parent: MenuData, es: seq<Effect>) {
    f.Cons? ==>
      && (parent.isChoice && parent.sym.Some? && f.data.sym.Some? ==> Claimed(es, f.data.sym.value))
      && (f.data.choice.Some? ==> parent.isChoice && f.data.choice == parent.sym)
      && Placed(f.kids, f.data, es) && Placed(f.rest, parent, es)
  }

  /** The same below the first level, whose entries stand for no values yet. */
  predicate PlacedBelow(f: Forest, es: seq<Effect>) {
    f.Cons? ==> f.data.choice.None? && Placed(f.kids, f.data, es) && PlacedBelow(f.rest, es)
  }

  /** Choices have a prompt, as menu_finalize asks for. */
  predicate Shown(ds: seq<MenuData>) { forall n | 0 <= n < |ds| :: ds[n].isChoice ==> HasText(ds[n]) }

  lemma StillClaimed(es: seq<Effect>, es2: seq<Effect>, s: Symbol)
    requires es <= es2 && Claimed(es, s)
    ensures Claimed(es2, s)
  {
    var e :| e in es && e.Claims? && e.value == s;
    var k :| 0 <= k < |es| && es[k] == e;
    assert es2[k] == e;
  }

  lemma {:induction false} StillPlaced(f: Forest, parent: MenuData, parent2: MenuData, es: seq<Effect>,
                                       es2: seq<Effect>)
    requires Placed(f, parent, es) && es <= es2 && parent2.isChoice == parent.isChoice && parent2.sym == parent.sym
    ensures Placed(f, parent2, es2)
  {
    if f.Cons? {
      if f.data.sym.Some? && Claimed(es, f.data.sym.value) { StillClaimed(es, es2, f.data.sym.value); }
      StillPlaced(f.kids, f.data, f.data, es, es2);
      StillPlaced(f.rest, parent, parent2, es, es2);
    }
  }

  lemma {:induction false} StillPlacedBelow(f: Forest, es: seq<Effect>, es2: seq<Effect>)
    requires PlacedBelow(f, es) && es <= es2
    ensures PlacedBelow(f, es2)
  {
    if f.Cons? {
      StillPlaced(f.kids, f.data, f.data, es, es2);
      StillPlacedBelow(f.rest, es, es2);
    }
  }

  /** The children of an entry that is no choice stand for no values. */
  lemma {:induction false} ChildrenMoveUp(f: Forest, parent: MenuData, g: Forest, es: seq<Effect>)
    requires Placed(f, parent, es) && !parent.isChoice && PlacedBelow(g, es)
    ensures PlacedBelow(Append(f, g), es)
  {
    if f.Cons? { ChildrenMoveUp(f.rest, parent, g, es); }
  }

  lemma {:induction false} FlattenPlaces(f: Forest, es: seq<Effect>)
    requires PlacedBelow(f, es) && Shown(Datas(f))
    ensures PlacedBelow(Flatten(f), es)
    decreases f.Size()
  {
    if f.Cons? {
      ShownParts([f.data], Datas(f.kids), Datas(f.rest));
      if f.kids.Cons? && !HasText(f.data) {
        assert !f.data.isChoice by { assert [f.data][0] == f.data; }
        ChildrenMoveUp(f.kids, f.data, f.rest, es);
        DatasAppend(f.kids, f.rest);
        FlattenPlaces(Append(f.kids, f.rest), es);
      } else {
        FlattenPlaces(f.rest, es);
      }
    }
  }

  lemma ShownParts(a: seq<MenuData>, b: seq<MenuData>, c: seq<MenuData>)
    requires Shown(a + b + c)
    ensures Shown(a) && Shown(b) && Shown(c) && Shown(b + c)
  {
    forall n | 0 <= n < |a| ensures a[n].isChoice ==> HasText(a[n]) { assert (a + b + c)[n] == a[n]; }
    forall n | 0 <= n < |b| ensures b[n].isChoice ==> HasText(b[n]) { assert (a + b + c)[|a| + n] == b[n]; }
    forall n | 0 <= n < |c| ensures c[n].isChoice ==> HasText(c[n]) { assert (a + b + c)[|a| + |b| + n] == c[n]; }
  }

  lemma {:induction false} MarkPlaces(parent: MenuData, f: Forest, es: seq<Effect>)
    requires PlacedBelow(f, es)
    ensures Placed(MarkAll(parent, f, es), parent, AfterMarkAll(parent, f, es))
  {
    if f.Cons? {
      var es2, last := AfterMark(parent, f.data, es), AfterMarkAll(parent, f, es);
      StillPlacedBelow(f.rest, es, es2);
      MarkPlaces(parent, f.rest, es2);
      StillPlaced(f.kids, f.data, Mark(parent, f.data, es), es, last);
      if parent.isChoice && parent.sym.Some? && f.data.sym.Some? {
        MarkClaims(parent, f.data, es);
        StillClaimed(es2, last, f.data.sym.value);
      }
    }
  }

  lemma MarkClaims(parent: MenuData, d: MenuData, es: seq<Effect>)
    requires parent.isChoice && parent.sym.Some? && d.sym.Some?
    ensures Claimed(AfterMark(parent, d, es), d.sym.value)
  {
    if Becomes(parent, d, es) {
      var e := Claims(parent.sym.value, d.sym.value);
      assert AfterMark(parent, d, es)[|es|] == e;
    }
  }

  /** What has been made of entries is still of their kind. */
  lemma MadeIsShown(ds: seq<MenuData>, inherited: seq<MenuData>, es: seq<Effect>)
    requires AllMade(ds, inherited, es) && Shown(inherited)
    ensures Shown(ds)
  {
    forall n | 0 <= n < |ds| ensures ds[n].isChoice ==> HasText(ds[n]) { assert Made(ds[n], inherited[n], es); }
  }

  /** Everything below a finalized node is where it belongs. */
  lemma {:induction false} FinalizePlaces(f: Forest, rules: Rules, es: seq<Effect>)
    requires f.Cons? && Fresh(InheritedBelow(f, rules)) && Shown(InheritedBelow(f, rules))
    ensures Placed(Finalize(f, rules, es).kids, f.data, AfterFinalize(f, rules, es))
    decreases f.Size(), 1
  {
    if f.kids.Cons? {
      ChildrenPlaced(f, rules, es);
    } else if f.data.sym.Some? {
      SubmenuPlaced(f, rules, es);
    }
  }

  lemma {:induction false} ChildrenPlaced(f: Forest, rules: Rules, es: seq<Effect>)
    requires f.Cons? && f.kids.Cons? && Fresh(InheritedBelow(f, rules)) && Shown(InheritedBelow(f, rules))
    ensures Placed(Finalize(f, rules, es).kids, f.data, AfterFinalize(f, rules, es))
    decreases f.Size(), 0
  {
    var kids, es1 := PropagateAll(f.kids, HandsDown(f.data), rules),
      AfterPropagate(f.kids, HandsDown(f.data), rules, es);
    var below, es2 := InheritedBelow(kids, rules), AfterAll(kids, rules, es1);
    PropagateInherits(f.kids, HandsDown(f.data), rules);
    FreshParts([f.data], below, InheritedBelow(f.rest, rules));
    ShownParts([f.data], below, InheritedBelow(f.rest, rules));
    FinalizeAllInherits(kids, rules, es1);
    MadeIsShown(Datas(FinalizeAll(kids, rules, es1)), below, es2);
    FinalizeAllPlaces(kids, rules, es1);
    Finish(f.data, FinalizeAll(kids, rules, es1), es2);
  }

  lemma {:induction false} SubmenuPlaced(f: Forest, rules: Rules, es: seq<Effect>)
    requires f.Cons? && f.kids.Nil? && f.data.sym.Some? && Fresh(InheritedBelow(f, rules)) &&
      Shown(InheritedBelow(f, rules))
    ensures Placed(Finalize(f, rules, es).kids, f.data, AfterFinalize(f, rules, es))
    decreases f.Size(), 0
  {
    var sym, below := f.data.sym.value, InheritedBelow(f.rest, rules);
    var taken, es1 := Absorb(sym, f.data, f.rest, rules, es).0, AfterAbsorb(sym, f.data, f.rest, rules, es);
    assert Inherited(f.kids, HandsDown(f.data), rules) == [] && InheritedBelow(f, rules) == [f.data] + [] + below;
    FreshParts([f.data], [], below);
    ShownParts([f.data], [], below);
    AbsorbInherits(sym, f.data, f.rest, rules, es);
    SplitAt([], below, |Datas(taken)|);
    ShownParts(below[..|Datas(taken)|], below[|Datas(taken)|..], []);
    MadeIsShown(Datas(taken), below[..|Datas(taken)|], es1);
    AbsorbPlaces(sym, f.data, f.rest, rules, es);
    Finish(f.data, taken, es1);
  }

  /** The last loop and what follows it. */
  lemma Finish(parent: MenuData, f: Forest, es: seq<Effect>)
    requires PlacedBelow(f, es) && Shown(Datas(f))
    ensures Placed(MarkAll(parent, Flatten(f), es), parent, AfterMarkAll(parent, Flatten(f), es) + Forced(parent))
  {
    FlattenPlaces(f, es);
    MarkPlaces(parent, Flatten(f), es);
    StillPlaced(MarkAll(parent, Flatten(f), es), parent, parent,
                AfterMarkAll(parent, Flatten(f), es), AfterMarkAll(parent, Flatten(f), es) + Forced(parent));
  }

  lemma {:induction false} FinalizeAllPlaces(f: Forest, rules: Rules, es: seq<Effect>)
    requires Fresh(InheritedBelow(f, rules)) && Shown(InheritedBelow(f, rules))
    ensures PlacedBelow(FinalizeAll(f, rules, es), AfterAll(f, rules, es))
    decreases f.Size(), 3
  {
    if f.Cons? {
      var g, es2 := Finalize(f, rules, es), AfterFinalize(f, rules, es);
      FirstIsFinalized(f, rules, es);
      FinalizeAllPlaces(g.rest, rules, es2);
      StillPlaced(g.kids, g.data, g.data, es2, AfterAll(f, rules, es));
    }
  }

  /** The first node, and what is known of the others. */
  lemma {:induction false} FirstIsFinalized(f: Forest, rules: Rules, es: seq<Effect>)
    requires f.Cons? && Fresh(InheritedBelow(f, rules)) && Shown(InheritedBelow(f, rules))
    ensures var g := Finalize(f, rules, es);
      && f.data.choice.None? && Placed(g.kids, g.data, AfterFinalize(f, rules, es))
      && Fresh(InheritedBelow(g.rest, rules)) && Shown(InheritedBelow(g.rest, rules))
    decreases f.Size(), 2
  {
    var g, all := Finalize(f, rules, es), InheritedBelow(f, rules);
    var k := 1 + |Datas(g.kids)|;
    assert all[0] == f.data;
    FinalizePlaces(f, rules, es);
    FinalizeInherits(f, rules, es);
    SplitAt([], all, k);
    FreshParts(all[..k], all[k..], []);
    ShownParts(all[..k], all[k..], []);
  }

  lemma {:induction false} AbsorbPlaces(sym: Symbol, parent: MenuData, f: Forest, rules: Rules, es: seq<Effect>)
    requires Fresh(InheritedBelow(f, rules)) && Shown(InheritedBelow(f, rules))
    ensures PlacedBelow(Absorb(sym, parent, f, rules, es).0, AfterAbsorb(sym, parent, f, rules, es))
    decreases f.Size(), 3
  {
    if f.Cons? && rules.belongs(sym, parent, f.data) {
      var g, es2 := Finalize(f, rules, es), AfterFinalize(f, rules, es);
      FirstIsFinalized(f, rules, es);
      AbsorbPlaces(sym, parent, g.rest, rules, es2);
      StillPlaced(g.kids, g.data, g.data, es2, AfterAbsorb(sym, parent, f, rules, es));
    }
  }

  /** The same for the root menu. */
  lemma RootPlaces(f: Forest, rules: Rules, es: seq<Effect>)
    requires f.Cons? && f.rest.Nil? && f.data.choice.None?
    requires Fresh(Inherited(f.kids, HandsDown(f.data), rules)) && Shown(Inherited(f.kids, HandsDown(f.data), rules))
    ensures Placed(Finalize(f, rules, es).kids, f.data, AfterFinalize(f, rules, es))
  {
    if f.kids.Cons? {
      var below := Inherited(f.kids, HandsDown(f.data), rules);
      var kids, es1 := PropagateAll(f.kids, HandsDown(f.data), rules),
        AfterPropagate(f.kids, HandsDown(f.data), rules, es);
      PropagateInherits(f.kids, HandsDown(f.data), rules);
      FinalizeAllInherits(kids, rules, es1);
      MadeIsShown(Datas(FinalizeAll(kids, rules, es1)), below, AfterAll(kids, rules, es1));
      FinalizeAllPlaces(kids, rules, es1);
      Finish(f.data, FinalizeAll(kids, rules, es1), AfterAll(kids, rules, es1));
    }
  }

  /** No symbol has become a value of a choice twice. */
  predicate ClaimedOnce(es: seq<Effect>) {
    forall i, j | 0 <= i < j < |es| && es[i].Claims? && es[j].Claims? :: es[i].value != es[j].value
  }

  predicate NoClaims(es: seq<Effect>) { forall e | e in es :: !e.Claims? }

  lemma StillUnclaimed(es: seq<Effect>, more: seq<Effect>, a: Symbol)
    requires !Claimed(es, a) && NoClaims(more)
    ensures !Claimed(es + more, a)
  {
  }

  lemma OnceMore(es: seq<Effect>, more: seq<Effect>)
    requires ClaimedOnce(es) && NoClaims(more)
    ensures ClaimedOnce(es + more)
  {
    forall j | |es| <= j < |es + more| ensures !(es + more)[j].Claims? { assert (es + more)[j] in more; }
  }

  lemma {:induction false} RequestsNoClaims(sym: Option<Symbol>, ps: seq<Prop>)
    ensures NoClaims(PropEffects(sym, ps))
  {
    if ps != [] { RequestsNoClaims(sym, ps[1..]); }
  }

  lemma {:induction false} PropagateOnce(f: Forest, above: Option<Expr>, rules: Rules, es: seq<Effect>)
    requires ClaimedOnce(es)
    ensures ClaimedOnce(AfterPropagate(f, above, rules, es))
  {
    if f.Cons? {
      var d := rules.inherit(f.data, above);
      RequestsNoClaims(d.sym, d.props);
      OnceMore(es, Requests(d));
      PropagateOnce(f.rest, above, rules, es + Requests(d));
    }
  }

  lemma {:induction false} MarkOnce(parent: MenuData, f: Forest, es: seq<Effect>)
    requires ClaimedOnce(es)
    ensures ClaimedOnce(AfterMarkAll(parent, f, es))
  {
    if f.Cons? {
      if Becomes(parent, f.data, es) {
        forall i | 0 <= i < |es| && es[i].Claims? ensures es[i].value != f.data.sym.value { assert es[i] in es; }
      }
      MarkOnce(parent, f.rest, AfterMark(parent, f.data, es));
    }
  }

  /** A symbol is a value of at most one choice, and in its list once. */
  lemma {:induction false} FinalizeOnce(f: Forest, rules: Rules, es: seq<Effect>)
    requires f.Cons? && ClaimedOnce(es)
    ensures ClaimedOnce(AfterFinalize(f, rules, es))
    decreases f.Size(), 0
  {
    if f.kids.Cons? {
      var kids, es1 := PropagateAll(f.kids, HandsDown(f.data), rules),
        AfterPropagate(f.kids, HandsDown(f.data), rules, es);
      PropagateOnce(f.kids, HandsDown(f.data), rules, es);
      FinalizeAllOnce(kids, rules, es1);
      FinishOnce(f.data, Flatten(FinalizeAll(kids, rules, es1)), AfterAll(kids, rules, es1));
    } else if f.data.sym.Some? {
      AbsorbOnce(f.data.sym.value, f.data, f.rest, rules, es);
      FinishOnce(f.data, Flatten(Absorb(f.data.sym.value, f.data, f.rest, rules, es).0),
        AfterAbsorb(f.data.sym.value, f.data, f.rest, rules, es));
    }
  }

  lemma FinishOnce(parent: MenuData, f: Forest, es: seq<Effect>)
    requires ClaimedOnce(es)
    ensures ClaimedOnce(AfterMarkAll(parent, f, es) + Forced(parent))
  {
    MarkOnce(parent, f, es);
    OnceMore(AfterMarkAll(parent, f, es), Forced(parent));
  }

  lemma {:induction false} FinalizeAllOnce(f: Forest, rules: Rules, es: seq<Effect>)
    requires ClaimedOnce(es)
    ensures ClaimedOnce(AfterAll(f, rules, es))
    decreases f.Size(), 1
  {
    if f.Cons? {
      FinalizeOnce(f, rules, es);
      FinalizeAllOnce(Finalize(f, rules, es).rest, rules, AfterFinalize(f, rules, es));
    }
  }

  lemma {:induction false} AbsorbOnce(sym: Symbol, parent: MenuData, f: Forest, rules: Rules, es: seq<Effect>)
    requires ClaimedOnce(es)
    ensures ClaimedOnce(AfterAbsorb(sym, parent, f, rules, es))
    decreases f.Size(), 1
  {
    if f.Cons? && rules.belongs(sym, parent, f.data) {
      FinalizeOnce(f, rules, es);
      AbsorbOnce(sym, parent, Finalize(f, rules, es).rest, rules, AfterFinalize(f, rules, es));
    }
  }

  /** Inheriting conditions leaves the kind of an entry alone. */
  ghost predicate KeepsKind(rules: Rules) {
    forall d, above {:trigger rules.inherit(d, above)} :: SameKind(rules.inherit(d, above), d)
  }

  predicate SameKind(r: MenuData, d: MenuData) {
    r.sym == d.sym && r.choice == d.choice && r.isChoice == d.isChoice && HasText(r) == HasText(d)
  }

  lemma RulesKeepKind(m: Symbol)
    ensures KeepsKind(RulesOf(m))
  {
  }

  lemma {:induction false} FreshStays(f: Forest, above: Option<Expr>, rules: Rules)
    requires KeepsKind(rules) && Fresh(Datas(f))
    ensures Fresh(Inherited(f, above, rules))
  {
    if f.Cons? {
      var d := rules.inherit(f.data, above);
      FreshParts([f.data], Datas(f.kids), Datas(f.rest));
      assert [f.data][0].choice.None? && SameKind(d, f.data);
      FreshStays(f.kids, HandsDown(d), rules);
      FreshStays(f.rest, above, rules);
    }
  }

  lemma {:induction false} ShownStays(f: Forest, above: Option<Expr>, rules: Rules)
    requires KeepsKind(rules) && Shown(Datas(f))
    ensures Shown(Inherited(f, above, rules))
  {
    if f.Cons? {
      var d := rules.inherit(f.data, above);
      ShownParts([f.data], Datas(f.kids), Datas(f.rest));
      assert [f.data][0] == f.data && SameKind(d, f.data);
      ShownStays(f.kids, HandsDown(d), rules);
      ShownStays(f.rest, above, rules);
    }
  }
}

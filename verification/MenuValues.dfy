/** The entries that stand directly in a choice, as it is written, become its values. */
module MenuValues {
  import opened Tristates
  import opened Exprs
  import opened MenuTree
  import opened MenuSpec
  import opened MenuInheritance
  import opened MenuClaims

  /** The entry x of a list does not go into a submenu of an entry before it. */
  predicate Stays(f: Forest, x: MenuData, rules: Rules) {
    f.Cons? && (f.data == x || (Stays(f.rest, x, rules) && Passes(f, x, rules)))
  }

  /** The first node of the list does not take x. */
  predicate Passes(f: Forest, x: MenuData, rules: Rules)
    requires f.Cons?
  {
    f.kids.Nil? && f.data.sym.Some? ==> !rules.belongs(f.data.sym.value, f.data, x)
  }

  lemma {:induction false} StaysFinalize(f: Forest, x: MenuData, rules: Rules, es: seq<Effect>)
    requires f.Cons? && Stays(f.rest, x, rules) && Passes(f, x, rules)
    ensures Stays(Finalize(f, rules, es).rest, x, rules)
    decreases f.Size(), 0
  {
    if f.kids.Nil? && f.data.sym.Some? { StaysAbsorb(f.data.sym.value, f.data, f.rest, x, rules, es); }
  }

  lemma {:induction false} StaysAbsorb(sym: Symbol, parent: MenuData, f: Forest, x: MenuData, rules: Rules,
                                       es: seq<Effect>)
    requires Stays(f, x, rules) && !rules.belongs(sym, parent, x)
    ensures Stays(Absorb(sym, parent, f, rules, es).1, x, rules)
    decreases f.Size(), 1
  {
    if rules.belongs(sym, parent, f.data) {
      StaysFinalize(f, x, rules, es);
      StaysAbsorb(sym, parent, Finalize(f, rules, es).rest, x, rules, AfterFinalize(f, rules, es));
    }
  }

  predicate FirstLevel(f: Forest, x: MenuData) { f.Cons? && (f.data == x || FirstLevel(f.rest, x)) }

  lemma {:induction false} StaysInList(f: Forest, x: MenuData, rules: Rules, es: seq<Effect>)
    requires Stays(f, x, rules)
    ensures FirstLevel(FinalizeAll(f, rules, es), x)
    decreases f.Size()
  {
    if f.data != x {
      StaysFinalize(f, x, rules, es);
      StaysInList(Finalize(f, rules, es).rest, x, rules, AfterFinalize(f, rules, es));
    }
  }

  lemma {:induction false} FirstOfAppend(f: Forest, g: Forest, x: MenuData)
    requires FirstLevel(g, x)
    ensures FirstLevel(Append(f, g), x)
  {
    if f.Cons? { FirstOfAppend(f.rest, g, x); }
  }

  lemma {:induction false} FirstOfFlatten(f: Forest, x: MenuData)
    requires FirstLevel(f, x)
    ensures FirstLevel(Flatten(f), x)
    decreases f.Size()
  {
    if f.data != x {
      if f.kids.Cons? && !HasText(f.data) {
        FirstOfAppend(f.kids, f.rest, x);
        FirstOfFlatten(Append(f.kids, f.rest), x);
      } else {
        FirstOfFlatten(f.rest, x);
      }
    }
  }

  predicate Named(ds: seq<MenuData>, a: Symbol) { exists n | 0 <= n < |ds| :: ds[n].sym == Some(a) }

  /** No two entries are for the symbol. */
  predicate NamedOnce(ds: seq<MenuData>, a: Symbol) {
    forall i, j | 0 <= i < j < |ds| :: ds[i].sym != Some(a) || ds[j].sym != Some(a)
  }

  lemma NamedParts(a: seq<MenuData>, b: seq<MenuData>, s: Symbol)
    ensures Named(a + b, s) <==> Named(a, s) || Named(b, s)
    ensures NamedOnce(a + b, s) ==> NamedOnce(a, s) && NamedOnce(b, s) && !(Named(a, s) && Named(b, s))
  {
    forall n | 0 <= n < |a| ensures (a + b)[n] == a[n] {}
    forall n | 0 <= n < |b| ensures (a + b)[|a| + n] == b[n] {}
    if Named(a, s) {
      var n :| 0 <= n < |a| && a[n].sym == Some(s);
      assert (a + b)[n] == a[n];
    }
    if Named(b, s) {
      var n :| 0 <= n < |b| && b[n].sym == Some(s);
      assert (a + b)[|a| + n] == b[n];
    }
    if Named(a + b, s) {
      var n :| 0 <= n < |a + b| && (a + b)[n].sym == Some(s);
      assert if n < |a| then a[n].sym == Some(s) else b[n - |a|].sym == Some(s);
    }
    if NamedOnce(a + b, s) {
      PartsOnce(a, b, s);
    }
  }

  lemma PartsOnce(a: seq<MenuData>, b: seq<MenuData>, s: Symbol)
    requires NamedOnce(a + b, s)
    ensures NamedOnce(a, s) && NamedOnce(b, s) && !(Named(a, s) && Named(b, s))
  {
    forall i, j | 0 <= i < j < |a| ensures a[i].sym != Some(s) || a[j].sym != Some(s) {
      assert (a + b)[i] == a[i] && (a + b)[j] == a[j];
    }
    forall i, j | 0 <= i < j < |b| ensures b[i].sym != Some(s) || b[j].sym != Some(s) {
      assert (a + b)[|a| + i] == b[i] && (a + b)[|a| + j] == b[j];
    }
    forall i, j | 0 <= i < |a| && 0 <= j < |b| ensures a[i].sym != Some(s) || b[j].sym != Some(s) {
      assert (a + b)[i] == a[i] && (a + b)[|a| + j] == b[j];
    }
  }

  /** Some entry of the list has the symbol below it. */
  predicate NamedBelow(f: Forest, a: Symbol) { f.Cons? && (Named(Datas(f.kids), a) || NamedBelow(f.rest, a)) }

  lemma {:induction false} FirstIsNamed(f: Forest, x: MenuData, a: Symbol)
    requires FirstLevel(f, x) && x.sym == Some(a)
    ensures Named(Datas(f), a)
  {
    NamedParts([f.data] + Datas(f.kids), Datas(f.rest), a);
    NamedParts([f.data], Datas(f.kids), a);
    if f.data == x { assert [f.data][0].sym == Some(a); } else { FirstIsNamed(f.rest, x, a); }
  }

  lemma {:induction false} BelowIsNamed(f: Forest, a: Symbol)
    requires NamedBelow(f, a)
    ensures Named(Datas(f), a)
  {
    NamedParts([f.data] + Datas(f.kids), Datas(f.rest), a);
    NamedParts([f.data], Datas(f.kids), a);
    if !Named(Datas(f.kids), a) { BelowIsNamed(f.rest, a); }
  }

  /** A symbol that is named once, on the first level, is named nowhere else. */
  lemma {:induction false} OnlyFirst(f: Forest, x: MenuData, a: Symbol)
    requires FirstLevel(f, x) && x.sym == Some(a) && NamedOnce(Datas(f), a)
    ensures !NamedBelow(f, a)
    ensures f.data == x || f.data.sym != Some(a)
    ensures f.data != x ==> FirstLevel(f.rest, x) && NamedOnce(Datas(f.rest), a)
    decreases f
  {
    NamedParts([f.data] + Datas(f.kids), Datas(f.rest), a);
    NamedParts([f.data], Datas(f.kids), a);
    if f.data.sym == Some(a) { assert [f.data][0].sym == Some(a); }
    if f.data == x {
      if NamedBelow(f.rest, a) { BelowIsNamed(f.rest, a); }
    } else {
      FirstIsNamed(f.rest, x, a);
      OnlyFirst(f.rest, x, a);
    }
  }

  /** The last loop makes it a value of the choice ... */
  lemma {:induction false} FirstIsMarked(parent: MenuData, f: Forest, es: seq<Effect>, x: MenuData, c: Symbol,
                                         a: Symbol)
    requires FirstLevel(f, x) && x.sym == Some(a) && NamedOnce(Datas(f), a) && !Claimed(es, a)
    requires parent.isChoice && parent.sym == Some(c)
    ensures Claim(x, c) in Datas(MarkAll(parent, f, es))
  {
    OnlyFirst(f, x, a);
    if f.data == x {
      assert Mark(parent, f.data, es) == Claim(x, c);
    } else {
      StillNotClaimed(parent, f.data, es, a);
      FirstIsMarked(parent, f.rest, AfterMark(parent, f.data, es), x, c, a);
    }
  }

  lemma StillNotClaimed(parent: MenuData, d: MenuData, es: seq<Effect>, a: Symbol)
    requires !Claimed(es, a) && d.sym != Some(a)
    ensures !Claimed(AfterMark(parent, d, es), a)
  {
  }

  /** ... and leaves alone what is a value already. */
  lemma {:induction false} ClaimedIsKept(parent: MenuData, f: Forest, es: seq<Effect>, a: Symbol, n: nat)
    requires n < |Datas(f)| && Datas(f)[n].sym == Some(a) && Claimed(es, a)
    ensures n < |Datas(MarkAll(parent, f, es))| && Datas(MarkAll(parent, f, es))[n] == Datas(f)[n]
  {
    var k := 1 + |Datas(f.kids)|;
    var es2 := AfterMark(parent, f.data, es);
    StillClaimed(es, es2, a);
    if n >= k {
      assert Datas(f)[n] == Datas(f.rest)[n - k];
      ClaimedIsKept(parent, f.rest, es2, a, n - k);
    }
  }

  lemma {:induction false} NotMarked(parent: MenuData, f: Forest, es: seq<Effect>, a: Symbol)
    requires !Claimed(es, a) && !Named(Datas(f), a)
    ensures !Claimed(AfterMarkAll(parent, f, es), a)
  {
    if f.Cons? {
      NamedParts([f.data] + Datas(f.kids), Datas(f.rest), a);
      NamedParts([f.data], Datas(f.kids), a);
      assert [f.data][0] == f.data;
      StillNotClaimed(parent, f.data, es, a);
      NotMarked(parent, f.rest, AfterMark(parent, f.data, es), a);
    }
  }

  lemma {:induction false} MarkNames(parent: MenuData, f: Forest, es: seq<Effect>, a: Symbol)
    ensures Named(Datas(MarkAll(parent, f, es)), a) == Named(Datas(f), a)
  {
    if f.Cons? {
      var d, es2 := Mark(parent, f.data, es), AfterMark(parent, f.data, es);
      MarkNames(parent, f.rest, es2, a);
      NamedParts([f.data] + Datas(f.kids), Datas(f.rest), a);
      NamedParts([f.data], Datas(f.kids), a);
      NamedParts([d] + Datas(f.kids), Datas(MarkAll(parent, f.rest, es2)), a);
      NamedParts([d], Datas(f.kids), a);
      assert [f.data][0] == f.data && [d][0] == d;
    }
  }

  lemma {:induction false} PropagateUnclaimed(f: Forest, above: Option<Expr>, rules: Rules, es: seq<Effect>, a: Symbol)
    requires !Claimed(es, a)
    ensures !Claimed(AfterPropagate(f, above, rules, es), a)
  {
    if f.Cons? {
      var d := rules.inherit(f.data, above);
      RequestsNoClaims(d.sym, d.props);
      StillUnclaimed(es, Requests(d), a);
      PropagateUnclaimed(f.rest, above, rules, es + Requests(d), a);
    }
  }

  /** A symbol becomes a value only by an entry below a node that menu_finalize is called on. */
  lemma {:induction false} NotClaimed(f: Forest, rules: Rules, es: seq<Effect>, a: Symbol)
    requires f.Cons? && !Claimed(es, a) && !Named(Datas(Finalize(f, rules, es).kids), a)
    ensures !Claimed(AfterFinalize(f, rules, es), a)
    decreases f.Size(), 0
  {
    if f.kids.Cons? {
      var kids, es1 := PropagateAll(f.kids, HandsDown(f.data), rules),
        AfterPropagate(f.kids, HandsDown(f.data), rules, es);
      var list := FinalizeAll(kids, rules, es1);
      PropagateUnclaimed(f.kids, HandsDown(f.data), rules, es, a);
      NotFinished(f.data, list, AfterAll(kids, rules, es1), a);
      NotClaimedInList(kids, rules, es1, a);
      NotMarked(f.data, Flatten(list), AfterAll(kids, rules, es1), a);
      StillUnclaimed(AfterMarkAll(f.data, Flatten(list), AfterAll(kids, rules, es1)), Forced(f.data), a);
    } else if f.data.sym.Some? {
      var list := Absorb(f.data.sym.value, f.data, f.rest, rules, es).0;
      var es1 := AfterAbsorb(f.data.sym.value, f.data, f.rest, rules, es);
      NotFinished(f.data, list, es1, a);
      NotClaimedByAbsorb(f.data.sym.value, f.data, f.rest, rules, es, a);
      NotMarked(f.data, Flatten(list), es1, a);
      StillUnclaimed(AfterMarkAll(f.data, Flatten(list), es1), Forced(f.data), a);
    }
  }

  lemma NotFinished(parent: MenuData, list: Forest, es: seq<Effect>, a: Symbol)
    requires !Named(Datas(MarkAll(parent, Flatten(list), es)), a)
    ensures !Named(Datas(Flatten(list)), a) && !NamedBelow(list, a)
  {
    MarkNames(parent, Flatten(list), es, a);
    FlattenKeepsDatas(list);
    if NamedBelow(list, a) { BelowIsNamed(list, a); }
  }

  lemma {:induction false} NotClaimedInList(f: Forest, rules: Rules, es: seq<Effect>, a: Symbol)
    requires !Claimed(es, a) && !NamedBelow(FinalizeAll(f, rules, es), a)
    ensures !Claimed(AfterAll(f, rules, es), a)
    decreases f.Size(), 1
  {
    if f.Cons? {
      NotClaimed(f, rules, es, a);
      NotClaimedInList(Finalize(f, rules, es).rest, rules, AfterFinalize(f, rules, es), a);
    }
  }

  lemma {:induction false} NotClaimedByAbsorb(sym: Symbol, parent: MenuData, f: Forest, rules: Rules, es: seq<Effect>,
                                              a: Symbol)
    requires !Claimed(es, a) && !NamedBelow(Absorb(sym, parent, f, rules, es).0, a)
    ensures !Claimed(AfterAbsorb(sym, parent, f, rules, es), a)
    decreases f.Size(), 1
  {
    if f.Cons? && rules.belongs(sym, parent, f.data) {
      NotClaimed(f, rules, es, a);
      NotClaimedByAbsorb(sym, parent, Finalize(f, rules, es).rest, rules, AfterFinalize(f, rules, es), a);
    }
  }

  /** Entry number j of the list, counting what is below, is on the first level. */
  predicate FirstAt(f: Forest, j: nat) {
    f.Cons? && (j == 0 || (j > |Datas(f.kids)| && FirstAt(f.rest, j - 1 - |Datas(f.kids)|)))
  }

  /** Of the entries written in a choice, number j stands directly in it and does not go into a submenu. */
  predicate StaysIn(kids: Forest, j: nat, c: Symbol, rules: Rules) {
    && FirstAt(kids, j) && j < |Datas(kids)|
    && Stays(PropagateAll(kids, Some(Sym(c)), rules), rules.inherit(Datas(kids)[j], Some(Sym(c))), rules)
  }

  /** Somewhere in the file, entry number n is such an entry of the choice c. */
  predicate StandsIn(f: Forest, n: nat, c: Symbol, rules: Rules) {
    && f.Cons? && n > 0
    && var s := |Datas(f.kids)|;
      if n > s then StandsIn(f.rest, n - 1 - s, c, rules)
      else (f.data.isChoice && f.data.sym == Some(c) && StaysIn(f.kids, n - 1, c, rules))
           || StandsIn(f.kids, n - 1, c, rules)
  }

  lemma {:induction false} StandsPropagated(f: Forest, n: nat, c: Symbol, above: Option<Expr>, rules: Rules)
    requires StandsIn(f, n, c, rules) && KeepsKind(rules)
    ensures StandsIn(PropagateAll(f, above, rules), n, c, rules)
  {
    var s := |Datas(f.kids)|;
    assert SameKind(rules.inherit(f.data, above), f.data);
    if n > s { StandsPropagated(f.rest, n - 1 - s, c, above, rules); }
  }

  lemma {:induction false} InheritedLength(f: Forest, above: Option<Expr>, rules: Rules)
    ensures |Inherited(f, above, rules)| == |Datas(f)|
  {
    if f.Cons? {
      InheritedLength(f.kids, HandsDown(rules.inherit(f.data, above)), rules);
      InheritedLength(f.rest, above, rules);
    }
  }

  /** An entry of the first level inherits what is above the list. */
  lemma {:induction false} InheritedAt(f: Forest, j: nat, above: Option<Expr>, rules: Rules)
    requires FirstAt(f, j)
    ensures j < |Datas(f)| == |Inherited(f, above, rules)|
    ensures Inherited(f, above, rules)[j] == rules.inherit(Datas(f)[j], above)
  {
    var k := 1 + |Datas(f.kids)|;
    InheritedLength(f, above, rules);
    InheritedLength(f.kids, HandsDown(rules.inherit(f.data, above)), rules);
    if j > 0 {
      InheritedAt(f.rest, j - k, above, rules);
      assert Datas(f)[j] == Datas(f.rest)[j - k];
    }
  }

  /** Entry n of all, and it alone, is for the symbol a, which is no value yet. */
  predicate Sought(all: seq<MenuData>, n: nat, a: Symbol, es: seq<Effect>) {
    Fresh(all) && n < |all| && all[n].sym == Some(a) && NamedOnce(all, a) && !Claimed(es, a)
  }

  /** What has been made of entries has their symbols. */
  lemma MadeNames(ds: seq<MenuData>, inherited: seq<MenuData>, es: seq<Effect>, a: Symbol)
    requires AllMade(ds, inherited, es)
    ensures forall n | 0 <= n < |ds| :: ds[n].sym == inherited[n].sym
    ensures Named(ds, a) == Named(inherited, a) && NamedOnce(ds, a) == NamedOnce(inherited, a)
  {
    forall n | 0 <= n < |ds| ensures ds[n].sym == inherited[n].sym { assert Made(ds[n], inherited[n], es); }
  }

  lemma MadeIsClaimed(ds: seq<MenuData>, inherited: seq<MenuData>, es: seq<Effect>, n: nat, c: Symbol, a: Symbol)
    requires AllMade(ds, inherited, es) && n < |ds| && inherited[n].sym == Some(a) && ds[n] == Claim(inherited[n], c)
    ensures Claimed(es, a) && ds[n].sym == Some(a)
  {
    assert Made(ds[n], inherited[n], es);
  }

  /** As long as the entry has not been reached, it is sought behind what is finished. */
  lemma SoughtBehind(f: Forest, rules: Rules, es: seq<Effect>, n: nat, a: Symbol)
    requires f.Cons? && Sought(InheritedBelow(f, rules), n, a, es)
    ensures var g := Finalize(f, rules, es);
      var k := 1 + |Datas(g.kids)|;
      n >= k ==> Sought(InheritedBelow(g.rest, rules), n - k, a, AfterFinalize(f, rules, es))
  {
    var g, all := Finalize(f, rules, es), InheritedBelow(f, rules);
    var k := 1 + |Datas(g.kids)|;
    FinalizeInherits(f, rules, es);
    if n >= k {
      SoughtTail(all, k, n, a, es);
      MadeNames([g.data] + Datas(g.kids), all[..k], AfterFinalize(f, rules, es), a);
      NamedParts([g.data], Datas(g.kids), a);
      NotClaimed(f, rules, es, a);
    }
  }

  lemma SoughtTail(all: seq<MenuData>, k: nat, n: nat, a: Symbol, es: seq<Effect>)
    requires Sought(all, n, a, es) && k <= n
    ensures Sought(all[k..], n - k, a, es) && !Named(all[..k], a) && all[k..][n - k] == all[n]
  {
    SplitAt([], all, k);
    FreshParts(all[..k], all[k..], []);
    NamedParts(all[..k], all[k..], a);
  }

  /** The entry has become a value of c if it is among those that are finished; else it still stands in c. */
  predicate Settled(out: seq<MenuData>, all: seq<MenuData>, rest: Forest, n: nat, c: Symbol, rules: Rules) {
    if n < |out| then n < |all| && out[n] == Claim(all[n], c) else StandsIn(rest, n - |out|, c, rules)
  }

  lemma {:induction false} StandsFinalize(f: Forest, rules: Rules, es: seq<Effect>, n: nat, c: Symbol, a: Symbol)
    requires f.Cons? && KeepsKind(rules) && Sought(InheritedBelow(f, rules), n, a, es) && StandsIn(f, n, c, rules)
    ensures var g := Finalize(f, rules, es);
      Settled([g.data] + Datas(g.kids), InheritedBelow(f, rules), g.rest, n, c, rules)
    decreases f.Size(), 1
  {
    var g, all := Finalize(f, rules, es), InheritedBelow(f, rules);
    if f.kids.Cons? {
      StandsBelow(f, rules, es, n, c, a);
    } else if f.data.sym.Some? {
      StandsBehind(f, rules, es, n, c, a);
    }
  }

  /** An entry with others below it: the entry is among these, or behind them. */
  lemma {:induction false} StandsBelow(f: Forest, rules: Rules, es: seq<Effect>, n: nat, c: Symbol, a: Symbol)
    requires f.Cons? && f.kids.Cons? && KeepsKind(rules) && Sought(InheritedBelow(f, rules), n, a, es)
    requires StandsIn(f, n, c, rules)
    ensures var g := Finalize(f, rules, es);
      Settled([g.data] + Datas(g.kids), InheritedBelow(f, rules), g.rest, n, c, rules)
    decreases f.Size(), 0, 1
  {
    var below := Inherited(f.kids, HandsDown(f.data), rules);
    InheritedLength(f.kids, HandsDown(f.data), rules);
    SameLength(f, rules, es);
    if n <= |Datas(f.kids)| {
      SoughtBelow(f.data, below, InheritedBelow(f.rest, rules), n, a, es);
      StandsAmong(f, rules, es, n - 1, c, a);
    }
  }

  lemma {:induction false} StandsAmong(f: Forest, rules: Rules, es: seq<Effect>, j: nat, c: Symbol, a: Symbol)
    requires f.Cons? && f.kids.Cons? && KeepsKind(rules) &&
      Sought(Inherited(f.kids, HandsDown(f.data), rules), j, a, es)
    requires j < |Datas(f.kids)| && StandsIn(f, j + 1, c, rules)
    ensures var out := Datas(Finalize(f, rules, es).kids);
      j < |out| && out[j] == Claim(Inherited(f.kids, HandsDown(f.data), rules)[j], c)
    decreases f.Size(), 0, 0
  {
    var kids, es1 := PropagateAll(f.kids, HandsDown(f.data), rules),
      AfterPropagate(f.kids, HandsDown(f.data), rules, es);
    PropagateInherits(f.kids, HandsDown(f.data), rules);
    PropagateUnclaimed(f.kids, HandsDown(f.data), rules, es, a);
    if f.data.isChoice && f.data.sym == Some(c) && StaysIn(f.kids, j, c, rules) {
      StaysBecomes(f, rules, es1, j, c, a);
    } else {
      StandsPropagated(f.kids, j, c, HandsDown(f.data), rules);
      StandsInList(kids, rules, es1, j, c, a);
      KeptInList(f.data, kids, rules, es1, j, c, a);
    }
  }

  lemma SameLength(f: Forest, rules: Rules, es: seq<Effect>)
    requires f.Cons? && f.kids.Cons?
    ensures |Datas(Finalize(f, rules, es).kids)| == |Datas(f.kids)|
  {
    DatasLength(f.kids);
    DatasLength(Finalize(f, rules, es).kids);
  }

  lemma SoughtBelow(d: MenuData, below: seq<MenuData>, rest: seq<MenuData>, n: nat, a: Symbol, es: seq<Effect>)
    requires Sought([d] + below + rest, n, a, es) && 0 < n <= |below|
    ensures Sought(below, n - 1, a, es) && ([d] + below + rest)[n] == below[n - 1]
  {
    FreshParts([d], below, rest);
    NamedParts([d] + below, rest, a);
    NamedParts([d], below, a);
  }

  /** What stands directly in the choice becomes its value. */
  lemma StaysBecomes(f: Forest, rules: Rules, es: seq<Effect>, j: nat, c: Symbol, a: Symbol)
    requires f.Cons? && f.data.isChoice && f.data.sym == Some(c) && StaysIn(f.kids, j, c, rules)
    requires Sought(InheritedBelow(PropagateAll(f.kids, HandsDown(f.data), rules), rules), j, a, es)
    ensures var kids := PropagateAll(f.kids, HandsDown(f.data), rules);
      var out := Datas(MarkAll(f.data, Flatten(FinalizeAll(kids, rules, es)), AfterAll(kids, rules, es)));
      j < |out| && out[j] == Claim(InheritedBelow(kids, rules)[j], c)
  {
    var kids := PropagateAll(f.kids, HandsDown(f.data), rules);
    var list, below, es2 := FinalizeAll(kids, rules, es), InheritedBelow(kids, rules), AfterAll(kids, rules, es);
    var x := below[j];
    PropagateInherits(f.kids, HandsDown(f.data), rules);
    InheritedAt(f.kids, j, HandsDown(f.data), rules);
    StaysInList(kids, x, rules, es);
    FinalizeAllInherits(kids, rules, es);
    MadeNames(Datas(list), below, es2, a);
    OnlyFirst(list, x, a);
    NotClaimedInList(kids, rules, es, a);
    FlattenKeepsDatas(list);
    FirstOfFlatten(list, x);
    FirstIsMarked(f.data, Flatten(list), es2, x, c, a);
    MarkMakes(f.data, Flatten(list), es2, below);
    var out := Datas(MarkAll(f.data, Flatten(list), es2));
    MadeNames(out, below, AfterMarkAll(f.data, Flatten(list), es2), a);
    OnlyPlace(out, below, Claim(x, c), j, a);
  }

  lemma OnlyPlace(out: seq<MenuData>, below: seq<MenuData>, y: MenuData, j: nat, a: Symbol)
    requires |out| == |below| && y in out && y.sym == Some(a) && NamedOnce(below, a)
    requires forall n | 0 <= n < |out| :: out[n].sym == below[n].sym
    requires j < |below| && below[j].sym == Some(a)
    ensures out[j] == y
  {
    var i :| 0 <= i < |out| && out[i] == y;
    assert below[i].sym == Some(a);
  }

  /** What has become a value further down stays one. */
  lemma KeptInList(parent: MenuData, kids: Forest, rules: Rules, es: seq<Effect>, j: nat, c: Symbol, a: Symbol)
    requires Fresh(InheritedBelow(kids, rules)) && j < |InheritedBelow(kids, rules)|
    requires InheritedBelow(kids, rules)[j].sym == Some(a)
    requires var list := Datas(FinalizeAll(kids, rules, es));
      j < |list| && list[j] == Claim(InheritedBelow(kids, rules)[j], c)
    ensures var out := Datas(MarkAll(parent, Flatten(FinalizeAll(kids, rules, es)), AfterAll(kids, rules, es)));
      j < |out| && out[j] == Claim(InheritedBelow(kids, rules)[j], c)
  {
    var list, es2 := FinalizeAll(kids, rules, es), AfterAll(kids, rules, es);
    FinalizeAllInherits(kids, rules, es);
    MadeIsClaimed(Datas(list), InheritedBelow(kids, rules), es2, j, c, a);
    FlattenKeepsDatas(list);
    ClaimedIsKept(parent, Flatten(list), es2, a, j);
  }

  /** An entry that may take what follows. */
  lemma {:induction false} StandsBehind(f: Forest, rules: Rules, es: seq<Effect>, n: nat, c: Symbol, a: Symbol)
    requires f.Cons? && f.kids.Nil? && f.data.sym.Some? && KeepsKind(rules)
    requires Sought(InheritedBelow(f, rules), n, a, es) && StandsIn(f, n, c, rules)
    ensures var g := Finalize(f, rules, es);
      Settled([g.data] + Datas(g.kids), InheritedBelow(f, rules), g.rest, n, c, rules)
    decreases f.Size(), 0
  {
    var sym, below := f.data.sym.value, InheritedBelow(f.rest, rules);
    var (taken, left) := Absorb(sym, f.data, f.rest, rules, es);
    var es1 := AfterAbsorb(sym, f.data, f.rest, rules, es);
    assert InheritedBelow(f, rules) == [f.data] + below + [];
    assert |Datas(f.kids)| == 0;
    SoughtBelow(f.data, below, [], n, a, es);
    StandsByAbsorb(sym, f.data, f.rest, rules, es, n - 1, c, a);
    AbsorbInherits(sym, f.data, f.rest, rules, es);
    KeptByMark(f.data, taken, es1, below, left, n - 1, c, a, rules);
    SettledBehind([f.data], Datas(MarkAll(f.data, Flatten(taken), es1)), [f.data] + below, below, left, n, c, rules);
    assert [f.data] + below + [] == [f.data] + below;
  }

  lemma KeptByMark(parent: MenuData, taken: Forest, es: seq<Effect>, below: seq<MenuData>, left: Forest, n: nat,
                   c: Symbol, a: Symbol, rules: Rules)
    requires Settled(Datas(taken), below, left, n, c, rules)
    requires |Datas(taken)| <= |below| && AllMade(Datas(taken), below[..|Datas(taken)|], es)
    requires n < |below| && below[n].sym == Some(a)
    ensures Settled(Datas(MarkAll(parent, Flatten(taken), es)), below, left, n, c, rules)
  {
    var k := |Datas(taken)|;
    DatasLength(taken);
    DatasLength(MarkAll(parent, Flatten(taken), es));
    if n < k {
      MadeIsClaimed(Datas(taken), below[..k], es, n, c, a);
      FlattenKeepsDatas(taken);
      ClaimedIsKept(parent, Flatten(taken), es, a, n);
    }
  }

  lemma SettledBehind(first: seq<MenuData>, out: seq<MenuData>, all: seq<MenuData>, tail: seq<MenuData>, rest: Forest,
                      n: nat, c: Symbol, rules: Rules)
    requires |first| <= n && |first| <= |all| && tail == all[|first|..]
    requires Settled(out, tail, rest, n - |first|, c, rules)
    ensures Settled(first + out, all, rest, n, c, rules)
  {
  }

  lemma {:induction false} StandsInList(f: Forest, rules: Rules, es: seq<Effect>, n: nat, c: Symbol, a: Symbol)
    requires KeepsKind(rules) && Sought(InheritedBelow(f, rules), n, a, es) && StandsIn(f, n, c, rules)
    ensures Settled(Datas(FinalizeAll(f, rules, es)), InheritedBelow(f, rules), Nil, n, c, rules)
    decreases f.Size(), 2
  {
    var g, es2, all := Finalize(f, rules, es), AfterFinalize(f, rules, es), InheritedBelow(f, rules);
    var first := [g.data] + Datas(g.kids);
    StandsFinalize(f, rules, es, n, c, a);
    SoughtBehind(f, rules, es, n, a);
    FinalizeInherits(f, rules, es);
    if n >= |first| {
      StandsInList(g.rest, rules, es2, n - |first|, c, a);
      SettledBehind(first, Datas(FinalizeAll(g.rest, rules, es2)), all, all[|first|..], Nil, n, c, rules);
    }
  }

  lemma {:induction false} StandsByAbsorb(sym: Symbol, parent: MenuData, f: Forest, rules: Rules, es: seq<Effect>,
                                          n: nat, c: Symbol, a: Symbol)
    requires KeepsKind(rules) && Sought(InheritedBelow(f, rules), n, a, es) && StandsIn(f, n, c, rules)
    ensures var r := Absorb(sym, parent, f, rules, es);
      Settled(Datas(r.0), InheritedBelow(f, rules), r.1, n, c, rules)
    decreases f.Size(), 2
  {
    if rules.belongs(sym, parent, f.data) {
      var g, es2, all := Finalize(f, rules, es), AfterFinalize(f, rules, es), InheritedBelow(f, rules);
      var first, r := [g.data] + Datas(g.kids), Absorb(sym, parent, g.rest, rules, es2);
      StandsFinalize(f, rules, es, n, c, a);
      SoughtBehind(f, rules, es, n, a);
      FinalizeInherits(f, rules, es);
      if n >= |first| {
        StandsByAbsorb(sym, parent, g.rest, rules, es2, n - |first|, c, a);
        SettledBehind(first, Datas(r.0), all, all[|first|..], r.1, n, c, rules);
      }
    }
  }

  /**
   On the root menu: the entry with number n, whose symbol no other entry has
   and which stands directly in the choice c, is a value of c by this entry.
   */
  lemma RootValue(f: Forest, rules: Rules, es: seq<Effect>, n: nat, c: Symbol, a: Symbol)
    requires f.Cons? && f.rest.Nil? && f.data.choice.None? && f.data.sym != Some(a) && KeepsKind(rules)
    requires Sought(Inherited(f.kids, HandsDown(f.data), rules), n, a, es) && StandsIn(f, n + 1, c, rules)
    ensures var out := Datas(Finalize(f, rules, es).kids);
      n < |out| && out[n] == Claim(Inherited(f.kids, HandsDown(f.data), rules)[n], c)
  {
    var below := Inherited(f.kids, HandsDown(f.data), rules);
    assert InheritedBelow(f, rules) == [f.data] + below;
    NamedParts([f.data], below, a);
    assert Fresh([f.data] + below);
    RootIsSought(f.data, below, a);
    StandsFinalize(f, rules, es, n + 1, c, a);
  }

  lemma RootIsSought(d: MenuData, below: seq<MenuData>, a: Symbol)
    requires d.sym != Some(a) && NamedOnce(below, a)
    ensures NamedOnce([d] + below, a)
  {
    var all := [d] + below;
    forall i, j | 0 <= i < j < |all| ensures all[i].sym != Some(a) || all[j].sym != Some(a) {
      if i > 0 { assert all[i] == below[i - 1] && all[j] == below[j - 1]; }
    }
  }

  lemma {:induction false} InheritedNames(f: Forest, above: Option<Expr>, rules: Rules)
    requires KeepsKind(rules)
    ensures |Inherited(f, above, rules)| == |Datas(f)|
    ensures forall n | 0 <= n < |Datas(f)| :: Inherited(f, above, rules)[n].sym == Datas(f)[n].sym
  {
    if f.Cons? {
      var d := rules.inherit(f.data, above);
      assert SameKind(d, f.data);
      InheritedNames(f.kids, HandsDown(d), rules);
      InheritedNames(f.rest, above, rules);
      SameNames(d, f.data, Inherited(f.kids, HandsDown(d), rules), Datas(f.kids), Inherited(f.rest, above, rules),
                Datas(f.rest));
    }
  }

  lemma SameNames(d: MenuData, e: MenuData, a: seq<MenuData>, b: seq<MenuData>, x: seq<MenuData>, y: seq<MenuData>)
    requires d.sym == e.sym && |a| == |b| && |x| == |y|
    requires (forall n | 0 <= n < |a| :: a[n].sym == b[n].sym) && (forall n | 0 <= n < |x| :: x[n].sym == y[n].sym)
    ensures forall n | 0 <= n < |[d] + a + x| :: ([d] + a + x)[n].sym == ([e] + b + y)[n].sym
  {
    var k := 1 + |a|;
    forall n | 0 <= n < k + |x| ensures ([d] + a + x)[n].sym == ([e] + b + y)[n].sym {
      assert ([d] + a + x)[n] == if n == 0 then d else if n < k then a[n - 1] else x[n - k];
      assert ([e] + b + y)[n] == if n == 0 then e else if n < k then b[n - 1] else y[n - k];
    }
  }

  /** The first entry in a choice goes into no submenu. */
  lemma FirstStays(kids: Forest, c: Symbol, rules: Rules)
    requires kids.Cons?
    ensures StaysIn(kids, 0, c, rules)
  {
  }

  /** The same in terms of the file. */
  lemma WrittenValue(f: Forest, rules: Rules, es: seq<Effect>, n: nat, c: Symbol, a: Symbol)
    requires f.Cons? && f.rest.Nil? && f.data.choice.None? && f.data.sym != Some(a) && KeepsKind(rules)
    requires Sought(Datas(f.kids), n, a, es) && StandsIn(f, n + 1, c, rules)
    ensures var out, inherited := Datas(Finalize(f, rules, es).kids), Inherited(f.kids, HandsDown(f.data), rules);
      n < |out| && n < |inherited| && inherited[n].sym == Some(a) && out[n] == Claim(inherited[n], c)
  {
    InheritedNames(f.kids, HandsDown(f.data), rules);
    FreshStays(f.kids, HandsDown(f.data), rules);
    RootValue(f, rules, es, n, c, a);
  }
}

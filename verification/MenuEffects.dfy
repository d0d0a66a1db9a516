/** What menu_finalize adds to the symbols that are selected and implied. */
module MenuEffects {
  import opened Tristates
  import opened Exprs
  import opened MenuTree
  import opened MenuSpec
  import SymbolSpec

  /** The effects on rev_dep and implied. */
  function Asks(es: seq<Effect>): set<Effect> { set e | e in es && !e.Claims? }

  /** What an entry asks for, once its conditions have been inherited. */
  function Wants(d: MenuData): set<Effect> { Asks(Requests(d)) + Asks(Forced(d)) }

  function WantsAll(ds: seq<MenuData>): set<Effect> {
    if ds == [] then {} else Wants(ds[0]) + WantsAll(ds[1..])
  }

  /** What is still to be added for a list whose first level has inherited its conditions. */
  function Pending(f: Forest, rules: Rules): set<Effect> {
    if f.Nil? then {}
    else Asks(Forced(f.data)) + WantsAll(Inherited(f.kids, HandsDown(f.data), rules)) + Pending(f.rest, rules)
  }

  lemma AsksJoin(a: seq<Effect>, b: seq<Effect>)
    ensures Asks(a + b) == Asks(a) + Asks(b)
  {
  }

  lemma {:induction false} WantsJoin(a: seq<MenuData>, b: seq<MenuData>)
    ensures WantsAll(a + b) == WantsAll(a) + WantsAll(b)
  {
    if a == [] {
      assert a + b == b;
    } else {
      WantsJoin(a[1..], b);
      assert (a + b)[1..] == a[1..] + b;
    }
  }

  lemma {:induction false} WantsOf(ds: seq<MenuData>, e: Effect)
    ensures e in WantsAll(ds) <==> exists n | 0 <= n < |ds| :: e in Wants(ds[n])
  {
    if ds != [] {
      WantsOf(ds[1..], e);
      if n :| 0 <= n < |ds| && e in Wants(ds[n]) {
        if n > 0 { assert ds[1..][n - 1] == ds[n]; }
      }
    }
  }

  lemma {:induction false} PropagateAsks(f: Forest, above: Option<Expr>, rules: Rules, es: seq<Effect>)
    ensures Asks(AfterPropagate(f, above, rules, es)) + Pending(PropagateAll(f, above, rules), rules) ==
            Asks(es) + WantsAll(Inherited(f, above, rules))
  {
    if f.Cons? {
      var d := rules.inherit(f.data, above);
      var below, rest := Inherited(f.kids, HandsDown(d), rules), Inherited(f.rest, above, rules);
      PropagateAsks(f.rest, above, rules, es + Requests(d));
      AsksJoin(es, Requests(d));
      WantsJoin([d] + below, rest);
      WantsJoin([d], below);
      assert WantsAll([d]) == Wants(d) by { assert [d][1..] == []; }
    }
  }

  lemma {:induction false} MarkAsks(parent: MenuData, f: Forest, es: seq<Effect>)
    ensures Asks(AfterMarkAll(parent, f, es)) == Asks(es)
  {
    if f.Cons? {
      MarkAsks(parent, f.rest, AfterMark(parent, f.data, es));
      if Becomes(parent, f.data, es) { AsksJoin(es, [Claims(parent.sym.value, f.data.sym.value)]); }
    }
  }

  lemma FinishAsks(parent: MenuData, f: Forest, es: seq<Effect>)
    ensures Asks(AfterMarkAll(parent, f, es) + Forced(parent)) == Asks(es) + Asks(Forced(parent))
  {
    MarkAsks(parent, f, es);
    AsksJoin(AfterMarkAll(parent, f, es), Forced(parent));
  }

  /** Nothing that is asked for is lost, and nothing else is added. */
  lemma {:induction false} FinalizeAsks(f: Forest, rules: Rules, es: seq<Effect>)
    requires f.Cons?
    ensures Asks(AfterFinalize(f, rules, es)) + Pending(Finalize(f, rules, es).rest, rules) ==
      Asks(es) + Pending(f, rules)
    decreases f.Size(), 0
  {
    if f.kids.Cons? {
      var kids, es1 := PropagateAll(f.kids, HandsDown(f.data), rules),
        AfterPropagate(f.kids, HandsDown(f.data), rules, es);
      PropagateAsks(f.kids, HandsDown(f.data), rules, es);
      FinalizeAllAsks(kids, rules, es1);
      FinishAsks(f.data, Flatten(FinalizeAll(kids, rules, es1)), AfterAll(kids, rules, es1));
    } else if f.data.sym.Some? {
      AbsorbAsks(f.data.sym.value, f.data, f.rest, rules, es);
      FinishAsks(f.data, Flatten(Absorb(f.data.sym.value, f.data, f.rest, rules, es).0),
        AfterAbsorb(f.data.sym.value, f.data, f.rest, rules, es));
    }
  }

  lemma {:induction false} FinalizeAllAsks(f: Forest, rules: Rules, es: seq<Effect>)
    ensures Asks(AfterAll(f, rules, es)) == Asks(es) + Pending(f, rules)
    decreases f.Size(), 1
  {
    if f.Cons? {
      FinalizeAsks(f, rules, es);
      FinalizeAllAsks(Finalize(f, rules, es).rest, rules, AfterFinalize(f, rules, es));
    }
  }

  lemma {:induction false} AbsorbAsks(sym: Symbol, parent: MenuData, f: Forest, rules: Rules, es: seq<Effect>)
    ensures Asks(AfterAbsorb(sym, parent, f, rules, es)) + Pending(Absorb(sym, parent, f, rules, es).1, rules) ==
            Asks(es) + Pending(f, rules)
    decreases f.Size(), 1
  {
    if f.Cons? && rules.belongs(sym, parent, f.data) {
      FinalizeAsks(f, rules, es);
      AbsorbAsks(sym, parent, Finalize(f, rules, es).rest, rules, AfterFinalize(f, rules, es));
    }
  }

  /** The effect adds to rev_dep of the symbol, or to implied. */
  predicate AddsTo(e: Effect, target: nat, implied: bool) {
    if implied then e.Implies? && e.target == target else e.Selects? && e.target == target
  }

  /** rev_dep of a symbol, or implied: expr_alloc_or of all that has been added to it. */
  function DepOf(es: seq<Effect>, target: nat, implied: bool): Option<Expr> {
    if es == [] then None
    else
      var before, e := DepOf(es[..|es| - 1], target, implied), es[|es| - 1];
      if AddsTo(e, target, implied) then OrOpt(before, e.when) else before
  }

  function OrOpt(a: Option<Expr>, b: Expr): Option<Expr> { if a.None? then Some(b) else Some(Bin(OR, a.value, b)) }

  /** v is the maximum of the values of some conditions, or n if there are none. */
  ghost predicate IsMaximum(v: Tristate, whens: set<Expr>, env: Env) {
    && (forall x | x in whens :: Value(x, env) <= v)
    && (v == NO || exists x | x in whens :: Value(x, env) == v)
  }

  function WhensOf(es: set<Effect>, target: nat, implied: bool): set<Expr> {
    set e | e in es && AddsTo(e, target, implied) :: e.when
  }

  lemma OneMoreMaximum(v: Tristate, whens: set<Expr>, before: Option<Expr>, x: Expr, env: Env)
    requires v == SymbolSpec.ValueOrNo(before, env) && IsMaximum(v, whens, env)
    ensures IsMaximum(SymbolSpec.ValueOrNo(OrOpt(before, x), env), whens + {x}, env)
  {
    var w := SymbolSpec.ValueOrNo(OrOpt(before, x), env);
    assert w == Or3(v, Value(x, env));
    if w == Value(x, env) {
      assert x in whens + {x};
    } else if v != NO {
      var y :| y in whens && Value(y, env) == v;
      assert y in whens + {x};
    }
  }

  lemma {:induction false} DepIsMaximum(es: seq<Effect>, target: nat, implied: bool, env: Env)
    ensures IsMaximum(SymbolSpec.ValueOrNo(DepOf(es, target, implied), env), WhensOf(Asks(es), target, implied), env)
  {
    if es != [] {
      var before, e := es[..|es| - 1], es[|es| - 1];
      var dep, whens := DepOf(before, target, implied), WhensOf(Asks(before), target, implied);
      DepIsMaximum(before, target, implied, env);
      assert es == before + [e];
      AsksJoin(before, [e]);
      if AddsTo(e, target, implied) {
        OneMoreMaximum(SymbolSpec.ValueOrNo(dep, env), whens, dep, e.when, env);
        assert WhensOf(Asks(es), target, implied) == whens + {e.when};
      } else {
        assert WhensOf(Asks(es), target, implied) == whens;
      }
    }
  }

  /** The condition of a select or imply: the minimum of the symbol and of the condition of the property. */
  lemma WhenSetMeans(selector: Symbol, cond: Option<Expr>, env: Env)
    ensures Value(WhenSet(selector, cond), env) == And3(TriOf(selector, env), ValueOpt(cond, env))
  {
  }

  /** What an entry asks for: its selects and implies, and m for a choice that is not optional, where it is visible. */
  lemma {:induction false} RequestsOf(sym: Option<Symbol>, ps: seq<Prop>, e: Effect)
    ensures e in PropEffects(sym, ps) <==> exists n | 0 <= n < |ps| :: e in PropEffect(sym, ps[n])
  {
    if ps != [] {
      RequestsOf(sym, ps[1..], e);
      if n :| 0 <= n < |ps| && e in PropEffect(sym, ps[n]) {
        if n > 0 { assert ps[1..][n - 1] == ps[n]; }
      }
    }
  }

  /**
   After menu_finalize rev_dep of every symbol is the maximum, over all entries
   that select it, of what they select it to; and implied likewise. The
   conditions are those that the entries have inherited.
   */
  lemma SelectsAreMeant(root: Forest, rules: Rules, target: nat, implied: bool, env: Env)
    requires root.Cons? && root.rest.Nil?
    ensures var es := AfterFinalize(root, rules, []);
      var asked := Asks(Forced(root.data)) + WantsAll(Inherited(root.kids, HandsDown(root.data), rules));
      IsMaximum(SymbolSpec.ValueOrNo(DepOf(es, target, implied), env), WhensOf(asked, target, implied), env)
  {
    var es := AfterFinalize(root, rules, []);
    FinalizeAsks(root, rules, []);
    assert Finalize(root, rules, []).rest.Nil? && Asks([]) == {};
    assert Asks(es) == Asks(Forced(root.data)) + WantsAll(Inherited(root.kids, HandsDown(root.data), rules));
    DepIsMaximum(es, target, implied, env);
  }
}

/** rev_dep and implied in terms of the conditions as they are written. */
module MenuRequests {
  import opened Tristates
  import opened Exprs
  import opened Transforms
  import EliminateDups
  import opened MenuTree
  import opened MenuSpec
  import opened MenuConditions
  import opened MenuEffects
  import SymbolSpec

  /** What a property asks of the target, if its condition has the value c. */
  function PropAsk(sym: Option<Symbol>, p: Prop, c: Tristate, target: nat, implied: bool, env: Env): Tristate {
    if sym.None? then NO
    else match p.kind
      case SelectProp(t) => if !implied && t == target then And3(TriOf(sym.value, env), c) else NO
      case ImplyProp(t) => if implied && t == target then And3(TriOf(sym.value, env), c) else NO
      case _ => NO
  }

  /** What an entry asks, once it has inherited its conditions. */
  function PropsAsk(sym: Option<Symbol>, ps: seq<Prop>, target: nat, implied: bool, env: Env): Tristate {
    if ps == [] then NO
    else
      Or3(PropAsk(sym, ps[0], ValueOpt(ps[0].cond, env), target, implied, env),
          PropsAsk(sym, ps[1..], target, implied, env))
  }

  /** A choice that is not optional asks m of itself where its prompt is visible as c. */
  function ForcedAsk(d: MenuData, c: Tristate, target: nat, implied: bool): Tristate {
    if d.sym.None? || d.isOptional || d.prompt.None? || implied || d.sym.value.id != target then NO else And3(c, MOD)
  }

  function PromptValue(d: MenuData, env: Env): Tristate {
    if d.prompt.None? then NO else ValueOpt(d.prompt.value.cond, env)
  }

  function EntryAsks(d: MenuData, target: nat, implied: bool, env: Env): Tristate {
    Or3(PropsAsk(d.sym, d.props, target, implied, env), ForcedAsk(d, PromptValue(d, env), target, implied))
  }

  function EntriesAsk(ds: seq<MenuData>, target: nat, implied: bool, env: Env): Tristate {
    if ds == [] then NO else Or3(EntryAsks(ds[0], target, implied, env), EntriesAsk(ds[1..], target, implied, env))
  }

  lemma MaximumJoin(v: Tristate, w: Tristate, a: set<Effect>, b: set<Effect>, target: nat, implied: bool, env: Env)
    requires IsMaximum(v, WhensOf(a, target, implied), env) && IsMaximum(w, WhensOf(b, target, implied), env)
    ensures IsMaximum(Or3(v, w), WhensOf(a + b, target, implied), env)
  {
    var x, y, z := WhensOf(a, target, implied), WhensOf(b, target, implied), WhensOf(a + b, target, implied);
    assert z == x + y;
    if Or3(v, w) != NO {
      if v > w {
        var e :| e in x && Value(e, env) == v;
        assert e in z;
      } else {
        var e :| e in y && Value(e, env) == w;
        assert e in z;
      }
    }
  }

  lemma OnlyMaximum(v: Tristate, w: Tristate, whens: set<Expr>, env: Env)
    requires IsMaximum(v, whens, env) && IsMaximum(w, whens, env)
    ensures v == w
  {
  }

  lemma PropMaximum(sym: Option<Symbol>, p: Prop, target: nat, implied: bool, env: Env)
    ensures IsMaximum(PropAsk(sym, p, ValueOpt(p.cond, env), target, implied, env),
                      WhensOf(Asks(PropEffect(sym, p)), target, implied), env)
  {
    var es := PropEffect(sym, p);
    if es != [] {
      assert Asks(es) == {es[0]};
      if AddsTo(es[0], target, implied) {
        WhenSetMeans(sym.value, p.cond, env);
        assert WhensOf(Asks(es), target, implied) == {es[0].when};
      } else {
        assert WhensOf(Asks(es), target, implied) == {};
      }
    } else {
      assert Asks(es) == {} && WhensOf({}, target, implied) == {};
    }
  }

  lemma {:induction false} PropsMaximum(sym: Option<Symbol>, ps: seq<Prop>, target: nat, implied: bool, env: Env)
    ensures IsMaximum(PropsAsk(sym, ps, target, implied, env), WhensOf(Asks(PropEffects(sym, ps)), target, implied),
      env)
  {
    if ps == [] {
      assert Asks([]) == {} && WhensOf({}, target, implied) == {};
    } else {
      var rest := PropEffects(sym, ps[1..]);
      PropMaximum(sym, ps[0], target, implied, env);
      PropsMaximum(sym, ps[1..], target, implied, env);
      AsksJoin(PropEffect(sym, ps[0]), rest);
      MaximumJoin(PropAsk(sym, ps[0], ValueOpt(ps[0].cond, env), target, implied, env),
                  PropsAsk(sym, ps[1..], target, implied, env), Asks(PropEffect(sym, ps[0])), Asks(rest), target,
                  implied, env);
    }
  }

  lemma ForcedMaximum(d: MenuData, target: nat, implied: bool, env: Env)
    ensures IsMaximum(ForcedAsk(d, PromptValue(d, env), target, implied), WhensOf(Asks(Forced(d)), target, implied),
      env)
  {
    var es := Forced(d);
    if es != [] {
      assert Asks(es) == {es[0]};
      if AddsTo(es[0], target, implied) {
        assert WhensOf(Asks(es), target, implied) == {es[0].when};
        assert TriOf(SYMBOL_MOD, env) == MOD;
      } else {
        assert WhensOf(Asks(es), target, implied) == {};
      }
    } else {
      assert Asks(es) == {} && WhensOf({}, target, implied) == {};
    }
  }

  lemma {:induction false} EntriesMaximum(ds: seq<MenuData>, target: nat, implied: bool, env: Env)
    ensures IsMaximum(EntriesAsk(ds, target, implied, env), WhensOf(WantsAll(ds), target, implied), env)
  {
    if ds == [] {
      assert WhensOf({}, target, implied) == {};
    } else {
      var d := ds[0];
      PropsMaximum(d.sym, d.props, target, implied, env);
      ForcedMaximum(d, target, implied, env);
      MaximumJoin(PropsAsk(d.sym, d.props, target, implied, env), ForcedAsk(d, PromptValue(d, env), target, implied),
                  Asks(Requests(d)), Asks(Forced(d)), target, implied, env);
      EntriesMaximum(ds[1..], target, implied, env);
      MaximumJoin(EntryAsks(d, target, implied, env), EntriesAsk(ds[1..], target, implied, env), Wants(d),
                  WantsAll(ds[1..]), target, implied, env);
    }
  }

  /** What an entry asks as it is written, if v is the value that its dependency is meant to have. */
  function AsksWritten(sym: Option<Symbol>, ps: seq<Prop>, v: Tristate, m: Symbol, target: nat, implied: bool, env: Env)
      : Tristate
  {
    if ps == [] then NO
    else
      Or3(PropAsk(sym, ps[0], And3(v, ValueMOpt(ps[0].cond, m, env)), target, implied, env),
          AsksWritten(sym, ps[1..], v, m, target, implied, env))
  }

  function ForcesWritten(d: MenuData, v: Tristate, m: Symbol, target: nat, implied: bool, env: Env): Tristate {
    if d.prompt.None? then NO
    else ForcedAsk(d, And3(v, ValueMOpt(d.prompt.value.cond, m, env)), target, implied)
  }

  /**
   What all entries of a file ask of the target: the maximum, over all selects
   (or implies) of it, of the minimum of the selecting symbol, the condition of
   the select, the dependency of the entry and all conditions around it; and m
   for a choice that is not optional, where it is visible.
   */
  function Asked(f: Forest, above: Tristate, m: Symbol, target: nat, implied: bool, env: Env): Tristate {
    if f.Nil? then NO
    else
      var v := And3(above, ValueMOpt(f.data.dep, m, env));
      var own := Or3(AsksWritten(f.data.sym, f.data.props, v, m, target, implied, env),
                     ForcesWritten(f.data, v, m, target, implied, env));
      Or3(Or3(own, Asked(f.kids, Bound(f.data, v, m, env), m, target, implied, env)),
          Asked(f.rest, above, m, target, implied, env))
  }

  /** The property selects (or implies) the target. */
  predicate AsksOf(p: Prop, target: nat, implied: bool) {
    if implied then p.kind == ImplyProp(target) else p.kind == SelectProp(target)
  }

  /** Only tristates select (or imply) the target. */
  predicate OnlyTristatesAsk(f: Forest, target: nat, implied: bool) {
    f.Cons? ==>
      && (f.data.sym.Some? && f.data.sym.value.typ != S_TRISTATE ==>
            forall n | 0 <= n < |f.data.props| :: !AsksOf(f.data.props[n], target, implied))
      && OnlyTristatesAsk(f.kids, target, implied) && OnlyTristatesAsk(f.rest, target, implied)
  }

  /** The same, or lowered from y to m, as a bool selects in a condition that has lost the difference. */
  predicate Near(v: Tristate, w: Tristate, exact: bool) {
    v <= w && (v == NO <==> w == NO) && (exact ==> v == w)
  }

  lemma {:induction false} PropsAreMeant(sym: Option<Symbol>, ps: seq<Prop>, dep: Option<Expr>, v: Tristate, m: Symbol,
                                         target: nat, implied: bool, exact: bool, env: Env)
    requires Proper(dep) && WfEnv(env) && v == ValueOpt(dep, env) && forall n | 0 <= n < |ps| :: Wf(ps[n].cond)
    requires exact && sym.Some? && sym.value.typ != S_TRISTATE ==>
      forall n | 0 <= n < |ps| :: !AsksOf(ps[n], target, implied)
    ensures Near(PropsAsk(sym, PropagateProps(ps, dep, sym, m), target, implied, env),
                 AsksWritten(sym, ps, v, m, target, implied, env), exact)
  {
    if ps != [] {
      PropCondIsMinimum(dep, ps[0].cond, sym, m, env);
      PropsAreMeant(sym, ps[1..], dep, v, m, target, implied, exact, env);
      assert PropagateProps(ps, dep, sym, m)[1..] == PropagateProps(ps[1..], dep, sym, m);
      assert exact && sym.Some? && sym.value.typ != S_TRISTATE ==> !AsksOf(ps[0], target, implied);
    }
  }

  lemma ForcedIsMeant(d: MenuData, above: Option<Expr>, v: Tristate, m: Symbol, target: nat, implied: bool, env: Env)
    requires WfData(d) && Proper(above) && WfEnv(env) && v == ValueOpt(Under(above, d.dep, m), env)
    ensures var r := Propagate(d, above, m);
      ForcedAsk(r, PromptValue(r, env), target, implied) == ForcesWritten(d, v, m, target, implied, env)
  {
    UnderIsMinimum(above, d.dep, m, env);
    if d.prompt.Some? { PropCondIsMinimum(Under(above, d.dep, m), d.prompt.value.cond, d.sym, m, env); }
  }

  lemma EntryIsMeant(d: MenuData, above: Option<Expr>, m: Symbol, target: nat, implied: bool, exact: bool, env: Env)
    requires WfData(d) && Proper(above) && WfEnv(env)
    requires exact && d.sym.Some? && d.sym.value.typ != S_TRISTATE ==>
      forall n | 0 <= n < |d.props| :: !AsksOf(d.props[n], target, implied)
    ensures var v := And3(ValueOpt(above, env), ValueMOpt(d.dep, m, env));
      Near(EntryAsks(Propagate(d, above, m), target, implied, env),
           Or3(AsksWritten(d.sym, d.props, v, m, target, implied, env),
               ForcesWritten(d, v, m, target, implied, env)), exact)
  {
    var v := And3(ValueOpt(above, env), ValueMOpt(d.dep, m, env));
    UnderIsMinimum(above, d.dep, m, env);
    PropsAreMeant(d.sym, d.props, Under(above, d.dep, m), v, m, target, implied, exact, env);
    ForcedIsMeant(d, above, v, m, target, implied, env);
  }

  lemma {:induction false} EntriesJoin(a: seq<MenuData>, b: seq<MenuData>, target: nat, implied: bool, env: Env)
    ensures EntriesAsk(a + b, target, implied, env) ==
            Or3(EntriesAsk(a, target, implied, env), EntriesAsk(b, target, implied, env))
  {
    if a == [] {
      assert a + b == b;
    } else {
      EntriesJoin(a[1..], b, target, implied, env);
      assert (a + b)[1..] == a[1..] + b;
    }
  }

  lemma EntriesJoinThree(d: MenuData, a: seq<MenuData>, b: seq<MenuData>, target: nat, implied: bool, env: Env)
    ensures EntriesAsk([d] + a + b, target, implied, env) ==
            Or3(Or3(EntryAsks(d, target, implied, env), EntriesAsk(a, target, implied, env)),
                EntriesAsk(b, target, implied, env))
  {
    EntriesJoin([d] + a, b, target, implied, env);
    EntriesJoin([d], a, target, implied, env);
    assert [d][1..] == [];
  }

  lemma NearJoin(a: Tristate, b: Tristate, c: Tristate, x: Tristate, y: Tristate, z: Tristate, exact: bool)
    requires Near(a, x, exact) && Near(b, y, exact) && Near(c, z, exact)
    ensures Near(Or3(Or3(a, b), c), Or3(Or3(x, y), z), exact)
  {
  }

  lemma {:induction false} AskedIsMeant(f: Forest, above: Option<Expr>, m: Symbol, target: nat, implied: bool,
                                        exact: bool, env: Env)
    requires WfForest(f) && Grammatical(f) && Proper(above) && WfEnv(env)
    requires exact ==> OnlyTristatesAsk(f, target, implied)
    ensures Near(EntriesAsk(Inherited(f, above, RulesOf(m)), target, implied, env),
                 Asked(f, ValueOpt(above, env), m, target, implied, env), exact)
  {
    if f.Cons? {
      var rules, d := RulesOf(m), Propagate(f.data, above, m);
      var v := And3(ValueOpt(above, env), ValueMOpt(f.data.dep, m, env));
      var below, rest := Inherited(f.kids, HandsDown(d), rules), Inherited(f.rest, above, rules);
      HandedDown(f.data, above, m, env);
      EntryIsMeant(f.data, above, m, target, implied, exact, env);
      AskedIsMeant(f.rest, above, m, target, implied, exact, env);
      AskedIsMeant(f.kids, HandsDown(d), m, target, implied, exact, env);
      EntriesJoinThree(d, below, rest, target, implied, env);
      if f.kids.Nil? { assert below == []; }
      var own := Or3(AsksWritten(f.data.sym, f.data.props, v, m, target, implied, env),
                     ForcesWritten(f.data, v, m, target, implied, env));
      NearJoin(EntryAsks(d, target, implied, env), EntriesAsk(below, target, implied, env),
               EntriesAsk(rest, target, implied, env),
               own, Asked(f.kids, Bound(f.data, v, m, env), m, target, implied, env),
               Asked(f.rest, ValueOpt(above, env), m, target, implied, env), exact);
    }
  }

  /**
   After menu_finalize rev_dep of every symbol is what the file asks of it, and
   implied likewise: it is n exactly if nothing asks for more, it is never
   more, and it is the same if only tristates ask. (A select by a bool loses
   the difference of m and y in its conditions.)
   */
  lemma RequestsAreMeant(root: Forest, m: Symbol, target: nat, implied: bool, env: Env)
    requires Written(root) && WfEnv(env)
    ensures var es := AfterFinalize(root, RulesOf(m), []);
      var meant := Or3(ForcedAsk(root.data, PromptValue(root.data, env), target, implied),
                       Asked(root.kids, ValueOpt(HandsDown(root.data), env), m, target, implied, env));
      Near(SymbolSpec.ValueOrNo(DepOf(es, target, implied), env), meant, OnlyTristatesAsk(root.kids, target, implied))
  {
    var rules, above := RulesOf(m), HandsDown(root.data);
    var es, ds := AfterFinalize(root, rules, []), Inherited(root.kids, above, rules);
    var forced := ForcedAsk(root.data, PromptValue(root.data, env), target, implied);
    SelectsAreMeant(root, rules, target, implied, env);
    ForcedMaximum(root.data, target, implied, env);
    EntriesMaximum(ds, target, implied, env);
    MaximumJoin(forced, EntriesAsk(ds, target, implied, env), Asks(Forced(root.data)), WantsAll(ds), target, implied,
      env);
    OnlyMaximum(SymbolSpec.ValueOrNo(DepOf(es, target, implied), env),
      Or3(forced, EntriesAsk(ds, target, implied, env)),
                WhensOf(Asks(Forced(root.data)) + WantsAll(ds), target, implied), env);
    AskedIsMeant(root.kids, above, m, target, implied, OnlyTristatesAsk(root.kids, target, implied), env);
  }

  /** Where a bool selects if M != n, and M is m: what is meant is y, but what is selected is m. */
  lemma BoolSelectsLess(sym: Symbol, mod: Symbol, target: nat, m: Symbol, env: Env)
    requires sym.typ == S_BOOLEAN && mod.typ == S_TRISTATE && WfEnv(env) && env.tri(sym) == YES && env.tri(mod) == MOD
    ensures var p := Prop(SelectProp(target), Some(Cmp(UNEQUAL, mod, SYMBOL_NO)));
      && PropsAsk(Some(sym), PropagateProps([p], None, Some(sym), m), target, false, env) == MOD
      && AsksWritten(Some(sym), [p], YES, m, target, false, env) == YES
  {
    var e := Cmp(UNEQUAL, mod, SYMBOL_NO);
    var p := Prop(SelectProp(target), Some(e));
    assert RewriteM(e, m) == e && Transform(e) == e && EliminateDups.EliminateDups(e) == e;
    assert PropCond(None, Some(e), Some(sym), m) == Some(Sym(mod));
    assert PropagateProps([p], None, Some(sym), m) == [p.(cond := Some(Sym(mod)))] by { assert [p][1..] == []; }
    assert [p][1..] == [] && [p.(cond := Some(Sym(mod)))][1..] == [];
    CompareTri(UNEQUAL, mod, SYMBOL_NO, env);
  }
}

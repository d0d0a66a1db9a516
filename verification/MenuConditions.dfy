/** What the conditions that menu_finalize propagates mean. */
module MenuConditions {
  import opened Tristates
  import opened Exprs
  import opened Transforms
  import opened EliminateDups
  import opened DupsNormalForm
  import opened Submenus
  import opened MenuTree
  import opened MenuSpec
  import opened MenuInheritance
  import opened MenuClaims
  import opened MenuValues

  /** The value of a condition as it is written: a bare m counts as m only with modules. */
  function ValueM(e: Expr, modulesSym: Symbol, env: Env): Tristate {
    match e
    case Sym(s) => if s == SYMBOL_MOD then And3(MOD, TriOf(modulesSym, env)) else TriOf(s, env)
    case Not(c) => Not3(ValueM(c, modulesSym, env))
    case Bin(op, l, r) => op.Apply(ValueM(l, modulesSym, env), ValueM(r, modulesSym, env))
    case Cmp(_, _, _) => Value(e, env)
  }

  function ValueMOpt(e: Option<Expr>, modulesSym: Symbol, env: Env): Tristate {
    if e.None? then YES else ValueM(e.value, modulesSym, env)
  }

  lemma {:induction false} RewriteMValue(e: Expr, m: Symbol, env: Env)
    ensures Value(RewriteM(e, m), env) == ValueM(e, m, env)
  {
    match e
    case Not(c) => RewriteMValue(c, m, env);
    case Bin(_, l, r) => RewriteMValue(l, m, env); RewriteMValue(r, m, env);
    case _ =>
  }

  lemma {:induction false} RewriteMWf(e: Expr, m: Symbol)
    requires WfExpr(e)
    ensures WfExpr(RewriteM(e, m))
  {
    match e
    case Not(c) => RewriteMWf(c, m);
    case Bin(_, l, r) => RewriteMWf(l, m); RewriteMWf(r, m);
    case _ =>
  }

  predicate Wf(e: Option<Expr>) { e.Some? ==> WfExpr(e.value) }

  /** A condition that can be handed down: well-formed, negated at symbols only. */
  predicate Proper(e: Option<Expr>) { e.Some? ==> WfExpr(e.value) && Nnf(e.value) }

  /** A condition under another one: the minimum of the two. */
  lemma UnderIsMinimum(above: Option<Expr>, own: Option<Expr>, m: Symbol, env: Env)
    requires Proper(above) && Wf(own) && WfEnv(env)
    ensures Proper(Under(above, own, m))
    ensures ValueOpt(Under(above, own, m), env) == And3(ValueOpt(above, env), ValueMOpt(own, m, env))
  {
    var own2 := if own.None? then None else Some(Transform(RewriteM(own.value, m)));
    if own.Some? {
      var r := RewriteM(own.value, m);
      RewriteMWf(own.value, m);
      RewriteMValue(own.value, m, env);
      TransformWf(r);
      TransformKeepsValue(r, env);
      TransformIsNormal(r);
      NormalIsNnf(Transform(r));
    }
    var e := AndOpt(above, own2);
    if e.Some? {
      EliminateDupsKeepsValue(e.value, env);
      EliminateDupsKeepsNnf(e.value);
    }
  }

  /** The condition of a property: the minimum too, except that for symbols other than tristates y may become m. */
  lemma PropCondIsMinimum(dep: Option<Expr>, own: Option<Expr>, sym: Option<Symbol>, m: Symbol, env: Env)
    requires Proper(dep) && Wf(own) && WfEnv(env)
    ensures Proper(PropCond(dep, own, sym, m))
    ensures var v, w := ValueOpt(PropCond(dep, own, sym, m), env), And3(ValueOpt(dep, env), ValueMOpt(own, m, env));
      && (sym.None? || sym.value.typ == S_TRISTATE ==> v == w)
      && v <= w && (v == NO <==> w == NO)
  {
    UnderIsMinimum(dep, own, m, env);
    var e := Under(dep, own, m);
    if e.Some? {
      TransBoolKeepsVisibility(e.value, env);
      TransBoolKeepsForm(e.value);
    }
  }

  /** The conditions written in the file are well-formed. */
  predicate WfData(d: MenuData) {
    Wf(d.dep) && (d.prompt.Some? ==> Wf(d.prompt.value.cond)) && forall n | 0 <= n < |d.props| :: Wf(d.props[n].cond)
  }

  predicate WfForest(f: Forest) {
    f.Cons? ==> WfData(f.data) && WfForest(f.kids) && WfForest(f.rest)
  }

  /** What can contain other entries: a choice, a menu or an if, but no other symbol. */
  predicate Grammatical(f: Forest) {
    f.Cons? ==> (f.kids.Cons? ==> f.data.sym.None? || f.data.isChoice) && Grammatical(f.kids) && Grammatical(f.rest)
  }

  /** The value up to which an entry of dependency v lets its children be. */
  function Bound(d: MenuData, v: Tristate, m: Symbol, env: Env): Tristate {
    if d.sym.Some? && d.isChoice then TriOf(d.sym.value, env)
    else if d.prompt.Some? then And3(v, ValueMOpt(d.prompt.value.cond, m, env))
    else v
  }

  /**
   The dependencies of all entries, in preorder, as the file means them: the
   minimum of the entry's own condition and those of all enclosing menus and
   ifs, up to the closest choice, which contributes its symbol.
   */
  function Meant(f: Forest, above: Tristate, m: Symbol, env: Env): seq<Tristate> {
    if f.Nil? then []
    else
      var v := And3(above, ValueMOpt(f.data.dep, m, env));
      [v] + Meant(f.kids, Bound(f.data, v, m, env), m, env) + Meant(f.rest, above, m, env)
  }

  function Dependencies(ds: seq<MenuData>, env: Env): (vs: seq<Tristate>)
    ensures |vs| == |ds| && forall n | 0 <= n < |ds| :: vs[n] == ValueOpt(ds[n].dep, env)
  {
    seq(|ds|, n requires 0 <= n < |ds| => ValueOpt(ds[n].dep, env))
  }

  lemma HandedDown(d: MenuData, above: Option<Expr>, m: Symbol, env: Env)
    requires WfData(d) && Proper(above) && WfEnv(env)
    ensures var r := Propagate(d, above, m);
      var v := And3(ValueOpt(above, env), ValueMOpt(d.dep, m, env));
      && ValueOpt(r.dep, env) == v && Proper(HandsDown(r))
      && (d.sym.None? || d.isChoice ==> ValueOpt(HandsDown(r), env) == Bound(d, v, m, env))
  {
    UnderIsMinimum(above, d.dep, m, env);
    if d.prompt.Some? { PropCondIsMinimum(Under(above, d.dep, m), d.prompt.value.cond, d.sym, m, env); }
  }

  lemma DependenciesJoin(d: MenuData, a: seq<MenuData>, b: seq<MenuData>, env: Env)
    ensures Dependencies([d] + a + b, env) == [ValueOpt(d.dep, env)] + Dependencies(a, env) + Dependencies(b, env)
  {
  }

  /** What the entries inherit is what the file means. */
  lemma {:induction false} InheritedIsMeant(f: Forest, above: Option<Expr>, m: Symbol, env: Env)
    requires WfForest(f) && Grammatical(f) && Proper(above) && WfEnv(env)
    ensures Dependencies(Inherited(f, above, RulesOf(m)), env) == Meant(f, ValueOpt(above, env), m, env)
  {
    if f.Cons? {
      var rules := RulesOf(m);
      var d := Propagate(f.data, above, m);
      HandedDown(f.data, above, m, env);
      InheritedIsMeant(f.rest, above, m, env);
      InheritedIsMeant(f.kids, HandsDown(d), m, env);
      if f.kids.Nil? { assert Meant(f.kids, Bound(f.data, ValueOpt(d.dep, env), m, env), m, env) == []; }
      DependenciesJoin(d, Inherited(f.kids, HandsDown(d), rules), Inherited(f.rest, above, rules), env);
    }
  }

  /** An entry that is a value of a tristate choice, but no tristate, needs the choice to be y. */
  predicate IsStrict(d: MenuData) { d.choice.Some? && NeedsYes(d, d.choice.value) }

  /** The value that a condition of the entry has, if without the choice it is v. */
  function Limit(d: MenuData, v: Tristate, env: Env): Tristate {
    if IsStrict(d) then And3(v, Truth(TriOf(d.choice.value, env) == YES)) else v
  }

  lemma StrictMeans(choice: Symbol, cond: Option<Expr>, env: Env)
    requires WfEnv(env) && choice.IsTri()
    ensures ValueOpt(Strict(choice, cond), env) == And3(ValueOpt(cond, env), Truth(TriOf(choice, env) == YES))
  {
    IsYes(choice, env);
    var cmp := Cmp(EQUAL, choice, SYMBOL_YES);
    assert Strict(choice, cond) == Some(if cond.None? then cmp else Bin(AND, cmp, cond.value));
    assert cond.Some? ==> Value(Bin(AND, cmp, cond.value), env) == And3(Value(cmp, env), Value(cond.value, env));
  }

  lemma IsYes(s: Symbol, env: Env)
    requires WfEnv(env) && s.IsTri()
    ensures Value(Cmp(EQUAL, s, SYMBOL_YES), env) == Truth(TriOf(s, env) == YES)
  {
    CompareTri(EQUAL, s, SYMBOL_YES, env);
    assert "n"[0] != 'y' && "m"[0] != 'y';
  }

  lemma {:induction false} StrictPropsMean(choice: Symbol, ps: seq<Prop>, n: nat, env: Env)
    requires WfEnv(env) && choice.IsTri() && n < |ps|
    ensures StrictProps(choice, ps)[n].kind == ps[n].kind
    ensures ValueOpt(StrictProps(choice, ps)[n].cond, env) ==
      And3(ValueOpt(ps[n].cond, env), Truth(TriOf(choice, env) == YES))
  {
    StrictMeans(choice, ps[0].cond, env);
    if n > 0 { StrictPropsMean(choice, ps[1..], n - 1, env); }
  }

  /** What has been made of an entry: all its conditions are limited alike. */
  lemma MadeMeans(d: MenuData, i: MenuData, es: seq<Effect>, env: Env)
    requires Made(d, i, es) && WfEnv(env)
    ensures ValueOpt(d.dep, env) == Limit(d, ValueOpt(i.dep, env), env)
    ensures d.prompt.Some? == i.prompt.Some?
    ensures d.prompt.Some? ==> ValueOpt(d.prompt.value.cond, env) == Limit(d, ValueOpt(i.prompt.value.cond, env), env)
    ensures |d.props| == |i.props|
    ensures forall n | 0 <= n < |d.props| ::
      ValueOpt(d.props[n].cond, env) == Limit(d, ValueOpt(i.props[n].cond, env), env)
  {
    if IsStrict(d) {
      var c := d.choice.value;
      StrictMeans(c, i.dep, env);
      if i.prompt.Some? { StrictMeans(c, i.prompt.value.cond, env); }
      forall n | 0 <= n < |d.props| ensures ValueOpt(d.props[n].cond, env) ==
        Limit(d, ValueOpt(i.props[n].cond, env), env) {
        StrictPropsMean(c, i.props, n, env);
      }
    }
  }

  /** The forest that menu_finalize is called on: written in a file, and not yet worked on. */
  predicate Written(root: Forest) {
    && root.Cons? && root.rest.Nil? && root.data.choice.None? && Fresh(Datas(root.kids))
    && WfForest(root.kids) && Grammatical(root.kids) && Proper(HandsDown(root.data))
  }

  /**
   After menu_finalize every entry, wherever it has been moved, depends on the
   minimum of its own condition and those of all entries that enclosed it; and
   on its choice being y, if that is a tristate and the entry is not.
   */
  lemma DependenciesAreMeant(root: Forest, m: Symbol, es: seq<Effect>, env: Env)
    requires Written(root) && WfEnv(env)
    ensures var ds, meant := Datas(Finalize(root, RulesOf(m), es).kids),
      Meant(root.kids, ValueOpt(HandsDown(root.data), env), m, env);
      && |ds| == |meant|
      && forall n | 0 <= n < |ds| :: ValueOpt(ds[n].dep, env) == Limit(ds[n], meant[n], env)
  {
    var rules := RulesOf(m);
    var ds, inherited := Datas(Finalize(root, rules, es).kids), Inherited(root.kids, HandsDown(root.data), rules);
    RulesKeepKind(m);
    FreshStays(root.kids, HandsDown(root.data), rules);
    RootInherits(root, rules, es);
    InheritedIsMeant(root.kids, HandsDown(root.data), m, env);
    forall n | 0 <= n < |ds|
      ensures ValueOpt(ds[n].dep, env) ==
        Limit(ds[n], Meant(root.kids, ValueOpt(HandsDown(root.data), env), m, env)[n], env)
    {
      MadeMeans(ds[n], inherited[n], AfterFinalize(root, rules, es), env);
      assert Dependencies(inherited, env)[n] == ValueOpt(inherited[n].dep, env);
    }
  }

  /** The plain minimum is still the value exactly unless the choice, which is not y, takes something away. */
  lemma PlainMinimumIff(root: Forest, m: Symbol, es: seq<Effect>, env: Env, n: nat)
    requires Written(root) && WfEnv(env) && n < |Datas(Finalize(root, RulesOf(m), es).kids)|
    ensures var d := Datas(Finalize(root, RulesOf(m), es).kids)[n];
      var meant := Meant(root.kids, ValueOpt(HandsDown(root.data), env), m, env);
      n < |meant| && (ValueOpt(d.dep, env) == meant[n] <==>
        !(IsStrict(d) && TriOf(d.choice.value, env) != YES && meant[n] != NO))
  {
    DependenciesAreMeant(root, m, es, env);
  }

  /**
   The same from what is written, for an entry that stands directly in the
   choice c and does not go into a submenu there, and is the only one for its
   symbol: the plain minimum is the value exactly unless c is a tristate that
   is not y, the entry is none, and the minimum is not n.
   */
  lemma WrittenMinimumIff(root: Forest, m: Symbol, es: seq<Effect>, env: Env, n: nat, c: Symbol, a: Symbol)
    requires Written(root) && WfEnv(env) && root.data.sym != Some(a)
    requires Sought(Datas(root.kids), n, a, es) && StandsIn(root, n + 1, c, RulesOf(m))
    ensures var ds := Datas(Finalize(root, RulesOf(m), es).kids);
      var meant := Meant(root.kids, ValueOpt(HandsDown(root.data), env), m, env);
      n < |ds| == |meant| && (ValueOpt(ds[n].dep, env) == meant[n] <==>
        !(c.typ == S_TRISTATE && a.typ != S_TRISTATE && TriOf(c, env) != YES && meant[n] != NO))
  {
    RulesKeepKind(m);
    WrittenValue(root, RulesOf(m), es, n, c, a);
    DependenciesAreMeant(root, m, es, env);
  }

  /** A menu with a tristate choice that holds one bool, all without conditions of their own. */
  function OneBool(root: Menu, choice: Menu, value: Menu, c: Symbol, a: Symbol): Forest {
    var prompt := Some(Prompt(true, None));
    Cons(root, MenuData(None, false, false, None, None, [], None),
      Cons(choice, MenuData(Some(c), true, true, prompt, None, [], None),
        Cons(value, MenuData(Some(a), false, true, prompt, None, [], None), Nil, Nil),
        Nil),
      Nil)
  }

  /** The bool is n while the choice is m, although all that encloses it is m. */
  lemma PlainMinimumFails(root: Menu, choice: Menu, value: Menu, c: Symbol, a: Symbol, m: Symbol, env: Env)
    requires c.typ == S_TRISTATE && a.typ == S_BOOLEAN && WfEnv(env) && env.tri(c) == MOD
    ensures var f := OneBool(root, choice, value, c, a);
      && Written(f)
      && Dependencies(Datas(Finalize(f, RulesOf(m), []).kids), env) == [YES, NO]
      && Meant(f.kids, YES, m, env) == [YES, MOD]
  {
    var f, rules := OneBool(root, choice, value, c, a), RulesOf(m);
    var g := Finalize(f, rules, []);
    OneBoolIsClaimed(root, choice, value, c, a, m);
    OneBoolIsMeant(root, choice, value, c, a, m, env);
    DependenciesAreMeant(f, m, [], env);
    assert Dependencies(Datas(g.kids), env) == [YES, NO];
  }

  lemma OneBoolIsMeant(root: Menu, choice: Menu, value: Menu, c: Symbol, a: Symbol, m: Symbol, env: Env)
    requires c.typ == S_TRISTATE && WfEnv(env) && env.tri(c) == MOD
    ensures var f := OneBool(root, choice, value, c, a);
      Written(f) && HandsDown(f.data) == None && Meant(f.kids, YES, m, env) == [YES, MOD]
  {
    var f := OneBool(root, choice, value, c, a);
    var low := f.kids.kids;
    assert Datas(Nil) == [];
    assert Datas(low) == [low.data] + [] + [];
    assert Datas(f.kids) == [f.kids.data] + Datas(low) + [];
    assert WfForest(low) && Grammatical(low);
    assert Meant(low, MOD, m, env) == [MOD] + [] + [];
    assert Meant(f.kids, YES, m, env) == [YES] + [MOD] + [];
  }

  lemma OneBoolIsClaimed(root: Menu, choice: Menu, value: Menu, c: Symbol, a: Symbol, m: Symbol)
    requires c.typ == S_TRISTATE && a.typ == S_BOOLEAN
    ensures var ds := Datas(Finalize(OneBool(root, choice, value, c, a), RulesOf(m), []).kids);
      |ds| == 2 && ds[0].choice.None? && ds[1].choice == Some(c) && ds[1].sym == Some(a)
  {
    var f, rules := OneBool(root, choice, value, c, a), RulesOf(m);
    var kids := PropagateAll(f.kids, None, rules);
    var es := AfterPropagate(f.kids, None, rules, []);
    assert kids == Cons(choice, Propagate(f.kids.data, None, m), f.kids.kids, Nil);
    OneRequest(f.kids, None, rules, []);
    assert Requests(kids.data) == [];
    OneValueIsClaimed(kids, value, rules, es, a);
    var g := Finalize(kids, rules, es);
    assert FinalizeAll(kids, rules, es) == Cons(g.node, g.data, g.kids, Nil);
    assert Flatten(FinalizeAll(kids, rules, es)) == FinalizeAll(kids, rules, es);
    assert Datas(g.kids) == [g.kids.data] + [] + [];
  }

  /** A choice with one value. */
  lemma OneValueIsClaimed(f: Forest, value: Menu, rules: Rules, es: seq<Effect>, a: Symbol)
    requires f.Cons? && f.rest.Nil? && f.data.isChoice && f.data.sym.Some? && KeepsKind(rules) && !Claimed(es, a)
    requires f.kids.Cons? && f.kids.kids.Nil? && f.kids.rest.Nil? && f.kids.data.sym == Some(a)
    requires rules.inherit(f.kids.data, HandsDown(f.data)).sym == Some(a)
    ensures var g := Finalize(f, rules, es);
      g.kids.Cons? && g.kids.kids.Nil? && g.kids.rest.Nil? && g.kids.data.choice == f.data.sym &&
        g.kids.data.sym == Some(a)
  {
    var kids, es1 := PropagateAll(f.kids, HandsDown(f.data), rules),
      AfterPropagate(f.kids, HandsDown(f.data), rules, es);
    assert kids.data.sym == Some(a) && kids.rest.Nil? && kids.kids.Nil?;
    assert Finalize(kids, rules, es1) == kids;
    OneRequest(f.kids, HandsDown(f.data), rules, es);
    RequestsNoClaims(kids.data.sym, kids.data.props);
    StillUnclaimed(es, Requests(kids.data), a);
    StillUnclaimed(es1, Forced(kids.data), a);
    assert AfterAll(kids, rules, es1) == es1 + Forced(kids.data);
    assert FinalizeAll(kids, rules, es1) == kids && Flatten(kids) == kids;
  }

  lemma OneRequest(f: Forest, above: Option<Expr>, rules: Rules, es: seq<Effect>)
    requires f.Cons? && f.rest.Nil?
    ensures AfterPropagate(f, above, rules, es) == es + Requests(rules.inherit(f.data, above))
  {
    assert AfterPropagate(f.rest, above, rules, es + Requests(rules.inherit(f.data, above))) ==
      es + Requests(rules.inherit(f.data, above));
  }

  /** The entries of a list all belong to the symbol. */
  predicate AllBelong(f: Forest, sym: Symbol, parent: MenuData, rules: Rules) {
    f.Cons? ==> rules.belongs(sym, parent, f.data) && AllBelong(f.rest, sym, parent, rules)
  }

  /** An automatic submenu takes exactly the consecutive entries that belong to the symbol. */
  lemma {:induction false} SubmenuIsMaximal(sym: Symbol, parent: MenuData, f: Forest, rules: Rules, es: seq<Effect>)
    ensures var r := Absorb(sym, parent, f, rules, es);
      AllBelong(r.0, sym, parent, rules) && (r.1.Cons? ==> !rules.belongs(sym, parent, r.1.data))
    decreases f.Size()
  {
    if f.Cons? && rules.belongs(sym, parent, f.data) {
      SubmenuIsMaximal(sym, parent, Finalize(f, rules, es).rest, rules, AfterFinalize(f, rules, es));
    }
  }
}

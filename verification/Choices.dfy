/**
 Choices: sym_calc_value for a choice and its values, with sym_calc_choice and
 sym_choice_default. The symbols outside the choice have fixed values here.
 */
module Choices {
  import opened Tristates
  import opened Exprs
  import opened SymbolSpec

  /** A value of a choice, as the Kconfig files declare it; it has no defaults of its own. */
  datatype Member = Member(sym: Symbol, prompts: seq<Option<Expr>>)

  /** A default of a choice: its condition, and the value it names. */
  datatype ChoiceDefault = ChoiceDefault(cond: Option<Expr>, member: nat)

  datatype ChoiceDecl = ChoiceDecl(sym: Symbol, prompts: seq<Option<Expr>>, revDep: Option<Expr>,
                                   members: seq<Member>, defaults: seq<ChoiceDefault>)

  /** def[S_DEF_USER] of the choice: its tristate, and the value chosen. */
  datatype ChoiceUser = ChoiceUser(isSet: bool, tri: Tristate, chosen: Option<nat>)

  /** The value of the choice: its tristate, and the value chosen. */
  datatype ChoiceState = ChoiceState(tri: Tristate, chosen: Option<nat>)

  /** The values of the symbols, with the value of the choice symbol among them. */
  function With(env: Env, s: Symbol, t: Tristate): Env {
    Env(Override(env.tri, s, t), env.text, env.modules)
  }

  function Override(tri: Symbol -> Tristate, s: Symbol, t: Tristate): Symbol -> Tristate {
    x => if x == s then t else tri(x)
  }

  /** One prompt of a value: a tristate visible as m is not visible in a choice that is y. */
  function MemberPrompt(m: Member, p: Option<Expr>, choice: Tristate, env: Env): Tristate {
    var v := ValueOpt(p, env);
    if m.sym.typ == S_TRISTATE && v == MOD && choice == YES then NO else v
  }

  /** Any prompt of the value from number n on. */
  function AnyMemberPrompt(m: Member, n: nat, choice: Tristate, env: Env): Tristate
    requires n <= |m.prompts|
    decreases |m.prompts| - n
  {
    if n == |m.prompts| then NO
    else Or3(MemberPrompt(m, m.prompts[n], choice, env), AnyMemberPrompt(m, n + 1, choice, env))
  }

  /** sym_calc_visibility for a choice value. */
  function MemberVisible(d: ChoiceDecl, i: nat, choice: Tristate, env: Env): Tristate
    requires i < |d.members|
  {
    var m := d.members[i];
    Promote(AnyMemberPrompt(m, 0, choice, With(env, d.sym, choice)), m.sym.typ != S_TRISTATE || !env.modules)
  }

  /** The condition of default n holds and the value it names is visible. */
  predicate Applies(d: ChoiceDecl, n: nat, choice: Tristate, env: Env)
    requires n < |d.defaults| && MembersNamed(d)
  {
    ValueOpt(d.defaults[n].cond, With(env, d.sym, choice)) != NO &&
      MemberVisible(d, d.defaults[n].member, choice, env) != NO
  }

  /** The first default that applies. */
  function DefaultFrom(d: ChoiceDecl, n: nat, choice: Tristate, env: Env): (r: Option<nat>)
    requires n <= |d.defaults| && MembersNamed(d)
    ensures r.Some? ==> r.value < |d.members| && MemberVisible(d, r.value, choice, env) != NO
    ensures r.Some? ==> exists k | n <= k < |d.defaults| ::
      && Applies(d, k, choice, env) && r.value == d.defaults[k].member
      && forall j | n <= j < k :: !Applies(d, j, choice, env)
    ensures r.None? ==> forall k | n <= k < |d.defaults| :: !Applies(d, k, choice, env)
    decreases |d.defaults| - n
  {
    if n == |d.defaults| then None
    else if Applies(d, n, choice, env) then Some(d.defaults[n].member)
    else DefaultFrom(d, n + 1, choice, env)
  }

  function FirstVisible(d: ChoiceDecl, n: nat, choice: Tristate, env: Env): (r: Option<nat>)
    requires n <= |d.members|
    ensures r.Some? ==> n <= r.value < |d.members| && MemberVisible(d, r.value, choice, env) != NO
    ensures r.Some? ==> forall j | n <= j < r.value :: MemberVisible(d, j, choice, env) == NO
    ensures r.None? ==> forall j | n <= j < |d.members| :: MemberVisible(d, j, choice, env) == NO
    decreases |d.members| - n
  {
    if n == |d.members| then None
    else if MemberVisible(d, n, choice, env) != NO then Some(n)
    else FirstVisible(d, n + 1, choice, env)
  }

  /** Choice defaults are values of the choice. */
  predicate MembersNamed(d: ChoiceDecl) {
    forall n | 0 <= n < |d.defaults| :: d.defaults[n].member < |d.members|
  }

  /** sym_choice_default. */
  function ChoiceDefaultOf(d: ChoiceDecl, choice: Tristate, env: Env): (r: Option<nat>)
    requires MembersNamed(d)
  {
    var dflt := DefaultFrom(d, 0, choice, env);
    if dflt.Some? then dflt else FirstVisible(d, 0, choice, env)
  }

  /** sym_calc_choice: the user's choice if it is visible, else a default. */
  function Chosen(d: ChoiceDecl, user: ChoiceUser, choice: Tristate, env: Env): (r: Option<nat>)
    requires MembersNamed(d)
  {
    if user.chosen.Some? && user.chosen.value < |d.members| && MemberVisible(d, user.chosen.value, choice, env) != NO
      then user.chosen
    else ChoiceDefaultOf(d, choice, env)
  }

  function ChoiceVisible(d: ChoiceDecl, env: Env): Tristate {
    Promote(AnyPrompt(d.prompts, env), d.sym.typ != S_TRISTATE || !env.modules)
  }

  function ChoiceRev(d: ChoiceDecl, env: Env): Tristate {
    Promote(ValueOrNo(d.revDep, env), BoolType(d.sym, env.modules))
  }

  /** The tristate of the choice before a value is chosen. */
  function ChoiceTri(d: ChoiceDecl, user: ChoiceUser, env: Env): Tristate {
    var visible := ChoiceVisible(d, env);
    var asked := if visible != NO && user.isSet then And3(user.tri, visible) else NO;
    Promote(Or3(asked, ChoiceRev(d, env)), BoolType(d.sym, env.modules))
  }

  /** sym_tristate_within_range for a choice. */
  predicate ChoiceInRange(d: ChoiceDecl, val: Tristate, env: Env) {
    && ChoiceVisible(d, env) != NO
    && (d.sym.typ == S_BOOLEAN || d.sym.typ == S_TRISTATE)
    && !(BoolType(d.sym, env.modules) && val == MOD)
    && ChoiceVisible(d, env) > ChoiceRev(d, env)
    && ChoiceRev(d, env) <= val <= ChoiceVisible(d, env)
  }

  /** sym_calc_value for the choice: one that is y but has no visible value becomes n. */
  function Choose(d: ChoiceDecl, user: ChoiceUser, env: Env): ChoiceState
    requires MembersNamed(d)
  {
    var tri := ChoiceTri(d, user, env);
    if tri != YES then ChoiceState(tri, None)
    else
      var chosen := Chosen(d, user, tri, env);
      ChoiceState(if chosen.None? then NO else tri, chosen)
  }

  /** sym_calc_value for a value of the choice. */
  function MemberTri(d: ChoiceDecl, s: ChoiceState, i: nat, user: User, env: Env): Tristate
    requires i < |d.members|
  {
    var visible := MemberVisible(d, i, s.tri, env);
    if visible == YES then Truth(s.chosen == Some(i))
    else if visible != NO && user.isSet then And3(user.tri, visible)
    else NO
  }

  /** The values that a choice can have. */
  predicate Possible(d: ChoiceDecl, t: Tristate, env: Env) { t == MOD ==> !BoolType(d.sym, env.modules) }

  /** The prompts of the values depend on the choice, as menu_finalize makes them (ChoiceConditions). */
  ghost predicate PromptsUnder(d: ChoiceDecl, env: Env) {
    forall i, n, t: Tristate | 0 <= i < |d.members| && 0 <= n < |d.members[i].prompts| && Possible(d, t, env) ::
      ValueOpt(d.members[i].prompts[n], With(env, d.sym, t)) <= t
  }

  lemma {:induction false} PromptsAreBounded(m: Member, n: nat, choice: Tristate, env: Env)
    requires n <= |m.prompts| && forall k | 0 <= k < |m.prompts| :: ValueOpt(m.prompts[k], env) <= choice
    ensures AnyMemberPrompt(m, n, choice, env) <= choice
    ensures choice == YES && m.sym.typ == S_TRISTATE ==> AnyMemberPrompt(m, n, choice, env) != MOD
    decreases |m.prompts| - n
  {
    if n < |m.prompts| { PromptsAreBounded(m, n + 1, choice, env); }
  }

  /** In a choice that is n no value is visible, in one that is y every value is visible as y or not at all. */
  lemma MembersFollow(d: ChoiceDecl, i: nat, choice: Tristate, env: Env)
    requires i < |d.members| && PromptsUnder(d, env)
    ensures choice == NO ==> MemberVisible(d, i, choice, env) == NO
    ensures choice == YES ==> MemberVisible(d, i, choice, env) != MOD
  {
    if choice != MOD { PromptsAreBounded(d.members[i], 0, choice, With(env, d.sym, choice)); }
  }

  /**
   Exclusivity: in a choice that is y exactly the chosen value is y and all
   others are n; in a choice that is n all values are n.
   */
  lemma ExactlyOne(d: ChoiceDecl, user: ChoiceUser, users: seq<User>, env: Env)
    requires MembersNamed(d) && PromptsUnder(d, env) && |users| == |d.members|
    ensures var s := Choose(d, user, env);
      && (s.tri == YES ==> s.chosen.Some? && s.chosen.value < |d.members|)
      && (s.tri == YES ==>
         forall i | 0 <= i < |d.members| :: MemberTri(d, s, i, users[i], env) == Truth(s.chosen == Some(i)))
      && (s.tri == NO ==> forall i | 0 <= i < |d.members| :: MemberTri(d, s, i, users[i], env) == NO)
  {
    var s := Choose(d, user, env);
    forall i | 0 <= i < |d.members|
      ensures s.tri == YES ==> MemberTri(d, s, i, users[i], env) == Truth(s.chosen == Some(i))
      ensures s.tri == NO ==> MemberTri(d, s, i, users[i], env) == NO
    {
      MembersFollow(d, i, s.tri, env);
    }
  }

  /** Every visible value of the choice has SYMBOL_DEF_USER. */
  predicate VisibleAreSet(d: ChoiceDecl, users: seq<User>, choice: Tristate, env: Env)
    requires |users| == |d.members|
  {
    forall i | 0 <= i < |d.members| :: MemberVisible(d, i, choice, env) != NO ==> users[i].isSet
  }

  /**
   What one evaluation leaves of the user value: choosing a value clears
   SYMBOL_DEF_USER of the choice unless all visible values have it.
   */
  function AfterCalc(d: ChoiceDecl, user: ChoiceUser, users: seq<User>, env: Env): ChoiceUser
    requires |users| == |d.members|
  {
    user.(isSet := user.isSet && (ChoiceTri(d, user, env) == YES ==> VisibleAreSet(d, users, YES, env)))
  }

  /** The choice is y even without the user, because rev_dep forces it. */
  predicate Forced(d: ChoiceDecl, env: Env) {
    ChoiceTri(d, ChoiceUser(false, NO, None), env) == YES
  }

  /**
   Evaluating a choice again keeps its value exactly if the first evaluation
   kept the user value, or the choice is y without it.
   */
  lemma EvaluatingAgain(d: ChoiceDecl, user: ChoiceUser, users: seq<User>, env: Env)
    requires MembersNamed(d) && |users| == |d.members|
    ensures Choose(d, AfterCalc(d, user, users, env), env) == Choose(d, user, env)
       <==> (user.isSet && ChoiceTri(d, user, env) == YES ==> VisibleAreSet(d, users, YES, env) || Forced(d, env))
  {
  }

  /** An optional choice that the user sets to y before any of its values falls back to n when it is evaluated again. */
  lemma EvaluatingAgainCanReset() returns (d: ChoiceDecl, user: ChoiceUser, users: seq<User>, env: Env)
    ensures MembersNamed(d) && PromptsUnder(d, env) && |users| == |d.members|
    ensures Choose(d, user, env) == ChoiceState(YES, Some(0))
    ensures Choose(d, AfterCalc(d, user, users, env), env) == ChoiceState(NO, None)
  {
    var choice, value := Symbol(3, "", S_BOOLEAN, false), Symbol(4, "A", S_BOOLEAN, false);
    var member := Member(value, [Some(Sym(choice))]);
    d := ChoiceDecl(choice, [None], None, [member], []);
    user, users := ChoiceUser(true, YES, None), [User(false, NO, "")];
    env := Env(x => NO, x => "", false);
    assert AnyPrompt([None], env) == YES;
    assert MemberVisible(d, 0, YES, env) == YES;
  }

  /** A choice set by the user has the requested value, unless that is y and no value is visible. */
  lemma SetChoiceThenGet(d: ChoiceDecl, user: ChoiceUser, val: Tristate, env: Env)
    requires MembersNamed(d) && ChoiceInRange(d, val, env)
    ensures Choose(d, ChoiceUser(true, val, user.chosen), env).tri == val
       <==> (val == YES ==> exists i | 0 <= i < |d.members| :: MemberVisible(d, i, YES, env) != NO)
  {
  }

  /**
   Setting a choice to the value it has need not evaluate it again, except
   where it lost its y because no value is visible and rev_dep is m.
   */
  lemma SameChoiceSet(d: ChoiceDecl, user: ChoiceUser, val: Tristate, env: Env)
    requires MembersNamed(d) && val == Choose(d, user, env).tri
    ensures Choose(d, ChoiceUser(true, val, user.chosen), env) == Choose(d, user, env)
       <==> !(val == NO && ChoiceRev(d, env) == MOD)
  {
  }

  /** What the choice remembers when one of its values is set to y. */
  function AfterSet(user: ChoiceUser, i: nat): ChoiceUser { ChoiceUser(true, user.tri, Some(i)) }

  /** sym_tristate_within_range for a value of the choice. */
  predicate MemberInRange(m: Member, visible: Tristate, val: Tristate, modules: bool) {
    && visible != NO && m.sym.IsTri()
    && !((BoolType(m.sym, modules) || visible == YES) && val == MOD)
    && (if visible == YES then val == YES else val <= visible)
  }

  /** Setting a visible value of a choice that is y to y chooses it, and evaluating again keeps that. */
  lemma SetMemberThenGet(d: ChoiceDecl, user: ChoiceUser, i: nat, users: seq<User>, env: Env)
    requires MembersNamed(d) && PromptsUnder(d, env) && |users| == |d.members| && i < |d.members|
    requires Choose(d, user, env).tri == YES && MemberVisible(d, i, YES, env) != NO
    ensures Choose(d, AfterSet(user, i), env) == ChoiceState(YES, Some(i))
    ensures VisibleAreSet(d, users, YES, env) ==> AfterCalc(d, AfterSet(user, i), users, env) == AfterSet(user, i)
    ensures forall j | 0 <= j < |d.members| ::
      MemberTri(d, Choose(d, AfterSet(user, i), env), j, users[j], env) == Truth(j == i)
  {
    ExactlyOne(d, AfterSet(user, i), users, env);
  }

  /**
   An accepted value of a choice value is what evaluating again gives, unless
   it is y and the choice will not be y or will not show the value then.
   */
  lemma RequestedMemberValue(d: ChoiceDecl, user: ChoiceUser, i: nat, val: Tristate, env: Env)
    requires MembersNamed(d) && PromptsUnder(d, env) && i < |d.members|
    requires MemberInRange(d.members[i], MemberVisible(d, i, Choose(d, user, env).tri, env), val, env.modules)
    ensures var user2 := if val == YES then AfterSet(user, i) else user;
      MemberTri(d, Choose(d, user2, env), i, User(true, val, ""), env) == val
      <==> (val == YES ==> ChoiceTri(d, user2, env) == YES && MemberVisible(d, i, YES, env) != NO)
  {
    var user2 := if val == YES then AfterSet(user, i) else user;
    MembersFollow(d, i, Choose(d, user, env).tri, env);
    MembersFollow(d, i, Choose(d, user2, env).tri, env);
  }

  /** Setting a value again to what it is need not evaluate anything. */
  lemma SameMemberSet(d: ChoiceDecl, user: ChoiceUser, i: nat, val: Tristate, isSet: bool, userTri: Tristate, env: Env)
    requires MembersNamed(d) && PromptsUnder(d, env) && i < |d.members|
    requires val == MemberTri(d, Choose(d, user, env), i, User(isSet, userTri, ""), env)
    ensures MemberTri(d, Choose(d, user, env), i, User(true, val, ""), env) == val
    ensures val == YES ==> Choose(d, user, env) == ChoiceState(YES, Some(i)) == Choose(d, AfterSet(user, i), env)
  {
  }

  /** In a choice that is y the user values of its values do not matter. */
  lemma UserOfMemberIsIdle(d: ChoiceDecl, s: ChoiceState, i: nat, a: User, b: User, env: Env)
    requires PromptsUnder(d, env) && i < |d.members| && s.tri == YES
    ensures MemberTri(d, s, i, a, env) == MemberTri(d, s, i, b, env)
  {
    MembersFollow(d, i, YES, env);
  }
}

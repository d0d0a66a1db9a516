/**
 The evaluation of a choice as symbol.c runs it: sym_calc_value on the choice
 evaluates the visibility of its values, sym_calc_value on a value evaluates
 the choice through its prompts, and SYMBOL_VALID stops the recursion. The
 symbols outside the choice have fixed values.
 */
module ChoiceEval {
  import opened Tristates
  import opened Exprs
  import opened SymbolSpec
  import opened Choices

  lemma AnyPromptFromHere(ps: seq<Option<Expr>>, n: nat, env: Env)
    requires n < |ps|
    ensures AnyPrompt(ps[n..], env) == Or3(ValueOpt(ps[n], env), AnyPrompt(ps[n + 1..], env))
  {
    assert ps[n..][1..] == ps[n + 1..];
  }

  /** The fields of value j, l before, when val is recorded for value i. */
  function Recorded(i: nat, val: Tristate, j: nat, l: Line): Line {
    var isSet := l.user.isSet || j == i || (val == YES && l.visible != NO);
    l.(user := User(isSet, if j == i then val else l.user.tri, ""))
  }

  /** The fields of the choice when val is recorded for value i. */
  function Told(r: Record, i: nat, val: Tristate): Record {
    if val == YES then r.(user := AfterSet(r.user, i), used := AfterSet(r.used, i)) else r
  }

  /** Recording the value that value i has already keeps the choice up to date. */
  lemma KeepsChoice(d: ChoiceDecl, env: Env, r: Record, i: nat, l: Line)
    requires MembersNamed(d) && PromptsUnder(d, env) && i < |d.members|
    requires UpToDate(d, env, r) && l.valid && LineOk(d, env, r, i, l)
    ensures UpToDate(d, env, Told(r, i, l.tri))
    ensures l.tri == YES ==> r.now == ChoiceState(YES, Some(i))
  {
    if r.valid {
      SameMemberSet(d, r.used, i, l.tri, l.user.isSet, l.user.tri, env);
    }
  }

  /** ... and keeps all its values. */
  lemma KeepsLine(d: ChoiceDecl, env: Env, r: Record, i: nat, l: Line, j: nat, lj: Line)
    requires MembersNamed(d) && PromptsUnder(d, env) && i < |d.members| && j < |d.members|
    requires UpToDate(d, env, r) && l.valid && LineOk(d, env, r, i, l)
    requires LineOk(d, env, r, j, lj) && (j == i ==> lj == l)
    ensures LineOk(d, env, Told(r, i, l.tri), j, Recorded(i, l.tri, j, lj))
  {
    KeepsChoice(d, env, r, i, l);
    if j == i && r.valid {
      SameMemberSet(d, r.used, i, l.tri, l.user.isSet, l.user.tri, env);
    } else if l.tri == YES {
      UserOfMemberIsIdle(d, r.now, j, lj.user, Recorded(i, l.tri, j, lj).user, env);
    }
  }

  /** struct symbol of a choice value. */
  class MemberCell {
    var visible: Tristate
    /** curr.tri */
    var tri: Tristate
    /** def[S_DEF_USER].tri and SYMBOL_DEF_USER */
    var userTri: Tristate
    var hasUser: bool
    /** SYMBOL_VALID */
    var valid: bool

    constructor ()
      ensures !valid && !hasUser && visible == tri == userTri == NO
    {
      visible, tri, userTri, hasUser, valid := NO, NO, NO, false, false;
    }

    function UserValue(): User
      reads this
    {
      User(hasUser, userTri, "")
    }

    function Fields(): Line
      reads this
    {
      Line(valid, visible, tri, UserValue())
    }
  }

  ghost predicate Distinct(cells: seq<MemberCell>) {
    var ok := forall i, j | 0 <= i < j < |cells| :: cells[i] != cells[j];
    ok
  }

  /** The fields of a choice, with the user value that its last evaluation started from. */
  datatype Record =
    Record(valid: bool, visible: Tristate, rev: Tristate, now: ChoiceState, user: ChoiceUser, used: ChoiceUser)

  /** What sym_calc_value does to the fields of a choice. */
  function Evaluate(d: ChoiceDecl, env: Env, r: Record, us: seq<User>): Record
    requires MembersNamed(d) && |us| == |d.members|
  {
    if r.valid then r
    else Record(true, ChoiceVisible(d, env), ChoiceRev(d, env), Choose(d, r.user, env), AfterCalc(d, r.user, us, env),
      r.user)
  }

  function AllVisible(d: ChoiceDecl, choice: Tristate, env: Env): (vs: seq<Tristate>)
    ensures |vs| == |d.members| && forall i | 0 <= i < |d.members| :: vs[i] == MemberVisible(d, i, choice, env)
  {
    seq(|d.members|, i requires 0 <= i < |d.members| => MemberVisible(d, i, choice, env))
  }

  /** What it does to the visibilities of the values: they are computed when one has to be chosen. */
  function Looked(d: ChoiceDecl, env: Env, r: Record, vs: seq<Tristate>): (w: seq<Tristate>)
    requires |vs| == |d.members|
    ensures |w| == |vs|
  {
    if !r.valid && ChoiceTri(d, r.user, env) == YES then AllVisible(d, YES, env) else vs
  }

  /** A second evaluation finds the choice valid. */
  lemma Again(d: ChoiceDecl, env: Env, r: Record, us: seq<User>, vs: seq<Tristate>)
    requires MembersNamed(d) && |us| == |vs| == |d.members|
    ensures var r2, vs2 := Evaluate(d, env, r, us), Looked(d, env, r, vs);
      Evaluate(d, env, r2, us) == r2 && Looked(d, env, r2, vs2) == vs2
  {
  }

  /** What the prompts of one value do: without prompts nothing is evaluated. */
  function AfterPrompts(d: ChoiceDecl, env: Env, m: Member, r: Record, us: seq<User>): Record
    requires MembersNamed(d) && |us| == |d.members|
  {
    if m.prompts == [] then r else Evaluate(d, env, r, us)
  }

  function LookedAfter(d: ChoiceDecl, env: Env, m: Member, r: Record, vs: seq<Tristate>): (w: seq<Tristate>)
    requires |vs| == |d.members|
    ensures |w| == |vs|
  {
    if m.prompts == [] then vs else Looked(d, env, r, vs)
  }

  /**
   A choice flagged valid has the value that the user value defines; only
   SYMBOL_DEF_USER may have been cleared since.
   */
  predicate UpToDate(d: ChoiceDecl, env: Env, r: Record)
    requires MembersNamed(d)
  {
    r.valid ==>
      && r.now == Choose(d, r.used, env) && r.visible == ChoiceVisible(d, env) && r.rev == ChoiceRev(d, env)
      && r.user == r.used.(isSet := r.user.isSet) && (r.user.isSet ==> r.used.isSet)
  }

  /** In a choice that is y the visibility of every value has been computed. */
  predicate Looking(d: ChoiceDecl, env: Env, r: Record, vs: seq<Tristate>)
    requires |vs| == |d.members|
  {
    r.valid && r.now.tri == YES ==> vs == AllVisible(d, YES, env)
  }

  lemma StillLooking(d: ChoiceDecl, env: Env, r: Record, us: seq<User>, vs: seq<Tristate>)
    requires MembersNamed(d) && |us| == |vs| == |d.members| && Looking(d, env, r, vs)
    ensures Looking(d, env, Evaluate(d, env, r, us), Looked(d, env, r, vs))
  {
  }

  lemma OneMoreLook(d: ChoiceDecl, env: Env, r: Record, vs: seq<Tristate>, i: nat)
    requires |vs| == |d.members| && i < |vs| && Looking(d, env, r, vs)
    ensures Looking(d, env, r, vs[i := MemberVisible(d, i, r.now.tri, env)])
  {
  }

  /** The fields of a value. */
  datatype Line = Line(valid: bool, visible: Tristate, tri: Tristate, user: User)

  /** A value flagged valid has the value that the choice and its user value define. */
  predicate LineOk(d: ChoiceDecl, env: Env, r: Record, i: nat, l: Line)
    requires i < |d.members|
  {
    l.valid ==>
      && (r.valid || d.members[i].prompts == [])
      && l.visible == MemberVisible(d, i, r.now.tri, env)
      && l.tri == MemberTri(d, r.now, i, l.user, env)
  }

  /** Evaluating the choice keeps the values that are valid already. */
  lemma LineStaysOk(d: ChoiceDecl, env: Env, r: Record, us: seq<User>, vs: seq<Tristate>, i: nat, l: Line)
    requires MembersNamed(d) && |us| == |vs| == |d.members| && i < |d.members|
    requires LineOk(d, env, r, i, l) && l.visible == vs[i]
    ensures LineOk(d, env, Evaluate(d, env, r, us), i, l.(visible := Looked(d, env, r, vs)[i]))
  {
    if l.valid && d.members[i].prompts == [] {
      assert MemberVisible(d, i, r.now.tri, env) == NO;
    }
  }

  /** struct symbol of the choice, with the cells of its values. */
  class Choice {
    const decl: ChoiceDecl
    const env: Env
    const cells: seq<MemberCell>
    var visible: Tristate
    var rev: Tristate
    /** curr: its tri, and the value it points to */
    var tri: Tristate
    var chosen: Option<nat>
    /** def[S_DEF_USER] and SYMBOL_DEF_USER */
    var userTri: Tristate
    var userChosen: Option<nat>
    var hasUser: bool
    /** SYMBOL_VALID */
    var valid: bool
    /** The user value that the last evaluation started from. */
    ghost var used: ChoiceUser

    constructor (decl: ChoiceDecl, env: Env, cells: seq<MemberCell>)
      requires MembersNamed(decl) && |cells| == |decl.members|
      requires forall i | 0 <= i < |cells| :: !cells[i].valid
      requires Distinct(cells)
      ensures this.decl == decl && this.env == env && this.cells == cells && Shape() && Coherent()
    {
      this.decl, this.env, this.cells := decl, env, cells;
      visible, rev, tri, chosen := NO, NO, NO, None;
      userTri, userChosen, hasUser, valid := NO, None, false, false;
      used := ChoiceUser(false, NO, None);
    }

    ghost predicate Shape() {
      MembersNamed(decl) && |cells| == |decl.members| && Distinct(cells)
    }

    function UserValue(): ChoiceUser
      reads this
    {
      ChoiceUser(hasUser, userTri, userChosen)
    }

    function Now(): ChoiceState
      reads this
    {
      ChoiceState(tri, chosen)
    }

    ghost function Fields(): Record
      reads this
    {
      Record(valid, visible, rev, Now(), UserValue(), used)
    }

    ghost function Users(): (us: seq<User>)
      reads cells
      ensures |us| == |cells| && forall i | 0 <= i < |cells| :: us[i] == cells[i].UserValue()
    {
      seq(|cells|, i requires 0 <= i < |cells| reads cells => cells[i].UserValue())
    }

    ghost function Visibilities(): (vs: seq<Tristate>)
      reads cells
      ensures |vs| == |cells| && forall i | 0 <= i < |cells| :: vs[i] == cells[i].visible
    {
      seq(|cells|, i requires 0 <= i < |cells| reads cells => cells[i].visible)
    }

    /** Everything flagged valid has the value that the user values define. */
    ghost predicate Coherent()
      requires Shape()
      reads this, cells
    {
      && UpToDate(decl, env, Fields()) && Looking(decl, env, Fields(), Visibilities())
      && forall i | 0 <= i < |cells| :: LineOk(decl, env, Fields(), i, cells[i].Fields())
    }

    /** expr_calc_value on a condition of the value m, which refers to the choice. */
    method CalcPrompt(m: Member, p: Option<Expr>) returns (v: Tristate)
      requires Shape()
      modifies this, cells`visible
      ensures Fields() == Evaluate(decl, env, old(Fields()), old(Users())) && Users() == old(Users())
      ensures Visibilities() == Looked(decl, env, old(Fields()), old(Visibilities()))
      ensures v == MemberPrompt(m, p, tri, With(env, decl.sym, tri))
      decreases if valid then 0 else 1, 1
    {
      CalcValue();
      v := ValueOpt(p, With(env, decl.sym, tri));
      if m.sym.typ == S_TRISTATE && v == MOD && tri == YES { v := NO; }
    }

    /** The loop of sym_calc_visibility over the prompts of a value. */
    method CalcPrompts(i: nat) returns (t: Tristate)
      requires Shape() && i < |cells|
      modifies this, cells`visible
      ensures Users() == old(Users())
      ensures Fields() == AfterPrompts(decl, env, decl.members[i], old(Fields()), old(Users()))
      ensures Visibilities() == LookedAfter(decl, env, decl.members[i], old(Fields()), old(Visibilities()))
      ensures t == AnyMemberPrompt(decl.members[i], 0, tri, With(env, decl.sym, tri))
      decreases if valid then 0 else 1, 2
    {
      var m := decl.members[i];
      t := NO;
      if m.prompts == [] { return; }
      var n := 0;
      ghost var fields, visibilities := Evaluate(decl, env, Fields(), Users()),
        Looked(decl, env, Fields(), Visibilities());
      ghost var users, choice := Users(), fields.now.tri;
      ghost var e := With(env, decl.sym, choice);
      while n < |m.prompts|
        invariant 0 <= n <= |m.prompts| && Users() == users
        invariant n == 0 ==> t == NO && Fields() == old(Fields()) && Visibilities() == old(Visibilities())
        invariant n > 0 ==> Fields() == fields && Visibilities() == visibilities
        invariant AnyMemberPrompt(m, 0, choice, e) == Or3(t, AnyMemberPrompt(m, n, choice, e))
      {
        Again(decl, env, old(Fields()), users, old(Visibilities()));
        var v := CalcPrompt(m, m.prompts[n]);
        assert Fields() == fields && Visibilities() == visibilities && tri == choice;
        t := Or3(t, v);
        n := n + 1;
      }
    }

    /** sym_calc_visibility on a value. */
    method CalcVisibility(i: nat)
      requires Shape() && i < |cells|
      modifies this, cells`visible
      ensures Users() == old(Users())
      ensures Fields() == AfterPrompts(decl, env, decl.members[i], old(Fields()), old(Users()))
      ensures Visibilities() ==
        LookedAfter(decl, env, decl.members[i], old(Fields()), old(Visibilities()))
          [i := MemberVisible(decl, i, tri, env)]
      decreases if valid then 0 else 1, 3
    {
      var t := CalcPrompts(i);
      if t == MOD && (decl.members[i].sym.typ != S_TRISTATE || !env.modules) { t := YES; }
      ghost var vs := Visibilities();
      cells[i].visible := t;
      assert Visibilities() == vs[i := t];
    }

    /** sym_choice_default. */
    method ChoiceDefault() returns (r: Option<nat>)
      requires Shape()
      requires Visibilities() == AllVisible(decl, tri, env)
      ensures r == ChoiceDefaultOf(decl, tri, env)
    {
      var n := 0;
      while n < |decl.defaults|
        invariant 0 <= n <= |decl.defaults| && DefaultFrom(decl, 0, tri, env) == DefaultFrom(decl, n, tri, env)
      {
        var p := decl.defaults[n];
        if ValueOpt(p.cond, With(env, decl.sym, tri)) != NO && cells[p.member].visible != NO {
          return Some(p.member);
        }
        n := n + 1;
      }
      n := 0;
      while n < |cells|
        invariant 0 <= n <= |cells| && FirstVisible(decl, 0, tri, env) == FirstVisible(decl, n, tri, env)
      {
        if cells[n].visible != NO { return Some(n); }
        n := n + 1;
      }
      return None;
    }

    /** The loop of sym_calc_choice over the values; false if a visible one lacks SYMBOL_DEF_USER. */
    method CalcVisibilities() returns (keep: bool)
      requires Shape() && valid && tri == YES
      modifies this, cells`visible
      ensures Fields() == old(Fields()) && Users() == old(Users()) && Visibilities() == AllVisible(decl, YES, env)
      ensures keep == VisibleAreSet(decl, old(Users()), YES, env)
      decreases 0, 4
    {
      keep := true;
      var i := 0;
      ghost var fields, us := Fields(), Users();
      while i < |cells|
        invariant 0 <= i <= |cells| && Fields() == fields && Users() == us
        invariant forall j | 0 <= j < i :: cells[j].visible == MemberVisible(decl, j, YES, env)
        invariant keep <==> forall j | 0 <= j < i :: MemberVisible(decl, j, YES, env) != NO ==> us[j].isSet
      {
        ghost var vs := Visibilities();
        CalcVisibility(i);
        assert Visibilities() == vs[i := MemberVisible(decl, i, YES, env)];
        assert forall j | 0 <= j < i :: cells[j].visible == vs[j];
        if cells[i].visible != NO { keep := keep && cells[i].hasUser; }
        i := i + 1;
      }
    }

    /** sym_calc_choice. */
    method CalcChoice() returns (r: Option<nat>)
      requires Shape() && valid && tri == YES
      modifies this, cells`visible
      ensures Users() == old(Users()) && Visibilities() == AllVisible(decl, YES, env)
      ensures r == Chosen(decl, old(UserValue()), YES, env)
      ensures var f := old(Fields()); Fields() == f.(
        now := ChoiceState(if r.None? then NO else YES, f.now.chosen),
        user := f.user.(isSet := f.user.isSet && VisibleAreSet(decl, old(Users()), YES, env)))
      decreases 0, 5
    {
      var keep := CalcVisibilities();
      hasUser := hasUser && keep;
      if userChosen.Some? && userChosen.value < |cells| && cells[userChosen.value].visible != NO {
        return userChosen;
      }
      r := ChoiceDefault();
      if r.None? { tri := NO; }
    }

    /** sym_calc_visibility on the choice, and its rev_dep. */
    method CalcOwnVisibility()
      modifies this`visible, this`rev
      ensures visible == ChoiceVisible(decl, env) && rev == ChoiceRev(decl, env)
    {
      var t: Tristate := NO;
      var n := 0;
      while n < |decl.prompts|
        invariant 0 <= n <= |decl.prompts|
        invariant Or3(t, AnyPrompt(decl.prompts[n..], env)) == AnyPrompt(decl.prompts, env)
      {
        t := Or3(t, ValueOpt(decl.prompts[n], env));
        AnyPromptFromHere(decl.prompts, n, env);
        n := n + 1;
      }
      if t == MOD && (decl.sym.typ != S_TRISTATE || !env.modules) { t := YES; }
      visible := t;
      t := if decl.revDep.Some? then Value(decl.revDep.value, env) else NO;
      if t == MOD && BoolType(decl.sym, env.modules) { t := YES; }
      rev := t;
    }

    /** The part of sym_calc_value before a value is chosen. */
    method CalcTri()
      modifies this
      ensures Fields() == Record(true, ChoiceVisible(decl, env), ChoiceRev(decl, env),
        ChoiceState(ChoiceTri(decl, old(UserValue()), env), None), old(UserValue()), old(UserValue()))
    {
      used := UserValue();
      valid := true;
      CalcOwnVisibility();
      tri, chosen := NO, None;
      var t: Tristate := NO;
      if visible != NO && hasUser { t := And3(userTri, visible); }
      t := Or3(t, rev);
      if t == MOD && BoolType(decl.sym, env.modules) { t := YES; }
      tri := t;
    }

    /** sym_calc_value on the choice. */
    method CalcValue()
      requires Shape()
      modifies this, cells`visible
      ensures Fields() == Evaluate(decl, env, old(Fields()), old(Users())) && Users() == old(Users())
      ensures Visibilities() == Looked(decl, env, old(Fields()), old(Visibilities()))
      decreases if valid then 0 else 1, 0
    {
      if valid { return; }
      CalcTri();
      if tri == YES {
        chosen := CalcChoice();
      }
    }

    /** sym_calc_value on the choice, called from outside. */
    method CalcChoiceValue()
      requires Shape() && Coherent()
      modifies this, cells`visible
      ensures Coherent() && valid && Users() == old(Users())
      ensures Fields() == Evaluate(decl, env, old(Fields()), old(Users()))
    {
      ghost var was, us, vs := Fields(), Users(), Visibilities();
      StillLooking(decl, env, was, us, vs);
      CalcValue();
      forall j | 0 <= j < |cells| ensures LineOk(decl, env, Fields(), j, cells[j].Fields()) {
        assert cells[j].visible == Visibilities()[j];
        LineStaysOk(decl, env, was, us, vs, j, old(cells[j].Fields()));
      }
    }

    /**
     In every state that the methods lead to: once all is evaluated, a choice that is y has exactly one value that is
     y.
     */
    lemma OneIsYes()
      requires Shape() && PromptsUnder(decl, env) && Coherent() && valid
      requires forall i | 0 <= i < |cells| :: cells[i].valid
      ensures tri == YES ==> chosen.Some? && chosen.value < |cells|
      ensures forall i | 0 <= i < |cells| && tri == YES :: cells[i].tri == Truth(chosen == Some(i))
      ensures forall i | 0 <= i < |cells| && tri == NO :: cells[i].tri == NO
    {
      ExactlyOne(decl, used, Users(), env);
      forall i | 0 <= i < |cells| ensures cells[i].tri == MemberTri(decl, Now(), i, Users()[i], env) {
        assert LineOk(decl, env, Fields(), i, cells[i].Fields());
      }
    }

    /** sym_calc_value on a value that is not valid. */
    method CalcMemberValue(i: nat)
      requires Shape() && i < |cells|
      modifies this, cells`visible, {cells[i]}`valid, {cells[i]}`tri
      ensures Users() == old(Users())
      ensures Fields() == AfterPrompts(decl, env, decl.members[i], old(Fields()), old(Users()))
      ensures Visibilities() ==
        LookedAfter(decl, env, decl.members[i], old(Fields()), old(Visibilities()))
          [i := MemberVisible(decl, i, tri, env)]
      ensures cells[i].valid && cells[i].tri == MemberTri(decl, Now(), i, cells[i].UserValue(), env)
    {
      var c := cells[i];
      c.valid := true;
      assert Users() == old(Users()) && Visibilities() == old(Visibilities());
      CalcVisibility(i);
      assert c.visible == Visibilities()[i];
      label Before:
      var t := NO;
      if c.visible == YES {
        t := Truth(chosen == Some(i));
      } else if c.visible != NO && c.hasUser {
        t := And3(c.userTri, c.visible);
      }
      c.tri := t;
      assert Users() == old@Before(Users()) && Visibilities() == old@Before(Visibilities());
    }

    /** sym_calc_value on a value. */
    method CalcMember(i: nat)
      requires Shape() && i < |cells| && Coherent()
      modifies this, cells`visible, {cells[i]}`valid, {cells[i]}`tri
      ensures Coherent() && cells[i].valid && Users() == old(Users())
      ensures Fields() == if old(cells[i].valid) then old(Fields())
        else AfterPrompts(decl, env, decl.members[i], old(Fields()), old(Users()))
    {
      if cells[i].valid { return; }
      ghost var was, us, vs := Fields(), Users(), Visibilities();
      StillLooking(decl, env, was, us, vs);
      CalcMemberValue(i);
      OneMoreLook(decl, env, Fields(), LookedAfter(decl, env, decl.members[i], was, vs), i);
      forall j | 0 <= j < |cells|
        ensures LineOk(decl, env, Fields(), j, cells[j].Fields())
      {
        assert cells[j].visible == Visibilities()[j];
        if j != i { LineStaysOk(decl, env, was, us, vs, j, old(cells[j].Fields())); }
      }
    }

    /** sym_clear_all_valid, for the choice and its values. */
    method ClearAllValid()
      modifies this`valid, cells`valid
      ensures !valid && forall c | c in cells :: !c.valid
    {
      valid := false;
      var i := 0;
      while i < |cells|
        invariant 0 <= i <= |cells| && !valid && forall j | 0 <= j < i :: !cells[j].valid
      {
        cells[i].valid := false;
        i := i + 1;
      }
    }

    /** The loop of sym_set_tristate_value: all visible values get SYMBOL_DEF_USER. */
    method MarkVisible()
      modifies cells`hasUser
      ensures forall c | c in cells :: c.hasUser == (old(c.hasUser) || c.visible != NO)
    {
      var i := 0;
      while i < |cells|
        invariant 0 <= i <= |cells|
        invariant forall c | c in cells :: old(c.hasUser) ==> c.hasUser
        invariant forall c | c in cells && c.hasUser :: old(c.hasUser) || c.visible != NO
        invariant forall j | 0 <= j < i :: cells[j].hasUser == (old(cells[j].hasUser) || cells[j].visible != NO)
      {
        if cells[i].visible != NO { cells[i].hasUser := true; }
        i := i + 1;
      }
    }

    /** The assignments of sym_set_tristate_value on a value. */
    method RecordValue(i: nat, val: Tristate)
      requires Shape() && i < |cells|
      modifies this`userChosen, this`hasUser, this`used, cells`hasUser, {cells[i]}`userTri
      ensures forall j | 0 <= j < |cells| :: cells[j].Fields() == Recorded(i, val, j, old(cells[j].Fields()))
      ensures Fields() == Told(old(Fields()), i, val)
    {
      cells[i].hasUser := true;
      if val == YES {
        userChosen := Some(i);
        hasUser := true;
        used := AfterSet(used, i);
        MarkVisible();
      }
      cells[i].userTri := val;
    }

    /** sym_set_tristate_value on a value; if it has been evaluated, the caches stay coherent. */
    method SetMember(i: nat, val: Tristate) returns (ok: bool)
      requires Shape() && PromptsUnder(decl, env) && i < |cells| && Coherent()
      modifies this, cells`hasUser, cells`valid, {cells[i]}`userTri
      ensures old(cells[i].valid) || !ok || val != old(cells[i].tri) ==> Coherent()
      ensures ok == (val == old(cells[i].tri) || MemberInRange(decl.members[i], cells[i].visible, val, env.modules))
      ensures UserValue() == if ok && val == YES then AfterSet(old(UserValue()), i) else old(UserValue())
      ensures forall j | 0 <= j < |cells| ::
        cells[j].UserValue() == if ok then Recorded(i, val, j, old(cells[j].Fields())).user
          else old(cells[j].UserValue())
      ensures valid == (old(valid) && (ok ==> val == old(cells[i].tri)))
      ensures Now() == old(Now())
      ensures ok && val == YES && old(valid) && old(cells[i].valid) && tri == YES ==>
        VisibleAreSet(decl, Users(), YES, env)
    {
      var c := cells[i];
      var oldval := c.tri;
      if oldval != val && !MemberInRange(decl.members[i], c.visible, val, env.modules) { return false; }
      ghost var f, line := Fields(), c.Fields();
      RecordValue(i, val);
      ok := true;
      if oldval != val {
        ClearAllValid();
      } else if line.valid {
        KeepsChoice(decl, env, f, i, line);
        forall j | 0 <= j < |cells| ensures LineOk(decl, env, Fields(), j, cells[j].Fields()) {
          KeepsLine(decl, env, f, i, line, j, old(cells[j].Fields()));
        }
      }
    }

    /**
     After a visible value of a choice that is y has been set to y, evaluating
     the choice gives this value and keeps SYMBOL_DEF_USER of the choice: what
     was set is not forgotten.
     */
    lemma SetIsKept(i: nat, was: Record)
      requires Shape() && i < |cells| && PromptsUnder(decl, env)
      requires UpToDate(decl, env, was) && was.valid && was.now.tri == YES && MemberVisible(decl, i, YES, env) != NO
      requires UserValue() == AfterSet(was.user, i) && VisibleAreSet(decl, Users(), YES, env) && !valid
      ensures var after := Evaluate(decl, env, Fields(), Users());
        after.now == ChoiceState(YES, Some(i)) && after.user == UserValue()
    {
      assert AfterSet(was.user, i) == AfterSet(was.used, i);
      SetMemberThenGet(decl, was.used, i, Users(), env);
    }

    /** sym_tristate_within_range for the choice, from its fields. */
    predicate InRange(val: Tristate)
      reads this
    {
      visible != NO && decl.sym.IsTri() && !(BoolType(decl.sym, env.modules) && val == MOD) && visible > rev &&
        rev <= val <= visible
    }

    /** sym_set_tristate_value on the choice. */
    method SetChoice(val: Tristate) returns (ok: bool)
      requires Shape() && Coherent()
      modifies this, cells`valid
      ensures ok == (val == old(tri) || old(InRange(val)))
      ensures old(valid) ==> ok == (val == old(tri) || ChoiceInRange(decl, val, env))
      ensures UserValue() == if ok then ChoiceUser(true, val, old(userChosen)) else old(UserValue())
      ensures valid == (old(valid) && (ok ==> val == old(tri))) && Now() == old(Now())
      ensures old(valid) ==> (Coherent() <==> !(ok && val == old(tri) == NO && rev == MOD))
      ensures !ok || val != old(tri) ==> Coherent()
    {
      var oldval := tri;
      if oldval != val && !InRange(val) { return false; }
      ok := true;
      if valid { SameChoiceSet(decl, used, oldval, env); }
      hasUser := true;
      userTri := val;
      used := ChoiceUser(true, val, used.chosen);
      if oldval != val { ClearAllValid(); }
    }
  }
}

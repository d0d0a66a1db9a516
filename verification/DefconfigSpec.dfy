/**
 The minimal configuration of conf_write_defconfig: which symbols it leaves
 out, and when the value of one symbol survives being written and read back.
 */
module DefconfigSpec {
  import opened Tristates
  import opened Numbers
  import opened Exprs
  import opened SymbolSpec
  import opened NumberTexts

  /** sym_get_string_value of an evaluated symbol. */
  function ValueText(s: Symbol, now: State, modules: bool): string {
    if s.IsTri() then TriText(now.tri, modules) else now.val
  }

  /** The tristate that sym_get_string_default arrives at. */
  function DefaultTri(d: Decl, env: Env): Tristate {
    var t0 := Or3(TriDefault(d, env), RevDep(d, env));
    var t1 := if t0 == MOD && !env.modules then YES else t0;
    var t2 := if d.sym.typ == S_BOOLEAN && t1 == MOD then YES else t1;
    if t2 < Implied(d, env) then Implied(d, env) else t2
  }

  /** sym_get_string_default: neither the range nor the user's value counts. */
  function DefaultText(d: Decl, env: Env): string {
    match d.sym.typ
    case S_BOOLEAN => TriText(DefaultTri(d, env), true)
    case S_TRISTATE => TriText(DefaultTri(d, env), true)
    case S_UNKNOWN => ""
    case S_OTHER => ""
    case _ => TextDefault(d, env).GetOr("")
  }

  /** Whether conf_write_defconfig writes the symbol. */
  predicate Saved(d: Decl, now: State, env: Env) {
    now.write && now.visible > now.revDep && ValueText(d.sym, now, env.modules) != DefaultText(d, env)
  }

  const UNSET := User(false, NO, "")

  /** What the reader makes of the line for the symbol. */
  function LineUser(s: Symbol, now: State): User {
    if s.IsTri() then User(true, now.tri, "") else User(true, NO, now.val)
  }

  /** The user value after writing the minimal configuration and reading it. */
  function Reloaded(d: Decl, user: User, env: Env): User {
    var now := Eval(d, user, env);
    if Saved(d, now, env) then LineUser(d.sym, now) else UNSET
  }

  /**
   A user value that conf_write_defconfig has no line for, because the symbol
   gets its value from the environment or is a text that is selected, and that
   is not the default either.
   */
  predicate LosesUnsaved(d: Decl, user: User, env: Env) {
    && user.isSet && Visible(d, env) != NO && d.sym.typ != S_UNKNOWN && d.sym.typ != S_OTHER
    && (d.isAuto || (!d.sym.IsTri() && Visible(d, env) <= RevDep(d, env)))
    && (if d.sym.IsTri() then TriValue(d, user, env) != DefaultTri(d, env)
        else TextValue(d, user, env) != Clamp(d.sym.typ, DefaultText(d, env), FirstRange(d.ranges, env), env))
  }

  /**
   A bool or tristate: the user's value is limited to m by the prompt, cannot
   be changed because the symbol is selected as m, and the default, which no
   prompt limits, is y.
   */
  predicate LosesTri(d: Decl, user: User, env: Env) {
    && user.isSet && Visible(d, env) == MOD && RevDep(d, env) == MOD && !BoolType(d.sym, env.modules)
    && Implied(d, env) != YES && TriDefault(d, env) == YES
  }

  /** A number: the bound of the range that replaces it lies, as it is read again, beyond the other bound. */
  predicate LosesText(d: Decl, user: User, env: Env) {
    var t, r := d.sym.typ, FirstRange(d.ranges, env);
    && (t == S_INT || t == S_HEX) && r.Some? && !d.isAuto && Visible(d, env) > RevDep(d, env)
    && var base := BaseOf(t, 0);
      var v, lo, hi := StrToLL(TextBase(d, user, env), base), RangeVal(r.value.lo, base, env),
        RangeVal(r.value.hi, base, env);
      if v < lo then lo != hi && Reread(t, lo) > hi else v > hi && Reread(t, hi) < lo
  }

  /** The values that get lost. */
  predicate Loses(d: Decl, user: User, env: Env) {
    LosesUnsaved(d, user, env) || if d.sym.IsTri() then LosesTri(d, user, env) else LosesText(d, user, env)
  }

  /**
   sym_get_string_default agrees with sym_calc_value: it is the value the
   symbol has without a user value, except that it ignores the range.
   */
  lemma DefaultIsUnsetValue(d: Decl, env: Env)
    requires d.sym.typ != S_UNKNOWN && d.sym.typ != S_OTHER && WfEnv(env)
    ensures d.sym.IsTri() ==> DefaultTri(d, env) == Eval(d, UNSET, env).tri
    ensures d.sym.IsTri() ==> DefaultText(d, env) == ValueText(d.sym, Eval(d, UNSET, env), env.modules)
    ensures !d.sym.IsTri() ==>
      Eval(d, UNSET, env).val == Clamp(d.sym.typ, DefaultText(d, env), FirstRange(d.ranges, env), env)
  {
  }

  /** What happens to a bool or tristate. */
  lemma TriSurvives(d: Decl, user: User, env: Env)
    requires d.sym.IsTri() && WfEnv(env)
    ensures Eval(d, Reloaded(d, user, env), env) == Eval(d, user, env)
       <==> !LosesTri(d, user, env) && !LosesUnsaved(d, user, env)
  {
  }

  /** Without modules no bool or tristate is ever lost. */
  lemma TriSurvivesWithoutModules(d: Decl, user: User, env: Env)
    requires d.sym.IsTri() && !env.modules
    ensures !LosesTri(d, user, env)
  {
  }

  /** A bound b that was written, and is read back, violates no bound but b itself. */
  predicate Stays(t: SymType, b: int, r: Range, env: Env)
    requires LLONG_MIN <= b <= LLONG_MAX
  {
    var limit := Bound(r, Reread(t, b), BaseOf(t, 0), env);
    limit.None? || limit.value == b
  }

  lemma ClampWritten(t: SymType, b: int, r: Range, env: Env)
    requires (t == S_INT || t == S_HEX) && LLONG_MIN <= b <= LLONG_MAX
    ensures Clamp(t, PrintNumber(t, b), Some(r), env) == PrintNumber(t, b) <==> Stays(t, b, r, env)
  {
    NumberRoundTrip(t, b);
    var limit := Bound(r, Reread(t, b), BaseOf(t, 0), env);
    if limit.Some? { PrintInjective(t, limit.value, b); }
  }

  lemma ClampTwiceStays(t: SymType, val: string, r: Range, env: Env)
    requires t == S_INT || t == S_HEX
    ensures var limit := Bound(r, StrToLL(val, BaseOf(t, 0)), BaseOf(t, 0), env);
      var once := Clamp(t, val, Some(r), env);
      Clamp(t, once, Some(r), env) == once <==> limit.None? || Stays(t, limit.value, r, env)
  {
    var limit := Bound(r, StrToLL(val, BaseOf(t, 0)), BaseOf(t, 0), env);
    if limit.Some? { ClampWritten(t, limit.value, r, env); }
  }

  /** The lower bound stays unless it is read back above the upper one, and the upper one likewise. */
  lemma StaysIff(t: SymType, v: int, r: Range, env: Env)
    ensures var base := BaseOf(t, 0);
      var lo, hi, limit := RangeVal(r.lo, base, env), RangeVal(r.hi, base, env), Bound(r, v, base, env);
      limit.None? || Stays(t, limit.value, r, env) <==>
        !(if v < lo then lo != hi && Reread(t, lo) > hi else v > hi && Reread(t, hi) < lo)
  {
  }

  /** Clamping twice differs from clamping once exactly when the bound is read back beyond the other bound. */
  lemma ClampTwice(t: SymType, val: string, r: Range, env: Env)
    requires t == S_INT || t == S_HEX
    ensures var base := BaseOf(t, 0);
      var v, lo, hi := StrToLL(val, base), RangeVal(r.lo, base, env), RangeVal(r.hi, base, env);
      var once := Clamp(t, val, Some(r), env);
      Clamp(t, once, Some(r), env) == once <==>
        !(if v < lo then lo != hi && Reread(t, lo) > hi else v > hi && Reread(t, hi) < lo)
  {
    ClampTwiceStays(t, val, r, env);
    StaysIff(t, StrToLL(val, BaseOf(t, 0)), r, env);
  }

  /** What happens to a string or number. */
  lemma TextSurvives(d: Decl, user: User, env: Env)
    requires d.sym.typ == S_STRING || d.sym.typ == S_INT || d.sym.typ == S_HEX
    ensures Eval(d, Reloaded(d, user, env), env) == Eval(d, user, env)
       <==> !LosesText(d, user, env) && !LosesUnsaved(d, user, env)
  {
    var now, back, r := Eval(d, user, env), Reloaded(d, user, env), FirstRange(d.ranges, env);
    if d.isAuto || now.visible <= now.revDep {
      assert back == UNSET;
    } else {
      var base := TextBase(d, user, env);
      assert now.val == Clamp(d.sym.typ, base, r, env);
      assert TextBase(d, back, env) == now.val;
      assert Eval(d, back, env).val == Clamp(d.sym.typ, now.val, r, env);
      if r.Some? && d.sym.typ != S_STRING { ClampTwice(d.sym.typ, base, r.value, env); }
    }
  }

  /** The value of one symbol survives exactly unless it is one of those described by Loses. */
  lemma Survives(d: Decl, user: User, env: Env)
    requires WfEnv(env)
    ensures Eval(d, Reloaded(d, user, env), env) == Eval(d, user, env) <==> !Loses(d, user, env)
  {
    if d.sym.IsTri() { TriSurvives(d, user, env); }
    else if d.sym.typ != S_UNKNOWN && d.sym.typ != S_OTHER { TextSurvives(d, user, env); }
  }
}

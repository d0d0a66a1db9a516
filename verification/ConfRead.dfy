/**
 conf_read: the two loops over all symbols that follow the reading of a file,
 and which of the values that were saved they leave as they were.
 */
module ConfReads {
  import opened Tristates
  import opened Numbers
  import opened Exprs
  import opened SymbolSpec
  import opened NumberTexts
  import opened DefconfigSpec
  import opened ConfigText
  import opened Defconfig

  /** sym_string_within_range for the text of a string, int or hex symbol. */
  predicate TextWithinRange(d: Decl, val: string, env: Env) {
    var t, r := d.sym.typ, FirstRange(d.ranges, env);
    StringValid(t, val) &&
    (t == S_STRING || r.None? ||
      var base := BaseOf(t, 0);
      RangeVal(r.value.lo, base, env) <= StrToLL(val, base) <= RangeVal(r.value.hi, base, env))
  }

  /** The second loop rejects the user value, as it is out of range. */
  predicate Rejected(d: Decl, u: User, env: Env) {
    u.isSet && (d.sym.typ == S_STRING || d.sym.typ == S_INT || d.sym.typ == S_HEX) && !TextWithinRange(d, u.val, env)
  }

  /** The user value that is left. */
  function Accepted(d: Decl, u: User, env: Env): User {
    if Rejected(d, u, env) then u.(isSet := false) else u
  }

  /**
   The user values, the results that are still valid, and conf_unsaved, while
   conf_read looks at the symbols. A symbol that has been reset is evaluated
   again only when its value is needed; what depends on it stays valid.
   */
  datatype Progress = Progress(us: seq<User>, cache: seq<Option<State>>, unsaved: nat)

  predicate Fits(g: Graph, p: Progress) { |g.rank| == |g.decls| == |p.us| == |p.cache| }

  /** What sym_calc_value gives. */
  ghost function Read(g: Graph, p: Progress, i: nat): State
    requires Fits(g, p) && i < |g.decls|
    decreases g.rank[i], 1
  {
    if p.cache[i].Some? then p.cache[i].value else Eval(g.decls[i], p.us[i], ReadEnv(g, p, g.rank[i]))
  }

  ghost function ReadEnv(g: Graph, p: Progress, k: nat): Env
    requires Fits(g, p)
    decreases k, 0
  {
    Env((s: Symbol) => if Declared(g, s, k) then Read(g, p, s.id).tri else NO,
        (s: Symbol) => if Declared(g, s, k) then Read(g, p, s.id).val else "",
        g.modules)
  }

  /** Some symbols, whichever, have been evaluated, and are valid now. */
  ghost predicate Evaluated(g: Graph, p: Progress, p2: Progress) {
    && Fits(g, p) && Fits(g, p2) && p2.us == p.us && p2.unsaved == p.unsaved
    && forall i | 0 <= i < |p.cache| ::
         p2.cache[i] == p.cache[i] || (p.cache[i].None? && p2.cache[i] == Some(Read(g, p, i)))
  }

  /** One turn of the second loop; now is what the first loop has computed. */
  ghost function Turn(g: Graph, now: seq<State>, p: Progress, i: nat): (p2: Progress)
    requires Fits(g, p) && i < |g.decls| == |now|
    ensures Fits(g, p2)
  {
    var u := p.us[i];
    var u2 := if now[i].visible == NO && p.unsaved == 0 then u.(isSet := false) else u;
    if Rejected(g.decls[i], u, ReadEnv(g, p, g.rank[i]))
    then Progress(p.us[i := u2.(isSet := false)], p.cache[i := None], p.unsaved + 1)
    else p.(us := p.us[i := u2])
  }

  /** The first loop counts the symbols whose value is not the one that was read. */
  predicate Counted(d: Decl, now: State, u: User) {
    !d.isAuto &&
    if u.isSet && now.write then (if d.sym.IsTri() then u.tri != now.tri else u.val != now.val)
    else u.isSet || now.write
  }

  ghost function CountedFrom(g: Graph, us: seq<User>, i: nat): nat
    requires |g.rank| == |g.decls| == |us| && i <= |us|
    decreases |us| - i
  {
    if i == |us| then 0
    else CountedFrom(g, us, i + 1) + if Counted(g.decls[i], Spec(g, us, i), us[i]) then 1 else 0
  }

  /** After the first loop all symbols are valid. */
  ghost function FirstLoop(g: Graph, us: seq<User>): (p: Progress)
    requires |g.rank| == |g.decls| == |us|
    ensures Fits(g, p)
  {
    Progress(us, seq(|us|, i requires 0 <= i < |us| => Some(Spec(g, us, i))), CountedFrom(g, us, 0))
  }

  /**
   The second loop, in the order of sweep, with whatever evaluations: ps[n] is
   the state before turn n, and mids[n] that in which it decides.
   */
  ghost predicate SecondLoop(g: Graph, now: seq<State>, sweep: seq<nat>, ps: seq<Progress>, mids: seq<Progress>) {
    && |ps| == |sweep| + 1 == |mids| + 1 && |now| == |g.decls|
    && var turns := forall n {:trigger IsTurn(g, now, ps, mids, sweep, n)} | 0 <= n < |sweep| ::
         IsTurn(g, now, ps, mids, sweep, n);
    turns
  }

  ghost predicate IsTurn(g: Graph, now: seq<State>, ps: seq<Progress>, mids: seq<Progress>, sweep: seq<nat>, n: nat)
    requires |ps| == |sweep| + 1 == |mids| + 1 && |now| == |g.decls| && n < |sweep|
  {
    sweep[n] < |g.decls| && Evaluated(g, ps[n], mids[n]) && ps[n + 1] == Turn(g, now, mids[n], sweep[n])
  }

  /** for_all_symbols: each of the n symbols once. */
  ghost predicate EachOnce(sweep: seq<nat>, n: nat) {
    var once := (forall i | 0 <= i < n :: i in sweep) && (forall a, b | 0 <= a < b < |sweep| :: sweep[a] != sweep[b]);
    once
  }

  /** A whole run of both loops over the user values us that have been read. */
  ghost predicate ConfRead(g: Graph, us: seq<User>, sweep: seq<nat>, ps: seq<Progress>, mids: seq<Progress>)
    requires |g.rank| == |g.decls| == |us|
  {
    EachOnce(sweep, |us|) && SecondLoop(g, SpecTable(g, us), sweep, ps, mids) && ps[0] == FirstLoop(g, us)
  }

  /** The bound that replaces the value of the symbol, if there is one. */
  function LimitOf(d: Decl, user: User, env: Env): Option<int> {
    var r, base := FirstRange(d.ranges, env), BaseOf(d.sym.typ, 0);
    if r.None? then None else Bound(r.value, StrToLL(TextBase(d, user, env), base), base, env)
  }

  /**
   A number that had to be replaced by a bound of its range, which is read back
   beyond a bound again, so that conf_read rejects it; and without it the
   symbol does not get the same bound.
   */
  predicate Drops(d: Decl, user: User, env: Env) {
    var t, r := d.sym.typ, FirstRange(d.ranges, env);
    && (t == S_INT || t == S_HEX) && r.Some? && !d.isAuto && Visible(d, env) > RevDep(d, env)
    && var base, limit := BaseOf(t, 0), LimitOf(d, user, env);
      && limit.Some? && Bound(r.value, Reread(t, limit.value), base, env).Some?
      && Bound(r.value, StrToLL(DefaultText(d, env), base), base, env) != limit
  }

  /** The values that writing, reading and checking together lose. */
  predicate LosesInAll(d: Decl, user: User, env: Env) {
    LosesUnsaved(d, user, env) || if d.sym.IsTri() then LosesTri(d, user, env) else Drops(d, user, env)
  }

  /** How the value of a number is read back. */
  lemma ValueReads(d: Decl, user: User, env: Env)
    requires d.sym.typ == S_INT || d.sym.typ == S_HEX
    ensures var limit, read := LimitOf(d, user, env), StrToLL(TextValue(d, user, env), BaseOf(d.sym.typ, 0));
      if limit.Some? then read == Reread(d.sym.typ, limit.value)
      else read == StrToLL(TextBase(d, user, env), BaseOf(d.sym.typ, 0))
  {
    var limit := LimitOf(d, user, env);
    if limit.Some? { NumberRoundTrip(d.sym.typ, limit.value); }
  }

  lemma WithinIff(d: Decl, val: string, env: Env)
    requires (d.sym.typ == S_INT || d.sym.typ == S_HEX) && StringValid(d.sym.typ, val)
    ensures var r, base := FirstRange(d.ranges, env), BaseOf(d.sym.typ, 0);
      TextWithinRange(d, val, env) <==> r.None? || Bound(r.value, StrToLL(val, base), base, env).None?
  {
  }

  /** The values that the file alone loses: those that do not stay. */
  lemma LosesTextIff(d: Decl, user: User, env: Env)
    requires d.sym.typ == S_INT || d.sym.typ == S_HEX
    ensures LosesText(d, user, env) <==>
      var limit := LimitOf(d, user, env);
      && !d.isAuto && Visible(d, env) > RevDep(d, env)
      && limit.Some? && !Stays(d.sym.typ, limit.value, FirstRange(d.ranges, env).value, env)
  {
    var r, base := FirstRange(d.ranges, env), BaseOf(d.sym.typ, 0);
    if r.Some? { StaysIff(d.sym.typ, StrToLL(TextBase(d, user, env), base), r.value, env); }
  }

  /** A number that has not been written although it could have been has the text of its default. */
  lemma UnwrittenPasses(d: Decl, user: User, env: Env)
    requires (d.sym.typ == S_INT || d.sym.typ == S_HEX) && !Saved(d, Eval(d, user, env), env)
    ensures LosesText(d, user, env) <==> Drops(d, user, env)
  {
    LosesTextIff(d, user, env);
    if !d.isAuto && Visible(d, env) > RevDep(d, env) {
      ValueReads(d, user, env);
      assert TextValue(d, user, env) == DefaultText(d, env);
    }
  }

  /** A number that has been written. */
  lemma WrittenPasses(d: Decl, user: User, env: Env)
    requires (d.sym.typ == S_INT || d.sym.typ == S_HEX) && Saved(d, Eval(d, user, env), env)
    requires StringValid(d.sym.typ, Eval(d, user, env).val)
    ensures Rejected(d, Reloaded(d, user, env), env) <==>
      var r, limit := FirstRange(d.ranges, env), LimitOf(d, user, env);
      limit.Some? && Bound(r.value, Reread(d.sym.typ, limit.value), BaseOf(d.sym.typ, 0), env).Some?
  {
    ValueReads(d, user, env);
    WithinIff(d, TextValue(d, user, env), env);
    assert Reloaded(d, user, env) == User(true, NO, TextValue(d, user, env));
  }

  /** Without the rejected value the symbol has the same one exactly if its default leads to the same bound. */
  lemma RejectedIsKept(d: Decl, user: User, env: Env)
    requires (d.sym.typ == S_INT || d.sym.typ == S_HEX) && Saved(d, Eval(d, user, env), env)
    requires LimitOf(d, user, env).Some?
    ensures var r, base := FirstRange(d.ranges, env), BaseOf(d.sym.typ, 0);
      Eval(d, UNSET, env) == Eval(d, user, env) <==>
      Bound(r.value, StrToLL(DefaultText(d, env), base), base, env) == LimitOf(d, user, env)
  {
    var t, r, base := d.sym.typ, FirstRange(d.ranges, env), BaseOf(d.sym.typ, 0);
    var limit, other := LimitOf(d, user, env), Bound(r.value, StrToLL(DefaultText(d, env), base), base, env);
    assert Eval(d, user, env).val == PrintNumber(t, limit.value);
    assert Eval(d, UNSET, env).val == Clamp(t, DefaultText(d, env), r, env);
    if other.Some? { PrintInjective(t, limit.value, other.value); }
  }

  lemma NumberPasses(d: Decl, user: User, env: Env)
    requires (d.sym.typ == S_INT || d.sym.typ == S_HEX) && UserOk(d.sym, user) && WfEnv(env)
    ensures Eval(d, Accepted(d, Reloaded(d, user, env), env), env) == Eval(d, user, env) <==> !LosesInAll(d, user, env)
  {
    var back := Reloaded(d, user, env);
    Survives(d, user, env);
    if !Saved(d, Eval(d, user, env), env) {
      UnwrittenPasses(d, user, env);
    } else {
      SavedIsPrintable(d, user, env);
      WrittenPasses(d, user, env);
      if Rejected(d, back, env) {
        RejectedIsKept(d, user, env);
        assert Eval(d, Accepted(d, back, env), env) == Eval(d, UNSET, env);
      } else {
        AcceptedIsKept(d, user, env);
      }
    }
  }

  lemma AcceptedIsKept(d: Decl, user: User, env: Env)
    requires (d.sym.typ == S_INT || d.sym.typ == S_HEX) && Saved(d, Eval(d, user, env), env)
    requires TextWithinRange(d, Eval(d, user, env).val, env)
    ensures Eval(d, Reloaded(d, user, env), env) == Eval(d, user, env)
  {
  }

  /** One symbol, written, read and checked: it keeps its value exactly unless it is one of those. */
  lemma PassesIff(d: Decl, user: User, env: Env)
    requires UserOk(d.sym, user) && WfEnv(env)
    ensures Eval(d, Accepted(d, Reloaded(d, user, env), env), env) == Eval(d, user, env) <==> !LosesInAll(d, user, env)
  {
    if d.sym.typ == S_INT || d.sym.typ == S_HEX {
      NumberPasses(d, user, env);
    } else {
      Survives(d, user, env);
    }
  }

  /** With a proper range nothing is dropped. */
  lemma ProperRangesPass(g: Graph, users: seq<User>, i: nat)
    requires |g.rank| == |g.decls| == |users| && i < |users| && RangeOk(g, users, i)
    ensures !Drops(g.decls[i], users[i], EnvOf(g, users, i))
  {
  }

  /** What the checks drop although the file keeps it is a hexadecimal number limited to a negative bound. */
  lemma DropsNegativeHex(d: Decl, user: User, env: Env)
    requires Drops(d, user, env) && !LosesText(d, user, env)
    ensures d.sym.typ == S_HEX && LimitOf(d, user, env).value < 0
    ensures LimitOf(d, user, env).value == RangeVal(FirstRange(d.ranges, env).value.hi, 16, env)
  {
    LosesTextIff(d, user, env);
  }

  /** The symbol holds a value that the checks take away. */
  ghost predicate Dropped(g: Graph, users: seq<User>, i: nat)
    requires |g.rank| == |g.decls| == |users| && i < |users|
  {
    Drops(g.decls[i], users[i], EnvOf(g, users, i))
  }

  ghost predicate NothingDropped(g: Graph, users: seq<User>)
    requires |g.rank| == |g.decls| == |users|
  {
    var none := forall i {:trigger Dropped(g, users, i)} | 0 <= i < |users| :: !Dropped(g, users, i);
    none
  }

  ghost predicate NoneDroppedBelow(g: Graph, users: seq<User>, k: nat)
    requires |g.rank| == |g.decls| == |users|
  {
    forall i {:trigger Dropped(g, users, i)} | 0 <= i < |users| && g.rank[i] < k :: !Dropped(g, users, i)
  }

  /** The user values us have been loaded from a file that loses nothing. */
  ghost predicate LoadedWell(g: Graph, users: seq<User>, us: seq<User>) {
    && Acyclic(g) && |us| == |users| == |g.decls|
    && var all := forall i {:trigger OneLoaded(g, users, us, i)} | 0 <= i < |us| :: OneLoaded(g, users, us, i);
    all
  }

  ghost predicate OneLoaded(g: Graph, users: seq<User>, us: seq<User>, i: nat)
    requires |g.rank| == |g.decls| == |users| == |us| && i < |us|
  {
    && UserOk(g.decls[i].sym, users[i]) && !Lost(g, users, i) && Spec(g, us, i) == Spec(g, users, i)
    && (us[i] == Reloaded(g.decls[i], users[i], EnvOf(g, users, i)) || (us[i] == UNSET && g.decls[i].prompts == []))
  }

  /** The value of i for a user value, all other symbols being as they were before. */
  ghost function ValueWith(g: Graph, users: seq<User>, i: nat, u: User): State
    requires |g.rank| == |g.decls| == |users| && i < |users|
  {
    Eval(g.decls[i], u, EnvOf(g, users, i))
  }

  lemma OutcomeIff(g: Graph, users: seq<User>, us: seq<User>, i: nat)
    requires LoadedWell(g, users, us) && i < |us|
    ensures ValueWith(g, users, i, us[i]) == Spec(g, users, i)
    ensures ValueWith(g, users, i, Accepted(g.decls[i], us[i], EnvOf(g, users, i))) == Spec(g, users, i)
       <==> !Dropped(g, users, i)
  {
    var d, env := g.decls[i], EnvOf(g, users, i);
    assert OneLoaded(g, users, us, i);
    EnvIsWellFormed(g, users, g.rank[i]);
    forall x | 0 <= x < |us| && g.rank[x] < g.rank[i] ensures Spec(g, us, x) == Spec(g, users, x) {
      assert OneLoaded(g, users, us, x);
    }
    EnvAgrees(g, us, users, g.rank[i]);
    EvalAgrees(g, g.rank[i], d, us[i], EnvOf(g, us, i), env);
    if d.prompts == [] {
      NoPromptNoUser(d, users[i], us[i], env);
      NoPromptNoUser(d, users[i], Accepted(d, us[i], env), env);
      assert AnyPrompt(d.prompts, env) == NO;
    } else {
      PassesIff(d, users[i], env);
    }
  }

  /**
   What is known of symbol i when those in seen have had their turn; k is the rank up to which values are followed.
   */
  ghost predicate Held(g: Graph, users: seq<User>, us: seq<User>, p: Progress, seen: seq<nat>, k: nat, i: nat)
    requires Fits(g, p) && |g.decls| == |users| == |us| && i < |us|
  {
    && (i !in seen ==> p.us[i] == us[i] && p.cache[i] == Some(Spec(g, us, i)))
    && (g.rank[i] <= k && p.cache[i].Some? ==> p.cache[i].value == ValueWith(g, users, i, p.us[i]))
    && (g.rank[i] <= k && i in seen ==>
          ValueWith(g, users, i, p.us[i]) ==
          ValueWith(g, users, i, Accepted(g.decls[i], us[i], EnvOf(g, users, i))))
  }

  ghost predicate AllHeld(g: Graph, users: seq<User>, us: seq<User>, p: Progress, seen: seq<nat>, k: nat) {
    && LoadedWell(g, users, us) && Fits(g, p) && NoneDroppedBelow(g, users, k)
    && var held := forall i {:trigger Held(g, users, us, p, seen, k, i)} | 0 <= i < |us| ::
         Held(g, users, us, p, seen, k, i);
    held
  }

  /** Every symbol of lower rank reads as before ... */
  lemma {:induction false} ReadsAsBefore(g: Graph, users: seq<User>, us: seq<User>, p: Progress, seen: seq<nat>, k: nat,
                                         i: nat)
    requires AllHeld(g, users, us, p, seen, k) && i < |us| && g.rank[i] < k
    ensures Read(g, p, i) == Spec(g, users, i)
    decreases g.rank[i]
  {
    assert Held(g, users, us, p, seen, k, i) && !Dropped(g, users, i);
    OutcomeIff(g, users, us, i);
    forall x | 0 <= x < |us| && g.rank[x] < g.rank[i] ensures Read(g, p, x) == Spec(g, users, x) {
      ReadsAsBefore(g, users, us, p, seen, k, x);
    }
    EnvIsRead(g, users, p, g.rank[i]);
    EvalAgrees(g, g.rank[i], g.decls[i], p.us[i], ReadEnv(g, p, g.rank[i]), EnvOf(g, users, i));
  }

  lemma EnvIsRead(g: Graph, users: seq<User>, p: Progress, k: nat)
    requires Fits(g, p) && |g.decls| == |users|
    requires forall x | 0 <= x < |users| && g.rank[x] < k :: Read(g, p, x) == Spec(g, users, x)
    ensures AgreeBelow(g, k, ReadEnv(g, p, k), EnvBelow(g, users, k))
  {
  }

  /** ... so up to that rank conditions and ranges are seen as before, ... */
  lemma SeesAsBefore(g: Graph, users: seq<User>, us: seq<User>, p: Progress, seen: seq<nat>, k: nat, i: nat, u: User)
    requires AllHeld(g, users, us, p, seen, k) && i < |us| && g.rank[i] <= k
    ensures var env := ReadEnv(g, p, g.rank[i]);
      && Eval(g.decls[i], u, env) == ValueWith(g, users, i, u)
      && Rejected(g.decls[i], u, env) == Rejected(g.decls[i], u, EnvOf(g, users, i))
  {
    forall x | 0 <= x < |us| && g.rank[x] < g.rank[i] ensures Read(g, p, x) == Spec(g, users, x) {
      ReadsAsBefore(g, users, us, p, seen, k, x);
    }
    EnvIsRead(g, users, p, g.rank[i]);
    EvalAgrees(g, g.rank[i], g.decls[i], u, ReadEnv(g, p, g.rank[i]), EnvOf(g, users, i));
    WithinRangeAgrees(g, g.rank[i], g.decls[i], u.val, ReadEnv(g, p, g.rank[i]), EnvOf(g, users, i));
  }

  lemma WithinRangeAgrees(g: Graph, k: nat, d: Decl, val: string, env: Env, env2: Env)
    requires |g.rank| == |g.decls| && DeclBelow(g, d, k) && AgreeBelow(g, k, env, env2)
    ensures TextWithinRange(d, val, env) == TextWithinRange(d, val, env2)
  {
    RangesAgree(g, k, d.ranges, env, env2);
    var r := FirstRange(d.ranges, env);
    if r.Some? {
      ValAgrees(g, k, r.value.lo, env, env2);
      ValAgrees(g, k, r.value.hi, env, env2);
    }
  }

  /** ... whatever is evaluated, ... */
  lemma StillHeld(g: Graph, users: seq<User>, us: seq<User>, p: Progress, p2: Progress, seen: seq<nat>, k: nat)
    requires AllHeld(g, users, us, p, seen, k) && Evaluated(g, p, p2)
    ensures AllHeld(g, users, us, p2, seen, k)
  {
    forall i | 0 <= i < |us| ensures Held(g, users, us, p2, seen, k, i) {
      assert Held(g, users, us, p, seen, k, i);
      if g.rank[i] <= k { SeesAsBefore(g, users, us, p, seen, k, i, p.us[i]); }
    }
  }

  /** Where a symbol is not visible its user value does not count. */
  lemma UnseenIsIdle(d: Decl, u: User, env: Env)
    requires Visible(d, env) == NO
    ensures Eval(d, u.(isSet := false), env) == Eval(d, u, env)
  {
  }

  /** ... and whoever's turn it is. */
  lemma OneTurn(g: Graph, users: seq<User>, us: seq<User>, p: Progress, seen: seq<nat>, k: nat, i: nat)
    requires AllHeld(g, users, us, p, seen, k) && i < |us| && i !in seen
    ensures AllHeld(g, users, us, Turn(g, SpecTable(g, us), p, i), seen + [i], k)
  {
    var p2 := Turn(g, SpecTable(g, us), p, i);
    assert Held(g, users, us, p, seen, k, i);
    forall j | 0 <= j < |us| ensures Held(g, users, us, p2, seen + [i], k, j) {
      assert Held(g, users, us, p, seen, k, j);
      if j == i && g.rank[i] <= k { OwnTurn(g, users, us, p, seen, k, i); }
    }
  }

  lemma OwnTurn(g: Graph, users: seq<User>, us: seq<User>, p: Progress, seen: seq<nat>, k: nat, i: nat)
    requires AllHeld(g, users, us, p, seen, k) && i < |us| && i !in seen && g.rank[i] <= k
    ensures Held(g, users, us, Turn(g, SpecTable(g, us), p, i), seen + [i], k, i)
  {
    var d := g.decls[i];
    assert Held(g, users, us, p, seen, k, i);
    SeesAsBefore(g, users, us, p, seen, k, i, us[i]);
    OutcomeIff(g, users, us, i);
    assert OneLoaded(g, users, us, i);
    if Spec(g, us, i).visible == NO && d.sym.typ != S_UNKNOWN && d.sym.typ != S_OTHER {
      assert Spec(g, users, i).visible == Visible(d, EnvOf(g, users, i));
      UnseenIsIdle(d, us[i], EnvOf(g, users, i));
    }
  }

  lemma TurnHolds(g: Graph, users: seq<User>, us: seq<User>, p: Progress, mid: Progress, seen: seq<nat>, k: nat, i: nat)
    requires AllHeld(g, users, us, p, seen, k) && Evaluated(g, p, mid) && i < |us| && i !in seen
    ensures AllHeld(g, users, us, Turn(g, SpecTable(g, us), mid, i), seen + [i], k)
  {
    StillHeld(g, users, us, p, mid, seen, k);
    OneTurn(g, users, us, mid, seen, k, i);
  }

  lemma NextHolds(g: Graph, users: seq<User>, us: seq<User>, sweep: seq<nat>, ps: seq<Progress>, mids: seq<Progress>,
                  k: nat, n: nat)
    requires |g.rank| == |g.decls| == |us| && ConfRead(g, us, sweep, ps, mids) && n < |sweep|
    requires AllHeld(g, users, us, ps[n], sweep[..n], k)
    ensures AllHeld(g, users, us, ps[n + 1], sweep[..n + 1], k)
  {
    NextInSweep(sweep, |us|, n);
    assert IsTurn(g, SpecTable(g, us), ps, mids, sweep, n);
    TurnHolds(g, users, us, ps[n], mids[n], sweep[..n], k, sweep[n]);
  }

  lemma NextInSweep(sweep: seq<nat>, count: nat, n: nat)
    requires EachOnce(sweep, count) && n < |sweep|
    ensures sweep[n] !in sweep[..n] && sweep[..n + 1] == sweep[..n] + [sweep[n]]
  {
  }

  lemma StartHolds(g: Graph, users: seq<User>, us: seq<User>, k: nat)
    requires LoadedWell(g, users, us) && NoneDroppedBelow(g, users, k)
    ensures AllHeld(g, users, us, FirstLoop(g, us), [], k)
  {
    forall i | 0 <= i < |us| ensures Held(g, users, us, FirstLoop(g, us), [], k, i) {
      assert OneLoaded(g, users, us, i);
      OutcomeIff(g, users, us, i);
    }
  }

  lemma {:induction false} LoopHolds(g: Graph, users: seq<User>, us: seq<User>, sweep: seq<nat>, ps: seq<Progress>,
                                     mids: seq<Progress>, k: nat, n: nat)
    requires LoadedWell(g, users, us) && NoneDroppedBelow(g, users, k) && ConfRead(g, us, sweep, ps, mids)
    requires n <= |sweep|
    ensures AllHeld(g, users, us, ps[n], sweep[..n], k)
  {
    if n == 0 {
      StartHolds(g, users, us, k);
      assert sweep[..0] == [];
    } else {
      LoopHolds(g, users, us, sweep, ps, mids, k, n - 1);
      NextHolds(g, users, us, sweep, ps, mids, k, n - 1);
    }
  }

  /** At the end a symbol reads as before exactly if it is not dropped, provided that those below it are not. */
  lemma FinalIff(g: Graph, users: seq<User>, us: seq<User>, sweep: seq<nat>, ps: seq<Progress>, mids: seq<Progress>,
                 i: nat)
    requires LoadedWell(g, users, us) && i < |us| && NoneDroppedBelow(g, users, g.rank[i])
    requires ConfRead(g, us, sweep, ps, mids)
    ensures Fits(g, ps[|sweep|]) && (Read(g, ps[|sweep|], i) == Spec(g, users, i) <==> !Dropped(g, users, i))
  {
    var p, k := ps[|sweep|], g.rank[i];
    LoopHolds(g, users, us, sweep, ps, mids, k, |sweep|);
    assert sweep[..|sweep|] == sweep;
    assert Held(g, users, us, p, sweep, k, i);
    SeesAsBefore(g, users, us, p, sweep, k, i, p.us[i]);
    OutcomeIff(g, users, us, i);
  }

  ghost predicate AllRead(g: Graph, users: seq<User>, p: Progress) {
    Fits(g, p) && |users| == |g.decls| && forall i | 0 <= i < |users| :: Read(g, p, i) == Spec(g, users, i)
  }

  lemma {:induction false} NotDropped(g: Graph, users: seq<User>, us: seq<User>, sweep: seq<nat>, ps: seq<Progress>,
                                      mids: seq<Progress>, i: nat)
    requires LoadedWell(g, users, us) && i < |us| && ConfRead(g, us, sweep, ps, mids)
    requires AllRead(g, users, ps[|sweep|])
    ensures !Dropped(g, users, i)
    decreases g.rank[i]
  {
    forall j | 0 <= j < |us| && g.rank[j] < g.rank[i] ensures !Dropped(g, users, j) {
      NotDropped(g, users, us, sweep, ps, mids, j);
    }
    FinalIff(g, users, us, sweep, ps, mids, i);
  }

  lemma RoundTripLoadsWell(prefix: string, g: Graph, users: seq<User>, order: seq<nat>)
    requires Configuration(prefix, g, users) && Order(g, order) && NothingLost(g, users)
    ensures LoadedWell(g, users, RoundTripped(prefix, g, users, order))
  {
    var us := RoundTripped(prefix, g, users, order);
    LoadSaved(prefix, g, users, order);
    forall i | 0 <= i < |us| ensures OneLoaded(g, users, us, i) {
      AllSurvive(g, users, order, us, i);
      assert us[i] == Want(g, users, order, i);
    }
  }

  /**
   Writing the minimal configuration and reading it with conf_read: whatever
   the order of the symbols, and whatever is evaluated on the way, every symbol
   has its value after the first loop and reads as before after the second,
   exactly when no value is lost by the file and none is dropped by the checks.
   */
  lemma SaveThenConfRead(prefix: string, g: Graph, users: seq<User>, order: seq<nat>, sweep: seq<nat>,
                         ps: seq<Progress>, mids: seq<Progress>)
    requires Configuration(prefix, g, users) && Order(g, order)
    requires ConfRead(g, RoundTripped(prefix, g, users, order), sweep, ps, mids)
    ensures AllRead(g, users, ps[0]) && AllRead(g, users, ps[|sweep|]) <==>
      NothingLost(g, users) && NothingDropped(g, users)
  {
    var us := RoundTripped(prefix, g, users, order);
    FirstReads(g, users, us);
    SaveThenLoad(prefix, g, users, order);
    if NothingLost(g, users) {
      RoundTripLoadsWell(prefix, g, users, order);
      ChecksKeep(g, users, us, sweep, ps, mids);
    }
  }

  lemma ChecksKeep(g: Graph, users: seq<User>, us: seq<User>, sweep: seq<nat>, ps: seq<Progress>, mids: seq<Progress>)
    requires LoadedWell(g, users, us) && ConfRead(g, us, sweep, ps, mids)
    ensures AllRead(g, users, ps[|sweep|]) <==> NothingDropped(g, users)
  {
    if NothingDropped(g, users) {
      LoopHolds(g, users, us, sweep, ps, mids, 0, |sweep|);
      forall i | 0 <= i < |users| ensures Read(g, ps[|sweep|], i) == Spec(g, users, i) {
        FinalIff(g, users, us, sweep, ps, mids, i);
      }
    }
    if AllRead(g, users, ps[|sweep|]) {
      forall i | 0 <= i < |users| ensures !Dropped(g, users, i) { NotDropped(g, users, us, sweep, ps, mids, i); }
    }
  }

  lemma FirstReads(g: Graph, users: seq<User>, us: seq<User>)
    requires |g.rank| == |g.decls| == |us| == |users|
    ensures AllRead(g, users, FirstLoop(g, us)) <==> SpecTable(g, us) == SpecTable(g, users)
  {
    if AllRead(g, users, FirstLoop(g, us)) {
      forall i | 0 <= i < |us| ensures SpecTable(g, us)[i] == SpecTable(g, users)[i] {
        assert Read(g, FirstLoop(g, us), i) == Spec(g, users, i);
      }
    }
    if SpecTable(g, us) == SpecTable(g, users) {
      forall i | 0 <= i < |us| ensures Read(g, FirstLoop(g, us), i) == Spec(g, users, i) {
        assert SpecTable(g, us)[i] == SpecTable(g, users)[i];
      }
    }
  }

  /** A hexadecimal number with a prompt, a default and a range that are quoted texts. */
  function HexBetween(lo: string, hi: string, dflt: string): Graph {
    var a, b, c := Symbol(0, lo, S_UNKNOWN, true), Symbol(1, hi, S_UNKNOWN, true), Symbol(2, dflt, S_UNKNOWN, true);
    var d := Decl(Symbol(3, "A", S_HEX, false), [None], [Default(None, Sym(c))], [Range(None, a, b)], None, None, None,
                  false);
    Graph([Decl(a, [], [], [], None, None, None, false), Decl(b, [], [], [], None, None, None, false),
           Decl(c, [], [], [], None, None, None, false), d],
          false, [0, 0, 0, 1])
  }

  lemma HexIsAllowed(lo: string, hi: string, dflt: string, u: string)
    requires HexValid(u)
    ensures Configuration("CONFIG_", HexBetween(lo, hi, dflt), [UNSET, UNSET, UNSET, User(true, NO, u)])
    ensures Order(HexBetween(lo, hi, dflt), [3])
  {
    HexIsAcyclic(lo, hi, dflt);
    HexNames(lo, hi, dflt);
  }

  lemma HexIsAcyclic(lo: string, hi: string, dflt: string)
    ensures Acyclic(HexBetween(lo, hi, dflt))
  {
    var g := HexBetween(lo, hi, dflt);
    assert DeclBelow(g, g.decls[0], 0) && DeclBelow(g, g.decls[1], 0) && DeclBelow(g, g.decls[2], 0);
    assert DeclBelow(g, g.decls[3], 1);
  }

  lemma HexNames(lo: string, hi: string, dflt: string)
    ensures NamesOk(HexBetween(lo, hi, dflt).decls) && PrefixOk("CONFIG_")
  {
    LettersAreNames();
    assert "CONFIG_"[0] == 'C';
  }

  /** The file keeps such a value, but the checks drop it, if range and default are negative and the value is not. */
  lemma NegativeHexIsDropped(lo: string, hi: string, dflt: string, u: string)
    requires HexValid(u) && StrToLL(lo, 16) <= StrToLL(dflt, 16) <= StrToLL(hi, 16) < 0 <= StrToLL(u, 16)
    ensures var g, users := HexBetween(lo, hi, dflt), [UNSET, UNSET, UNSET, User(true, NO, u)];
      && Configuration("CONFIG_", g, users) && Order(g, [3])
      && NothingLost(g, users) && Dropped(g, users, 3)
  {
    var g, users := HexBetween(lo, hi, dflt), [UNSET, UNSET, UNSET, User(true, NO, u)];
    HexIsAllowed(lo, hi, dflt, u);
    HexIsKeptThenDropped(lo, hi, dflt, u, EnvOf(g, users, 3));
    forall i | 0 <= i < 4 ensures !Lost(g, users, i) {
      if i < 3 { NoPromptNoUser(g.decls[i], users[i], users[i], EnvOf(g, users, i)); }
    }
  }

  lemma HexIsKeptThenDropped(lo: string, hi: string, dflt: string, u: string, env: Env)
    requires StrToLL(lo, 16) <= StrToLL(dflt, 16) <= StrToLL(hi, 16) < 0 <= StrToLL(u, 16)
    ensures var d, user := HexBetween(lo, hi, dflt).decls[3], User(true, NO, u);
      !Loses(d, user, env) && Drops(d, user, env)
  {
    var d := HexBetween(lo, hi, dflt).decls[3];
    assert d.prompts[1..] == [] && AnyPrompt(d.prompts, env) == YES;
    assert FirstDefault(d.defaults, env) == Some(d.defaults[0]);
    assert FirstRange(d.ranges, env) == Some(d.ranges[0]);
  }

  /** For instance the value 1 between -9 and -5, with the default -7. */
  lemma OneIsDropped()
    ensures var g, users := HexBetween("-9", "-5", "-7"), [UNSET, UNSET, UNSET, User(true, NO, "1")];
      && Configuration("CONFIG_", g, users) && Order(g, [3])
      && NothingLost(g, users) && Dropped(g, users, 3)
  {
    OneDigit("-9", true);
    OneDigit("-5", true);
    OneDigit("-7", true);
    OneDigit("1", false);
    assert "1" == ['1'] && HexValid("1");
    NegativeHexIsDropped("-9", "-5", "-7", "1");
  }

  lemma OneDigit(s: string, neg: bool)
    requires if neg then |s| == 2 && s[0] == '-' && IsDigit(s[1]) else |s| == 1 && IsDigit(s[0])
    ensures StrToLL(s, 16) == if neg then 0 - DigitValue(s[1]) else DigitValue(s[0])
  {
    var k := if neg then 1 else 0;
    assert SkipSpace(s, 0) == 0;
    assert Digits(s, k + 1, 16, DigitValue(s[k])) == (DigitValue(s[k]), k + 1);
  }
}

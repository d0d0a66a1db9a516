/**
 Writing the minimal configuration and loading it again: which configurations
 survive, for every acyclic set of symbols without choices.
 */
module Defconfig {
  import opened Tristates
  import opened Numbers
  import opened Exprs
  import opened SymbolSpec
  import opened NumberTexts
  import opened DefconfigSpec
  import opened ConfigText
  import opened Escape

  /** A user value that sym_set_string_value or the reader can have recorded. */
  predicate UserOk(s: Symbol, u: User) {
    u.isSet && !s.IsTri() ==>
      if s.typ == S_STRING then '\n' !in u.val && NUL !in u.val else StringValid(s.typ, u.val)
  }

  /** The symbols and user values the theorems are about. */
  ghost predicate Configuration(prefix: string, g: Graph, users: seq<User>) {
    && Acyclic(g) && |users| == |g.decls|
    && PrefixOk(prefix) && NamesOk(g.decls)
    && (forall i | 0 <= i < |users| :: UserOk(g.decls[i].sym, users[i]))
  }

  /** The order in which the menu tree names the symbols; every symbol with a prompt is in it. */
  ghost predicate Order(g: Graph, order: seq<nat>) {
    && (forall n | 0 <= n < |order| :: order[n] < |g.decls|)
    && (forall i | 0 <= i < |g.decls| && i !in order :: g.decls[i].prompts == [])
  }

  ghost function EnvOf(g: Graph, users: seq<User>, i: nat): Env
    requires |g.rank| == |g.decls| == |users| && i < |users|
  {
    EnvBelow(g, users, g.rank[i])
  }

  /** What conf_write_defconfig writes for symbol i. */
  ghost function SavedText(prefix: string, g: Graph, users: seq<User>, i: nat): string
    requires |g.rank| == |g.decls| == |users| && i < |users|
  {
    var d, now, env := g.decls[i], Spec(g, users, i), EnvOf(g, users, i);
    if Saved(d, now, env) then Line(prefix, d.sym, ValueText(d.sym, now, g.modules)) else ""
  }

  /** The file: a line for every symbol in the order of the menus, none twice. */
  ghost function SaveAll(prefix: string, g: Graph, users: seq<User>, order: seq<nat>): string
    requires |g.rank| == |g.decls| == |users| && forall n | 0 <= n < |order| :: order[n] < |users|
    decreases |order|
  {
    if order == [] then ""
    else
      var before, i := order[..|order| - 1], order[|order| - 1];
      SaveAll(prefix, g, users, before) + if i in before then "" else SavedText(prefix, g, users, i)
  }

  /** The length of the first line, with its line end. */
  function LineLength(file: string): (n: nat)
    ensures n <= |file| && (file != "" ==> n > 0)
  {
    var k := Find(file, '\n');
    if k < |file| then k + 1 else k
  }

  /** The loop of conf_read_simple over the lines of a file. */
  function ReadLines(prefix: string, decls: seq<Decl>, us: seq<User>, file: string): (us2: seq<User>)
    requires |us| == |decls|
    ensures |us2| == |us|
    decreases |file|
  {
    if file == "" then us
    else
      var n := LineLength(file);
      ReadLines(prefix, decls, Apply(decls, us, ParseLine(prefix, file[..n])), file[n..])
  }

  function AllUnset(n: nat): (us: seq<User>)
    ensures |us| == n && forall i | 0 <= i < n :: us[i] == UNSET
  {
    seq(n, _ => UNSET)
  }

  /** conf_read_simple. */
  function Load(prefix: string, decls: seq<Decl>, file: string): (us: seq<User>)
    ensures |us| == |decls|
  {
    ReadLines(prefix, decls, AllUnset(|decls|), file)
  }

  predicate WholeLines(file: string) { file == "" || file[|file| - 1] == '\n' }

  lemma {:induction false} ReadAppend(prefix: string, decls: seq<Decl>, us: seq<User>, file: string, line: string)
    requires |us| == |decls| && WholeLines(file)
    ensures ReadLines(prefix, decls, us, file + line) ==
      ReadLines(prefix, decls, ReadLines(prefix, decls, us, file), line)
    decreases |file|
  {
    if file == "" {
      assert file + line == line;
    } else {
      var n := LineLength(file);
      var k := Find(file, '\n');
      assert file[|file| - 1] == '\n' && k < |file|;
      assert file + line == file[..k] + ['\n'] + (file[n..] + line);
      FindFirst(file[..k], '\n', file[n..] + line);
      assert (file + line)[..n] == file[..n] && (file + line)[n..] == file[n..] + line;
      assert WholeLines(file[n..]) by { if n < |file| { assert file[n..][|file[n..]| - 1] == '\n'; } }
      ReadAppend(prefix, decls, Apply(decls, us, ParseLine(prefix, file[..n])), file[n..], line);
    }
  }

  lemma ReadOne(prefix: string, decls: seq<Decl>, us: seq<User>, body: string)
    requires |us| == |decls| && '\n' !in body
    ensures ReadLines(prefix, decls, us, body + "\n") == Apply(decls, us, ParseLine(prefix, body + "\n"))
  {
    var line := body + "\n";
    assert line == body + ['\n'] + "";
    FindFirst(body, '\n', "");
    assert line[..|line|] == line && line[|line|..] == "";
  }

  /** A line is one line. */
  lemma LineIsOneLine(prefix: string, s: Symbol, now: State, modules: bool)
    requires PrefixOk(prefix) && NameOk(s.name) && s.typ != S_UNKNOWN && s.typ != S_OTHER && Printable(s, now)
    ensures var line := Line(prefix, s, ValueText(s, now, modules));
      line != "" && WholeLines(line) && '\n' !in line[..|line| - 1]
  {
    var value := ValueText(s, now, modules);
    var line := Line(prefix, s, value);
    assert '\n' !in s.name;
    if s.IsTri() {
      assert '\n' !in value;
      assert line[..|line| - 1] == if value[0] == 'n' then "# " + prefix + s.name + " is not set"
        else prefix + s.name + "=" + value;
    } else {
      TextReadsBack(s, value);
      assert line[..|line| - 1] == prefix + s.name + "=" + WrittenText(s, value);
    }
  }

  /** Whatever is written can be read. */
  lemma ClampedIsValid(t: SymType, base: string, r: Option<Range>, env: Env)
    requires t == S_INT || t == S_HEX
    ensures Clamp(t, base, r, env) == base || StringValid(t, Clamp(t, base, r, env))
  {
    if r.Some? {
      var limit := Bound(r.value, StrToLL(base, BaseOf(t, 0)), BaseOf(t, 0), env);
      if limit.Some? { NumberRoundTrip(t, limit.value); }
    }
  }

  lemma SavedIsPrintable(d: Decl, user: User, env: Env)
    requires UserOk(d.sym, user) && WfEnv(env) && Saved(d, Eval(d, user, env), env)
    ensures d.sym.typ != S_UNKNOWN && d.sym.typ != S_OTHER && Printable(d.sym, Eval(d, user, env))
    ensures d.sym.IsTri() && Eval(d, user, env).tri == MOD ==> env.modules
  {
    var now, r := Eval(d, user, env), FirstRange(d.ranges, env);
    if d.sym.typ == S_INT || d.sym.typ == S_HEX { ClampedIsValid(d.sym.typ, TextBase(d, user, env), r, env); }
  }

  /** What writing and loading should leave of the user value of i, if the file is about the symbols seen. */
  ghost function Want(g: Graph, users: seq<User>, seen: seq<nat>, i: nat): User
    requires |g.rank| == |g.decls| == |users| && i < |users|
  {
    if i in seen then Reloaded(g.decls[i], users[i], EnvOf(g, users, i)) else UNSET
  }

  ghost predicate Loaded(g: Graph, users: seq<User>, seen: seq<nat>, us: seq<User>)
    requires |g.rank| == |g.decls| == |users|
  {
    && |us| == |users|
    && var all := forall i {:trigger Want(g, users, seen, i)} {:trigger us[i]} | 0 <= i < |us| ::
       us[i] == Want(g, users, seen, i);
    all
  }

  /** The file consists of lines, and loading it gives the symbols seen their values. */
  ghost predicate LoadsAs(prefix: string, g: Graph, users: seq<User>, seen: seq<nat>, file: string)
    requires |g.rank| == |g.decls| == |users|
  {
    WholeLines(file) && Loaded(g, users, seen, Load(prefix, g.decls, file))
  }

  /** The user values after writing and loading, symbol by symbol. */
  lemma {:induction false} LoadSaved(prefix: string, g: Graph, users: seq<User>, order: seq<nat>)
    requires Configuration(prefix, g, users) && forall n | 0 <= n < |order| :: order[n] < |users|
    ensures LoadsAs(prefix, g, users, order, SaveAll(prefix, g, users, order))
    decreases |order|
  {
    if order == [] {
      LoadNothing(prefix, g, users);
    } else {
      var before, i := order[..|order| - 1], order[|order| - 1];
      assert order == before + [i];
      LoadSaved(prefix, g, users, before);
      LoadSavedStep(prefix, g, users, before, SaveAll(prefix, g, users, before), i);
    }
  }

  lemma LoadNothing(prefix: string, g: Graph, users: seq<User>)
    requires Configuration(prefix, g, users)
    ensures LoadsAs(prefix, g, users, [], "")
  {
  }

  lemma LoadSavedStep(prefix: string, g: Graph, users: seq<User>, before: seq<nat>, file: string, i: nat)
    requires Configuration(prefix, g, users) && i < |users| && LoadsAs(prefix, g, users, before, file)
    ensures LoadsAs(prefix, g, users, before + [i], file + if i in before then "" else SavedText(prefix, g, users, i))
  {
    var us := Load(prefix, g.decls, file);
    assert us[i] == Want(g, users, before, i);
    SeenOneMore(g, users, before, us, i);
    if i in before {
      assert file + "" == file;
    } else {
      LoadOneMore(prefix, g, users, file, us, i);
    }
  }

  lemma SeenOneMore(g: Graph, users: seq<User>, before: seq<nat>, us: seq<User>, i: nat)
    requires |g.rank| == |g.decls| == |users| && i < |users| && Loaded(g, users, before, us)
    ensures Loaded(g, users, before + [i], us[i := Want(g, users, before + [i], i)])
    ensures i in before ==> us[i := Want(g, users, before + [i], i)] == us
  {
    var us2 := us[i := Want(g, users, before + [i], i)];
    forall j | 0 <= j < |us2| ensures us2[j] == Want(g, users, before + [i], j) {
      assert us[j] == Want(g, users, before, j);
    }
  }

  /** One more symbol: its text, read after the others, leaves its user value as it should be. */
  lemma LoadOneMore(prefix: string, g: Graph, users: seq<User>, file: string, us: seq<User>, i: nat)
    requires Configuration(prefix, g, users) && i < |users|
    requires WholeLines(file) && us == Load(prefix, g.decls, file) && us[i] == UNSET
    ensures var file2 := file + SavedText(prefix, g, users, i);
      && WholeLines(file2)
      && Load(prefix, g.decls, file2) == us[i := Reloaded(g.decls[i], users[i], EnvOf(g, users, i))]
  {
    var d, env, now := g.decls[i], EnvOf(g, users, i), Spec(g, users, i);
    if Saved(d, now, env) {
      EnvIsWellFormed(g, users, g.rank[i]);
      SavedIsPrintable(d, users[i], env);
      LoadLine(prefix, g.decls, file, us, i, now, g.modules);
    } else {
      assert file + "" == file;
    }
  }

  lemma LoadLine(prefix: string, decls: seq<Decl>, file: string, us: seq<User>, i: nat, now: State, modules: bool)
    requires PrefixOk(prefix) && NamesOk(decls) && i < |decls|
    requires WholeLines(file) && us == Load(prefix, decls, file) && us[i] == UNSET
    requires var s := decls[i].sym; s.typ != S_UNKNOWN && s.typ != S_OTHER && Printable(s, now)
    requires decls[i].sym.IsTri() && now.tri == MOD ==> modules
    ensures var file2 := file + Line(prefix, decls[i].sym, ValueText(decls[i].sym, now, modules));
      WholeLines(file2) && Load(prefix, decls, file2) == us[i := LineUser(decls[i].sym, now)]
  {
    var line := Line(prefix, decls[i].sym, ValueText(decls[i].sym, now, modules));
    LineIsOneLine(prefix, decls[i].sym, now, modules);
    ReadAppend(prefix, decls, AllUnset(|decls|), file, line);
    var body := line[..|line| - 1];
    assert line == body + "\n";
    ReadOne(prefix, decls, us, body);
    LineRoundTrip(prefix, decls, us, i, now, modules);
  }

  /** A symbol that no menu entry names has no user value to lose. */
  lemma NoPromptNoUser(d: Decl, user: User, user2: User, env: Env)
    requires d.prompts == []
    ensures Eval(d, user, env) == Eval(d, user2, env) && !Loses(d, user, env)
  {
    assert AnyPrompt(d.prompts, env) == NO;
  }

  /** The configuration after writing the minimal configuration and loading it. */
  ghost function RoundTripped(prefix: string, g: Graph, users: seq<User>, order: seq<nat>): (us: seq<User>)
    requires |g.rank| == |g.decls| == |users| && forall n | 0 <= n < |order| :: order[n] < |users|
    ensures |us| == |users|
  {
    Load(prefix, g.decls, SaveAll(prefix, g, users, order))
  }

  /** Symbol i holds one of the values that get lost. */
  ghost predicate Lost(g: Graph, users: seq<User>, i: nat)
    requires |g.rank| == |g.decls| == |users| && i < |users|
  {
    Loses(g.decls[i], users[i], EnvOf(g, users, i))
  }

  ghost predicate NothingLost(g: Graph, users: seq<User>)
    requires |g.rank| == |g.decls| == |users|
  {
    var none := forall i {:trigger Lost(g, users, i)} | 0 <= i < |users| :: !Lost(g, users, i);
    none
  }

  /** Where the symbols below i have kept their values, i keeps its value exactly unless it is one that gets lost. */
  lemma OneSurvives(g: Graph, users: seq<User>, us: seq<User>, i: nat)
    requires Acyclic(g) && |us| == |users| == |g.decls| && i < |users|
    requires us[i] == Reloaded(g.decls[i], users[i], EnvOf(g, users, i)) || (us[i] == UNSET && g.decls[i].prompts == [])
    requires forall x | 0 <= x < |users| && g.rank[x] < g.rank[i] :: Spec(g, us, x) == Spec(g, users, x)
    ensures Spec(g, us, i) == Spec(g, users, i) <==> !Lost(g, users, i)
  {
    var d, k := g.decls[i], g.rank[i];
    EnvIsWellFormed(g, users, k);
    EnvAgrees(g, us, users, k);
    EvalAgrees(g, k, d, us[i], EnvBelow(g, us, k), EnvBelow(g, users, k));
    if d.prompts == [] {
      NoPromptNoUser(d, users[i], us[i], EnvOf(g, users, i));
    } else {
      Survives(d, users[i], EnvOf(g, users, i));
    }
  }

  lemma {:induction false} AllSurvive(g: Graph, users: seq<User>, order: seq<nat>, us: seq<User>, i: nat)
    requires Acyclic(g) && |users| == |g.decls| && i < |users|
    requires Order(g, order) && Loaded(g, users, order, us)
    requires NothingLost(g, users)
    ensures Spec(g, us, i) == Spec(g, users, i)
    decreases g.rank[i]
  {
    forall x | 0 <= x < |users| && g.rank[x] < g.rank[i] ensures Spec(g, us, x) == Spec(g, users, x) {
      AllSurvive(g, users, order, us, x);
    }
    assert us[i] == Want(g, users, order, i);
    assert !Lost(g, users, i);
    OneSurvives(g, users, us, i);
  }

  lemma NoneLost(g: Graph, users: seq<User>, order: seq<nat>, us: seq<User>)
    requires Acyclic(g) && |users| == |g.decls|
    requires Order(g, order) && Loaded(g, users, order, us)
    requires SpecTable(g, us) == SpecTable(g, users)
    ensures NothingLost(g, users)
  {
    forall i | 0 <= i < |users| ensures !Lost(g, users, i) {
      forall x | 0 <= x < |users| ensures Spec(g, us, x) == Spec(g, users, x) {
        assert SpecTable(g, us)[x] == SpecTable(g, users)[x];
      }
      assert us[i] == Want(g, users, order, i);
      OneSurvives(g, users, us, i);
    }
  }

  /**
   Saving the minimal configuration and loading it gives every symbol the same
   value exactly when no symbol holds a value that gets lost.
   */
  lemma SaveThenLoad(prefix: string, g: Graph, users: seq<User>, order: seq<nat>)
    requires Configuration(prefix, g, users) && Order(g, order)
    ensures SpecTable(g, RoundTripped(prefix, g, users, order)) == SpecTable(g, users) <==> NothingLost(g, users)
  {
    var us := RoundTripped(prefix, g, users, order);
    LoadSaved(prefix, g, users, order);
    if SpecTable(g, us) == SpecTable(g, users) { NoneLost(g, users, order, us); }
    if NothingLost(g, users) {
      forall i | 0 <= i < |users| ensures SpecTable(g, us)[i] == SpecTable(g, users)[i] {
        AllSurvive(g, users, order, us, i);
      }
    }
  }

  /** The active range of a number is not empty, and not negative if the number is hexadecimal. */
  ghost predicate RangeOk(g: Graph, users: seq<User>, i: nat)
    requires |g.rank| == |g.decls| == |users| && i < |users|
  {
    var d, env := g.decls[i], EnvOf(g, users, i);
    var t, r := d.sym.typ, FirstRange(d.ranges, env);
    (t == S_INT || t == S_HEX) && r.Some? ==>
      var base := BaseOf(t, 0);
      var lo, hi := RangeVal(r.value.lo, base, env), RangeVal(r.value.hi, base, env);
      lo <= hi && (t == S_HEX ==> lo >= 0)
  }

  /**
   Without modules, and with proper ranges, a configuration survives exactly
   if it has no value that conf_write_defconfig cannot write.
   */
  lemma SaveThenLoadWithoutModules(prefix: string, g: Graph, users: seq<User>, order: seq<nat>)
    requires Configuration(prefix, g, users) && Order(g, order) && !g.modules
    requires forall x | 0 <= x < |users| :: RangeOk(g, users, x)
    ensures SpecTable(g, RoundTripped(prefix, g, users, order)) == SpecTable(g, users) <==> EverythingWritable(g, users)
  {
    forall x | 0 <= x < |users| ensures Lost(g, users, x) == LosesUnsaved(g.decls[x], users[x], EnvOf(g, users, x)) {
      RangeIsKept(g, users, x);
    }
    SaveThenLoad(prefix, g, users, order);
  }

  ghost predicate EverythingWritable(g: Graph, users: seq<User>)
    requires |g.rank| == |g.decls| == |users|
  {
    forall i | 0 <= i < |users| :: !LosesUnsaved(g.decls[i], users[i], EnvOf(g, users, i))
  }

  lemma RangeIsKept(g: Graph, users: seq<User>, i: nat)
    requires |g.rank| == |g.decls| == |users| && i < |users| && RangeOk(g, users, i) && !g.modules
    ensures Lost(g, users, i) == LosesUnsaved(g.decls[i], users[i], EnvOf(g, users, i))
  {
    if g.decls[i].sym.IsTri() { TriSurvivesWithoutModules(g.decls[i], users[i], EnvOf(g, users, i)); }
  }

  /**
   A string with a quoted text as its default, and a bool whose prompt and
   dependencies compare the string with that text.
   */
  function Quoted(text: string, modules: bool): Graph {
    var c, s := Symbol(0, text, S_UNKNOWN, true), Symbol(1, "A", S_STRING, false);
    var differs := Some(Cmp(UNEQUAL, s, c));
    Graph([Decl(c, [], [], [], None, None, None, false),
           Decl(s, [None], [Default(None, Sym(c))], [], None, None, None, false),
           Decl(Symbol(2, "B", S_BOOLEAN, false), [differs], [], [], differs, None, None, false)],
          modules, [0, 1, 2])
  }

  /** Whatever the quoted text, also if it is empty or could be no name, this is a configuration. */
  lemma QuotedTextsAreAllowed(prefix: string, text: string, modules: bool, users: seq<User>)
    requires PrefixOk(prefix) && |users| == 3 && !users[0].isSet && UserOk(Symbol(1, "A", S_STRING, false), users[1])
    ensures Configuration(prefix, Quoted(text, modules), users) && Order(Quoted(text, modules), [1, 2])
  {
    QuotedIsAcyclic(text, modules);
    QuotedNames(text, modules);
  }

  lemma QuotedNames(text: string, modules: bool)
    ensures NamesOk(Quoted(text, modules).decls)
  {
    LettersAreNames();
  }

  lemma LettersAreNames()
    ensures NameOk("A") && NameOk("B") && "A" != "B"
  {
    assert "A"[0] == 'A' && "B"[0] == 'B';
  }

  lemma QuotedIsAcyclic(text: string, modules: bool)
    ensures Acyclic(Quoted(text, modules))
  {
    var g := Quoted(text, modules);
    assert DeclBelow(g, g.decls[0], 0) && DeclBelow(g, g.decls[1], 1) && DeclBelow(g, g.decls[2], 2);
  }

  /** What is not set comes from the quoted text. */
  lemma QuotedDefault(text: string, modules: bool, users: seq<User>)
    requires |users| == 3
    ensures Spec(Quoted(text, modules), users, 1).val == (if users[1].isSet then users[1].val else text)
  {
    var d, env := Quoted(text, modules).decls[1], EnvOf(Quoted(text, modules), users, 1);
    assert d.prompts[1..] == [] && AnyPrompt(d.prompts, env) == YES;
    assert FirstDefault(d.defaults, env) == Some(d.defaults[0]);
  }

  lemma QuotedIsKept(text: string, modules: bool, users: seq<User>)
    requires |users| == 3
    ensures NothingLost(Quoted(text, modules), users)
  {
  }

  /** And whatever the user has set, every value survives. */
  lemma QuotedTextsSurvive(prefix: string, text: string, modules: bool, users: seq<User>)
    requires PrefixOk(prefix) && |users| == 3 && !users[0].isSet && UserOk(Symbol(1, "A", S_STRING, false), users[1])
    ensures var g := Quoted(text, modules); SpecTable(g, RoundTripped(prefix, g, users, [1, 2])) == SpecTable(g, users)
  {
    QuotedTextsAreAllowed(prefix, text, modules, users);
    QuotedIsKept(text, modules, users);
    SaveThenLoad(prefix, Quoted(text, modules), users, [1, 2]);
  }

  /** In particular an empty default, and one that could be no name. */
  lemma QuotedTextsAreConfigurations()
    ensures Configuration("CONFIG_", Quoted("", false), [UNSET, UNSET, UNSET])
    ensures Configuration("CONFIG_", Quoted("a b", false), [UNSET, UNSET, UNSET])
  {
    QuotedTextsAreAllowed("CONFIG_", "", false, [UNSET, UNSET, UNSET]);
    QuotedTextsAreAllowed("CONFIG_", "a b", false, [UNSET, UNSET, UNSET]);
  }

  /** A configuration of one symbol, after writing and loading. */
  lemma OneSymbolLoads(prefix: string, d: Decl, user: User, modules: bool)
    requires Configuration(prefix, Graph([d], modules, [0]), [user])
    ensures var g := Graph([d], modules, [0]);
      && Order(g, [0])
      && RoundTripped(prefix, g, [user], [0]) == [Reloaded(d, user, EnvOf(g, [user], 0))]
  {
    var g := Graph([d], modules, [0]);
    LoadSaved(prefix, g, [user], [0]);
    assert RoundTripped(prefix, g, [user], [0])[0] == Want(g, [user], [0], 0);
  }

  /** With modules a value can be lost: selected as m, visible as m, and y by default. */
  lemma SaveThenLoadCanFail()
    ensures var d := Decl(Symbol(0, "A", S_TRISTATE, false), [Some(Sym(SYMBOL_MOD))],
                          [Default(None, Sym(SYMBOL_YES))], [], None, Some(Sym(SYMBOL_MOD)), None, false);
      var g, users := Graph([d], true, [0]), [User(true, MOD, "")];
      && Configuration("CONFIG_", g, users) && Order(g, [0])
      && Spec(g, users, 0).tri == MOD
      && Spec(g, RoundTripped("CONFIG_", g, users, [0]), 0).tri == YES
  {
    var d := Decl(Symbol(0, "A", S_TRISTATE, false), [Some(Sym(SYMBOL_MOD))], [Default(None, Sym(SYMBOL_YES))], [],
                  None, Some(Sym(SYMBOL_MOD)), None, false);
    var g, users := Graph([d], true, [0]), [User(true, MOD, "")];
    OneSymbolLoads("CONFIG_", d, users[0], true);
    var us := RoundTripped("CONFIG_", g, users, [0]);
    LossExample(d, User(true, MOD, ""), EnvOf(g, users, 0));
    LossExample(d, us[0], EnvOf(g, us, 0));
  }

  lemma LossExample(d: Decl, user: User, env: Env)
    requires d == Decl(Symbol(0, "A", S_TRISTATE, false), [Some(Sym(SYMBOL_MOD))], [Default(None, Sym(SYMBOL_YES))], [],
                       None, Some(Sym(SYMBOL_MOD)), None, false)
    requires env.modules && (user == UNSET || user == User(true, MOD, ""))
    ensures Eval(d, user, env).tri == if user.isSet then MOD else YES
    ensures user.isSet ==> Reloaded(d, user, env) == UNSET
  {
    assert d.prompts[1..] == [] && AnyPrompt(d.prompts, env) == MOD;
    assert FirstDefault(d.defaults, env) == Some(d.defaults[0]);
  }

  /** A visible string, which is set by its user. */
  function VisibleString(revDep: Option<Expr>, isAuto: bool): Decl {
    Decl(Symbol(0, "A", S_STRING, false), [None], [], [], None, revDep, None, isAuto)
  }

  lemma StringIsLost(d: Decl)
    requires d == VisibleString(None, true) || d == VisibleString(Some(Sym(SYMBOL_YES)), false)
    ensures var g, users := Graph([d], false, [0]), [User(true, NO, "x")];
      && Configuration("CONFIG_", g, users) && Order(g, [0]) && RangeOk(g, users, 0)
      && Spec(g, users, 0).val == "x"
      && Spec(g, RoundTripped("CONFIG_", g, users, [0]), 0).val == ""
  {
    var g, users := Graph([d], false, [0]), [User(true, NO, "x")];
    OneSymbolLoads("CONFIG_", d, users[0], false);
    var us := RoundTripped("CONFIG_", g, users, [0]);
    StringExample(d, User(true, NO, "x"), EnvOf(g, users, 0));
    StringExample(d, us[0], EnvOf(g, us, 0));
  }

  lemma StringExample(d: Decl, user: User, env: Env)
    requires d == VisibleString(None, true) || d == VisibleString(Some(Sym(SYMBOL_YES)), false)
    requires user == UNSET || user == User(true, NO, "x")
    ensures Eval(d, user, env).val == if user.isSet then "x" else ""
    ensures Reloaded(d, user, env) == UNSET
  {
    assert AnyPrompt(d.prompts, env) == YES;
  }

  /** Without modules too: a string that gets its value from the environment may have a prompt. */
  lemma EnvironmentIsLost()
    ensures var g, users := Graph([VisibleString(None, true)], false, [0]), [User(true, NO, "x")];
      && Configuration("CONFIG_", g, users) && Order(g, [0]) && RangeOk(g, users, 0)
      && Spec(g, users, 0).val == "x"
      && Spec(g, RoundTripped("CONFIG_", g, users, [0]), 0).val == ""
  {
    StringIsLost(VisibleString(None, true));
  }

  /** And a string may be selected, which only draws a warning. */
  lemma SelectedStringIsLost()
    ensures var g, users := Graph([VisibleString(Some(Sym(SYMBOL_YES)), false)], false, [0]), [User(true, NO, "x")];
      && Configuration("CONFIG_", g, users) && Order(g, [0]) && RangeOk(g, users, 0)
      && Spec(g, users, 0).val == "x"
      && Spec(g, RoundTripped("CONFIG_", g, users, [0]), 0).val == ""
  {
    StringIsLost(VisibleString(Some(Sym(SYMBOL_YES)), false));
  }
}

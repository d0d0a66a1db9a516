/**
 conf_write_defconfig over the menu tree and the symbols, and conf_read_simple:
 the imperative forms of Defconfig.SaveAll and Defconfig.Load.
 */
module ConfigFile {
  import opened Tristates
  import opened Exprs
  import opened SymbolSpec
  import opened SymbolEval
  import opened NumberTexts
  import opened DefconfigSpec
  import opened ConfigText
  import opened Defconfig
  import opened MenuTree
  import Escape

  /** The symbols that the menu entries stand for, in the order of the entries. */
  function SymbolsOf(ms: seq<Menu>): seq<nat> {
    if ms == [] then []
    else SymbolsOf(ms[..|ms| - 1]) + if ms[|ms| - 1].sym.Some? then [ms[|ms| - 1].sym.value.id] else []
  }

  /** Every menu entry that has a symbol has one of the evaluator's. */
  ghost predicate Bound(ev: Evaluator, ms: seq<Menu>)
    reads ev.cells
  {
    ev.Wired() &&
    forall n | 0 <= n < |ms| && ms[n].sym.Some? ::
      ms[n].sym.value.id < |ev.cells| && ev.g.decls[ms[n].sym.value.id].sym == ms[n].sym.value
  }

  lemma {:induction false} BoundInRange(ev: Evaluator, ms: seq<Menu>)
    requires Bound(ev, ms)
    ensures forall n | 0 <= n < |SymbolsOf(ms)| :: SymbolsOf(ms)[n] < |ev.cells|
  {
    if ms != [] {
      assert ms[..|ms| - 1] + [ms[|ms| - 1]] == ms;
      BoundInRange(ev, ms[..|ms| - 1]);
    }
  }

  /** SYMBOL_WRITE of the symbols evaluated so far: cleared for those that have been visited. */
  ghost predicate Marks(ev: Evaluator, table: seq<State>, seen: seq<nat>)
    requires |table| == |ev.cells|
    reads ev.cells
  {
    && (forall i | 0 <= i < |ev.cells| && ev.cells[i].valid :: ev.cells[i].write == (i !in seen && table[i].write))
    && (forall n | 0 <= n < |seen| :: seen[n] < |ev.cells| && ev.cells[seen[n]].valid)
  }

  /** sym_get_string_default. */
  method StringDefault(ev: Evaluator, i: nat, ghost us: seq<User>, ghost table: seq<State>) returns (str: string)
    requires ev.Inv(us, table, {}) && i < |ev.cells| && ev.cells[i].valid && !Untyped(ev.g.decls[i].sym)
    modifies ev.cells
    ensures ev.Inv(us, table, {}) && ev.Progress(table, {})
    ensures str == DefaultText(ev.g.decls[i], TableEnv(ev.g, table, ev.g.rank[i]))
  {
    var c := ev.cells[i];
    var s := c.decl.sym;
    Revisit(ev, i, us, table);
    if !s.IsTri() {
      var dv := ev.CalcTextDefault(i, us, table, {});
      return dv.GetOr("");
    }
    var val := ev.CalcTriDefault(i, us, table, {});
    assert ev.cells[i].valid && SameValues(c.Now(), table[i]);
    assert Solves(ev.g, us, table, i);
    val := Or3(val, c.revDep);
    if val == MOD && !ev.modules { val := YES; }
    if s.typ == S_BOOLEAN && val == MOD { val := YES; }
    if val < c.implied { val := c.implied; }
    str := TriText(val, true);
  }

  /** sym_calc_visibility on a symbol whose value is valid changes nothing. */
  method Revisit(ev: Evaluator, i: nat, ghost us: seq<User>, ghost table: seq<State>)
    requires ev.Inv(us, table, {}) && i < |ev.cells| && ev.cells[i].valid && !Untyped(ev.g.decls[i].sym)
    modifies ev.cells
    ensures ev.Inv(us, table, {}) && ev.Progress(table, {})
  {
    assert Solves(ev.g, us, table, i);
    assert SameValues(ev.cells[i].Now(), table[i]);
    ev.CalcVisibility(i, us, table, {i});
    assert ev.cells[i].Now() == old(ev.cells[i].Now());
  }

  /** conf_write_symbol with kconfig_print_symbol. */
  method WriteSymbol(prefix: string, s: Symbol, value: string) returns (text: string)
    ensures text == Line(prefix, s, value)
  {
    if s.typ == S_OTHER || s.typ == S_UNKNOWN { return ""; }
    var str := value;
    if s.typ == S_STRING {
      var buf := Escape.EscapeStringValue(value);
      str := buf[..buf.Length - 1];
    } else if s.IsTri() && str != "" && str[0] == 'n' {
      return "# " + prefix + s.name + " is not set\n";
    }
    text := prefix + s.name + "=" + str + "\n";
  }

  /** The body of the loop of conf_write_defconfig for an entry with symbol i. */
  method WriteEntry(ev: Evaluator, prefix: string, i: nat, ghost us: seq<User>, ghost table: seq<State>,
                    ghost seen: seq<nat>)
      returns (text: string)
    requires ev.Inv(us, table, {}) && table == SpecTable(ev.g, us) && i < |ev.cells| && Marks(ev, table, seen)
    modifies ev.cells
    ensures ev.Inv(us, table, {}) && Marks(ev, table, seen + [i])
    ensures text == if i in seen then "" else SavedText(prefix, ev.g, us, i)
  {
    var c := ev.cells[i];
    Evaluate(ev, i, us, table, seen);
    TableIsSpec(ev.g, us, table, i);
    if !c.write { return ""; }
    Unmark(ev, i, us, table, seen);
    text := WriteChanged(ev, prefix, i, us, table, seen + [i]);
  }

  method Evaluate(ev: Evaluator, i: nat, ghost us: seq<User>, ghost table: seq<State>, ghost seen: seq<nat>)
    requires ev.Inv(us, table, {}) && i < |ev.cells| && Marks(ev, table, seen)
    modifies ev.cells
    ensures ev.Inv(us, table, {}) && Marks(ev, table, seen) && ev.cells[i].valid &&
      SameValues(ev.cells[i].Now(), table[i])
    ensures ev.cells[i].write == (i !in seen && table[i].write)
    ensures !ev.cells[i].write ==> Marks(ev, table, seen + [i])
    ensures Untyped(ev.g.decls[i].sym) ==> !table[i].write
  {
    ev.CalcValue(i, us, table, {});
    assert Solves(ev.g, us, table, i);
  }

  /** The rest of the body: written if it can be changed and differs from the default. */
  method WriteChanged(ev: Evaluator, prefix: string, i: nat, ghost us: seq<User>, ghost table: seq<State>,
                      ghost seen: seq<nat>)
      returns (text: string)
    requires ev.Inv(us, table, {}) && table == SpecTable(ev.g, us) && i < |ev.cells| && Marks(ev, table, seen)
    requires ev.cells[i].valid && SameValues(ev.cells[i].Now(), table[i]) && table[i].write &&
      !Untyped(ev.g.decls[i].sym)
    modifies ev.cells
    ensures ev.Inv(us, table, {}) && Marks(ev, table, seen)
    ensures text == SavedText(prefix, ev.g, us, i)
  {
    var c := ev.cells[i];
    TableIsSpec(ev.g, us, table, i);
    if c.visible <= c.revDep { return ""; }
    var value := ev.StringValue(c.decl.sym);
    assert value == ValueText(c.decl.sym, table[i], ev.modules);
    var dflt := StringDefault(ev, i, us, table);
    if value == dflt { return ""; }
    text := WriteSymbol(prefix, c.decl.sym, value);
  }

  /** Reading the table of the values is reading the values. */
  lemma TableIsSpec(g: Graph, us: seq<User>, table: seq<State>, i: nat)
    requires Acyclic(g) && |us| == |g.decls| && i < |us| && table == SpecTable(g, us)
    ensures table[i] == Spec(g, us, i)
    ensures Saved(g.decls[i], table[i], EnvOf(g, us, i)) <==>
      table[i].write && table[i].visible > table[i].revDep &&
      ValueText(g.decls[i].sym, table[i], g.modules) != DefaultText(g.decls[i], TableEnv(g, table, g.rank[i]))
  {
    var k := g.rank[i];
    var env, env2 := TableEnv(g, table, k), EnvBelow(g, us, k);
    assert AgreeBelow(g, k, env, env2);
    DefaultTextAgrees(g, k, g.decls[i], env, env2);
  }

  lemma DefaultTextAgrees(g: Graph, k: nat, d: Decl, env: Env, env2: Env)
    requires |g.rank| == |g.decls| && DeclBelow(g, d, k) && AgreeBelow(g, k, env, env2)
    ensures DefaultText(d, env) == DefaultText(d, env2)
  {
    ConditionsAgree(g, k, d, env, env2);
    DefaultAgrees(g, k, d, env, env2);
  }

  /** Clears SYMBOL_WRITE. */
  method Unmark(ev: Evaluator, i: nat, ghost us: seq<User>, ghost table: seq<State>, ghost seen: seq<nat>)
    requires ev.Inv(us, table, {}) && i < |ev.cells| && ev.cells[i].valid && Marks(ev, table, seen) &&
      !Untyped(ev.g.decls[i].sym)
    modifies ev.cells[i]
    ensures ev.Inv(us, table, {}) && Marks(ev, table, seen + [i])
    ensures ev.cells[i].valid && ev.cells[i].Now() == old(ev.cells[i].Now()).(write := false)
  {
    assert forall j | 0 <= j < |ev.cells| && j != i :: ev.cells[j] != ev.cells[i];
    ev.SetNow(i, ev.cells[i].Now().(write := false), us, table, {i}, ev.g.rank[i]);
  }

  /** The state of the writer when it has visited n of the menu entries. */
  ghost predicate Progressed(ev: Evaluator, prefix: string, us: seq<User>, table: seq<State>, ms: seq<Menu>,
                             out: string)
    reads ev.cells
  {
    && ev.Inv(us, table, {}) && table == SpecTable(ev.g, us) && Marks(ev, table, SymbolsOf(ms))
    && (forall m | 0 <= m < |SymbolsOf(ms)| :: SymbolsOf(ms)[m] < |us|)
    && out == SaveAll(prefix, ev.g, us, SymbolsOf(ms))
  }

  method VisitEntry(ev: Evaluator, prefix: string, menu: Menu, out: string, ghost us: seq<User>,
                    ghost table: seq<State>, ghost ms: seq<Menu>)
      returns (out2: string)
    requires Progressed(ev, prefix, us, table, ms, out) && (menu.sym.Some? ==> menu.sym.value.id < |ev.cells|)
    modifies ev.cells
    ensures Progressed(ev, prefix, us, table, ms + [menu], out2)
  {
    ghost var seen := SymbolsOf(ms);
    assert (ms + [menu])[..|ms|] == ms;
    assert menu.sym.None? ==> SymbolsOf(ms + [menu]) == seen;
    out2 := out;
    if menu.sym.Some? {
      var i := menu.sym.value.id;
      assert (seen + [i])[..|seen|] == seen;
      var text := WriteEntry(ev, prefix, i, us, table, seen);
      out2 := out + text;
    }
  }

  /** conf_write_defconfig. */
  method WriteDefconfig(ev: Evaluator, prefix: string, root: Menu, ghost kids: Forest)
      returns (out: string)
    requires Rooted(root, kids) && Bound(ev, kids.Preorder())
    modifies ev.cells
    ensures ev.Wired() && ev.Users() == old(ev.Users()) && ev.Coherent()
    ensures forall n | 0 <= n < |SymbolsOf(kids.Preorder())| :: SymbolsOf(kids.Preorder())[n] < |ev.cells|
    ensures out == SaveAll(prefix, ev.g, ev.Users(), SymbolsOf(kids.Preorder()))
  {
    ghost var us := ev.Users();
    ghost var table := SpecTable(ev.g, us);
    InMemory(kids);
    Restart(ev, prefix, us, table);
    out := WriteEntries(ev, prefix, root, kids, us, table);
    UsersAre(ev, us, table);
  }

  method Restart(ev: Evaluator, prefix: string, ghost us: seq<User>, ghost table: seq<State>)
    requires ev.Wired() && us == ev.Users() && table == SpecTable(ev.g, us)
    modifies ev.cells
    ensures Progressed(ev, prefix, us, table, [], "")
  {
    ev.ClearAllValid();
    SpecIsSolution(ev.g, us);
  }

  /** One turn of its loop, before it moves on. */
  method VisitNext(ev: Evaluator, prefix: string, menu: Menu, out: string, ghost us: seq<User>, ghost table: seq<State>,
                   ghost p: Place, ghost all: seq<Menu>, ghost n: nat)
      returns (out2: string)
    requires Walking(p, menu, all, n) && Progressed(ev, prefix, us, table, all[..n], out)
    requires n < |all| && menu == all[n] && (menu.sym.Some? ==> menu.sym.value.id < |ev.cells|)
    modifies ev.cells
    ensures Walking(p, menu, all, n) && Progressed(ev, prefix, us, table, all[..n + 1], out2)
  {
    PlaceInMemory(p);
    OneMoreVisited(all, n);
    out2 := VisitEntry(ev, prefix, menu, out, us, table, all[..n]);
  }

  /** Its walk over the menu tree. */
  method WriteEntries(ev: Evaluator, prefix: string, root: Menu, ghost kids: Forest,
                      ghost us: seq<User>, ghost table: seq<State>)
      returns (out: string)
    requires Rooted(root, kids) && Progressed(ev, prefix, us, table, [], "")
    requires forall m | m in kids.Preorder() && m.sym.Some? :: m.sym.value.id < |ev.cells|
    modifies ev.cells
    ensures Progressed(ev, prefix, us, table, kids.Preorder(), out)
  {
    ghost var all := kids.Preorder();
    var menu := root.list;
    ghost var p, n := Start(root, kids), 0;
    StartWalking(root, kids);
    out := "";
    while menu != null
      invariant Walking(p, menu, all, n)
      invariant Progressed(ev, prefix, us, table, all[..n], out)
      decreases |all| - n
    {
      NowAt(p, menu, all, n);
      out := VisitNext(ev, prefix, menu, out, us, table, p, all, n);
      menu := Advance(menu, p, all, n);
      p, n := p.Succ(), n + 1;
    }
    Walked(p, all, n);
  }

  lemma UsersAre(ev: Evaluator, us: seq<User>, table: seq<State>)
    requires ev.Inv(us, table, {}) && table == SpecTable(ev.g, us)
    ensures ev.Users() == us && ev.Coherent()
  {
    assert ev.Users() == us;
    ev.CoherentIsInv();
  }

  /** The part of conf_set_sym_val for strings: the quoted text is unescaped in place. */
  method Unquote(p: string) returns (v: Option<string>)
    requires p != "" && Escape.NUL !in p
    ensures v == if p[0] != '"' then None else Escape.Unescaped(p[1..])
  {
    if p[0] != '"' { return None; }
    var buf := new char[|p|];
    forall k | 0 <= k < |p| - 1 { buf[k] := p[k + 1]; }
    buf[|p| - 1] := Escape.NUL;
    assert buf[..|p| - 1] == p[1..] && buf[0..] == buf[..] == p[1..] + [Escape.NUL];
    Escape.CStringIs(buf[0..], p[1..]);
    var ok := Escape.UnescapeInPlace(buf, 0);
    if !ok { return None; }
    v := Some(Escape.CString(buf[0..]));
  }

  /** conf_set_sym_val. */
  method SetValue(c: SymbolCell, p: string)
    requires Escape.NUL !in p
    modifies c`hasUser, c`userTri, c`userVal
    ensures c.UserValue() == SetSymVal(c.decl.sym, old(c.UserValue()), p)
  {
    var s := c.decl.sym;
    if s.typ == S_TRISTATE && p != "" && p[0] == 'm' {
      c.userTri, c.hasUser := MOD, true;
    } else if s.IsTri() {
      if p != "" && p[0] == 'y' { c.userTri, c.hasUser := YES, true; }
      else if p != "" && p[0] == 'n' { c.userTri, c.hasUser := NO, true; }
    } else if s.typ == S_STRING {
      if p != "" {
        var v := Unquote(p);
        if v.Some? { c.userVal, c.hasUser := v.value, true; }
      }
    } else if (s.typ == S_INT || s.typ == S_HEX) && StringValid(s.typ, p) {
      c.userVal, c.hasUser := p, true;
    }
  }

  /** No symbol is flagged valid, and the user values are us. */
  ghost predicate Reset(ev: Evaluator, us: seq<User>)
    reads ev.cells
  {
    ev.Wired() && |us| == |ev.cells| && forall i | 0 <= i < |us| ::
      !ev.cells[i].valid && ev.cells[i].UserValue() == us[i]
  }

  /** What conf_read_simple does for one line. */
  method ReadLine(ev: Evaluator, prefix: string, line: string, ghost us: seq<User>)
    requires Reset(ev, us)
    modifies ev.cells
    ensures Reset(ev, Apply(ev.g.decls, us, ParseLine(prefix, line)))
  {
    var e := ParseLine(prefix, line);
    if e.Nothing? { return; }
    var i := FindCell(ev, e.name);
    if i.None? { return; }
    var c := ev.cells[i.value];
    assert forall j | 0 <= j < |ev.cells| && j != i.value :: ev.cells[j] != c;
    assert c.UserValue() == us[i.value];
    if e.Assign? {
      NoNulInText(prefix, line);
      SetValue(c, e.text);
    } else if c.decl.sym.IsTri() {
      c.userTri, c.hasUser := NO, true;
    }
  }

  lemma SettingHolds(t: string, c: char)
    requires c !in t
    ensures var e := ParseSetting(t); e.Assign? ==> c !in e.text
  {
  }

  lemma NoNulInText(prefix: string, raw: string)
    ensures var e := ParseLine(prefix, raw); e.Assign? ==> Escape.NUL !in e.text
  {
    var line := raw[..Find(raw, Escape.NUL)];
    if prefix <= line { SettingHolds(line[|prefix|..], Escape.NUL); }
  }

  /** sym_find. */
  method FindCell(ev: Evaluator, name: string) returns (r: Option<nat>)
    requires ev.Wired()
    ensures r == FindSymbol(ev.g.decls, name)
  {
    if name == "y" || name == "m" || name == "n" { return None; }
    var i := 0;
    while i < |ev.cells|
      invariant i <= |ev.cells| && FindFrom(ev.g.decls, name, 0) == FindFrom(ev.g.decls, name, i)
    {
      if ev.cells[i].decl.sym.name == name && !ev.cells[i].decl.sym.isConst { return Some(i); }
      i := i + 1;
    }
    r := None;
  }

  /** compat_getline: the characters from pos on, up to and including the line end. */
  method GetLine(file: string, pos: nat) returns (line: string)
    requires pos < |file|
    ensures line == file[pos..][..LineLength(file[pos..])]
  {
    var rest := file[pos..];
    var n := 0;
    while n < |rest| && rest[n] != '\n'
      invariant n <= |rest| && '\n' !in rest[..n]
    {
      assert rest[..n + 1] == rest[..n] + [rest[n]];
      n := n + 1;
    }
    if n < |rest| {
      assert rest == rest[..n] + ['\n'] + rest[n + 1..];
      FindFirst(rest[..n], '\n', rest[n + 1..]);
      n := n + 1;
    } else {
      assert rest[..n] == rest;
      FindNone(rest, '\n');
    }
    line := rest[..n];
  }

  /** Its first loop: forget all user values and all results. */
  method ForgetUsers(ev: Evaluator)
    requires ev.Wired()
    modifies ev.cells
    ensures Reset(ev, AllUnset(|ev.cells|))
  {
    for n := 0 to |ev.cells|
      invariant ev.Wired()
      invariant forall i | 0 <= i < n :: !ev.cells[i].valid && ev.cells[i].UserValue() == UNSET
    {
      var c := ev.cells[n];
      c.valid, c.hasUser, c.userTri, c.userVal := false, false, NO, "";
    }
  }

  /** The file has been read up to pos, which has led to the user values us. */
  ghost predicate Reading(ev: Evaluator, prefix: string, file: string, pos: nat, us: seq<User>)
    reads ev.cells
  {
    pos <= |file| && Reset(ev, us) && ReadLines(prefix, ev.g.decls, us, file[pos..]) == Load(prefix, ev.g.decls, file)
  }

  lemma OneLineRead(prefix: string, decls: seq<Decl>, us: seq<User>, us2: seq<User>, file: string, pos: nat,
                    line: string)
    requires |us| == |decls| && pos < |file| && line == file[pos..][..LineLength(file[pos..])]
    requires us2 == Apply(decls, us, ParseLine(prefix, line))
    ensures line != "" && pos + |line| <= |file|
    ensures ReadLines(prefix, decls, us, file[pos..]) == ReadLines(prefix, decls, us2, file[pos + |line|..])
  {
    var rest := file[pos..];
    assert rest[LineLength(rest)..] == file[pos + |line|..];
  }

  method NextLine(prefix: string, ghost decls: seq<Decl>, file: string, pos: nat, ghost us: seq<User>)
      returns (line: string, pos2: nat, ghost us2: seq<User>)
    requires |us| == |decls| && pos < |file|
    ensures us2 == Apply(decls, us, ParseLine(prefix, line)) && pos < pos2 <= |file|
    ensures ReadLines(prefix, decls, us, file[pos..]) == ReadLines(prefix, decls, us2, file[pos2..])
  {
    line := GetLine(file, pos);
    us2 := Apply(decls, us, ParseLine(prefix, line));
    OneLineRead(prefix, decls, us, us2, file, pos, line);
    pos2 := pos + |line|;
  }

  method ReadNext(ev: Evaluator, prefix: string, file: string, pos: nat, ghost us: seq<User>)
      returns (pos2: nat, ghost us2: seq<User>)
    requires Reading(ev, prefix, file, pos, us) && pos < |file|
    modifies ev.cells
    ensures Reading(ev, prefix, file, pos2, us2) && pos < pos2
  {
    var line;
    line, pos2, us2 := NextLine(prefix, ev.g.decls, file, pos, us);
    ReadLine(ev, prefix, line, us);
  }

  /** conf_read_simple: whatever the file, the user values are those of Load, and no result is considered valid. */
  method ReadConfig(ev: Evaluator, prefix: string, file: string)
    requires ev.Wired()
    modifies ev.cells
    ensures ev.Wired() && ev.Coherent() && ev.Users() == Load(prefix, ev.g.decls, file)
  {
    ForgetUsers(ev);
    ghost var us := AllUnset(|ev.cells|);
    var pos := 0;
    assert file[0..] == file;
    while pos < |file|
      invariant Reading(ev, prefix, file, pos, us)
      decreases |file| - pos
    {
      pos, us := ReadNext(ev, prefix, file, pos, us);
    }
    ReadToEnd(ev, prefix, file, us);
  }

  lemma ReadToEnd(ev: Evaluator, prefix: string, file: string, us: seq<User>)
    requires Reading(ev, prefix, file, |file|, us)
    ensures ev.Coherent() && ev.Users() == Load(prefix, ev.g.decls, file)
  {
    assert file[|file|..] == "" && ev.Users() == us;
  }
}

/**
 The lines of a configuration file: kconfig_print_symbol, conf_write_symbol and
 the parsing half of conf_read_simple and conf_set_sym_val. The prefix of all
 names (CONFIG_) is a parameter.
 */
module ConfigText {
  import opened Tristates
  import opened Exprs
  import opened SymbolSpec
  import opened NumberTexts
  import opened DefconfigSpec
  import opened Escape

  /** strchr: the position of the first c, or the end. */
  function Find(s: string, c: char): (k: nat)
    ensures k <= |s| && c !in s[..k] && (k < |s| ==> s[k] == c)
  {
    if s == "" || s[0] == c then 0
    else
      var k := 1 + Find(s[1..], c);
      assert s[..k] == [s[0]] + s[1..][..k - 1];
      k
  }

  lemma {:induction false} FindFirst(s: string, c: char, t: string)
    requires c !in s
    ensures Find(s + [c] + t, c) == |s|
  {
    if s == "" {
      assert (s + [c] + t)[0] == c;
    } else {
      assert (s + [c] + t)[1..] == s[1..] + [c] + t;
      FindFirst(s[1..], c, t);
    }
  }

  lemma {:induction false} FindNone(s: string, c: char)
    requires c !in s
    ensures Find(s, c) == |s|
  {
    if s != "" { FindNone(s[1..], c); }
  }

  /** What a line says. */
  datatype Entry = Nothing | IsNotSet(name: string) | Assign(name: string, text: string)

  /** The text up to the line end, which may be a CR and LF. */
  function StripEol(p: string): string {
    var k := Find(p, '\n');
    if k == |p| then p
    else if k > 0 && p[k - 1] == '\r' then p[..k - 1]
    else p[..k]
  }

  /** One line of the file; what follows a NUL in it is not seen. */
  function ParseLine(prefix: string, raw: string): Entry {
    ParseCString(prefix, raw[..Find(raw, NUL)])
  }

  function ParseCString(prefix: string, line: string): Entry {
    if line != "" && line[0] == '#' then
      if |line| >= 2 && prefix <= line[2..] then ParseComment(line[2..][|prefix|..]) else Nothing
    else
      if prefix <= line then ParseSetting(line[|prefix|..]) else Nothing
  }

  /** A comment may say that a symbol is not set. */
  function ParseComment(t: string): Entry {
    var k := Find(t, ' ');
    if k == |t| || !("is not set" <= t[k + 1..]) then Nothing else IsNotSet(t[..k])
  }

  function ParseSetting(t: string): Entry {
    var k := Find(t, '=');
    if k == |t| then Nothing else Assign(t[..k], StripEol(t[k + 1..]))
  }

  /** sym_find: y, m and n name constants, to which the reader assigns nothing. */
  function FindSymbol(decls: seq<Decl>, name: string): (r: Option<nat>)
    ensures r.Some? ==> r.value < |decls|
  {
    if name == "y" || name == "m" || name == "n" then None else FindFrom(decls, name, 0)
  }

  function FindFrom(decls: seq<Decl>, name: string, i: nat): (r: Option<nat>)
    requires i <= |decls|
    ensures r.Some? ==> r.value < |decls|
    decreases |decls| - i
  {
    if i == |decls| then None
    else if decls[i].sym.name == name && !decls[i].sym.isConst then Some(i)
    else FindFrom(decls, name, i + 1)
  }

  /** conf_set_sym_val. */
  function SetSymVal(s: Symbol, u: User, p: string): User {
    match s.typ
    case S_TRISTATE => if p != "" && p[0] == 'm' then u.(isSet := true, tri := MOD) else SetBool(u, p)
    case S_BOOLEAN => SetBool(u, p)
    case S_STRING =>
      if p == "" || p[0] != '"' then u
      else var v := Unescaped(p[1..]); if v.None? then u else u.(isSet := true, val := v.value)
    case S_INT => if StringValid(S_INT, p) then u.(isSet := true, val := p) else u
    case S_HEX => if StringValid(S_HEX, p) then u.(isSet := true, val := p) else u
    case _ => u
  }

  function SetBool(u: User, p: string): User {
    if p != "" && p[0] == 'y' then u.(isSet := true, tri := YES)
    else if p != "" && p[0] == 'n' then u.(isSet := true, tri := NO)
    else u
  }

  /** What the reader records for a line. */
  function Apply(decls: seq<Decl>, us: seq<User>, e: Entry): (us2: seq<User>)
    requires |us| == |decls|
    ensures |us2| == |us|
  {
    if e.Nothing? then us
    else
      var i := FindSymbol(decls, e.name);
      if i.None? then us
      else if e.Assign? then us[i.value := SetSymVal(decls[i.value].sym, us[i.value], e.text)]
      else if decls[i.value].sym.IsTri() then us[i.value := us[i.value].(isSet := true, tri := NO)]
      else us
  }

  /** The text of a value, as it appears after the equals sign. */
  function WrittenText(s: Symbol, value: string): string {
    if s.typ == S_STRING then "\"" + Escaped(value) + "\"" else value
  }

  /** conf_write_symbol with kconfig_print_symbol. */
  function Line(prefix: string, s: Symbol, value: string): string {
    if s.typ == S_UNKNOWN || s.typ == S_OTHER then ""
    else if s.IsTri() && value != "" && value[0] == 'n' then "# " + prefix + s.name + " is not set\n"
    else prefix + s.name + "=" + WrittenText(s, value) + "\n"
  }

  /** Names that can stand in a file; those made of letters, digits and "_-/." are among them. */
  predicate NameOk(name: string) {
    && name != "" && name[0] != '#' && ' ' !in name && '=' !in name && '\n' !in name && NUL !in name
    && name != "y" && name != "m" && name != "n"
  }

  predicate PrefixOk(prefix: string) {
    NUL !in prefix && '\n' !in prefix && (prefix != "" ==> prefix[0] != '#')
  }

  lemma StripEolText(text: string, eol: string)
    requires '\n' !in text && (text != "" ==> text[|text| - 1] != '\r') && (eol == "\n" || eol == "\r\n")
    ensures StripEol(text + eol) == text
  {
    if eol == "\n" {
      assert text + eol == text + ['\n'] + "";
      FindFirst(text, '\n', "");
    } else {
      assert text + eol == (text + "\r") + ['\n'] + "";
      FindFirst(text + "\r", '\n', "");
    }
  }

  lemma SettingText(name: string, text: string)
    requires '=' !in name
    ensures ParseSetting(name + "=" + text) == Assign(name, StripEol(text))
  {
    var t := name + "=" + text;
    FindFirst(name, '=', text);
    assert t[|name| + 1..] == text && t[..|name|] == name;
  }

  lemma CommentText(name: string)
    requires ' ' !in name
    ensures ParseComment(name + " is not set\n") == IsNotSet(name)
  {
    var t := name + " is not set\n";
    assert t == name + [' '] + "is not set\n";
    FindFirst(name, ' ', "is not set\n");
    var after := t[|name| + 1..];
    assert after == "is not set\n" && after[..10] == "is not set";
    assert t[..|name|] == name;
  }

  lemma WholeCString(prefix: string, raw: string)
    requires NUL !in raw
    ensures ParseLine(prefix, raw) == ParseCString(prefix, raw)
  {
    FindNone(raw, NUL);
    assert raw[..|raw|] == raw;
  }

  /** Where a line is cut: after the prefix, or after "# " and the prefix. */
  lemma AfterPrefix(prefix: string, rest: string)
    requires PrefixOk(prefix) && NUL !in rest && rest != "" && rest[0] != '#'
    ensures ParseLine(prefix, prefix + rest) == ParseSetting(rest)
  {
    var line := prefix + rest;
    WholeCString(prefix, line);
    assert line[..|prefix|] == prefix && line[|prefix|..] == rest;
    assert line[0] != '#';
  }

  lemma AfterHash(prefix: string, rest: string)
    requires PrefixOk(prefix) && NUL !in rest
    ensures ParseLine(prefix, "# " + prefix + rest) == ParseComment(rest)
  {
    var line, comment := prefix + rest, "# " + prefix + rest;
    WholeCString(prefix, comment);
    assert line[..|prefix|] == prefix && line[|prefix|..] == rest;
    assert comment[2..] == line;
  }

  lemma ParseAssign(prefix: string, name: string, text: string, eol: string)
    requires PrefixOk(prefix) && NameOk(name) && (eol == "\n" || eol == "\r\n")
    requires '\n' !in text && NUL !in text && (text != "" ==> text[|text| - 1] != '\r')
    ensures ParseLine(prefix, prefix + name + "=" + text + eol) == Assign(name, text)
  {
    var rest := name + "=" + (text + eol);
    assert prefix + name + "=" + text + eol == prefix + rest;
    assert rest[0] == name[0];
    AfterPrefix(prefix, rest);
    SettingText(name, text + eol);
    StripEolText(text, eol);
  }

  lemma ParseIsNotSet(prefix: string, name: string)
    requires PrefixOk(prefix) && NameOk(name)
    ensures ParseLine(prefix, "# " + prefix + name + " is not set\n") == IsNotSet(name)
  {
    var rest := name + " is not set\n";
    assert "# " + prefix + name + " is not set\n" == "# " + prefix + rest;
    AfterHash(prefix, rest);
    CommentText(name);
  }

  /**
   Quoted constants have no type and any text. The other symbols can be named in
   a file: their names are proper and all different.
   */
  ghost predicate NamesOk(decls: seq<Decl>) {
    && (forall i | 0 <= i < |decls| ::
          if decls[i].sym.isConst then decls[i].sym.typ == S_UNKNOWN else NameOk(decls[i].sym.name))
    && (forall i, j | 0 <= i < j < |decls| && !decls[i].sym.isConst && !decls[j].sym.isConst ::
          decls[i].sym.name != decls[j].sym.name)
  }

  lemma {:induction false} FindFromFinds(decls: seq<Decl>, i: nat, j: nat)
    requires NamesOk(decls) && j <= i < |decls| && !decls[i].sym.isConst
    ensures FindFrom(decls, decls[i].sym.name, j) == Some(i)
    decreases i - j
  {
    if j < i { FindFromFinds(decls, i, j + 1); }
  }

  /** A value that can be written on a line. */
  predicate Printable(s: Symbol, now: State) {
    if s.IsTri() then s.typ == S_BOOLEAN ==> now.tri != MOD
    else if s.typ == S_STRING then '\n' !in now.val && NUL !in now.val
    else StringValid(s.typ, now.val)
  }

  /** The line of a symbol, read back, gives its value to this symbol and to no other. */
  lemma LineRoundTrip(prefix: string, decls: seq<Decl>, us: seq<User>, i: nat, now: State, modules: bool)
    requires PrefixOk(prefix) && NamesOk(decls) && i < |decls| == |us|
    requires var s := decls[i].sym; s.typ != S_UNKNOWN && s.typ != S_OTHER && Printable(s, now)
    requires decls[i].sym.IsTri() && now.tri == MOD ==> modules
    requires us[i] == UNSET
    ensures Apply(decls, us, ParseLine(prefix, Line(prefix, decls[i].sym, ValueText(decls[i].sym, now, modules)))) ==
            us[i := LineUser(decls[i].sym, now)]
  {
    var s := decls[i].sym;
    var e := ParseLine(prefix, Line(prefix, s, ValueText(s, now, modules)));
    if s.IsTri() { TriLine(prefix, s, now.tri, modules); } else { TextLine(prefix, s, now.val); }
    ApplyNamed(decls, us, i, e);
  }

  /** A line that names symbol i changes the user value of i only. */
  lemma ApplyNamed(decls: seq<Decl>, us: seq<User>, i: nat, e: Entry)
    requires NamesOk(decls) && i < |decls| == |us| && !decls[i].sym.isConst
    requires !e.Nothing? && e.name == decls[i].sym.name
    ensures Apply(decls, us, e) ==
            us[i := if e.Assign? then SetSymVal(decls[i].sym, us[i], e.text)
                    else if decls[i].sym.IsTri() then us[i].(isSet := true, tri := NO) else us[i]]
  {
    FindFromFinds(decls, i, 0);
  }

  lemma TextLine(prefix: string, s: Symbol, value: string)
    requires PrefixOk(prefix) && NameOk(s.name) && (s.typ == S_STRING || s.typ == S_INT || s.typ == S_HEX)
    requires if s.typ == S_STRING then '\n' !in value && NUL !in value else StringValid(s.typ, value)
    ensures var e := ParseLine(prefix, Line(prefix, s, value));
      e.Assign? && e.name == s.name && SetSymVal(s, UNSET, e.text) == User(true, NO, value)
  {
    var text := WrittenText(s, value);
    TextReadsBack(s, value);
    ParseAssign(prefix, s.name, text, "\n");
    assert Line(prefix, s, value) == prefix + s.name + "=" + text + "\n";
  }

  lemma TriLine(prefix: string, s: Symbol, t: Tristate, modules: bool)
    requires PrefixOk(prefix) && NameOk(s.name) && s.IsTri() && (t == MOD ==> modules)
    ensures ParseLine(prefix, Line(prefix, s, TriText(t, modules))) ==
            if t == NO then IsNotSet(s.name) else Assign(s.name, if t == MOD then "m" else "y")
  {
    if t == NO { ParseIsNotSet(prefix, s.name); } else { ParseAssign(prefix, s.name, TriText(t, modules), "\n"); }
  }

  /** A written text is a legal rest of line, from which conf_set_sym_val restores the value. */
  lemma TextReadsBack(s: Symbol, value: string)
    requires s.typ == S_STRING || s.typ == S_INT || s.typ == S_HEX
    requires if s.typ == S_STRING then '\n' !in value && NUL !in value else StringValid(s.typ, value)
    ensures var text := WrittenText(s, value);
      && '\n' !in text && NUL !in text && text != "" && text[|text| - 1] != '\r'
      && SetSymVal(s, UNSET, text) == User(true, NO, value)
  {
    if s.typ == S_STRING {
      EscapedKeepsOut(value, '\n');
      EscapedKeepsOut(value, NUL);
      RoundTrip(value, "");
      var text := WrittenText(s, value);
      assert text[1..] == Escaped(value) + "\"" + "";
    } else {
      ValidIsPrintable(s.typ, value, '\n');
      ValidIsPrintable(s.typ, value, '\r');
      ValidIsPrintable(s.typ, value, NUL);
    }
  }
}

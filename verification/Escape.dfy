/**
 Quoted strings in configuration files: sym_escape_string_value, and the in-place
 unescape loop of conf_set_sym_val.
 */
module Escape {
  import opened Tristates

  const NUL := '\0'

  predicate Special(c: char) { c == '"' || c == '\\' }

  /** s with a backslash before every quote and backslash. */
  function Escaped(s: string): string {
    if s == "" then ""
    else (if Special(s[0]) then ['\\', s[0]] else [s[0]]) + Escaped(s[1..])
  }

  /** The text up to the closing quote, without its backslashes; None if there is no closing quote. */
  function Unescaped(s: string): Option<string> {
    if s == "" then None
    else if s[0] == '"' then Some("")
    else if s[0] == '\\' then
      if |s| == 1 then None else Prepend(s[1], Unescaped(s[2..]))
    else Prepend(s[0], Unescaped(s[1..]))
  }

  function Prepend(c: char, r: Option<string>): Option<string> {
    if r.None? then None else Some([c] + r.value)
  }

  /** Every string survives escaping and unescaping, whatever follows the closing quote. */
  lemma {:induction false} RoundTrip(s: string, rest: string)
    ensures Unescaped(Escaped(s) + "\"" + rest) == Some(s)
  {
    var t := Escaped(s) + "\"" + rest;
    if s == "" {
      assert t[0] == '"';
    } else {
      RoundTrip(s[1..], rest);
      var tail := Escaped(s[1..]) + "\"" + rest;
      assert s == [s[0]] + s[1..];
      if Special(s[0]) {
        assert t == ['\\', s[0]] + tail;
        assert t[2..] == tail;
      } else {
        assert t == [s[0]] + tail;
        assert t[1..] == tail;
      }
    }
  }

  /** Different strings are written differently. */
  lemma EscapedInjective(s: string, t: string)
    requires Escaped(s) == Escaped(t)
    ensures s == t
  {
    RoundTrip(s, "");
    RoundTrip(t, "");
  }

  lemma {:induction false} EscapedAppend(s: string, t: string)
    ensures Escaped(s + t) == Escaped(s) + Escaped(t)
  {
    if s == "" {
      assert s + t == t;
    } else {
      assert (s + t)[1..] == s[1..] + t;
      EscapedAppend(s[1..], t);
    }
  }

  /** Escaping adds no line end and no NUL. */
  lemma {:induction false} EscapedKeepsOut(s: string, c: char)
    requires c !in s && c != '\\'
    ensures c !in Escaped(s)
  {
    if s != "" { EscapedKeepsOut(s[1..], c); }
  }

  /** strcspn(p, "\"\\"): how many characters come before the next special one. */
  method Span(s: string, p: nat) returns (l: nat)
    requires p <= |s|
    ensures p + l <= |s| && (p + l < |s| ==> Special(s[p + l]))
    ensures forall k | p <= k < p + l :: !Special(s[k])
  {
    l := 0;
    while p + l < |s| && !Special(s[p + l])
      invariant p + l <= |s|
      invariant forall k | p <= k < p + l :: !Special(s[k])
    {
      l := l + 1;
    }
  }

  /** Without special characters nothing is escaped. */
  lemma {:induction false} EscapedPlain(s: string)
    requires forall k | 0 <= k < |s| :: !Special(s[k])
    ensures Escaped(s) == s
  {
    if s != "" { EscapedPlain(s[1..]); }
  }

  /**
   sym_escape_string_value: a first pass counts, a second one fills. The buffer
   is filled exactly, with the terminating NUL as its last character.
   */
  method EscapeStringValue(s: string) returns (res: array<char>)
    ensures fresh(res) && res[..] == "\"" + Escaped(s) + "\"" + [NUL]
  {
    var reslen := CountEscaped(s);
    res := new char[reslen];
    res[0] := '"';
    var len, p := 1, 0;
    while true
      invariant p <= |s| && len == 1 + |Escaped(s[..p])| && len + |Escaped(s[p..])| + 2 == res.Length
      invariant res[..len] == "\"" + Escaped(s[..p])
      decreases |s| - p
    {
      var l := Span(s, p);
      CopySpan(s, p, l, res, len);
      len, p := len + l, p + l;
      if p == |s| { break; }
      EscapeChar(s, p, res, len);
      len, p := len + 2, p + 1;
    }
    assert s[..p] == s;
    PutTwo(res, len, '"', NUL);
    assert res[..len + 2] == res[..];
  }

  method PutTwo(res: array<char>, len: nat, c: char, d: char)
    requires len + 2 <= res.Length
    modifies res
    ensures res[..len + 2] == old(res[..len]) + [c, d]
  {
    res[len], res[len + 1] := c, d;
  }

  /** Its first pass. */
  method CountEscaped(s: string) returns (reslen: nat)
    ensures reslen == |Escaped(s)| + 3
  {
    reslen := |s| + 3;
    var p := 0;
    while true
      invariant p <= |s| && reslen == |Escaped(s[..p])| + |s| - p + 3
      decreases |s| - p
    {
      var l := Span(s, p);
      SpanStep(s, p, l);
      p := p + l;
      if p == |s| { break; }
      EscapedStep(s, p);
      reslen := reslen + 1;
      p := p + 1;
    }
    assert s[..p] == s;
  }

  /** strncat(res, p, l). */
  method CopySpan(s: string, p: nat, l: nat, res: array<char>, len: nat)
    requires p + l <= |s| && forall k | p <= k < p + l :: !Special(s[k])
    requires len == 1 + |Escaped(s[..p])| && len + |Escaped(s[p..])| + 2 == res.Length
    requires res[..len] == "\"" + Escaped(s[..p])
    modifies res
    ensures len + l == 1 + |Escaped(s[..p + l])| && len + l + |Escaped(s[p + l..])| + 2 == res.Length
    ensures res[..len + l] == "\"" + Escaped(s[..p + l])
  {
    SpanStep(s, p, l);
    ghost var before := res[..len];
    forall k | 0 <= k < l { res[len + k] := s[p + k]; }
    assert res[..len] == before;
    assert res[len..len + l] == s[p..p + l];
    assert res[..len + l] == res[..len] + res[len..len + l];
  }

  method EscapeChar(s: string, p: nat, res: array<char>, len: nat)
    requires p < |s| && Special(s[p])
    requires len == 1 + |Escaped(s[..p])| && len + |Escaped(s[p..])| + 2 == res.Length
    requires res[..len] == "\"" + Escaped(s[..p])
    modifies res
    ensures len + 2 == 1 + |Escaped(s[..p + 1])| && len + 2 + |Escaped(s[p + 1..])| + 2 == res.Length
    ensures res[..len + 2] == "\"" + Escaped(s[..p + 1])
  {
    EscapedStep(s, p);
    PutTwo(res, len, '\\', s[p]);
  }

  lemma SpanStep(s: string, p: nat, l: nat)
    requires p + l <= |s| && forall k | p <= k < p + l :: !Special(s[k])
    ensures Escaped(s[..p + l]) == Escaped(s[..p]) + s[p..p + l]
    ensures Escaped(s[p..]) == s[p..p + l] + Escaped(s[p + l..])
  {
    EscapedPlain(s[p..p + l]);
    assert s[..p + l] == s[..p] + s[p..p + l];
    EscapedAppend(s[..p], s[p..p + l]);
    assert s[p..] == s[p..p + l] + s[p + l..];
    EscapedAppend(s[p..p + l], s[p + l..]);
  }

  lemma EscapedStep(s: string, p: nat)
    requires p < |s| && Special(s[p])
    ensures Escaped(s[..p + 1]) == Escaped(s[..p]) + ['\\', s[p]]
    ensures Escaped(s[p..]) == ['\\', s[p]] + Escaped(s[p + 1..])
  {
    assert s[..p + 1] == s[..p] + [s[p]];
    EscapedAppend(s[..p], [s[p]]);
    assert s[p..][1..] == s[p + 1..];
  }

  /** The C string in a buffer: the characters before the first NUL. */
  function CString(s: string): (r: string)
    requires NUL in s
    ensures |r| < |s| && s[|r|] == NUL && r == s[..|r|] && NUL !in r
  {
    if s[0] == NUL then ""
    else
      assert s == [s[0]] + s[1..];
      [s[0]] + CString(s[1..])
  }

  /** strpbrk(buf + p, "\"\\"): the next special character before the terminating NUL, or nothing. */
  method FindSpecial(buf: array<char>, p: nat) returns (found: bool, q: nat)
    requires p < buf.Length && NUL in buf[p..]
    ensures p <= q < buf.Length && NUL !in buf[p..q] && NUL in buf[q..]
    ensures forall k | p <= k < q :: buf[k] != NUL && !Special(buf[k])
    ensures if found then Special(buf[q]) else buf[q] == NUL
  {
    q := p;
    while buf[q] != NUL && !Special(buf[q])
      invariant p <= q < buf.Length && NUL !in buf[p..q] && NUL in buf[q..]
      invariant forall k | p <= k < q :: buf[k] != NUL && !Special(buf[k])
      decreases buf.Length - q
    {
      assert buf[q..] == [buf[q]] + buf[q + 1..];
      assert buf[p..q + 1] == buf[p..q] + [buf[q]];
      q := q + 1;
    }
    found := buf[q] != NUL;
  }

  /** memmove(buf + q, buf + q + 1, strlen(buf + q)): drops the character at q from the C string there. */
  method DropChar(buf: array<char>, q: nat)
    requires q < buf.Length && NUL in buf[q..] && buf[q] != NUL
    modifies buf
    ensures buf[..q] == old(buf[..q])
    ensures NUL in buf[q..] && CString(buf[q..]) == old(CString(buf[q..]))[1..]
    ensures q + 1 < buf.Length && NUL in buf[q + 1..]
    ensures |old(CString(buf[q..]))| == 1 ==> buf[q + 1] == NUL
  {
    var n := |CString(buf[q..])|;
    ghost var text := CString(buf[q..]);
    assert forall k | 0 <= k < n :: buf[q + k] == text[k];
    assert buf[q + n] == NUL;
    forall k | 0 <= k < n { buf[q + k] := buf[q + k + 1]; }
    assert buf[q + n - 1] == NUL && buf[q + n] == NUL;
    assert buf[q..][n - 1] == NUL && buf[q + 1..][n - 1] == NUL;
    CStringIs(buf[q..], text[1..]);
  }

  lemma {:induction false} CStringIs(s: string, r: string)
    requires |r| < |s| && s[|r|] == NUL && r == s[..|r|] && NUL !in r
    ensures NUL in s && CString(s) == r
  {
    if r != "" {
      assert s[0] == r[0];
      CStringIs(s[1..], r[1..]);
    }
  }

  /**
   The unescape loop of conf_set_sym_val, on the text after the opening quote.
   It removes backslashes in place, cuts the text at the closing quote, and
   fails if there is none.
   */
  method UnescapeInPlace(buf: array<char>, p: nat) returns (ok: bool)
    requires p < buf.Length && NUL in buf[p..]
    modifies buf
    ensures ok == Unescaped(old(CString(buf[p..]))).Some?
    ensures ok ==> NUL in buf[p..] && CString(buf[p..]) == Unescaped(old(CString(buf[p..]))).value
  {
    ghost var text := CString(buf[p..]);
    var q := p;
    assert buf[p..p] == "";
    PrependNothing(Unescaped(text));
    while true
      invariant p <= q < buf.Length && NUL in buf[q..]
      invariant Going(text, buf[p..q], buf[q..]) || Lost(text, buf[q..])
      decreases buf.Length - q
    {
      var found;
      found, q := NextSpecial(buf, p, q, text);
      if !found { return false; }
      if buf[q] == '"' {
        CutAtQuote(buf, p, q, text);
        return true;
      }
      DropBackslash(buf, p, q, text);
      q := q + 1;
    }
  }

  /** One strpbrk, seen from the text as a whole. */
  method NextSpecial(buf: array<char>, p: nat, q: nat, ghost text: string) returns (found: bool, q2: nat)
    requires p <= q < buf.Length && NUL in buf[q..]
    requires Going(text, buf[p..q], buf[q..]) || Lost(text, buf[q..])
    ensures q <= q2 < buf.Length && NUL in buf[q2..]
    ensures !found ==> Unescaped(text).None?
    ensures found ==> Special(buf[q2]) && Going(text, buf[p..q2], buf[q2..])
  {
    found, q2 := FindSpecial(buf, q);
    assert buf[q..][0] == buf[q];
    if Lost(text, buf[q..]) {
      assert q2 == q;
    } else {
      SkipTo(text, buf[..], p, q, q2);
      if !found { CStringIs(buf[q2..], ""); }
    }
  }

  lemma Pieces(s: string, p: nat, q: nat, q2: nat)
    requires p <= q <= q2 <= |s|
    ensures s[q2..] == s[q..][q2 - q..] && s[p..q2] == s[p..q] + s[q..][..q2 - q]
    ensures forall k | 0 <= k < q2 - q :: s[q..][k] == s[q + k]
  {
  }

  lemma SkipTo(text: string, s: string, p: nat, q: nat, q2: nat)
    requires p <= q <= q2 <= |s| && NUL in s[q2..] && Going(text, s[p..q], s[q..])
    requires forall k | q <= k < q2 :: s[k] != NUL && !Special(s[k])
    ensures Going(text, s[p..q2], s[q2..])
  {
    Pieces(s, p, q, q2);
    SkipPlain(text, s[p..q], s[q..], s[p..q2], s[q2..]);
  }

  /** The closing quote becomes the end of the string. */
  method CutAtQuote(buf: array<char>, p: nat, q: nat, ghost text: string)
    requires p <= q < buf.Length && buf[q] == '"' && Going(text, buf[p..q], buf[q..])
    modifies buf
    ensures NUL in buf[p..] && Unescaped(text) == Some(CString(buf[p..]))
  {
    ghost var done := buf[p..q];
    assert buf[q..][0] == '"';
    assert Unescaped(CString(buf[q..])) == Some("");
    buf[q] := NUL;
    assert buf[p..][..q - p] == buf[p..q] == done && buf[p..][q - p] == NUL;
    CStringIs(buf[p..], done);
    assert done + "" == done;
  }

  /** The text unescapes to done, followed by what the C string in rest unescapes to. */
  ghost predicate Going(text: string, done: string, rest: string) {
    NUL in rest && NUL !in done && Unescaped(text) == PrependAll(done, Unescaped(CString(rest)))
  }

  /** The text has ended in a backslash; what follows is another NUL. */
  ghost predicate Lost(text: string, rest: string) {
    Unescaped(text).None? && rest != "" && rest[0] == NUL
  }

  /** A backslash: the character after it is kept, whatever it is. */
  method DropBackslash(buf: array<char>, p: nat, q: nat, ghost text: string)
    requires p <= q < buf.Length && buf[q] == '\\' && Going(text, buf[p..q], buf[q..])
    modifies buf
    ensures q + 1 < buf.Length && NUL in buf[q + 1..]
    ensures Going(text, buf[p..q + 1], buf[q + 1..]) || Lost(text, buf[q + 1..])
  {
    ghost var here, done := CString(buf[q..]), buf[p..q];
    assert buf[q..][0] == '\\';
    DropChar(buf, q);
    ghost var rest := CString(buf[q..]);
    assert buf[p..q] == done by { assert buf[p..q] == buf[..q][p..]; }
    if rest == "" {
      assert here == ['\\'];
      assert Lost(text, buf[q + 1..]);
    } else {
      assert buf[q..] == [buf[q]] + buf[q + 1..];
      assert here[2..] == rest[1..] == CString(buf[q + 1..]);
      assert Unescaped(here) == PrependAll([buf[q]], Unescaped(rest[1..]));
      PrependAllAppend(done, [buf[q]], Unescaped(rest[1..]));
      assert buf[p..q + 1] == done + [buf[q]];
    }
  }

  function PrependAll(s: string, r: Option<string>): Option<string> {
    if r.None? then None else Some(s + r.value)
  }

  lemma PrependAllAppend(s: string, t: string, r: Option<string>)
    ensures PrependAll(s, PrependAll(t, r)) == PrependAll(s + t, r)
  {
    if r.Some? { assert s + (t + r.value) == s + t + r.value; }
  }

  lemma PrependNothing(r: Option<string>)
    ensures PrependAll("", r) == r
  {
    if r.Some? { assert "" + r.value == r.value; }
  }

  /** Characters that are neither special nor NUL are kept. */
  lemma SkipPlain(text: string, done: string, rest: string, done2: string, rest2: string)
    requires Going(text, done, rest) && |rest2| <= |rest| && NUL in rest2
    requires rest2 == rest[|rest| - |rest2|..] && done2 == done + rest[..|rest| - |rest2|]
    requires forall k | 0 <= k < |rest| - |rest2| :: rest[k] != NUL && !Special(rest[k])
    ensures Going(text, done2, rest2)
  {
    var plain := rest[..|rest| - |rest2|];
    assert rest == plain + rest2;
    CStringSkip(rest, |plain|);
    UnescapedSkip(plain, CString(rest2));
    PrependAllAppend(done, plain, Unescaped(CString(rest2)));
  }

  lemma {:induction false} CStringSkip(rest: string, n: nat)
    requires n <= |rest| && NUL in rest[n..] && NUL !in rest[..n] && NUL in rest
    ensures CString(rest) == rest[..n] + CString(rest[n..])
  {
    var r := rest[..n] + CString(rest[n..]);
    assert rest == rest[..n] + rest[n..];
    assert rest[|r|] == NUL && r == rest[..|r|];
    CStringIs(rest, r);
  }

  lemma {:induction false} UnescapedSkip(plain: string, t: string)
    requires forall k | 0 <= k < |plain| :: !Special(plain[k])
    ensures Unescaped(plain + t) == PrependAll(plain, Unescaped(t))
  {
    if plain == "" {
      assert plain + t == t;
      PrependNothing(Unescaped(t));
    } else {
      assert (plain + t)[0] == plain[0] && (plain + t)[1..] == plain[1..] + t;
      UnescapedSkip(plain[1..], t);
      assert Unescaped(plain + t) == PrependAll([plain[0]], Unescaped(plain[1..] + t));
      PrependAllAppend([plain[0]], plain[1..], Unescaped(t));
      assert plain == [plain[0]] + plain[1..];
    }
  }
}

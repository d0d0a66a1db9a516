/**
 Numbers as they are written into configuration files and read back: sprintf
 followed by sym_string_valid and strtoll.
 */
module NumberTexts {
  import opened Numbers
  import opened Exprs
  import opened SymbolSpec

  predicate AllDigits(s: string) { forall k | 0 <= k < |s| :: IsDigit(s[k]) }
  predicate AllXDigits(s: string) { forall k | 0 <= k < |s| :: IsXDigit(s[k]) }

  /** sym_string_valid for an int symbol: an optional minus, then digits without leading zeros. */
  predicate IntValid(s: string) {
    var t := if s != "" && s[0] == '-' then s[1..] else s;
    t != "" && AllDigits(t) && (t[0] == '0' ==> |t| == 1)
  }

  /** sym_string_valid for a hex symbol: hexadecimal digits, with or without a prefix. */
  predicate HexValid(s: string) {
    var t := if |s| >= 2 && s[0] == '0' && (s[1] == 'x' || s[1] == 'X') then s[2..] else s;
    t != "" && AllXDigits(t)
  }

  /** sym_string_valid. */
  predicate StringValid(t: SymType, s: string) {
    match t
    case S_STRING => true
    case S_INT => IntValid(s)
    case S_HEX => HexValid(s)
    case S_BOOLEAN => TriLetter(s)
    case S_TRISTATE => TriLetter(s)
    case _ => false
  }

  predicate TriLetter(s: string) { s != "" && s[0] in "yYmMnN" }

  lemma DigitChars(d: nat)
    requires d < 16
    ensures DigitValue(DigitChar(d)) == d && IsXDigit(DigitChar(d)) && !IsSpace(DigitChar(d))
    ensures d < 10 ==> IsDigit(DigitChar(d)) && (DigitChar(d) == '0' <==> d == 0)
    ensures DigitChar(d) == '0' ==> d == 0
  {
  }

  /** The digits printed: not empty, all digits, no leading zero. */
  lemma {:induction false} PrintedDigits(n: nat, hex: bool)
    ensures var s := PrintDigits(n, hex);
      s != "" && AllXDigits(s) && (!hex ==> AllDigits(s)) && (s[0] == '0' ==> n == 0 && |s| == 1)
  {
    if n >= (if hex then 16 else 10) {
      var more := if hex then n / 16 else n / 10;
      DigitChars(if hex then n % 16 else n % 10);
      PrintedDigits(more, hex);
      assert PrintDigits(n, hex)[0] == PrintDigits(more, hex)[0];
    } else {
      DigitChars(n);
    }
  }

  /** One more digit at the end. */
  lemma {:induction false} DigitsSnoc(s: string, c: char, i: nat, base: nat, acc: nat)
    requires i <= |s| && Digits(s, i, base, acc).1 == |s| && DigitValue(c) < base && (base == 10 || base == 16)
    ensures Digits(s + [c], i, base, acc) == (Digits(s, i, base, acc).0 * base + DigitValue(c), |s| + 1)
    decreases |s| - i
  {
    var t := s + [c];
    if i < |s| {
      assert t[i] == s[i];
      var acc2 := if base == 10 then acc * 10 + DigitValue(s[i]) else acc * 16 + DigitValue(s[i]);
      assert Digits(s, i, base, acc) == Digits(s, i + 1, base, acc2);
      assert Digits(t, i, base, acc) == Digits(t, i + 1, base, acc2);
      DigitsSnoc(s, c, i + 1, base, acc2);
    } else {
      assert t[i] == c;
      assert Digits(t, i + 1, base, acc * base + DigitValue(c)) == (acc * base + DigitValue(c), i + 1);
    }
  }

  /** Reading the digits that were printed gives the number back. */
  lemma {:induction false} PrintThenScan(pre: string, n: nat, hex: bool)
    ensures Digits(pre + PrintDigits(n, hex), |pre|, if hex then 16 else 10, 0) == (n, |pre| + |PrintDigits(n, hex)|)
  {
    var base := if hex then 16 else 10;
    if n < base {
      DigitChars(n);
      assert Digits(pre, |pre|, base, 0) == (0, |pre|);
      DigitsSnoc(pre, DigitChar(n), |pre|, base, 0);
    } else {
      var more, d := if hex then n / 16 else n / 10, if hex then n % 16 else n % 10;
      var s := pre + PrintDigits(more, hex);
      assert pre + PrintDigits(n, hex) == s + [DigitChar(d)];
      DigitChars(d);
      PrintThenScan(pre, more, hex);
      DigitsSnoc(s, DigitChar(d), |pre|, base, 0);
    }
  }

  lemma IntRoundTrip(v: int)
    requires LLONG_MIN <= v <= LLONG_MAX
    ensures IntValid(PrintNumber(S_INT, v)) && StrToLL(PrintNumber(S_INT, v), 10) == v
  {
    var n, pre := if v < 0 then -v else v, if v < 0 then "-" else "";
    var s := PrintNumber(S_INT, v);
    PrintedDigits(n, false);
    PrintThenScan(pre, n, false);
    assert s == pre + PrintDigits(n, false);
    assert SkipSpace(s, 0) == 0;
  }

  /** A negative hex number is printed as 64-bit two's complement, which strtoll reads as its maximum. */
  function Reread(t: SymType, v: int): int { if t == S_HEX && v < 0 then LLONG_MAX else v }

  lemma HexScan(n: nat)
    ensures var s := "0x" + PrintDigits(n, true);
      HexValid(s) && ScanNumber(s, 16) == Scan(false, n, |s|)
  {
    var s := "0x" + PrintDigits(n, true);
    PrintedDigits(n, true);
    PrintThenScan("0x", n, true);
    assert s[2..] == PrintDigits(n, true) && IsXDigit(s[2]);
    assert SkipSpace(s, 0) == 0;
    assert HexPrefix(s, 0);
  }

  /** strtoll saturates at its maximum. */
  lemma HexReads(n: nat)
    ensures var s := "0x" + PrintDigits(n, true);
      HexValid(s) && StrToLL(s, 16) == if n > LLONG_MAX then LLONG_MAX else n
  {
    HexScan(n);
  }

  /** The conversion to an unsigned 64-bit number. */
  lemma TwosComplement(v: int)
    requires LLONG_MIN <= v <= LLONG_MAX
    ensures v % (ULLONG_MAX + 1) == if v < 0 then v + ULLONG_MAX + 1 else v
  {
  }

  lemma HexRoundTrip(v: int)
    requires LLONG_MIN <= v <= LLONG_MAX
    ensures HexValid(PrintNumber(S_HEX, v)) && StrToLL(PrintNumber(S_HEX, v), 16) == Reread(S_HEX, v)
  {
    TwosComplement(v);
    HexReads(v % (ULLONG_MAX + 1));
  }

  /** A number written with PrintNumber is a valid text, is read back, and holds no line end. */
  lemma NumberRoundTrip(t: SymType, v: int)
    requires t == S_INT || t == S_HEX
    requires LLONG_MIN <= v <= LLONG_MAX
    ensures StringValid(t, PrintNumber(t, v)) && StrToLL(PrintNumber(t, v), BaseOf(t, 0)) == Reread(t, v)
  {
    if t == S_INT { IntRoundTrip(v); } else { HexRoundTrip(v); }
  }

  /** Valid numbers hold no line end and no NUL. */
  lemma ValidIsPrintable(t: SymType, s: string, c: char)
    requires (t == S_INT || t == S_HEX) && StringValid(t, s)
    requires c == '\n' || c == '\r' || c == '\0'
    ensures c !in s && s != ""
  {
    forall k | 0 <= k < |s| ensures s[k] != c {
      if t == S_INT && s[0] == '-' { assert k > 0 ==> s[k] == s[1..][k - 1]; }
      if t == S_HEX && |s| >= 2 && k >= 2 && s[0] == '0' && (s[1] == 'x' || s[1] == 'X') {
        assert s[k] == s[2..][k - 2];
      }
    }
  }

  /** Different numbers are written differently. */
  lemma PrintInjective(t: SymType, v: int, w: int)
    requires (t == S_INT || t == S_HEX) && LLONG_MIN <= v <= LLONG_MAX && LLONG_MIN <= w <= LLONG_MAX
    ensures PrintNumber(t, v) == PrintNumber(t, w) <==> v == w
  {
    if t == S_INT { IntInjective(v, w); } else { HexInjective(v, w); }
  }

  lemma IntInjective(v: int, w: int)
    requires LLONG_MIN <= v <= LLONG_MAX && LLONG_MIN <= w <= LLONG_MAX
    ensures PrintNumber(S_INT, v) == PrintNumber(S_INT, w) <==> v == w
  {
    IntRoundTrip(v);
    IntRoundTrip(w);
  }

  lemma HexInjective(v: int, w: int)
    requires LLONG_MIN <= v <= LLONG_MAX && LLONG_MIN <= w <= LLONG_MAX
    ensures PrintNumber(S_HEX, v) == PrintNumber(S_HEX, w) <==> v == w
  {
    var n, m := v % (ULLONG_MAX + 1), w % (ULLONG_MAX + 1);
    TwosComplement(v);
    TwosComplement(w);
    HexScan(n);
    HexScan(m);
  }
}

/**
 The C library calls that Kconfig uses to read and compare symbol texts:
 strcmp, strtoll and strtoull, with their saturation and error reporting.
 */
module Numbers {
  const LLONG_MIN: int := -0x8000_0000_0000_0000
  const LLONG_MAX: int := 0x7fff_ffff_ffff_ffff
  const ULLONG_MAX: int := 0xffff_ffff_ffff_ffff

  /** The sign of strcmp(a, b). */
  function StrCmp(a: string, b: string): (r: int)
    ensures r == 0 <==> a == b
  {
    if a == [] then (if b == [] then 0 else -1)
    else if b == [] then 1
    else if a[0] < b[0] then -1
    else if a[0] > b[0] then 1
    else
      assert a == [a[0]] + a[1..] && b == [b[0]] + b[1..];
      StrCmp(a[1..], b[1..])
  }

  predicate IsSpace(c: char) { c == ' ' || '\t' <= c <= '\r' }
  predicate IsDigit(c: char) { '0' <= c <= '9' }
  predicate IsXDigit(c: char) { IsDigit(c) || 'a' <= c <= 'f' || 'A' <= c <= 'F' }

  /** The value of a digit character; 99 for a character that is no digit in any base. */
  function DigitValue(c: char): nat {
    if IsDigit(c) then c as int - '0' as int
    else if 'a' <= c <= 'z' then c as int - 'a' as int + 10
    else if 'A' <= c <= 'Z' then c as int - 'A' as int + 10
    else 99
  }

  function SkipSpace(s: string, i: nat): (j: nat)
    requires i <= |s|
    ensures i <= j <= |s|
    decreases |s| - i
  {
    if i < |s| && IsSpace(s[i]) then SkipSpace(s, i + 1) else i
  }

  /** The digits from position i on, accumulated onto acc, and where they stop. */
  function Digits(s: string, i: nat, base: nat, acc: nat): (r: (nat, nat))
    requires i <= |s|
    ensures i <= r.1 <= |s|
    decreases |s| - i
  {
    if i < |s| && DigitValue(s[i]) < base
    then Digits(s, i + 1, base, acc * base + DigitValue(s[i]))
    else (acc, i)
  }

  /** Sign, magnitude and end position; `tail == 0` when nothing was converted. */
  datatype Scan = Scan(neg: bool, mag: nat, tail: nat)

  predicate HexPrefix(s: string, i: nat) {
    i + 2 < |s| && s[i] == '0' && (s[i+1] == 'x' || s[i+1] == 'X') && DigitValue(s[i+2]) < 16
  }

  function ScanNumber(s: string, base: nat): (r: Scan)
    ensures r.tail <= |s|
  {
    var i := SkipSpace(s, 0);
    var neg := i < |s| && s[i] == '-';
    var j := if i < |s| && (s[i] == '-' || s[i] == '+') then i + 1 else i;
    var hex := (base == 0 || base == 16) && HexPrefix(s, j);
    var b := if hex then 16
             else if base != 0 then base
             else if j < |s| && s[j] == '0' then 8 else 10;
    var k := if hex then j + 2 else j;
    var (mag, end) := Digits(s, k, b, 0);
    if end == k then Scan(false, 0, 0) else Scan(neg, mag, end)
  }

  /** strtoll: the saturated value. */
  function StrToLL(s: string, base: nat): (v: int)
    ensures LLONG_MIN <= v <= LLONG_MAX
  {
    var r := ScanNumber(s, base);
    var v: int := if r.neg then 0 - r.mag else r.mag;
    if v < LLONG_MIN then LLONG_MIN else if v > LLONG_MAX then LLONG_MAX else v
  }

  /** Whether strtoll reports ERANGE. */
  predicate StrToLLOverflows(s: string, base: nat) {
    var r := ScanNumber(s, base);
    var v: int := if r.neg then 0 - r.mag else r.mag;
    v < LLONG_MIN || v > LLONG_MAX
  }

  /** strtoull: the negated value wraps, a magnitude beyond 64 bits saturates. */
  function StrToULL(s: string, base: nat): (v: nat) {
    var r := ScanNumber(s, base);
    if r.mag > ULLONG_MAX then ULLONG_MAX
    else if r.neg then (0 - r.mag as int) % (ULLONG_MAX + 1) else r.mag
  }
}

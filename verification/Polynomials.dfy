/**
 Polynomials over the integers modulo two, as their coefficients from the
 highest degree down, and their division by the generator polynomial of
 section 3.2.9 of IEEE 802.3.
 */
module Polynomials {
  type Poly = seq<bool>

  /** x^32 + x^26 + x^23 + x^22 + x^16 + x^12 + x^11 + x^10 + x^8 + x^7 + x^5 + x^4 + x^2 + x + 1. */
  const EXPONENTS: set<int> := {32, 26, 23, 22, 16, 12, 11, 10, 8, 7, 5, 4, 2, 1, 0}

  function Generator(): (g: Poly)
    ensures |g| == 33 && g[0] && forall i | 0 <= i < 33 :: g[i] == (32 - i in EXPONENTS)
  {
    seq(33, i => 32 - i in EXPONENTS)
  }

  function Zeros(n: nat): (p: Poly)
    ensures |p| == n && forall i | 0 <= i < n :: !p[i]
  {
    seq(n, _ => false)
  }

  /** Addition, which is also subtraction. */
  function Add(p: Poly, q: Poly): (r: Poly)
    requires |p| == |q|
    ensures |r| == |p| && forall i | 0 <= i < |p| :: r[i] == (p[i] != q[i])
  {
    seq(|p|, i requires 0 <= i < |p| => p[i] != q[i])
  }

  /** The dividend after the leading coefficient has been eliminated. */
  function Eliminate(p: Poly): (r: Poly)
    requires |p| > 32
    ensures |r| == |p| - 1
  {
    if p[0] then Add(p, Generator() + Zeros(|p| - 33))[1..] else p[1..]
  }

  /** Long division. */
  function Remainder(p: Poly): (r: Poly)
    requires |p| >= 32
    ensures |r| == 32
    decreases |p|
  {
    if |p| == 32 then p else Remainder(Eliminate(p))
  }

  function Quotient(p: Poly): (q: Poly)
    requires |p| >= 32
    ensures |q| == |p| - 32
    decreases |p|
  {
    if |p| == 32 then [] else [p[0]] + Quotient(Eliminate(p))
  }

  /** The multiple of the generator that is subtracted first. */
  function Leading(b: bool, n: nat): (p: Poly)
    ensures |p| == n + 33 && p[0] == b
  {
    (if b then Generator() else Zeros(33)) + Zeros(n)
  }

  /** The product of q and the generator. */
  function TimesGenerator(q: Poly): (p: Poly)
    ensures |p| == |q| + 32
    decreases |q|
  {
    if q == [] then Zeros(32)
    else Add(Leading(q[0], |q| - 1), [false] + TimesGenerator(q[1..]))
  }

  lemma Eliminated(p: Poly)
    requires |p| > 32
    ensures Eliminate(p) == Add(p, Leading(p[0], |p| - 33))[1..]
  {
  }

  /** One line of the long division. */
  lemma DivisionStep(p: Poly, lead: Poly, rest: Poly, r: Poly)
    requires |p| == |lead| == |rest| + 1 > 32 == |r| && p[0] == lead[0]
    requires Add(p, lead)[1..] == Add(rest, Zeros(|rest| - 32) + r)
    ensures p == Add(Add(lead, [false] + rest), Zeros(|p| - 32) + r)
  {
    var sum, rem, rem2 := Add(lead, [false] + rest), Zeros(|p| - 32) + r, Zeros(|rest| - 32) + r;
    forall i | 0 <= i < |p| ensures p[i] == (sum[i] != rem[i]) {
      if i > 0 {
        assert rem[i] == rem2[i - 1];
        assert Add(p, lead)[i] == Add(p, lead)[1..][i - 1] == (rest[i - 1] != rem2[i - 1]);
      }
    }
  }

  /** The division is one: dividend == quotient * generator + remainder. */
  lemma {:induction false} DivisionIsRight(p: Poly)
    requires |p| >= 32
    ensures p == Add(TimesGenerator(Quotient(p)), Zeros(|p| - 32) + Remainder(p))
    decreases |p|
  {
    if |p| > 32 {
      var e, q := Eliminate(p), Quotient(p);
      DivisionIsRight(e);
      Eliminated(p);
      assert q[1..] == Quotient(e);
      DivisionStep(p, Leading(p[0], |p| - 33), TimesGenerator(Quotient(e)), Remainder(e));
    }
  }

  lemma {:induction false} TimesIsLinear(p: Poly, q: Poly)
    requires |p| == |q|
    ensures TimesGenerator(Add(p, q)) == Add(TimesGenerator(p), TimesGenerator(q))
    decreases |p|
  {
    if p != [] {
      TimesIsLinear(p[1..], q[1..]);
      assert Add(p, q)[1..] == Add(p[1..], q[1..]);
    }
  }

  /** A multiple of the generator other than zero has a coefficient above x^31. */
  lemma {:induction false} MultiplesAreLong(q: Poly, k: nat)
    requires k < |q| && q[k] && forall i | 0 <= i < k :: !q[i]
    ensures TimesGenerator(q)[k]
    decreases k
  {
    if k > 0 { MultiplesAreLong(q[1..], k - 1); }
  }

  lemma Cancel(p: Poly, t: Poly, a: Poly, u: Poly, b: Poly)
    requires |p| == |t| == |a| == |u| == |b| && p == Add(t, a) && p == Add(u, b)
    ensures Add(t, u) == Add(a, b)
  {
    forall i | 0 <= i < |p| ensures Add(t, u)[i] == Add(a, b)[i] {
      assert p[i] == (t[i] != a[i]) && p[i] == (u[i] != b[i]);
    }
  }

  /** The remainder is the only one: no other polynomial of degree below 32 differs from the dividend by a multiple. */
  lemma RemainderIsUnique(p: Poly, q: Poly, r: Poly)
    requires |p| >= 32 && |q| == |p| - 32 && |r| == 32
    requires p == Add(TimesGenerator(q), Zeros(|q|) + r)
    ensures r == Remainder(p)
  {
    DivisionIsRight(p);
    var q2, r2 := Quotient(p), Remainder(p);
    TimesIsLinear(q, q2);
    Cancel(p, TimesGenerator(q), Zeros(|q|) + r, TimesGenerator(q2), Zeros(|q|) + r2);
    SmallMultipleIsZero(Add(q, q2), r, r2);
  }

  lemma PaddedSum(n: nat, r: Poly, r2: Poly)
    requires |r| == |r2|
    ensures Add(Zeros(n) + r, Zeros(n) + r2) == Zeros(n) + Add(r, r2)
  {
  }

  lemma ZeroSum(r: Poly, r2: Poly)
    requires |r| == |r2| && Add(r, r2) == Zeros(|r|)
    ensures r == r2
  {
    forall i | 0 <= i < |r| ensures r[i] == r2[i] { assert !Add(r, r2)[i]; }
  }

  lemma ZeroTail(n: nat, p: Poly)
    requires Zeros(n) + p == Zeros(n + |p|)
    ensures p == Zeros(|p|)
  {
    forall i | 0 <= i < |p| ensures !p[i] { assert p[i] == (Zeros(n) + p)[n + i]; }
  }

  lemma SmallMultipleIsZero(d: Poly, r: Poly, r2: Poly)
    requires |r| == |r2| == 32 && TimesGenerator(d) == Add(Zeros(|d|) + r, Zeros(|d|) + r2)
    ensures r == r2
  {
    PaddedSum(|d|, r, r2);
    OnlyZero(d, Add(r, r2));
    ZeroTail(|d|, Add(r, r2));
    ZeroSum(r, r2);
  }

  lemma OnlyZero(d: Poly, low: Poly)
    requires TimesGenerator(d) == Zeros(|d|) + low
    ensures Zeros(|d|) + low == Zeros(|d| + 32)
  {
    var t := TimesGenerator(d);
    assert forall i | 0 <= i < |d| :: !t[i];
    QuotientIsZero(d, t);
    TimesZero(|d|);
  }

  lemma QuotientIsZero(d: Poly, t: Poly)
    requires t == TimesGenerator(d) && forall i | 0 <= i < |d| :: !t[i]
    ensures d == Zeros(|d|)
  {
    var k := FirstSet(d, 0);
    if k < |d| { MultiplesAreLong(d, k); }
  }

  function FirstSet(p: Poly, k: nat): (r: nat)
    requires k <= |p| && forall i | 0 <= i < k :: !p[i]
    ensures r <= |p| && (r < |p| ==> p[r]) && forall i | 0 <= i < r :: !p[i]
    decreases |p| - k
  {
    if k == |p| || p[k] then k else FirstSet(p, k + 1)
  }

  lemma {:induction false} TimesZero(n: nat)
    ensures TimesGenerator(Zeros(n)) == Zeros(n + 32)
  {
    if n > 0 {
      assert Zeros(n)[1..] == Zeros(n - 1);
      TimesZero(n - 1);
    }
  }
}

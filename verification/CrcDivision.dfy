/** The word that crc32 computes is the remainder of a division of polynomials. */
module CrcDivision {
  import opened CrcTable
  import opened Crc
  import opened Polynomials

  predicate TopBit(c: bv32) { c & 0x8000_0000 != 0 }

  function Double(c: bv32): bv32 { c << 1 }

  /** The n leading digits of c, if top reads the first one and shift drops it. */
  function Leading<T>(top: T -> bool, shift: T -> T, c: T, n: nat): (p: Poly)
    ensures |p| == n
    decreases n
  {
    if n == 0 then [] else [top(c)] + Leading(top, shift, shift(c), n - 1)
  }

  /** The n leading bits of a word. */
  function Bits(c: bv32, n: nat): (p: Poly)
    ensures |p| == n
  {
    Leading(TopBit, Double, c, n)
  }

  ghost predicate ReadsDigit<T(!new)>(top: T -> bool, op: (T, T) -> T) {
    forall a, b :: top(op(a, b)) == (top(a) != top(b))
  }

  lemma {:induction false} LeadingOfSum<T(!new)>(top: T -> bool, shift: T -> T, op: (T, T) -> T, a: T, b: T, n: nat)
    requires Preserves(shift, op) && ReadsDigit(top, op)
    ensures Leading(top, shift, op(a, b), n) == Add(Leading(top, shift, a, n), Leading(top, shift, b, n))
    decreases n
  {
    if n > 0 { LeadingOfSum(top, shift, op, shift(a), shift(b), n - 1); }
  }

  lemma {:induction false} LeadingSplit<T>(top: T -> bool, shift: T -> T, c: T, m: nat, n: nat)
    ensures Leading(top, shift, c, m + n) == Leading(top, shift, c, m) + Leading(top, shift, Iterate(shift, c, m), n)
    decreases m
  {
    if m > 0 { LeadingSplit(top, shift, shift(c), m - 1, n); }
  }

  /** Shifting drops the first digit and appends the next one. */
  lemma LeadingOfShift<T>(top: T -> bool, shift: T -> T, c: T, n: nat)
    requires n > 0
    ensures Leading(top, shift, shift(c), n) == Leading(top, shift, c, n)[1..] + [top(Iterate(shift, c, n))]
  {
    LeadingSplit(top, shift, c, n, 1);
    var all, first, t := Leading(top, shift, c, n + 1), Leading(top, shift, c, n), top(Iterate(shift, c, n));
    assert Leading(top, shift, Iterate(shift, c, n), 1) == [t] && all == first + [t];
    assert all[1..] == Leading(top, shift, shift(c), n);
    assert (first + [t])[1..] == first[1..] + [t];
  }

  lemma {:induction false} IterateSplit<T>(f: T -> T, c: T, m: nat, n: nat)
    ensures Iterate(f, c, m + n) == Iterate(f, Iterate(f, c, m), n)
    decreases m
  {
    if m > 0 { IterateSplit(f, f(c), m - 1, n); }
  }

  lemma DoubleOfXor(a: bv32, b: bv32)
    ensures Double(Xor(a, b)) == Xor(Double(a), Double(b))
  {
  }

  lemma TopOfXor(a: bv32, b: bv32)
    ensures TopBit(Xor(a, b)) == (TopBit(a) != TopBit(b))
  {
  }

  lemma DoublePreservesXor()
    ensures Preserves(Double, Xor)
  {
    forall a, b ensures Double(Xor(a, b)) == Xor(Double(a), Double(b)) { DoubleOfXor(a, b); }
  }

  lemma TopBitReadsXor()
    ensures ReadsDigit(TopBit, Xor)
  {
    forall a, b ensures TopBit(Xor(a, b)) == (TopBit(a) != TopBit(b)) { TopOfXor(a, b); }
  }

  lemma BitsOfXor(a: bv32, b: bv32, n: nat)
    ensures Bits(Xor(a, b), n) == Add(Bits(a, n), Bits(b, n))
  {
    DoublePreservesXor();
    TopBitReadsXor();
    LeadingOfSum(TopBit, Double, Xor, a, b, n);
  }

  /** c without its first byte. */
  function Drop8(c: bv32): bv32 { c << 8 }

  lemma DropEight(c: bv32)
    ensures Iterate(Double, c, 8) == Drop8(c)
  {
  }

  lemma SplitByte(c: bv32, n: nat)
    ensures Bits(c, 8 + n) == Bits(c, 8) + Bits(Drop8(c), n)
  {
    DropEight(c);
    LeadingSplit(TopBit, Double, c, 8, n);
  }

  lemma NothingLeft(c: bv32)
    ensures Drop8(Drop8(Drop8(Drop8(c)))) == 0
  {
  }

  lemma DropAll(c: bv32)
    ensures Iterate(Double, c, 32) == 0
  {
    IterateSplit(Double, c, 8, 24);
    DropEight(c);
    IterateSplit(Double, Drop8(c), 8, 16);
    DropEight(Drop8(c));
    IterateSplit(Double, Drop8(Drop8(c)), 8, 8);
    DropEight(Drop8(Drop8(c)));
    DropEight(Drop8(Drop8(Drop8(c))));
    NothingLeft(c);
  }

  /** Shifting a word shifts its bits. */
  lemma BitsOfShift(c: bv32)
    ensures Bits(c << 1, 32) == Bits(c, 32)[1..] + [false]
  {
    LeadingOfShift(TopBit, Double, c, 32);
    DropAll(c);
  }

  lemma {:induction false} BitsOfZero(n: nat)
    ensures Bits(0, n) == Zeros(n)
    decreases n
  {
    if n > 0 { BitsOfZero(n - 1); }
  }

  lemma FourDigits<T>(top: T -> bool, shift: T -> T, c: T, d: T, e: T, f: T, g: T, n: nat)
    requires shift(c) == d && shift(d) == e && shift(e) == f && shift(f) == g
    ensures Leading(top, shift, c, n + 4) == [top(c), top(d), top(e), top(f)] + Leading(top, shift, g, n)
  {
    assert Leading(top, shift, f, n + 1) == [top(f)] + Leading(top, shift, g, n);
    assert Leading(top, shift, e, n + 2) == [top(e)] + Leading(top, shift, f, n + 1);
    assert Leading(top, shift, d, n + 3) == [top(d)] + Leading(top, shift, e, n + 2);
    assert Leading(top, shift, c, n + 4) == [top(c)] + Leading(top, shift, d, n + 3);
  }

  lemma EightDigits<T>(top: T -> bool, shift: T -> T, c: T, d: T, e: T, f: T, g: T, h: T, i: T, j: T, k: T)
    requires shift(c) == d && shift(d) == e && shift(e) == f && shift(f) == g
    requires shift(g) == h && shift(h) == i && shift(i) == j && shift(j) == k
    ensures Leading(top, shift, c, 8) == [top(c), top(d), top(e), top(f), top(g), top(h), top(i), top(j)]
  {
    FourDigits(top, shift, c, d, e, f, g, 4);
    FourDigits(top, shift, g, h, i, j, k, 0);
  }

  lemma NextShifts(c: bv32)
    ensures Double(c) == c << 1 && Double(c << 1) == c << 2 && Double(c << 2) == c << 3 && Double(c << 3) == c << 4
    ensures Double(c << 4) == c << 5 && Double(c << 5) == c << 6 && Double(c << 6) == c << 7 && Double(c << 7) == c << 8
  {
  }

  lemma EightBits(c: bv32)
    ensures Bits(c, 8) == [TopBit(c), TopBit(c << 1), TopBit(c << 2), TopBit(c << 3),
                           TopBit(c << 4), TopBit(c << 5), TopBit(c << 6), TopBit(c << 7)]
  {
    NextShifts(c);
    EightDigits(TopBit, Double, c, c << 1, c << 2, c << 3, c << 4, c << 5, c << 6, c << 7, c << 8);
  }

  lemma BytesOfPoly()
    ensures Bits(POLY, 8) == [false, false, false, false, false, true, false, false]
    ensures Bits(0xc11d_b700, 8) == [true, true, false, false, false, false, false, true]
    ensures Bits(0x1db7_0000, 8) == [false, false, false, true, true, true, false, true]
    ensures Bits(0xb700_0000, 8) == [true, false, true, true, false, true, true, true]
  {
    EightBits(POLY);
    EightBits(0xc11d_b700);
    EightBits(0x1db7_0000);
    EightBits(0xb700_0000);
  }

  lemma JoinBytes(p: Poly, q: Poly, r: Poly, s: Poly)
    requires p == [false, false, false, false, false, true, false, false]
    requires q == [true, true, false, false, false, false, false, true]
    requires r == [false, false, false, true, true, true, false, true]
    requires s == [true, false, true, true, false, true, true, true]
    ensures p + (q + (r + s)) == Generator()[1..]
  {
  }

  /** 0x04c11db7 stands for the generator without its leading coefficient. */
  lemma BitsOfPoly()
    ensures Bits(POLY, 32) == Generator()[1..]
  {
    SplitByte(POLY, 24);
    SplitByte(0xc11d_b700, 16);
    SplitByte(0x1db7_0000, 8);
    BytesOfPoly();
    JoinBytes(Bits(POLY, 8), Bits(0xc11d_b700, 8), Bits(0x1db7_0000, 8), Bits(0xb700_0000, 8));
  }

  /** The bits of the register, as the leading part of what is still to be divided. */
  function Before(bits: Poly, tail: Poly): (p: Poly)
    requires |bits| == 32 <= |tail|
    ensures |p| == |tail|
  {
    Add(bits + Zeros(|tail| - 32), tail)
  }

  function Dividend(c: bv32, tail: Poly): (p: Poly)
    requires |tail| >= 32
    ensures |p| == |tail|
  {
    Before(Bits(c, 32), tail)
  }

  /** What one step makes of the register's bits. */
  lemma BitsOfStep(c: bv32)
    ensures Bits(c, 32)[0] == TopBit(c)
    ensures Bits(Step(c), 32) ==
      if TopBit(c) then Add(Bits(c, 32)[1..] + [false], Generator()[1..]) else Bits(c, 32)[1..] + [false]
  {
    BitsOfShift(c);
    if TopBit(c) {
      BitsOfPoly();
      BitsOfXor(c << 1, POLY, 32);
    }
  }

  /** One step of the register is one line of the long division. */
  lemma StepEliminates(c: bv32, tail: Poly)
    requires |tail| > 32 && !tail[0]
    ensures Eliminate(Dividend(c, tail)) == Dividend(Step(c), tail[1..])
  {
    BitsOfStep(c);
    Eliminated(Dividend(c, tail));
    OneLine(Bits(c, 32), Bits(Step(c), 32), tail);
  }

  lemma OneLine(bits: Poly, bits2: Poly, tail: Poly)
    requires |bits| == |bits2| == 32 < |tail| && !tail[0]
    requires bits2 == if bits[0] then Add(bits[1..] + [false], Generator()[1..]) else bits[1..] + [false]
    ensures Eliminate(Before(bits, tail)) == Before(bits2, tail[1..])
  {
    var p, want := Before(bits, tail), Before(bits2, tail[1..]);
    forall i | 0 <= i < |want| ensures Eliminate(p)[i] == want[i] {
      if i < 32 {
        assert bits2[i] == if bits[0] then (bits[1..] + [false])[i] != Generator()[i + 1] else (bits[1..] + [false])[i];
      }
    }
  }

  lemma {:induction false} StepsEliminate(c: bv32, tail: Poly, n: nat)
    requires |tail| >= 32 + n && forall i | 0 <= i < n :: !tail[i]
    ensures Remainder(Dividend(c, tail)) == Remainder(Dividend(Steps(c, n), tail[n..]))
    decreases n
  {
    if n == 0 {
      assert tail[0..] == tail;
    } else {
      StepEliminates(c, tail);
      StepsEliminate(Step(c), tail[1..], n - 1);
      assert tail[1..][n - 1..] == tail[n..];
    }
  }

  /** A byte, as the leading part of a word. */
  function ByteWord(x: Uint8): bv32 { ((x as bv8) as bv32) << 24 }

  /** The bits of a buffer, the most significant bit of every byte first. */
  function Message(buf: seq<Uint8>): (p: Poly)
    ensures |p| == 8 * |buf|
    decreases |buf|
  {
    if buf == [] then [] else Bits(ByteWord(buf[0]), 8) + Message(buf[1..])
  }

  lemma ByteOnTop(w: bv32)
    requires Drop8(w) == 0
    ensures Bits(w, 32) == Bits(w, 8) + Zeros(24)
  {
    SplitByte(w, 24);
    BitsOfZero(24);
  }

  lemma SumOfByte(c: bv32, w: bv32)
    requires Drop8(w) == 0
    ensures Bits(Xor(c, w), 32) == Add(Bits(c, 32), Bits(w, 8) + Zeros(24))
  {
    ByteOnTop(w);
    BitsOfXor(c, w, 32);
  }

  /** A byte added to the register has been taken from the message. */
  lemma LoadByte(c: bv32, w: bv32, tail: Poly)
    requires |tail| >= 32 && Drop8(w) == 0
    ensures Dividend(c, Bits(w, 8) + tail) == Dividend(Xor(c, w), Zeros(8) + tail)
  {
    SumOfByte(c, w);
    MoveByte(Bits(c, 32), Bits(w, 8), Bits(Xor(c, w), 32), tail);
  }

  lemma MoveByte(bits: Poly, byte: Poly, sum: Poly, tail: Poly)
    requires |bits| == |sum| == 32 <= |tail| && |byte| == 8 && sum == Add(bits, byte + Zeros(24))
    ensures Before(bits, byte + tail) == Before(sum, Zeros(8) + tail)
  {
  }

  /** Dividing one byte more. */
  lemma DivideByte(c: bv32, w: bv32, tail: Poly)
    requires |tail| >= 32 && Drop8(w) == 0
    ensures Remainder(Dividend(c, Bits(w, 8) + tail)) == Remainder(Dividend(Steps(Xor(c, w), 8), tail))
  {
    LoadByte(c, w, tail);
    StepsEliminate(Xor(c, w), Zeros(8) + tail, 8);
    assert (Zeros(8) + tail)[8..] == tail;
  }

  lemma UpdateSteps(crc: bv32, b: bv8)
    ensures Drop8((b as bv32) << 24) == 0
    ensures Update(crc, b) == Steps(Xor(crc, (b as bv32) << 24), 8)
  {
    UpdateIsEightSteps(crc, b);
    ByteIsEightSteps(Xor(crc, (b as bv32) << 24));
  }

  lemma UpdateDivides(crc: bv32, x: Uint8, tail: Poly)
    requires |tail| >= 32
    ensures Remainder(Dividend(crc, Bits(ByteWord(x), 8) + tail)) == Remainder(Dividend(Update(crc, x as bv8), tail))
  {
    UpdateSteps(crc, x as bv8);
    DivideByte(crc, ByteWord(x), tail);
  }

  /** Once the message is read, the register is the remainder. */
  lemma NothingToDivide(crc: bv32)
    ensures Remainder(Dividend(crc, Zeros(32))) == Bits(crc, 32)
  {
    assert Dividend(crc, Zeros(32)) == Bits(crc, 32);
  }

  lemma FirstByte(byte: Poly, rest: Poly, zeros: Poly)
    ensures byte + rest + zeros == byte + (rest + zeros)
  {
  }

  lemma {:induction false} CrcIsDividend(crc: bv32, buf: seq<Uint8>)
    ensures Bits(Crc32(crc, buf), 32) == Remainder(Dividend(crc, Message(buf) + Zeros(32)))
    decreases |buf|
  {
    if buf == [] {
      NothingToDivide(crc);
      assert Message(buf) + Zeros(32) == Zeros(32);
    } else {
      FirstByte(Bits(ByteWord(buf[0]), 8), Message(buf[1..]), Zeros(32));
      UpdateDivides(crc, buf[0], Message(buf[1..]) + Zeros(32));
      CrcIsDividend(Update(crc, buf[0] as bv8), buf[1..]);
    }
  }

  /**
   The word computed by crc32 is the remainder of the message, followed by 32
   zeros, with the start value added to its leading coefficients.
   */
  lemma CrcIsRemainder(crc: bv32, buf: seq<Uint8>)
    ensures Bits(Crc32(crc, buf), 32) == Remainder(Add(Bits(crc, 32) + Zeros(8 * |buf|), Message(buf) + Zeros(32)))
  {
    CrcIsDividend(crc, buf);
  }
}

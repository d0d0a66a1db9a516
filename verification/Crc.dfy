/**
 crc32: the table-driven loop computes the remainder of a division by the
 generator polynomial of section 3.2.9 of IEEE 802.3.
 */
module Crc {
  import opened CrcTable

  /** uint8_t. */
  type Uint8 = x: int | 0 <= x < 256

  /** The position in the table for the next byte. */
  function Index(crc: bv32, b: bv8): (i: bv32)
    ensures i < 256
  {
    ((crc >> 24) ^ (b as bv32)) & 0xff
  }

  /** One turn of the loop. */
  function Update(crc: bv32, b: bv8): bv32 {
    (crc << 8) ^ TableWord(Index(crc, b) as nat)
  }

  function Crc32(crc: bv32, buf: seq<Uint8>): bv32
    decreases |buf|
  {
    if buf == [] then crc else Crc32(Update(crc, buf[0] as bv8), buf[1..])
  }

  /** crc32. */
  method ComputeCrc32(start: bv32, buf: array<Uint8>, length: nat) returns (crc: bv32)
    requires length <= buf.Length
    ensures crc == Crc32(start, buf[..length])
  {
    crc := start;
    ghost var all := buf[..length];
    for i := 0 to length
      invariant Crc32(crc, all[i..]) == Crc32(start, all)
    {
      assert all[i..][0] == buf[i] && all[i..][1..] == all[i + 1..];
      crc := Update(crc, buf[i] as bv8);
    }
    assert all[length..] == [];
  }

  /** The word to be divided, as its top byte and the rest. */
  lemma TopAndRest(crc: bv32, b: bv8)
    ensures var rest := crc & 0x00ff_ffff;
      Xor(Index(crc, b) << 24, rest) == crc ^ ((b as bv32) << 24)
      && rest & 0xff00_0000 == 0 && rest << 8 == crc << 8
  {
  }

  /** Eight steps shift a word with a zero byte on top. */
  lemma EightShifts(z: bv32)
    requires z & 0xff00_0000 == 0
    ensures Byte(z) == z << 8
  {
  }

  lemma RestIsShifted(i24: bv32, rest: bv32)
    requires rest & 0xff00_0000 == 0
    ensures Byte(Xor(i24, rest)) == Xor(Byte(i24), rest << 8)
  {
    EightShifts(rest);
    ByteIsLinear(i24, rest);
  }

  lemma XorComm(a: bv32, b: bv32)
    ensures Xor(a, b) == b ^ a
  {
  }

  lemma UpdateLooksUp(crc: bv32, b: bv8)
    ensures Update(crc, b) == (crc << 8) ^ Byte(Index(crc, b) << 24)
  {
    TableIsRight(Index(crc, b));
  }

  /** The word is the sum of what is looked up and what is shifted. */
  lemma LookedUpAndShifted(crc: bv32, b: bv8)
    ensures Byte(crc ^ ((b as bv32) << 24)) == Xor(Byte(Index(crc, b) << 24), crc << 8)
  {
    TopAndRest(crc, b);
    RestIsShifted(Index(crc, b) << 24, crc & 0x00ff_ffff);
  }

  /** A table look-up does the work of eight steps of the division. */
  lemma UpdateIsEightSteps(crc: bv32, b: bv8)
    ensures Update(crc, b) == Byte(crc ^ ((b as bv32) << 24))
  {
    UpdateLooksUp(crc, b);
    LookedUpAndShifted(crc, b);
    XorComm(Byte(Index(crc, b) << 24), crc << 8);
  }
}

/** What a boot ROM reads out of a packed image. */
module BootImage {
  import opened Crc
  import opened Mkpimage

  lemma Field2Reads(s: seq<Uint8>, at: nat, x: nat)
    requires at + 2 <= |s| && s[at..at + 2] == Field2(x)
    ensures Read2(s, at) == x % 0x1_0000
  {
    assert s[at] == s[at..at + 2][0] && s[at + 1] == s[at..at + 2][1];
  }

  lemma Digits256(x: nat)
    requires x < 0x1_0000_0000
    ensures x == x % 0x100 + 0x100 * ((x / 0x100) % 0x100) + 0x1_0000 * ((x / 0x1_0000) % 0x100) +
      0x100_0000 * ((x / 0x100_0000) % 0x100)
  {
    var a, b, c := x / 0x100, x / 0x1_0000, x / 0x100_0000;
    assert a / 0x100 == b && b / 0x100 == c;
  }

  lemma Field4Reads(s: seq<Uint8>, at: nat, x: nat)
    requires at + 4 <= |s| && s[at..at + 4] == Field4(x) && x < 0x1_0000_0000
    ensures Read4(s, at) == x
  {
    var f := s[at..at + 4];
    assert s[at] == f[0] && s[at + 1] == f[1] && s[at + 2] == f[2] && s[at + 3] == f[3];
    Digits256(x);
  }

  /** Division with remainder by 2^24 has one answer. */
  lemma ModIs24(q: int, high: int, low: int)
    requires q == 0x100_0000 * high + low && 0 <= low < 0x100_0000
    ensures q % 0x100_0000 == low
  {
  }

  lemma DivTwice(q: int)
    ensures q / 0x1_0000 == (q / 0x100) / 0x100
  {
  }

  lemma ThreeBytes(q: int)
    ensures q % 0x100 + 0x100 * ((q / 0x100) % 0x100) + 0x1_0000 * ((q / 0x1_0000) % 0x100) == q % 0x100_0000
  {
    DivTwice(q);
    var r := q / 0x100;
    var s := r / 0x100;
    ModIs24(q, s / 0x100, q % 0x100 + 0x100 * (r % 0x100) + 0x1_0000 * (s % 0x100));
  }

  /** 24 bits, read as a signed number, are the number exactly if they can hold it. */
  lemma Signed24(q: int)
    ensures var imm := q % 0x100_0000;
      (if imm < 0x80_0000 then imm else imm - 0x100_0000) == q <==> -0x80_0000 <= q < 0x80_0000
  {
  }

  /** Likewise for an offset in words and its destination. */
  lemma SignedBack(at: nat, dest: nat, q: int)
    requires q == (dest - at - 8) / 4
    ensures Target(at, q % 0x100_0000) == dest <==> Reachable(at, dest)
  {
    var offset: int := dest - at - 8;
    Signed24(q);
    assert offset == 4 * q + offset % 4 && (dest - at) % 4 == offset % 4;
  }

  /** A branch leads to its destination exactly if the destination is reachable. */
  lemma BranchReads(s: seq<Uint8>, at: nat, dest: nat)
    requires at + 4 <= |s| && s[at..at + 4] == BranchTo(at, dest)
    ensures s[at + 3] == BRANCH_INST
    ensures BranchTarget(s, at) == dest <==> Reachable(at, dest)
  {
    var f, q := s[at..at + 4], (dest - at - 8) / 4;
    assert s[at] == f[0] && s[at + 1] == f[1] && s[at + 2] == f[2] && s[at + 3] == f[3];
    BranchBytes(at, dest);
    ThreeBytes(q);
    SignedBack(at, dest, q);
  }

  lemma BranchBytes(at: nat, dest: nat)
    ensures var f, q := BranchTo(at, dest), (dest - at - 8) / 4;
      f[0] == q % 0x100 && f[1] == (q / 0x100) % 0x100 && f[2] == (q / 0x1_0000) % 0x100 && f[3] == BRANCH_INST
  {
    var offset: int := dest - at - 8;
  }

  lemma {:induction false} SumIsSmall(s: seq<Uint8>)
    ensures Sum(s) <= 255 * |s|
    decreases |s|
  {
    if s != [] { SumIsSmall(s[..|s| - 1]); }
  }

  /** The last word of an image is the CRC of everything before it. */
  lemma CrcMatches(img: seq<Uint8>, start: nat, version: nat)
    requires Fits(|img|, start, version)
    ensures var p := Packed(img, start, version);
      Read4(p, |p| - 4) == ImageCrc(p[..|p| - 4]) as nat
  {
    var p, h, n := Packed(img, start, version), WithHeader(img, start, version), |img|;
    assert p[..n - 4] == h[..n - 4];
    assert p[n - 4..n - 4 + 4] == Field4(ImageCrc(h[..n - 4]) as nat);
    Field4Reads(p, n - 4, ImageCrc(h[..n - 4]) as nat);
  }

  /** What version 0 promises of the header at the beginning of s. */
  predicate DecodesV0(s: seq<Uint8>, size: nat)
    requires |s| >= HEADER + 16
  {
    && Read4(s, HEADER) == VALIDATION_WORD && s[HEADER + 4] == 0
    && Read2(s, HEADER + 6) == (size / 4) % 0x1_0000
    && Read2(s, HEADER + 10) == Sum(s[HEADER..HEADER + 10])
    && s[HEADER + 15] == BRANCH_INST
  }

  /** A part of a part. */
  lemma Part(s: seq<Uint8>, h: seq<Uint8>, i: nat, j: nat)
    requires HEADER + |h| <= |s| && s[HEADER..HEADER + |h|] == h && i <= j <= |h|
    ensures s[HEADER + i..HEADER + j] == h[i..j]
    ensures forall k | i <= k < j :: s[HEADER + k] == h[k]
  {
    var part := s[HEADER..HEADER + |h|];
    assert forall k | 0 <= k < |h| :: s[HEADER + k] == part[k];
  }

  function BodyV0(size: nat): (h: seq<Uint8>)
    ensures |h| == 10
  {
    Field4(VALIDATION_WORD) + [0, 0] + Field2(size / 4) + [0, 0]
  }

  lemma HeaderV0Parts(size: nat, start: nat)
    ensures var h := HeaderV0(size, start);
      && h[0..10] == BodyV0(size) && h[0..4] == Field4(VALIDATION_WORD) && h[4] == 0
      && h[6..8] == Field2(size / 4) && h[10..12] == Field2(Sum(BodyV0(size)))
      && h[12..16] == BranchTo(HEADER + 12, start)
  {
  }

  lemma HeaderV0Decodes(s: seq<Uint8>, size: nat, start: nat)
    requires |s| >= HEADER + 16 && s[HEADER..HEADER + 16] == HeaderV0(size, start)
    ensures DecodesV0(s, size)
    ensures BranchTarget(s, HEADER + 12) == start <==> Reachable(HEADER + 12, start)
  {
    var h := HeaderV0(size, start);
    HeaderV0Parts(size, start);
    Part(s, h, 0, 10);
    Part(s, h, 0, 4);
    Field4Reads(s, HEADER, VALIDATION_WORD);
    Part(s, h, 6, 8);
    Field2Reads(s, HEADER + 6, size / 4);
    Part(s, h, 10, 12);
    Field2Reads(s, HEADER + 10, Sum(BodyV0(size)));
    SumIsSmall(BodyV0(size));
    Part(s, h, 12, 16);
    BranchReads(s, HEADER + 12, start);
  }

  predicate DecodesV1(s: seq<Uint8>, size: nat, version: nat)
    requires |s| >= HEADER + 20
  {
    && Read4(s, HEADER) == VALIDATION_WORD && s[HEADER + 4] == ByteOf(version)
    && Read2(s, HEADER + 6) == 20 && Read4(s, HEADER + 8) == size
    && Read2(s, HEADER + 18) == Sum(s[HEADER..HEADER + 18])
  }

  function BodyV1(size: nat, version: nat, offset: nat): (h: seq<Uint8>)
    ensures |h| == 18
  {
    Field4(VALIDATION_WORD) + [ByteOf(version), 0] + Field2(20) + Field4(size) + Field4(offset) + [0, 0]
  }

  lemma HeaderV1Parts(size: nat, version: nat, offset: nat)
    ensures var h, b := HeaderV1(size, version, offset), BodyV1(size, version, offset);
      && h[0..18] == b && h[0..4] == Field4(VALIDATION_WORD) && h[4] == ByteOf(version) && h[6..8] == Field2(20)
      && h[8..12] == Field4(size) && h[12..16] == Field4(offset) && h[18..20] == Field2(Sum(b))
  {
  }

  lemma HeaderV1Decodes(s: seq<Uint8>, size: nat, version: nat, offset: nat)
    requires |s| >= HEADER + 20 && s[HEADER..HEADER + 20] == HeaderV1(size, version, offset)
    requires size < 0x1_0000_0000 && offset < 0x1_0000_0000
    ensures DecodesV1(s, size, version) && Read4(s, HEADER + 12) == offset
  {
    var h, b := HeaderV1(size, version, offset), BodyV1(size, version, offset);
    HeaderV1Parts(size, version, offset);
    Part(s, h, 0, 18);
    Part(s, h, 0, 4);
    Field4Reads(s, HEADER, VALIDATION_WORD);
    Part(s, h, 6, 8);
    Field2Reads(s, HEADER + 6, 20);
    Part(s, h, 8, 12);
    Field4Reads(s, HEADER + 8, size);
    Part(s, h, 12, 16);
    Field4Reads(s, HEADER + 12, offset);
    Part(s, h, 18, 20);
    Field2Reads(s, HEADER + 18, Sum(b));
    SumIsSmall(b);
  }

  /** The CRC is stored behind everything else. */
  lemma BeforeCrc(img: seq<Uint8>, start: nat, version: nat)
    requires Fits(|img|, start, version)
    ensures var p, h := Packed(img, start, version), WithHeader(img, start, version);
      forall k | 0 <= k < |img| - 4 :: p[k] == h[k]
  {
  }

  lemma SlicesAgree(p: seq<Uint8>, h: seq<Uint8>, i: nat, j: nat, n: nat)
    requires |p| == |h| && i <= j <= n <= |p| && forall k | 0 <= k < n :: p[k] == h[k]
    ensures p[i..j] == h[i..j]
  {
  }

  lemma WordsOfSize(size: nat)
    requires size % 4 == 0
    ensures 4 * ((size / 4) % 0x1_0000) == size <==> size < 0x4_0000
  {
  }

  /** An image of version 0 decodes back. */
  lemma PackedV0Decodes(img: seq<Uint8>, start: nat)
    requires HEADER + 20 <= |img|
    ensures var p := Packed(img, start, 0);
      && DecodesV0(p, |img|)
      && (|img| % 4 == 0 ==> (4 * Read2(p, HEADER + 6) == |img| <==> |img| < 0x4_0000))
      && (BranchTarget(p, HEADER + 12) == start <==> Reachable(HEADER + 12, start))
  {
    var p, h := Packed(img, start, 0), WithHeader(img, start, 0);
    BeforeCrc(img, start, 0);
    SlicesAgree(p, h, HEADER, HEADER + 16, |img| - 4);
    assert h[HEADER..HEADER + 16] == HeaderV0(|img|, start);
    HeaderV0Decodes(p, |img|, start);
    if |img| % 4 == 0 { WordsOfSize(|img|); }
  }

  /** Nothing else is changed. */
  lemma RestIsKept(img: seq<Uint8>, start: nat, version: nat, k: nat)
    requires Fits(|img|, start, version) && k < |img| - 4 && !(HEADER <= k < HEADER_END + 4)
    ensures Packed(img, start, version)[k] == img[k]
  {
    BeforeCrc(img, start, version);
  }

  /** Where the ROM enters an image of version 1. */
  function Entry(s: seq<Uint8>): nat
    requires |s| >= HEADER + 20
  {
    HEADER + Read4(s, HEADER + 12)
  }

  /** The sizes at which nothing that version 1 stores overlaps. */
  predicate NoOverlap(size: nat, start: nat) {
    size >= HEADER_END + (if start < HEADER then 8 else 4)
  }

  /** An image of version 1 decodes back, through the trampoline if the start lies before the header. */
  lemma PackedV1Decodes(img: seq<Uint8>, start: nat, version: nat)
    requires version != 0 && NoOverlap(|img|, start) && |img| < 0x1_0000_0000 && start < 0x1_0000_0000
    ensures var p := Packed(img, start, version);
      && DecodesV1(p, |img|, version)
      && Entry(p) == (if start < HEADER then HEADER_END else start)
      && (Leads(p, Entry(p), start) <==> start >= HEADER || start % 4 == 0)
  {
    var p, h := Packed(img, start, version), WithHeader(img, start, version);
    var entry := if start < HEADER then HEADER_END else start;
    BeforeCrc(img, start, version);
    SlicesAgree(p, h, HEADER, HEADER + 20, |img| - 4);
    assert h[HEADER..HEADER + 20] == HeaderV1(|img|, version, entry - HEADER);
    HeaderV1Decodes(p, |img|, version, entry - HEADER);
    if start < HEADER {
      SlicesAgree(p, h, HEADER_END, HEADER_END + 4, |img| - 4);
      assert h[HEADER_END..HEADER_END + 4] == BranchTo(HEADER_END, start);
      BranchReads(p, HEADER_END, start);
    }
  }

  /** The size of the buffer that main allocates. */
  function PaddedSize(inputSize: nat, addSize: nat): nat {
    var pad := inputSize % 4;
    inputSize + 4 + addSize + if pad != 0 then 4 - pad else 0
  }

  /**
   With a barebox header every input is large enough. Without one, version 1
   needs 85 bytes, which are padded to 88, for nothing to overlap. Of the inputs
   that main accepts one of 80 bytes has no room for the trampoline at all, and
   the CRC lies over the checksum.
   */
  lemma PaddingSuffices(inputSize: nat, barebox: bool)
    ensures var size := PaddedSize(inputSize, if barebox then 512 else 0);
      && size % 4 == 0 && inputSize + 4 <= size - (if barebox then 512 else 0) < inputSize + 8
      && (barebox ==> NoOverlap(size, 512))
      && (!barebox ==> (NoOverlap(size, 0) <==> inputSize >= 85))
      && (!barebox && inputSize >= 80 ==> HEADER + 20 <= size)
      && (!barebox && inputSize >= 80 ==> (Fits(size, 0, 1) <==> inputSize > 80))
      && (!barebox && inputSize >= 80 ==> (size - 4 <= HEADER + 18 <==> inputSize == 80))
  {
  }
}

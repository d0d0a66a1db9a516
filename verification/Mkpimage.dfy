/**
 mkpimage: the boot image header of the SoCFPGA, with its ARM branch
 instructions, its checksum and the CRC at the end of the image.
 */
module Mkpimage {
  import opened Crc

  const VALIDATION_WORD: nat := 0x31305341
  const BRANCH_INST: Uint8 := 0xea
  const EINVAL: int := 22

  /** Where the header starts, and where a header of version 1 ends. */
  const HEADER: nat := 0x40
  const HEADER_END: nat := 0x54

  /** x & 0xff. */
  function ByteOf(x: int): Uint8 { x % 256 }

  /** Little-endian fields. */
  function Field2(x: int): (f: seq<Uint8>)
    ensures |f| == 2
  {
    [ByteOf(x), ByteOf(x / 0x100)]
  }

  function Field4(x: int): (f: seq<Uint8>)
    ensures |f| == 4
  {
    [ByteOf(x), ByteOf(x / 0x100), ByteOf(x / 0x1_0000), ByteOf(x / 0x100_0000)]
  }

  function Read2(s: seq<Uint8>, at: nat): nat
    requires at + 2 <= |s|
  {
    s[at] as nat + 0x100 * (s[at + 1] as nat)
  }

  function Read4(s: seq<Uint8>, at: nat): nat
    requires at + 4 <= |s|
  {
    s[at] as nat + 0x100 * (s[at + 1] as nat) + 0x1_0000 * (s[at + 2] as nat) + 0x100_0000 * (s[at + 3] as nat)
  }

  /** The instruction b, placed at one address and leading to another. */
  function BranchTo(at: nat, dest: nat): (w: seq<Uint8>)
    ensures |w| == 4
  {
    var offset: int := dest - at - 8;
    [ByteOf(offset / 4), ByteOf(offset / 0x400), ByteOf(offset / 0x4_0000), BRANCH_INST]
  }

  /** How an ARM processor reads the instruction b: a signed count of words from two instructions on. */
  function Target(at: nat, imm: nat): int {
    at + 8 + 4 * (if imm < 0x80_0000 then imm else imm - 0x100_0000)
  }

  function BranchTarget(s: seq<Uint8>, at: nat): int
    requires at + 4 <= |s|
  {
    Target(at, s[at] as nat + 0x100 * (s[at + 1] as nat) + 0x1_0000 * (s[at + 2] as nat))
  }

  /** The processor gets from an address to dest: it is there, or a branch leads there. */
  predicate Leads(s: seq<Uint8>, at: int, dest: int) {
    at == dest || (0 <= at && at + 4 <= |s| && s[at + 3] == BRANCH_INST && BranchTarget(s, at) == dest)
  }

  predicate Reachable(at: nat, dest: nat) {
    (dest - at) % 4 == 0 && -0x200_0000 <= dest - at - 8 < 0x200_0000
  }

  function Sum(s: seq<Uint8>): nat
    decreases |s|
  {
    if s == [] then 0 else Sum(s[..|s| - 1]) + s[|s| - 1]
  }

  function Write(s: seq<Uint8>, at: nat, f: seq<Uint8>): (r: seq<Uint8>)
    requires at + |f| <= |s|
    ensures |r| == |s|
    ensures forall k | 0 <= k < |s| :: r[k] == if at <= k < at + |f| then f[k - at] else s[k]
  {
    s[..at] + f + s[at + |f|..]
  }

  function HeaderV0(size: nat, start: nat): (h: seq<Uint8>)
    ensures |h| == 16
  {
    var h := Field4(VALIDATION_WORD) + [0, 0] + Field2(size / 4) + [0, 0];
    h + Field2(Sum(h)) + BranchTo(HEADER + 12, start)
  }

  function HeaderV1(size: nat, version: nat, offset: nat): (h: seq<Uint8>)
    ensures |h| == 20
  {
    var h := Field4(VALIDATION_WORD) + [ByteOf(version), 0] + Field2(20) + Field4(size) + Field4(offset) + [0, 0];
    h + Field2(Sum(h))
  }

  /** The image with its header, before the CRC is stored. */
  function WithHeader(img: seq<Uint8>, start: nat, version: nat): (s: seq<Uint8>)
    requires Fits(|img|, start, version)
    ensures |s| == |img|
  {
    if version == 0 then Write(img, HEADER, HeaderV0(|img|, start))
    else if start < HEADER then
      Write(Write(img, HEADER_END, BranchTo(HEADER_END, start)), HEADER, HeaderV1(|img|, version, HEADER_END - HEADER))
    else Write(img, HEADER, HeaderV1(|img|, version, start - HEADER))
  }

  /** The buffer has room for what the program stores into it. */
  predicate Fits(size: nat, start: nat, version: nat) {
    HEADER + (if version == 0 then 16 else if start < HEADER then 24 else 20) <= size
  }

  function ImageCrc(s: seq<Uint8>): bv32 { Crc32(0xffff_ffff, s) ^ 0xffff_ffff }

  function Packed(img: seq<Uint8>, start: nat, version: nat): (s: seq<Uint8>)
    requires Fits(|img|, start, version)
    ensures |s| == |img|
  {
    var h := WithHeader(img, start, version);
    Write(h, |img| - 4, Field4(ImageCrc(h[..|img| - 4]) as nat))
  }

  /** branch. */
  method Branch(buf: array<Uint8>, at: nat, dest: nat)
    requires at + 4 <= buf.Length
    modifies buf
    ensures buf[..] == Write(old(buf[..]), at, BranchTo(at, dest))
  {
    var offset: int := dest - at - 8;
    buf[at] := ByteOf(offset / 4);
    buf[at + 1] := ByteOf(offset / 0x400);
    buf[at + 2] := ByteOf(offset / 0x4_0000);
    buf[at + 3] := BRANCH_INST;
  }

  method Store2(buf: array<Uint8>, at: nat, x: nat)
    requires at + 2 <= buf.Length
    modifies buf
    ensures buf[..] == Write(old(buf[..]), at, Field2(x))
  {
    buf[at] := ByteOf(x);
    buf[at + 1] := ByteOf(x / 0x100);
  }

  method Store4(buf: array<Uint8>, at: nat, x: nat)
    requires at + 4 <= buf.Length
    modifies buf
    ensures buf[..] == Write(old(buf[..]), at, Field4(x))
  {
    buf[at] := ByteOf(x);
    buf[at + 1] := ByteOf(x / 0x100);
    buf[at + 2] := ByteOf(x / 0x1_0000);
    buf[at + 3] := ByteOf(x / 0x100_0000);
  }

  /** The loop that adds up the header from its beginning to its checksum. */
  method Checksum(buf: array<Uint8>, from: nat, to: nat) returns (checksum: nat)
    requires from <= to <= buf.Length
    ensures checksum == Sum(buf[from..to])
  {
    checksum := 0;
    for p := from to to
      invariant checksum == Sum(buf[from..p])
    {
      assert buf[from..p + 1][..p - from] == buf[from..p];
      checksum := checksum + buf[p];
    }
  }

  method StorePair(buf: array<Uint8>, at: nat, x: Uint8, y: Uint8)
    requires at + 2 <= buf.Length
    modifies buf
    ensures buf[..] == Write(old(buf[..]), at, [x, y])
  {
    buf[at], buf[at + 1] := x, y;
  }

  /** Two stores side by side are one. */
  lemma Adjacent(s: seq<Uint8>, at: nat, f: seq<Uint8>, g: seq<Uint8>)
    requires at + |f| + |g| <= |s|
    ensures Write(Write(s, at, f), at + |f|, g) == Write(s, at, f + g)
  {
  }

  lemma Stored(s: seq<Uint8>, at: nat, f: seq<Uint8>)
    requires at + |f| <= |s|
    ensures Write(s, at, f)[at..at + |f|] == f
  {
  }

  /** add_socfpga_header. */
  method AddSocfpgaHeader(buf: array<Uint8>, start: nat, version: nat) returns (ret: int)
    requires buf.Length % 4 == 0 ==> Fits(buf.Length, start, version)
    modifies buf
    ensures ret == if buf.Length % 4 != 0 then -EINVAL else 0
    ensures buf[..] == if buf.Length % 4 != 0 then old(buf[..]) else Packed(old(buf[..]), start, version)
  {
    if buf.Length % 4 != 0 { return -EINVAL; }
    StoreHeader(buf, start, version);
    StoreCrc(buf);
    ret := 0;
  }

  method StoreHeader(buf: array<Uint8>, start: nat, version: nat)
    requires Fits(buf.Length, start, version)
    modifies buf
    ensures buf[..] == WithHeader(old(buf[..]), start, version)
  {
    if version == 0 {
      StoreV0(buf, start);
    } else {
      var entry := start;
      if entry < HEADER {
        Branch(buf, HEADER_END, entry);
        entry := HEADER_END;
      }
      StoreV1(buf, version, entry - HEADER);
    }
  }

  method StoreCrc(buf: array<Uint8>)
    requires buf.Length >= 4
    modifies buf
    ensures buf[..] == Write(old(buf[..]), buf.Length - 4, Field4(ImageCrc(old(buf[..])[..buf.Length - 4]) as nat))
  {
    var crc := ComputeCrc32(0xffff_ffff, buf, buf.Length - 4);
    assert buf[..buf.Length - 4] == buf[..][..buf.Length - 4];
    Store4(buf, buf.Length - 4, (crc ^ 0xffff_ffff) as nat);
  }

  method StoreV0(buf: array<Uint8>, start: nat)
    requires HEADER + 16 <= buf.Length
    modifies buf
    ensures buf[..] == Write(old(buf[..]), HEADER, HeaderV0(buf.Length, start))
  {
    ghost var s := buf[..];
    ghost var f0, f1, f2 := Field4(VALIDATION_WORD), [0, 0], Field2(buf.Length / 4);
    ghost var h := f0 + f1 + f2 + f1;
    Store4(buf, HEADER, VALIDATION_WORD);
    StorePair(buf, HEADER + 4, 0, 0);
    Adjacent(s, HEADER, f0, f1);
    Store2(buf, HEADER + 6, buf.Length / 4);
    Adjacent(s, HEADER, f0 + f1, f2);
    StorePair(buf, HEADER + 8, 0, 0);
    Adjacent(s, HEADER, f0 + f1 + f2, f1);
    CloseV0(buf, start, s, h);
  }

  /** Its end: the start vector, and the checksum before it. */
  method CloseV0(buf: array<Uint8>, start: nat, ghost s: seq<Uint8>, ghost h: seq<Uint8>)
    requires HEADER + 16 <= buf.Length == |s| && |h| == 10 && buf[..] == Write(s, HEADER, h)
    modifies buf
    ensures buf[..] == Write(s, HEADER, h + Field2(Sum(h)) + BranchTo(HEADER + 12, start))
  {
    Branch(buf, HEADER + 12, start);
    assert buf[HEADER..HEADER + 10] == h;
    var checksum := Checksum(buf, HEADER, HEADER + 10);
    Store2(buf, HEADER + 10, checksum);
  }

  method StoreV1(buf: array<Uint8>, version: nat, offset: nat)
    requires HEADER + 20 <= buf.Length
    modifies buf
    ensures buf[..] == Write(old(buf[..]), HEADER, HeaderV1(buf.Length, version, offset))
  {
    ghost var s := buf[..];
    ghost var f0, f1, f2, f3, f4, f5 := Field4(VALIDATION_WORD), [ByteOf(version), 0], Field2(20), Field4(buf.Length),
      Field4(offset), [0, 0];
    Store4(buf, HEADER, VALIDATION_WORD);
    StorePair(buf, HEADER + 4, ByteOf(version), 0);
    Adjacent(s, HEADER, f0, f1);
    Store2(buf, HEADER + 6, 20);
    Adjacent(s, HEADER, f0 + f1, f2);
    Store4(buf, HEADER + 8, buf.Length);
    Adjacent(s, HEADER, f0 + f1 + f2, f3);
    Store4(buf, HEADER + 12, offset);
    Adjacent(s, HEADER, f0 + f1 + f2 + f3, f4);
    StorePair(buf, HEADER + 16, 0, 0);
    Adjacent(s, HEADER, f0 + f1 + f2 + f3 + f4, f5);
    ghost var h := f0 + f1 + f2 + f3 + f4 + f5;
    Stored(s, HEADER, h);
    assert buf[HEADER..HEADER + 18] == h;
    var checksum := Checksum(buf, HEADER, HEADER + 18);
    Store2(buf, HEADER + 18, checksum);
    Adjacent(s, HEADER, h, Field2(Sum(h)));
  }
}

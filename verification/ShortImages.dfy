/**
 The smallest boot image of version 1 that the packer accepts: its CRC overwrites
 its trampoline. The CRC is computed step by step, four bytes at a time.
 */
module ShortImages {
  import opened CrcTable
  import opened Crc
  import opened Mkpimage
  import opened BootImage

  /** Where an earlier part of the buffer has been read. */
  lemma {:induction false} Crc32Append(crc: bv32, a: seq<Uint8>, b: seq<Uint8>)
    ensures Crc32(crc, a + b) == Crc32(Crc32(crc, a), b)
    decreases |a|
  {
    if a == [] {
      assert a + b == b;
    } else {
      assert (a + b)[0] == a[0] && (a + b)[1..] == a[1..] + b;
      Crc32Append(Update(crc, a[0] as bv8), a[1..], b);
    }
  }

  lemma {:induction false} CrcOfZeros(n: nat)
    ensures Crc32(0, seq(n, _ => 0)) == 0
    decreases n
  {
    if n > 0 {
      UpdateIsEightSteps(0, 0);
      assert seq<Uint8>(n, _ => 0)[1..] == seq<Uint8>(n - 1, _ => 0);
      CrcOfZeros(n - 1);
    }
  }

  lemma CrcOfByte(c: bv32, x: Uint8, s: seq<Uint8>)
    ensures Crc32(c, [x] + s) == Crc32(Update(c, x as bv8), s)
  {
    assert ([x] + s)[1..] == s;
  }

  lemma FourBytes(a: Uint8, b: Uint8, d: Uint8, e: Uint8)
    ensures [a, b, d, e] == [a] + ([b] + ([d] + ([e] + [])))
  {
  }

  lemma Four(c: bv32, a: Uint8, b: Uint8, d: Uint8, e: Uint8, c1: bv32, c2: bv32, c3: bv32, c4: bv32)
    requires Update(c, a as bv8) == c1 && Update(c1, b as bv8) == c2 && Update(c2, d as bv8) == c3 &&
      Update(c3, e as bv8) == c4
    ensures Crc32(c, [a, b, d, e]) == c4
  {
    FourBytes(a, b, d, e);
    CrcOfByte(c, a, [b] + ([d] + ([e] + [])));
    CrcOfByte(c1, b, [d] + ([e] + []));
    CrcOfByte(c2, d, [e] + []);
    CrcOfByte(c3, e, []);
  }

  lemma OneUpdate(c: bv32, b: Uint8, x: bv32, d: bv32)
    requires x == c ^ (((b as bv8) as bv32) << 24) && d == Byte(x)
    ensures Update(c, b as bv8) == d
  {
    UpdateIsEightSteps(c, b as bv8);
  }

  lemma CrcOfOnes()
    ensures Crc32(0xffff_ffff, [0xff, 0xff, 0xff, 0xff]) == 0x0000_0000
  {
    OneUpdate(0xffff_ffff, 0xff, 0x00ff_ffff, 0xffff_ff00);
    OneUpdate(0xffff_ff00, 0xff, 0x00ff_ff00, 0xffff_0000);
    OneUpdate(0xffff_0000, 0xff, 0x00ff_0000, 0xff00_0000);
    OneUpdate(0xff00_0000, 0xff, 0x0000_0000, 0x0000_0000);
    Four(0xffff_ffff, 0xff, 0xff, 0xff, 0xff, 0xffff_ff00, 0xffff_0000, 0xff00_0000, 0x0000_0000);
  }

  lemma CrcOfWord0()
    ensures Crc32(0x0000_0000, [0x41, 0x53, 0x30, 0x31]) == 0x84b7_cbc9
  {
    OneUpdate(0x0000_0000, 0x41, 0x4100_0000, 0x3047_6dc0);
    OneUpdate(0x3047_6dc0, 0x53, 0x6347_6dc0, 0xe68b_204e);
    OneUpdate(0xe68b_204e, 0x30, 0xd68b_204e, 0x803d_485b);
    OneUpdate(0x803d_485b, 0x31, 0xb13d_485b, 0x84b7_cbc9);
    Four(0x0000_0000, 0x41, 0x53, 0x30, 0x31, 0x3047_6dc0, 0xe68b_204e, 0x803d_485b, 0x84b7_cbc9);
  }

  lemma CrcOfWord1()
    ensures Crc32(0x84b7_cbc9, [0x01, 0x00, 0x14, 0x00]) == 0xd8e3_c553
  {
    OneUpdate(0x84b7_cbc9, 0x01, 0x85b7_cbc9, 0xc902_4285);
    OneUpdate(0xc902_4285, 0x00, 0xc902_4285, 0x7d01_e596);
    OneUpdate(0x7d01_e596, 0x14, 0x6901_e596, 0x8f89_a098);
    OneUpdate(0x8f89_a098, 0x00, 0x8f89_a098, 0xd8e3_c553);
    Four(0x84b7_cbc9, 0x01, 0x00, 0x14, 0x00, 0xc902_4285, 0x7d01_e596, 0x8f89_a098, 0xd8e3_c553);
  }

  lemma CrcOfWord2()
    ensures Crc32(0xd8e3_c553, [0x58, 0x00, 0x00, 0x00]) == 0x24c4_e34b
  {
    OneUpdate(0xd8e3_c553, 0x58, 0x80e3_c553, 0x8ac9_b3ee);
    OneUpdate(0x8ac9_b3ee, 0x00, 0x8ac9_b3ee, 0x8f35_d838);
    OneUpdate(0x8f35_d838, 0x00, 0x8f35_d838, 0x649b_6553);
    OneUpdate(0x649b_6553, 0x00, 0x649b_6553, 0x24c4_e34b);
    Four(0xd8e3_c553, 0x58, 0x00, 0x00, 0x00, 0x8ac9_b3ee, 0x8f35_d838, 0x649b_6553, 0x24c4_e34b);
  }

  lemma CrcOfWord3()
    ensures Crc32(0x24c4_e34b, [0x14, 0x00, 0x00, 0x00]) == 0x0ead_dd39
  {
    OneUpdate(0x24c4_e34b, 0x14, 0x30c4_e34b, 0x10d1_2690);
    OneUpdate(0x10d1_2690, 0x00, 0x10d1_2690, 0x9d37_4b70);
    OneUpdate(0x9d37_4b70, 0x00, 0x9d37_4b70, 0x239b_cd4d);
    OneUpdate(0x239b_cd4d, 0x00, 0x239b_cd4d, 0x0ead_dd39);
    Four(0x24c4_e34b, 0x14, 0x00, 0x00, 0x00, 0x10d1_2690, 0x9d37_4b70, 0x239b_cd4d, 0x0ead_dd39);
  }

  lemma CrcOfWord4()
    ensures Crc32(0x0ead_dd39, [0x00, 0x00, 0x76, 0x01]) == 0x4e8f_2702
  {
    OneUpdate(0x0ead_dd39, 0x00, 0x0ead_dd39, 0x9153_990a);
    OneUpdate(0x9153_990a, 0x00, 0x9153_990a, 0x7245_2c29);
    OneUpdate(0x7245_2c29, 0x76, 0x0445_2c29, 0x5628_5fdc);
    OneUpdate(0x5628_5fdc, 0x01, 0x5728_5fdc, 0x4e8f_2702);
    Four(0x0ead_dd39, 0x00, 0x00, 0x76, 0x01, 0x9153_990a, 0x7245_2c29, 0x5628_5fdc, 0x4e8f_2702);
  }

  lemma SumSnoc(s: seq<Uint8>, x: Uint8)
    ensures Sum(s + [x]) == Sum(s) + x
  {
    assert (s + [x])[..|s|] == s;
  }

  lemma SumFour(s: seq<Uint8>, a: Uint8, b: Uint8, c: Uint8, d: Uint8)
    ensures Sum(s + [a, b, c, d]) == Sum(s) + a + b + c + d
  {
    SumSnoc(s, a);
    SumSnoc(s + [a], b);
    SumSnoc(s + [a] + [b], c);
    SumSnoc(s + [a] + [b] + [c], d);
    assert s + [a] + [b] + [c] + [d] == s + [a, b, c, d];
  }

  lemma ShortSum(w0: seq<Uint8>, w1: seq<Uint8>, w2: seq<Uint8>, w3: seq<Uint8>)
    requires w0 == [0x41, 0x53, 0x30, 0x31] && w1 == [1, 0, 20, 0] && w2 == [88, 0, 0, 0] && w3 == [20, 0, 0, 0]
    ensures Sum(w0 + w1 + w2 + w3 + [0] + [0]) == 0x176
  {
    assert [] + w0 == w0;
    SumFour([], 0x41, 0x53, 0x30, 0x31);
    SumFour(w0, 1, 0, 20, 0);
    SumFour(w0 + w1, 88, 0, 0, 0);
    SumFour(w0 + w1 + w2, 20, 0, 0, 0);
    SumSnoc(w0 + w1 + w2 + w3, 0);
    SumSnoc(w0 + w1 + w2 + w3 + [0], 0);
  }

  /** The header of the shortest image of version 1 that has room for a trampoline. */
  lemma ShortHeader()
    ensures HeaderV1(88, 1, 20) ==
      [0x41, 0x53, 0x30, 0x31] + [1, 0, 20, 0] + [88, 0, 0, 0] + [20, 0, 0, 0] + [0, 0, 0x76, 1]
  {
    var w0, w1, w2, w3: seq<Uint8> := [0x41, 0x53, 0x30, 0x31], [1, 0, 20, 0], [88, 0, 0, 0], [20, 0, 0, 0];
    ShortSum(w0, w1, w2, w3);
    ShortBody();
    var body := w0 + w1 + w2 + w3 + [0] + [0];
    assert body == BodyV1(88, 1, 20);
  }

  lemma ShortBody()
    ensures BodyV1(88, 1, 20) == [0x41, 0x53, 0x30, 0x31] + [1, 0, 20, 0] + [88, 0, 0, 0] + [20, 0, 0, 0] + [0, 0]
  {
  }

  /** An image of that size: four bytes 0xff, and zeros. */
  function ShortImage(): (img: seq<Uint8>)
    ensures |img| == 88
  {
    [0xff, 0xff, 0xff, 0xff] + seq(84, _ => 0)
  }

  /** The part of it that the CRC covers, word by word from the header on. */
  lemma ShortPrefix(w0: seq<Uint8>, w1: seq<Uint8>, w2: seq<Uint8>, w3: seq<Uint8>, w4: seq<Uint8>)
    requires w0 == [0x41, 0x53, 0x30, 0x31] && w1 == [1, 0, 20, 0] && w2 == [88, 0, 0, 0] && w3 == [20, 0, 0, 0] &&
      w4 == [0, 0, 0x76, 1]
    ensures WithHeader(ShortImage(), 0, 1)[..84] ==
      [0xff, 0xff, 0xff, 0xff] + (seq<Uint8>(60, _ => 0) + (w0 + (w1 + (w2 + (w3 + w4)))))
  {
    ShortHeader();
  }

  /** Reading six parts one after the other. */
  lemma CrcOfParts(c: bv32, ones: seq<Uint8>, zeros: seq<Uint8>, w0: seq<Uint8>, w1: seq<Uint8>, w2: seq<Uint8>,
                   w3: seq<Uint8>, w4: seq<Uint8>)
    requires Crc32(c, ones) == 0 && Crc32(0, zeros) == 0
    ensures Crc32(c, ones + (zeros + (w0 + (w1 + (w2 + (w3 + w4)))))) ==
            Crc32(Crc32(Crc32(Crc32(Crc32(0, w0), w1), w2), w3), w4)
  {
    Crc32Append(c, ones, zeros + (w0 + (w1 + (w2 + (w3 + w4)))));
    Crc32Append(0, zeros, w0 + (w1 + (w2 + (w3 + w4))));
    Crc32Append(0, w0, w1 + (w2 + (w3 + w4)));
    Crc32Append(Crc32(0, w0), w1, w2 + (w3 + w4));
    Crc32Append(Crc32(Crc32(0, w0), w1), w2, w3 + w4);
    Crc32Append(Crc32(Crc32(Crc32(0, w0), w1), w2), w3, w4);
  }

  lemma ShortCrc()
    ensures ImageCrc(WithHeader(ShortImage(), 0, 1)[..84]) == 0xb170_d8fd
  {
    var w0, w1, w2, w3, w4: seq<Uint8> := [0x41, 0x53, 0x30, 0x31], [1, 0, 20, 0], [88, 0, 0, 0], [20, 0, 0, 0],
      [0, 0, 0x76, 1];
    ShortPrefix(w0, w1, w2, w3, w4);
    CrcOfOnes();
    CrcOfZeros(60);
    CrcOfParts(0xffff_ffff, [0xff, 0xff, 0xff, 0xff], seq<Uint8>(60, _ => 0), w0, w1, w2, w3, w4);
    CrcOfWord0();
    CrcOfWord1();
    CrcOfWord2();
    CrcOfWord3();
    CrcOfWord4();
  }

  /** The processor, entering the image as its header says, reaches the start address 0. */
  predicate Starts(img: seq<Uint8>)
    requires Fits(|img|, 0, 1) && |img| < 0x1_0000_0000
  {
    var p := Packed(img, 0, 1);
    Leads(p, Entry(p), 0)
  }

  lemma TopByte(f: seq<Uint8>)
    requires f == Field4(0xb170_d8fd)
    ensures f[3] == 0xb1
  {
  }

  /** Its last byte, where the trampoline had its opcode. */
  lemma ShortLastByte()
    ensures Packed(ShortImage(), 0, 1)[87] == 0xb1
  {
    var h := WithHeader(ShortImage(), 0, 1);
    var f := Field4(ImageCrc(h[..84]) as nat);
    ShortCrc();
    TopByte(f);
    assert Packed(ShortImage(), 0, 1) == Write(h, 84, f);
  }

  lemma ShortEntry()
    ensures Entry(Packed(ShortImage(), 0, 1)) == HEADER_END
  {
    var img := ShortImage();
    var p, h := Packed(img, 0, 1), WithHeader(img, 0, 1);
    BeforeCrc(img, 0, 1);
    SlicesAgree(p, h, HEADER, HEADER + 20, 84);
    assert h[HEADER..HEADER + 20] == HeaderV1(88, 1, 20);
    HeaderV1Decodes(p, 88, 1, 20);
  }

  /** There the CRC overwrites the trampoline. */
  lemma ShortImageFails()
    ensures Entry(Packed(ShortImage(), 0, 1)) == HEADER_END && !Starts(ShortImage())
  {
    ShortLastByte();
    ShortEntry();
  }

  lemma EnoughRoomStarts(img: seq<Uint8>)
    requires NoOverlap(|img|, 0) && |img| < 0x1_0000_0000
    ensures Starts(img)
  {
    PackedV1Decodes(img, 0, 1);
  }

  /**
   Without a barebox header, every image of version 1 of a size starts correctly exactly if nothing overlaps at that
   size.
   */
  lemma StartsIffNoOverlap(size: nat)
    requires size % 4 == 0 && Fits(size, 0, 1) && size < 0x1_0000_0000
    ensures NoOverlap(size, 0) <==> forall img: seq<Uint8> | |img| == size :: Starts(img)
  {
    if NoOverlap(size, 0) {
      forall img: seq<Uint8> | |img| == size ensures Starts(img) { EnoughRoomStarts(img); }
    } else {
      assert size == 88;
      ShortImageFails();
    }
  }
}

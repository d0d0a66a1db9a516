/** The 256 precomputed words of crc_table, and the division steps they stand for. */
module CrcTable {
  /** The generator polynomial of section 3.2.9 of IEEE 802.3, without its leading coefficient. */
  const POLY: bv32 := 0x04c11db7

  /** One step of the division: multiply by x and reduce. */
  function Step(c: bv32): bv32 {
    if c & 0x8000_0000 != 0 then (c << 1) ^ POLY else c << 1
  }

  function Iterate<T>(f: T -> T, c: T, n: nat): T
    decreases n
  {
    if n == 0 then c else Iterate(f, f(c), n - 1)
  }

  function Steps(c: bv32, n: nat): bv32 { Iterate(Step, c, n) }

  lemma LinearBoth(a: bv32, b: bv32)
    requires a & 0x8000_0000 != 0 && b & 0x8000_0000 != 0
    ensures Step(a ^ b) == Step(a) ^ Step(b)
  {
  }

  lemma LinearOne(a: bv32, b: bv32)
    requires a & 0x8000_0000 != 0 && b & 0x8000_0000 == 0
    ensures Step(a ^ b) == Step(a) ^ Step(b) && Step(b ^ a) == Step(b) ^ Step(a)
  {
  }

  lemma LinearNone(a: bv32, b: bv32)
    requires a & 0x8000_0000 == 0 && b & 0x8000_0000 == 0
    ensures Step(a ^ b) == Step(a) ^ Step(b)
  {
  }

  ghost predicate Preserves<T(!new)>(f: T -> T, op: (T, T) -> T) {
    forall a, b :: f(op(a, b)) == op(f(a), f(b))
  }

  lemma {:induction false} IteratePreserves<T(!new)>(f: T -> T, op: (T, T) -> T, a: T, b: T, n: nat)
    requires Preserves(f, op)
    ensures Iterate(f, op(a, b), n) == op(Iterate(f, a, n), Iterate(f, b, n))
    decreases n
  {
    if n > 0 { IteratePreserves(f, op, f(a), f(b), n - 1); }
  }

  function Xor(a: bv32, b: bv32): bv32 { a ^ b }

  lemma StepPreservesXor()
    ensures Preserves(Step, Xor)
  {
    forall x, y ensures Step(Xor(x, y)) == Xor(Step(x), Step(y)) { StepIsLinear(x, y); }
  }

  /** Division is linear: the sum of two dividends has the sum of the remainders. */
  lemma StepsAreLinear(a: bv32, b: bv32, n: nat)
    ensures Steps(Xor(a, b), n) == Xor(Steps(a, n), Steps(b, n))
  {
    StepPreservesXor();
    IteratePreserves(Step, Xor, a, b, n);
  }

  lemma StepIsLinear(a: bv32, b: bv32)
    ensures Step(a ^ b) == Step(a) ^ Step(b)
  {
    if a & 0x8000_0000 != 0 {
      if b & 0x8000_0000 != 0 { LinearBoth(a, b); } else { LinearOne(a, b); }
    } else {
      if b & 0x8000_0000 != 0 { LinearOne(b, a); } else { LinearNone(a, b); }
    }
  }

  const ROW_0: seq<bv32> := [
    0x00000000, 0x04c11db7, 0x09823b6e, 0x0d4326d9,
    0x130476dc, 0x17c56b6b, 0x1a864db2, 0x1e475005,
    0x2608edb8, 0x22c9f00f, 0x2f8ad6d6, 0x2b4bcb61,
    0x350c9b64, 0x31cd86d3, 0x3c8ea00a, 0x384fbdbd]

  const ROW_1: seq<bv32> := [
    0x4c11db70, 0x48d0c6c7, 0x4593e01e, 0x4152fda9,
    0x5f15adac, 0x5bd4b01b, 0x569796c2, 0x52568b75,
    0x6a1936c8, 0x6ed82b7f, 0x639b0da6, 0x675a1011,
    0x791d4014, 0x7ddc5da3, 0x709f7b7a, 0x745e66cd]

  const ROW_2: seq<bv32> := [
    0x9823b6e0, 0x9ce2ab57, 0x91a18d8e, 0x95609039,
    0x8b27c03c, 0x8fe6dd8b, 0x82a5fb52, 0x8664e6e5,
    0xbe2b5b58, 0xbaea46ef, 0xb7a96036, 0xb3687d81,
    0xad2f2d84, 0xa9ee3033, 0xa4ad16ea, 0xa06c0b5d]

  const ROW_3: seq<bv32> := [
    0xd4326d90, 0xd0f37027, 0xddb056fe, 0xd9714b49,
    0xc7361b4c, 0xc3f706fb, 0xceb42022, 0xca753d95,
    0xf23a8028, 0xf6fb9d9f, 0xfbb8bb46, 0xff79a6f1,
    0xe13ef6f4, 0xe5ffeb43, 0xe8bccd9a, 0xec7dd02d]

  const ROW_4: seq<bv32> := [
    0x34867077, 0x30476dc0, 0x3d044b19, 0x39c556ae,
    0x278206ab, 0x23431b1c, 0x2e003dc5, 0x2ac12072,
    0x128e9dcf, 0x164f8078, 0x1b0ca6a1, 0x1fcdbb16,
    0x018aeb13, 0x054bf6a4, 0x0808d07d, 0x0cc9cdca]

  const ROW_5: seq<bv32> := [
    0x7897ab07, 0x7c56b6b0, 0x71159069, 0x75d48dde,
    0x6b93dddb, 0x6f52c06c, 0x6211e6b5, 0x66d0fb02,
    0x5e9f46bf, 0x5a5e5b08, 0x571d7dd1, 0x53dc6066,
    0x4d9b3063, 0x495a2dd4, 0x44190b0d, 0x40d816ba]

  const ROW_6: seq<bv32> := [
    0xaca5c697, 0xa864db20, 0xa527fdf9, 0xa1e6e04e,
    0xbfa1b04b, 0xbb60adfc, 0xb6238b25, 0xb2e29692,
    0x8aad2b2f, 0x8e6c3698, 0x832f1041, 0x87ee0df6,
    0x99a95df3, 0x9d684044, 0x902b669d, 0x94ea7b2a]

  const ROW_7: seq<bv32> := [
    0xe0b41de7, 0xe4750050, 0xe9362689, 0xedf73b3e,
    0xf3b06b3b, 0xf771768c, 0xfa325055, 0xfef34de2,
    0xc6bcf05f, 0xc27dede8, 0xcf3ecb31, 0xcbffd686,
    0xd5b88683, 0xd1799b34, 0xdc3abded, 0xd8fba05a]

  const ROW_8: seq<bv32> := [
    0x690ce0ee, 0x6dcdfd59, 0x608edb80, 0x644fc637,
    0x7a089632, 0x7ec98b85, 0x738aad5c, 0x774bb0eb,
    0x4f040d56, 0x4bc510e1, 0x46863638, 0x42472b8f,
    0x5c007b8a, 0x58c1663d, 0x558240e4, 0x51435d53]

  const ROW_9: seq<bv32> := [
    0x251d3b9e, 0x21dc2629, 0x2c9f00f0, 0x285e1d47,
    0x36194d42, 0x32d850f5, 0x3f9b762c, 0x3b5a6b9b,
    0x0315d626, 0x07d4cb91, 0x0a97ed48, 0x0e56f0ff,
    0x1011a0fa, 0x14d0bd4d, 0x19939b94, 0x1d528623]

  const ROW_A: seq<bv32> := [
    0xf12f560e, 0xf5ee4bb9, 0xf8ad6d60, 0xfc6c70d7,
    0xe22b20d2, 0xe6ea3d65, 0xeba91bbc, 0xef68060b,
    0xd727bbb6, 0xd3e6a601, 0xdea580d8, 0xda649d6f,
    0xc423cd6a, 0xc0e2d0dd, 0xcda1f604, 0xc960ebb3]

  const ROW_B: seq<bv32> := [
    0xbd3e8d7e, 0xb9ff90c9, 0xb4bcb610, 0xb07daba7,
    0xae3afba2, 0xaafbe615, 0xa7b8c0cc, 0xa379dd7b,
    0x9b3660c6, 0x9ff77d71, 0x92b45ba8, 0x9675461f,
    0x8832161a, 0x8cf30bad, 0x81b02d74, 0x857130c3]

  const ROW_C: seq<bv32> := [
    0x5d8a9099, 0x594b8d2e, 0x5408abf7, 0x50c9b640,
    0x4e8ee645, 0x4a4ffbf2, 0x470cdd2b, 0x43cdc09c,
    0x7b827d21, 0x7f436096, 0x7200464f, 0x76c15bf8,
    0x68860bfd, 0x6c47164a, 0x61043093, 0x65c52d24]

  const ROW_D: seq<bv32> := [
    0x119b4be9, 0x155a565e, 0x18197087, 0x1cd86d30,
    0x029f3d35, 0x065e2082, 0x0b1d065b, 0x0fdc1bec,
    0x3793a651, 0x3352bbe6, 0x3e119d3f, 0x3ad08088,
    0x2497d08d, 0x2056cd3a, 0x2d15ebe3, 0x29d4f654]

  const ROW_E: seq<bv32> := [
    0xc5a92679, 0xc1683bce, 0xcc2b1d17, 0xc8ea00a0,
    0xd6ad50a5, 0xd26c4d12, 0xdf2f6bcb, 0xdbee767c,
    0xe3a1cbc1, 0xe760d676, 0xea23f0af, 0xeee2ed18,
    0xf0a5bd1d, 0xf464a0aa, 0xf9278673, 0xfde69bc4]

  const ROW_F: seq<bv32> := [
    0x89b8fd09, 0x8d79e0be, 0x803ac667, 0x84fbdbd0,
    0x9abc8bd5, 0x9e7d9662, 0x933eb0bb, 0x97ffad0c,
    0xafb010b1, 0xab710d06, 0xa6322bdf, 0xa2f33668,
    0xbcb4666d, 0xb8757bda, 0xb5365d03, 0xb1f740b4]

  const ROWS: seq<seq<bv32>> := [
    ROW_0, ROW_1, ROW_2, ROW_3, ROW_4, ROW_5, ROW_6, ROW_7,
    ROW_8, ROW_9, ROW_A, ROW_B, ROW_C, ROW_D, ROW_E, ROW_F]

  /** The first words of the rows. */
  const LEADS: seq<bv32> := [
    ROW_0[0], ROW_1[0], ROW_2[0], ROW_3[0],
    ROW_4[0], ROW_5[0], ROW_6[0], ROW_7[0],
    ROW_8[0], ROW_9[0], ROW_A[0], ROW_B[0],
    ROW_C[0], ROW_D[0], ROW_E[0], ROW_F[0]]

  /** What remains after a byte has been shifted out. */
  function Byte(c: bv32): bv32 { Step(Step(Step(Step(Step(Step(Step(Step(c)))))))) }

  lemma ByteIsEightSteps(c: bv32)
    ensures Byte(c) == Steps(c, 8)
  {
  }

  lemma ByteIsLinear(a: bv32, b: bv32)
    ensures Byte(Xor(a, b)) == Xor(Byte(a), Byte(b))
  {
    StepsAreLinear(a, b, 8);
    ByteIsEightSteps(a);
    ByteIsEightSteps(b);
    ByteIsEightSteps(Xor(a, b));
  }

  /** What remains of a byte whose lower, or whose upper half is zero. */
  function High(h: bv32): bv32 { Byte(h << 28) }
  function Low(j: bv32): bv32 { Byte(j << 24) }

  /** Sixteen words: f of 0, 1, ... 15. */
  predicate Sixteen(words: seq<bv32>, f: bv32 -> bv32) {
    |words| == 16 && var same :=
      words[0] == f(0) && words[1] == f(1) && words[2] == f(2) && words[3] == f(3) &&
      words[4] == f(4) && words[5] == f(5) && words[6] == f(6) && words[7] == f(7) &&
      words[8] == f(8) && words[9] == f(9) && words[10] == f(10) && words[11] == f(11) &&
      words[12] == f(12) && words[13] == f(13) && words[14] == f(14) && words[15] == f(15);
    same
  }

  lemma FirstRow() ensures Sixteen(ROW_0, Low) {}

  lemma FirstColumn() ensures Sixteen(LEADS, High) {}

  /** Every word of a row is the sum of its first word and of the word below it in the first row. */
  predicate RowOk(row: seq<bv32>) {
    |row| == 16 && forall j | 0 <= j < 16 :: row[j] == row[0] ^ ROW_0[j]
  }

  lemma Row1() ensures RowOk(ROW_1) {}

  lemma Row2() ensures RowOk(ROW_2) {}

  lemma Row3() ensures RowOk(ROW_3) {}

  lemma Row4() ensures RowOk(ROW_4) {}

  lemma Row5() ensures RowOk(ROW_5) {}

  lemma Row6() ensures RowOk(ROW_6) {}

  lemma Row7() ensures RowOk(ROW_7) {}

  lemma Row8() ensures RowOk(ROW_8) {}

  lemma Row9() ensures RowOk(ROW_9) {}

  lemma RowA() ensures RowOk(ROW_A) {}

  lemma RowB() ensures RowOk(ROW_B) {}

  lemma RowC() ensures RowOk(ROW_C) {}

  lemma RowD() ensures RowOk(ROW_D) {}

  lemma RowE() ensures RowOk(ROW_E) {}

  lemma RowF() ensures RowOk(ROW_F) {}

  lemma Row0() ensures RowOk(ROW_0) {}

  lemma RowsOk(h: nat)
    requires h < 16
    ensures RowOk(ROWS[h]) && ROWS[h][0] == LEADS[h]
  {
    if h < 8 { LowerRows(h); } else { UpperRows(h); }
  }

  lemma LowerRows(h: nat)
    requires 0 <= h < 8
    ensures RowOk(ROWS[h]) && ROWS[h][0] == LEADS[h]
  {
    if h == 0 { Row0(); }
    else if h == 1 { Row1(); }
    else if h == 2 { Row2(); }
    else if h == 3 { Row3(); }
    else if h == 4 { Row4(); }
    else if h == 5 { Row5(); }
    else if h == 6 { Row6(); }
    else { Row7(); }
  }

  lemma UpperRows(h: nat)
    requires 8 <= h < 16
    ensures RowOk(ROWS[h]) && ROWS[h][0] == LEADS[h]
  {
    if h == 8 { Row8(); }
    else if h == 9 { Row9(); }
    else if h == 10 { RowA(); }
    else if h == 11 { RowB(); }
    else if h == 12 { RowC(); }
    else if h == 13 { RowD(); }
    else if h == 14 { RowE(); }
    else { RowF(); }
  }

  /** crc_table[i]; the table is kept in rows of sixteen. */
  function TableWord(i: nat): bv32
    requires i < 256
  {
    RowsOk(i / 16);
    ROWS[i / 16][i % 16]
  }

  lemma OneOfSixteen(words: seq<bv32>, f: bv32 -> bv32, k: bv32)
    requires Sixteen(words, f) && k < 16
    ensures words[k as nat] == f(k)
  {
    if k < 4 { assert k == 0 || k == 1 || k == 2 || k == 3; }
    else if k < 8 { assert k == 4 || k == 5 || k == 6 || k == 7; }
    else if k < 12 { assert k == 8 || k == 9 || k == 10 || k == 11; }
    else { assert k == 12 || k == 13 || k == 14 || k == 15; }
  }

  lemma Position(h: nat, j: nat)
    requires j < 16
    ensures (16 * h + j) / 16 == h && (16 * h + j) % 16 == j
  {
  }

  lemma WordInRow(row: seq<bv32>, j: nat)
    requires RowOk(row) && j < 16
    ensures row[j] == Xor(row[0], ROW_0[j])
  {
  }

  lemma RowOfWord(h: nat, j: nat)
    requires h < 16 && j < 16
    ensures |ROWS[h]| == 16 && TableWord(16 * h + j) == ROWS[h][j]
  {
    Position(h, j);
    RowsOk(h);
  }

  lemma WordIsSum(h: nat, j: nat)
    requires h < 16 && j < 16
    ensures |ROW_0| == 16 && TableWord(16 * h + j) == Xor(LEADS[h], ROW_0[j])
  {
    RowOfWord(h, j);
    RowsOk(h);
    WordInRow(ROWS[h], j);
  }

  lemma LeadIs(h: bv32)
    requires h < 16
    ensures LEADS[h as nat] == Byte(h << 28)
  {
    FirstColumn();
    OneOfSixteen(LEADS, High, h);
  }

  lemma FirstIs(j: bv32)
    requires j < 16
    ensures |ROW_0| == 16 && ROW_0[j as nat] == Byte(j << 24)
  {
    FirstRow();
    OneOfSixteen(ROW_0, Low, j);
  }

  lemma Halves(x: bv32)
    requires x < 256
    ensures (x >> 4) < 16 && (x & 15) < 16
    ensures (x as nat) == 16 * ((x >> 4) as nat) + ((x & 15) as nat)
    ensures Xor((x >> 4) << 28, (x & 15) << 24) == x << 24
  {
  }

  /** Every word of the table is what eight division steps make of its byte. */
  lemma TableIsRight(x: bv32)
    requires x < 256
    ensures TableWord(x as nat) == Byte(x << 24)
  {
    Halves(x);
    WordIsSum((x >> 4) as nat, (x & 15) as nat);
    LeadIs(x >> 4);
    FirstIs(x & 15);
    ByteIsLinear((x >> 4) << 28, (x & 15) << 24);
  }
}
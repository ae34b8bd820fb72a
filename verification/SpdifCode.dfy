/**
 The biphase-mark code table of the S/PDIF encoder, and what one encoded
 sample means as a line signal (IEC 60958-1, clauses 4.1 to 4.3).
 */
module SpdifCode {

  // ----- the 256-entry table, one function for each row of 16 -----

  function Row0(b: bv8): bv32 {
    if b & 0xF == 0 then 0x3333 else if b & 0xF == 1 then 0xb333 else if b & 0xF == 2 then 0xd333
    else if b & 0xF == 3 then 0x5333 else if b & 0xF == 4 then 0xcb33 else if b & 0xF == 5 then 0x4b33
    else if b & 0xF == 6 then 0x2b33 else if b & 0xF == 7 then 0xab33 else if b & 0xF == 8 then 0xcd33
    else if b & 0xF == 9 then 0x4d33 else if b & 0xF == 10 then 0x2d33 else if b & 0xF == 11 then 0xad33
    else if b & 0xF == 12 then 0x3533 else if b & 0xF == 13 then 0xb533 else if b & 0xF == 14 then 0xd533
    else 0x5533
  }

  function Row1(b: bv8): bv32 {
    if b & 0xF == 0 then 0xccb3 else if b & 0xF == 1 then 0x4cb3 else if b & 0xF == 2 then 0x2cb3
    else if b & 0xF == 3 then 0xacb3 else if b & 0xF == 4 then 0x34b3 else if b & 0xF == 5 then 0xb4b3
    else if b & 0xF == 6 then 0xd4b3 else if b & 0xF == 7 then 0x54b3 else if b & 0xF == 8 then 0x32b3
    else if b & 0xF == 9 then 0xb2b3 else if b & 0xF == 10 then 0xd2b3 else if b & 0xF == 11 then 0x52b3
    else if b & 0xF == 12 then 0xcab3 else if b & 0xF == 13 then 0x4ab3 else if b & 0xF == 14 then 0x2ab3
    else 0xaab3
  }

  function Row2(b: bv8): bv32 {
    if b & 0xF == 0 then 0xccd3 else if b & 0xF == 1 then 0x4cd3 else if b & 0xF == 2 then 0x2cd3
    else if b & 0xF == 3 then 0xacd3 else if b & 0xF == 4 then 0x34d3 else if b & 0xF == 5 then 0xb4d3
    else if b & 0xF == 6 then 0xd4d3 else if b & 0xF == 7 then 0x54d3 else if b & 0xF == 8 then 0x32d3
    else if b & 0xF == 9 then 0xb2d3 else if b & 0xF == 10 then 0xd2d3 else if b & 0xF == 11 then 0x52d3
    else if b & 0xF == 12 then 0xcad3 else if b & 0xF == 13 then 0x4ad3 else if b & 0xF == 14 then 0x2ad3
    else 0xaad3
  }

  function Row3(b: bv8): bv32 {
    if b & 0xF == 0 then 0x3353 else if b & 0xF == 1 then 0xb353 else if b & 0xF == 2 then 0xd353
    else if b & 0xF == 3 then 0x5353 else if b & 0xF == 4 then 0xcb53 else if b & 0xF == 5 then 0x4b53
    else if b & 0xF == 6 then 0x2b53 else if b & 0xF == 7 then 0xab53 else if b & 0xF == 8 then 0xcd53
    else if b & 0xF == 9 then 0x4d53 else if b & 0xF == 10 then 0x2d53 else if b & 0xF == 11 then 0xad53
    else if b & 0xF == 12 then 0x3553 else if b & 0xF == 13 then 0xb553 else if b & 0xF == 14 then 0xd553
    else 0x5553
  }

  function Row4(b: bv8): bv32 {
    if b & 0xF == 0 then 0xcccb else if b & 0xF == 1 then 0x4ccb else if b & 0xF == 2 then 0x2ccb
    else if b & 0xF == 3 then 0xaccb else if b & 0xF == 4 then 0x34cb else if b & 0xF == 5 then 0xb4cb
    else if b & 0xF == 6 then 0xd4cb else if b & 0xF == 7 then 0x54cb else if b & 0xF == 8 then 0x32cb
    else if b & 0xF == 9 then 0xb2cb else if b & 0xF == 10 then 0xd2cb else if b & 0xF == 11 then 0x52cb
    else if b & 0xF == 12 then 0xcacb else if b & 0xF == 13 then 0x4acb else if b & 0xF == 14 then 0x2acb
    else 0xaacb
  }

  function Row5(b: bv8): bv32 {
    if b & 0xF == 0 then 0x334b else if b & 0xF == 1 then 0xb34b else if b & 0xF == 2 then 0xd34b
    else if b & 0xF == 3 then 0x534b else if b & 0xF == 4 then 0xcb4b else if b & 0xF == 5 then 0x4b4b
    else if b & 0xF == 6 then 0x2b4b else if b & 0xF == 7 then 0xab4b else if b & 0xF == 8 then 0xcd4b
    else if b & 0xF == 9 then 0x4d4b else if b & 0xF == 10 then 0x2d4b else if b & 0xF == 11 then 0xad4b
    else if b & 0xF == 12 then 0x354b else if b & 0xF == 13 then 0xb54b else if b & 0xF == 14 then 0xd54b
    else 0x554b
  }

  function Row6(b: bv8): bv32 {
    if b & 0xF == 0 then 0x332b else if b & 0xF == 1 then 0xb32b else if b & 0xF == 2 then 0xd32b
    else if b & 0xF == 3 then 0x532b else if b & 0xF == 4 then 0xcb2b else if b & 0xF == 5 then 0x4b2b
    else if b & 0xF == 6 then 0x2b2b else if b & 0xF == 7 then 0xab2b else if b & 0xF == 8 then 0xcd2b
    else if b & 0xF == 9 then 0x4d2b else if b & 0xF == 10 then 0x2d2b else if b & 0xF == 11 then 0xad2b
    else if b & 0xF == 12 then 0x352b else if b & 0xF == 13 then 0xb52b else if b & 0xF == 14 then 0xd52b
    else 0x552b
  }

  function Row7(b: bv8): bv32 {
    if b & 0xF == 0 then 0xccab else if b & 0xF == 1 then 0x4cab else if b & 0xF == 2 then 0x2cab
    else if b & 0xF == 3 then 0xacab else if b & 0xF == 4 then 0x34ab else if b & 0xF == 5 then 0xb4ab
    else if b & 0xF == 6 then 0xd4ab else if b & 0xF == 7 then 0x54ab else if b & 0xF == 8 then 0x32ab
    else if b & 0xF == 9 then 0xb2ab else if b & 0xF == 10 then 0xd2ab else if b & 0xF == 11 then 0x52ab
    else if b & 0xF == 12 then 0xcaab else if b & 0xF == 13 then 0x4aab else if b & 0xF == 14 then 0x2aab
    else 0xaaab
  }

  function Row8(b: bv8): bv32 {
    if b & 0xF == 0 then 0xcccd else if b & 0xF == 1 then 0x4ccd else if b & 0xF == 2 then 0x2ccd
    else if b & 0xF == 3 then 0xaccd else if b & 0xF == 4 then 0x34cd else if b & 0xF == 5 then 0xb4cd
    else if b & 0xF == 6 then 0xd4cd else if b & 0xF == 7 then 0x54cd else if b & 0xF == 8 then 0x32cd
    else if b & 0xF == 9 then 0xb2cd else if b & 0xF == 10 then 0xd2cd else if b & 0xF == 11 then 0x52cd
    else if b & 0xF == 12 then 0xcacd else if b & 0xF == 13 then 0x4acd else if b & 0xF == 14 then 0x2acd
    else 0xaacd
  }

  function Row9(b: bv8): bv32 {
    if b & 0xF == 0 then 0x334d else if b & 0xF == 1 then 0xb34d else if b & 0xF == 2 then 0xd34d
    else if b & 0xF == 3 then 0x534d else if b & 0xF == 4 then 0xcb4d else if b & 0xF == 5 then 0x4b4d
    else if b & 0xF == 6 then 0x2b4d else if b & 0xF == 7 then 0xab4d else if b & 0xF == 8 then 0xcd4d
    else if b & 0xF == 9 then 0x4d4d else if b & 0xF == 10 then 0x2d4d else if b & 0xF == 11 then 0xad4d
    else if b & 0xF == 12 then 0x354d else if b & 0xF == 13 then 0xb54d else if b & 0xF == 14 then 0xd54d
    else 0x554d
  }

  function RowA(b: bv8): bv32 {
    if b & 0xF == 0 then 0x332d else if b & 0xF == 1 then 0xb32d else if b & 0xF == 2 then 0xd32d
    else if b & 0xF == 3 then 0x532d else if b & 0xF == 4 then 0xcb2d else if b & 0xF == 5 then 0x4b2d
    else if b & 0xF == 6 then 0x2b2d else if b & 0xF == 7 then 0xab2d else if b & 0xF == 8 then 0xcd2d
    else if b & 0xF == 9 then 0x4d2d else if b & 0xF == 10 then 0x2d2d else if b & 0xF == 11 then 0xad2d
    else if b & 0xF == 12 then 0x352d else if b & 0xF == 13 then 0xb52d else if b & 0xF == 14 then 0xd52d
    else 0x552d
  }

  function RowB(b: bv8): bv32 {
    if b & 0xF == 0 then 0xccad else if b & 0xF == 1 then 0x4cad else if b & 0xF == 2 then 0x2cad
    else if b & 0xF == 3 then 0xacad else if b & 0xF == 4 then 0x34ad else if b & 0xF == 5 then 0xb4ad
    else if b & 0xF == 6 then 0xd4ad else if b & 0xF == 7 then 0x54ad else if b & 0xF == 8 then 0x32ad
    else if b & 0xF == 9 then 0xb2ad else if b & 0xF == 10 then 0xd2ad else if b & 0xF == 11 then 0x52ad
    else if b & 0xF == 12 then 0xcaad else if b & 0xF == 13 then 0x4aad else if b & 0xF == 14 then 0x2aad
    else 0xaaad
  }

  function RowC(b: bv8): bv32 {
    if b & 0xF == 0 then 0x3335 else if b & 0xF == 1 then 0xb335 else if b & 0xF == 2 then 0xd335
    else if b & 0xF == 3 then 0x5335 else if b & 0xF == 4 then 0xcb35 else if b & 0xF == 5 then 0x4b35
    else if b & 0xF == 6 then 0x2b35 else if b & 0xF == 7 then 0xab35 else if b & 0xF == 8 then 0xcd35
    else if b & 0xF == 9 then 0x4d35 else if b & 0xF == 10 then 0x2d35 else if b & 0xF == 11 then 0xad35
    else if b & 0xF == 12 then 0x3535 else if b & 0xF == 13 then 0xb535 else if b & 0xF == 14 then 0xd535
    else 0x5535
  }

  function RowD(b: bv8): bv32 {
    if b & 0xF == 0 then 0xccb5 else if b & 0xF == 1 then 0x4cb5 else if b & 0xF == 2 then 0x2cb5
    else if b & 0xF == 3 then 0xacb5 else if b & 0xF == 4 then 0x34b5 else if b & 0xF == 5 then 0xb4b5
    else if b & 0xF == 6 then 0xd4b5 else if b & 0xF == 7 then 0x54b5 else if b & 0xF == 8 then 0x32b5
    else if b & 0xF == 9 then 0xb2b5 else if b & 0xF == 10 then 0xd2b5 else if b & 0xF == 11 then 0x52b5
    else if b & 0xF == 12 then 0xcab5 else if b & 0xF == 13 then 0x4ab5 else if b & 0xF == 14 then 0x2ab5
    else 0xaab5
  }

  function RowE(b: bv8): bv32 {
    if b & 0xF == 0 then 0xccd5 else if b & 0xF == 1 then 0x4cd5 else if b & 0xF == 2 then 0x2cd5
    else if b & 0xF == 3 then 0xacd5 else if b & 0xF == 4 then 0x34d5 else if b & 0xF == 5 then 0xb4d5
    else if b & 0xF == 6 then 0xd4d5 else if b & 0xF == 7 then 0x54d5 else if b & 0xF == 8 then 0x32d5
    else if b & 0xF == 9 then 0xb2d5 else if b & 0xF == 10 then 0xd2d5 else if b & 0xF == 11 then 0x52d5
    else if b & 0xF == 12 then 0xcad5 else if b & 0xF == 13 then 0x4ad5 else if b & 0xF == 14 then 0x2ad5
    else 0xaad5
  }

  function RowF(b: bv8): bv32 {
    if b & 0xF == 0 then 0x3355 else if b & 0xF == 1 then 0xb355 else if b & 0xF == 2 then 0xd355
    else if b & 0xF == 3 then 0x5355 else if b & 0xF == 4 then 0xcb55 else if b & 0xF == 5 then 0x4b55
    else if b & 0xF == 6 then 0x2b55 else if b & 0xF == 7 then 0xab55 else if b & 0xF == 8 then 0xcd55
    else if b & 0xF == 9 then 0x4d55 else if b & 0xF == 10 then 0x2d55 else if b & 0xF == 11 then 0xad55
    else if b & 0xF == 12 then 0x3555 else if b & 0xF == 13 then 0xb555 else if b & 0xF == 14 then 0xd555
    else 0x5555
  }

  /** The code of a byte: 16 half cells, least significant bit first. */
  function BmcTab(b: bv8): bv32 {
    if b >> 4 == 0 then Row0(b)
    else if b >> 4 == 1 then Row1(b)
    else if b >> 4 == 2 then Row2(b)
    else if b >> 4 == 3 then Row3(b)
    else if b >> 4 == 4 then Row4(b)
    else if b >> 4 == 5 then Row5(b)
    else if b >> 4 == 6 then Row6(b)
    else if b >> 4 == 7 then Row7(b)
    else if b >> 4 == 8 then Row8(b)
    else if b >> 4 == 9 then Row9(b)
    else if b >> 4 == 10 then RowA(b)
    else if b >> 4 == 11 then RowB(b)
    else if b >> 4 == 12 then RowC(b)
    else if b >> 4 == 13 then RowD(b)
    else if b >> 4 == 14 then RowE(b)
    else RowF(b)
  }

  const BMC_B: bv32 := 0x33173333
  const BMC_M: bv32 := 0x331d3333
  const BMC_W: bv32 := 0x331b3333
  const BMC_MW_DIF: bv32 := BMC_M ^ BMC_W
  const SYNC_FLIP: bv32 := (BMC_B ^ BMC_M) >> 16

  /** The promotion of an int16_t table entry, held in the low half of a word. */
  function SignExtend(c: bv32): bv32 {
    if c & 0x8000 != 0 then c | 0xFFFF_0000 else c
  }

  function Joined(cl: bv32, ch: bv32): bv32 {
    (((SignExtend(cl) << 16) ^ SignExtend(ch)) << 1) >> 1
  }

  /** One sample, low byte first: the sign of the high byte's code inverts the low byte's code. */
  function DataWord(lo: bv8, hi: bv8): bv32 {
    Joined(BmcTab(lo), BmcTab(hi))
  }

  // ----- the line signal -----

  /** Level of half cell j of a word; words go out most significant bit first. */
  predicate Level(w: bv32, j: nat)
    requires j < 32
  {
    if j == 0 then w & 0x80000000 != 0 else if j == 1 then w & 0x40000000 != 0
    else if j == 2 then w & 0x20000000 != 0 else if j == 3 then w & 0x10000000 != 0
    else if j == 4 then w & 0x08000000 != 0 else if j == 5 then w & 0x04000000 != 0
    else if j == 6 then w & 0x02000000 != 0 else if j == 7 then w & 0x01000000 != 0
    else if j == 8 then w & 0x00800000 != 0 else if j == 9 then w & 0x00400000 != 0
    else if j == 10 then w & 0x00200000 != 0 else if j == 11 then w & 0x00100000 != 0
    else if j == 12 then w & 0x00080000 != 0 else if j == 13 then w & 0x00040000 != 0
    else if j == 14 then w & 0x00020000 != 0 else if j == 15 then w & 0x00010000 != 0
    else if j == 16 then w & 0x00008000 != 0 else if j == 17 then w & 0x00004000 != 0
    else if j == 18 then w & 0x00002000 != 0 else if j == 19 then w & 0x00001000 != 0
    else if j == 20 then w & 0x00000800 != 0 else if j == 21 then w & 0x00000400 != 0
    else if j == 22 then w & 0x00000200 != 0 else if j == 23 then w & 0x00000100 != 0
    else if j == 24 then w & 0x00000080 != 0 else if j == 25 then w & 0x00000040 != 0
    else if j == 26 then w & 0x00000020 != 0 else if j == 27 then w & 0x00000010 != 0
    else if j == 28 then w & 0x00000008 != 0 else if j == 29 then w & 0x00000004 != 0
    else if j == 30 then w & 0x00000002 != 0 else w & 0x00000001 != 0
  }

  function BitMask(i: nat): bv8
    requires i < 8
  {
    if i == 7 then 0x80 else if i == 6 then 0x40 else if i == 5 then 0x20 else if i == 4 then 0x10
    else if i == 3 then 0x08 else if i == 2 then 0x04 else if i == 1 then 0x02 else 0x01
  }

  /** A biphase-mark cell carries a one when its two halves differ. */
  predicate Cell(w: bv32, i: nat)
    requires i < 16
  {
    Level(w, 2 * i) != Level(w, 2 * i + 1)
  }

  predicate SampleBit(lo: bv8, hi: bv8, i: nat)
    requires i < 16
  {
    if i < 8 then lo & BitMask(i) != 0 else hi & BitMask(i - 8) != 0
  }

  /** Bit i of the sample, low byte first, by shifting. */
  lemma SampleBitByShift(lo: bv8, hi: bv8, i: nat)
    requires i < 16
    ensures SampleBit(lo, hi, i) <==> (if i < 8 then lo >> i else hi >> (i - 8)) & 1 == 1
  {
    if i < 8 { BitByShift(lo, i); } else { BitByShift(hi, i - 8); }
  }

  lemma BitByShift(b: bv8, i: nat)
    requires i < 8
    ensures b & BitMask(i) != 0 <==> (b >> i) & 1 == 1
  {
    if i < 4 {
      if i == 0 {} else if i == 1 {} else if i == 2 {} else { assert i == 3; }
    } else {
      if i == 4 {} else if i == 5 {} else if i == 6 {} else { assert i == 7; }
    }
  }

  function Levels(w: bv32): (levels: seq<bool>)
    ensures |levels| == 32
  {
    seq(32, j requires 0 <= j < 32 => Level(w, j))
  }

  /** An odd number of the first n cells are ones. */
  predicate OddOnes(levels: seq<bool>, n: nat)
    requires 2 * n <= |levels|
  {
    n > 0 && ((levels[2 * n - 2] != levels[2 * n - 1]) != OddOnes(levels, n - 1))
  }

  // ----- the same facts as word operations -----

  /** The byte carried by the low half of a word. */
  function DecodeByte(c: bv32): bv32 {
    var d := c ^ (c >> 1);
    ((d >> 14) & 1) | ((d >> 11) & 2) | ((d >> 8) & 4) | ((d >> 5) & 8)
    | ((d >> 2) & 16) | ((d << 1) & 32) | ((d << 4) & 64) | ((d << 7) & 128)
  }

  /** Transitions at the inner cell boundaries, ending at level 1. */
  predicate IsCode(c: bv32) {
    c <= 0xFFFF && ((c >> 1) ^ c) & 0x2AAA == 0x2AAA && c & 1 == 1
  }

  lemma TableLow(b: bv8)
    requires b & 0x80 == 0
    ensures IsCode(BmcTab(b)) && DecodeByte(BmcTab(b)) == b as bv32
  {
  }

  lemma TableHigh(b: bv8)
    requires b & 0x80 != 0
    ensures IsCode(BmcTab(b)) && DecodeByte(BmcTab(b)) == b as bv32
  {
  }

  /** Every table entry is a biphase-mark code of its index. */
  lemma TableIsBiphaseMark(b: bv8)
    ensures IsCode(BmcTab(b)) && DecodeByte(BmcTab(b)) == b as bv32
  {
    if b & 0x80 == 0 { TableLow(b); } else { TableHigh(b); }
  }

  predicate IsCodedWord(w: bv32) {
    w & 0x8000_0000 == 0 && w & 1 == 1 && ((w >> 1) ^ w) & 0x2AAA_AAAA == 0x2AAA_AAAA
  }

  lemma JoinedIsCoded(cl: bv32, ch: bv32)
    requires IsCode(cl) && IsCode(ch)
    ensures IsCodedWord(Joined(cl, ch))
  {
  }

  lemma JoinedDecodesLow(cl: bv32, ch: bv32)
    requires IsCode(cl) && IsCode(ch)
    ensures DecodeByte(Joined(cl, ch) >> 16) & 0xFE == DecodeByte(cl) & 0xFE
  {
  }

  lemma JoinedDecodesHigh(cl: bv32, ch: bv32)
    requires IsCode(cl) && IsCode(ch)
    ensures DecodeByte(Joined(cl, ch)) == DecodeByte(ch)
  {
  }

  lemma WordBits(lo: bv8, hi: bv8)
    ensures var w := DataWord(lo, hi);
      && IsCodedWord(w)
      && DecodeByte(w >> 16) & 0xFE == (lo & 0xFE) as bv32
      && DecodeByte(w) == hi as bv32
  {
    TableIsBiphaseMark(lo);
    TableIsBiphaseMark(hi);
    JoinedIsCoded(BmcTab(lo), BmcTab(hi));
    JoinedDecodesLow(BmcTab(lo), BmcTab(hi));
    JoinedDecodesHigh(BmcTab(lo), BmcTab(hi));
  }

  // ----- back to the line signal -----

  lemma BoundaryBits(w: bv32)
    requires IsCodedWord(w)
    ensures (w & 0x20000000 != 0) != (w & 0x40000000 != 0)
    ensures (w & 0x08000000 != 0) != (w & 0x10000000 != 0)
    ensures (w & 0x02000000 != 0) != (w & 0x04000000 != 0)
    ensures (w & 0x00800000 != 0) != (w & 0x01000000 != 0)
    ensures (w & 0x00200000 != 0) != (w & 0x00400000 != 0)
    ensures (w & 0x00080000 != 0) != (w & 0x00100000 != 0)
    ensures (w & 0x00020000 != 0) != (w & 0x00040000 != 0)
    ensures (w & 0x00008000 != 0) != (w & 0x00010000 != 0)
    ensures (w & 0x00002000 != 0) != (w & 0x00004000 != 0)
    ensures (w & 0x00000800 != 0) != (w & 0x00001000 != 0)
    ensures (w & 0x00000200 != 0) != (w & 0x00000400 != 0)
    ensures (w & 0x00000080 != 0) != (w & 0x00000100 != 0)
    ensures (w & 0x00000020 != 0) != (w & 0x00000040 != 0)
    ensures (w & 0x00000008 != 0) != (w & 0x00000010 != 0)
    ensures (w & 0x00000002 != 0) != (w & 0x00000004 != 0)
  {
  }

  lemma LowBoundaries(w: bv32, i: nat)
    requires IsCodedWord(w) && 1 <= i < 8
    ensures Level(w, 2 * i) != Level(w, 2 * i - 1)
  {
    BoundaryBits(w);
  }

  lemma HighBoundaries(w: bv32, i: nat)
    requires IsCodedWord(w) && 8 <= i < 16
    ensures Level(w, 2 * i) != Level(w, 2 * i - 1)
  {
    if i < 12 { Boundaries8To11(w, i); } else { Boundaries12To15(w, i); }
  }

  lemma Boundaries8To11(w: bv32, i: nat)
    requires IsCodedWord(w) && 8 <= i < 12
    ensures Level(w, 2 * i) != Level(w, 2 * i - 1)
  {
    BoundaryBits(w);
  }

  lemma Boundaries12To15(w: bv32, i: nat)
    requires IsCodedWord(w) && 12 <= i < 16
    ensures Level(w, 2 * i) != Level(w, 2 * i - 1)
  {
    BoundaryBits(w);
  }

  lemma CodedLevels(w: bv32, i: nat)
    requires IsCodedWord(w) && 1 <= i < 16
    ensures !Level(w, 0) && Level(w, 31)
    ensures Level(w, 2 * i) != Level(w, 2 * i - 1)
  {
    if i < 8 { LowBoundaries(w, i); } else { HighBoundaries(w, i); }
  }

  lemma UpperCellBits(w: bv32)
    ensures ((w & 0x20000000 != 0) != (w & 0x10000000 != 0)) == (DecodeByte(w >> 16) & 0x02 != 0)
    ensures ((w & 0x08000000 != 0) != (w & 0x04000000 != 0)) == (DecodeByte(w >> 16) & 0x04 != 0)
    ensures ((w & 0x02000000 != 0) != (w & 0x01000000 != 0)) == (DecodeByte(w >> 16) & 0x08 != 0)
    ensures ((w & 0x00800000 != 0) != (w & 0x00400000 != 0)) == (DecodeByte(w >> 16) & 0x10 != 0)
    ensures ((w & 0x00200000 != 0) != (w & 0x00100000 != 0)) == (DecodeByte(w >> 16) & 0x20 != 0)
    ensures ((w & 0x00080000 != 0) != (w & 0x00040000 != 0)) == (DecodeByte(w >> 16) & 0x40 != 0)
    ensures ((w & 0x00020000 != 0) != (w & 0x00010000 != 0)) == (DecodeByte(w >> 16) & 0x80 != 0)
  {
  }

  lemma LowerCellBits(w: bv32)
    ensures ((w & 0x00008000 != 0) != (w & 0x00004000 != 0)) == (DecodeByte(w) & 0x01 != 0)
    ensures ((w & 0x00002000 != 0) != (w & 0x00001000 != 0)) == (DecodeByte(w) & 0x02 != 0)
    ensures ((w & 0x00000800 != 0) != (w & 0x00000400 != 0)) == (DecodeByte(w) & 0x04 != 0)
    ensures ((w & 0x00000200 != 0) != (w & 0x00000100 != 0)) == (DecodeByte(w) & 0x08 != 0)
    ensures ((w & 0x00000080 != 0) != (w & 0x00000040 != 0)) == (DecodeByte(w) & 0x10 != 0)
    ensures ((w & 0x00000020 != 0) != (w & 0x00000010 != 0)) == (DecodeByte(w) & 0x20 != 0)
    ensures ((w & 0x00000008 != 0) != (w & 0x00000004 != 0)) == (DecodeByte(w) & 0x40 != 0)
    ensures ((w & 0x00000002 != 0) != (w & 0x00000001 != 0)) == (DecodeByte(w) & 0x80 != 0)
  {
  }

  lemma Cells1To3(w: bv32, lo: bv8, i: nat)
    requires DecodeByte(w >> 16) & 0xFE == (lo & 0xFE) as bv32 && 1 <= i < 4
    ensures Cell(w, i) == (lo & BitMask(i) != 0)
  {
    UpperCellBits(w);
  }

  lemma Cells4To7(w: bv32, lo: bv8, i: nat)
    requires DecodeByte(w >> 16) & 0xFE == (lo & 0xFE) as bv32 && 4 <= i < 8
    ensures Cell(w, i) == (lo & BitMask(i) != 0)
  {
    UpperCellBits(w);
  }

  lemma Cells8To11(w: bv32, hi: bv8, i: nat)
    requires DecodeByte(w) == hi as bv32 && 8 <= i < 12
    ensures Cell(w, i) == (hi & BitMask(i - 8) != 0)
  {
    LowerCellBits(w);
  }

  lemma Cells12To15(w: bv32, hi: bv8, i: nat)
    requires DecodeByte(w) == hi as bv32 && 12 <= i < 16
    ensures Cell(w, i) == (hi & BitMask(i - 8) != 0)
  {
    LowerCellBits(w);
  }

  /** The cells of an encoded sample are its bits, lowest first, except for the lowest bit. */
  lemma CellsAreSampleBits(lo: bv8, hi: bv8, i: nat)
    requires 1 <= i < 16
    ensures Cell(DataWord(lo, hi), i) == SampleBit(lo, hi, i)
  {
    var w := DataWord(lo, hi);
    WordBits(lo, hi);
    if i < 4 { Cells1To3(w, lo, i); }
    else if i < 8 { Cells4To7(w, lo, i); }
    else if i < 12 { Cells8To11(w, hi, i); }
    else { Cells12To15(w, hi, i); }
  }

  /** From level 0, each cell boundary and each one flips the level. */
  lemma {:induction false} LevelCountsOnes(levels: seq<bool>, n: nat)
    requires 1 <= n && 2 * n <= |levels| && !levels[0]
    requires forall i :: 1 <= i < n ==> levels[2 * i] != levels[2 * i - 1]
    ensures OddOnes(levels, n) == (levels[2 * n - 1] == (n % 2 == 1))
  {
    if n > 1 {
      LevelCountsOnes(levels, n - 1);
      assert levels[2 * (n - 1)] != levels[2 * (n - 1) - 1];
    }
  }

  /** The lowest bit is whatever makes the number of ones even. */
  lemma OnesAreEven(lo: bv8, hi: bv8)
    ensures !OddOnes(Levels(DataWord(lo, hi)), 16)
  {
    var w := DataWord(lo, hi);
    WordBits(lo, hi);
    CodedWordLevels(w);
    LevelCountsOnes(Levels(w), 16);
  }

  lemma CodedWordLevels(w: bv32)
    requires IsCodedWord(w)
    ensures var s := Levels(w);
      !s[0] && s[31] && forall i :: 1 <= i < 16 ==> s[2 * i] != s[2 * i - 1]
  {
    var s := Levels(w);
    CodedLevels(w, 1);
    forall i | 1 <= i < 16 ensures s[2 * i] != s[2 * i - 1] {
      CodedLevels(w, i);
    }
  }
}

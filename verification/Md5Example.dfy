/** The digest of the empty message, step by step: section A.5 of RFC 1321. */
module Md5Example {
  import opened Ascii
  import opened Md5
  import opened Md5Rounds

  const START := Quad(0x6745_2301, 0xefcd_ab89, 0x98ba_dcfe, 0x1032_5476)

  const LAST := Quad(0x7246_fad3, 0x14e4_5506, 0xff4e_a3eb, 0x6e10_a476)

  /** The one block of the empty message. */
  predicate EmptyBlock(x: seq<bv32>) {
    |x| == 16 && x[0] == 0x80 && forall k :: 0 < k < 16 ==> x[k] == 0
  }

  lemma Empty0(s: Quad, x: seq<bv32>)
    requires EmptyBlock(x) && Steps(0, s, x) == Quad(0x6745_2301, 0xefcd_ab89, 0x98ba_dcfe, 0x1032_5476)
    ensures Steps(4, s, x) == Quad(0xa520_2774, 0x1b16_3203, 0xe7f0_6b23, 0xf595_92dd)
  {
    Entries0();
    hide Steps, Index, Amount, T;
    NextStep(0, s, x);
    NextStep(1, s, x);
    NextStep(2, s, x);
    NextStep(3, s, x);
    assert Steps(1, s, x) == Quad(0x1032_5476, 0xa520_2774, 0xefcd_ab89, 0x98ba_dcfe);
    assert Steps(2, s, x) == Quad(0x98ba_dcfe, 0xf595_92dd, 0xa520_2774, 0xefcd_ab89);
    assert Steps(3, s, x) == Quad(0xefcd_ab89, 0xe7f0_6b23, 0xf595_92dd, 0xa520_2774);
  }

  lemma Empty4(s: Quad, x: seq<bv32>)
    requires EmptyBlock(x) && Steps(4, s, x) == Quad(0xa520_2774, 0x1b16_3203, 0xe7f0_6b23, 0xf595_92dd)
    ensures Steps(8, s, x) == Quad(0x3203_3344, 0x9bc1_3ce9, 0xf5b1_58db, 0x2f35_d494)
  {
    Entries4();
    hide Steps, Index, Amount, T;
    NextStep(4, s, x);
    NextStep(5, s, x);
    NextStep(6, s, x);
    NextStep(7, s, x);
    assert Steps(5, s, x) == Quad(0xf595_92dd, 0x3203_3344, 0x1b16_3203, 0xe7f0_6b23);
    assert Steps(6, s, x) == Quad(0xe7f0_6b23, 0x2f35_d494, 0x3203_3344, 0x1b16_3203);
    assert Steps(7, s, x) == Quad(0x1b16_3203, 0xf5b1_58db, 0x2f35_d494, 0x3203_3344);
  }

  lemma Empty8(s: Quad, x: seq<bv32>)
    requires EmptyBlock(x) && Steps(8, s, x) == Quad(0x3203_3344, 0x9bc1_3ce9, 0xf5b1_58db, 0x2f35_d494)
    ensures Steps(12, s, x) == Quad(0x3893_b991, 0x7076_8a29, 0xe1ef_0576, 0xfce4_a312)
  {
    Entries8();
    hide Steps, Index, Amount, T;
    NextStep(8, s, x);
    NextStep(9, s, x);
    NextStep(10, s, x);
    NextStep(11, s, x);
    assert Steps(9, s, x) == Quad(0x2f35_d494, 0x3893_b991, 0x9bc1_3ce9, 0xf5b1_58db);
    assert Steps(10, s, x) == Quad(0xf5b1_58db, 0xfce4_a312, 0x3893_b991, 0x9bc1_3ce9);
    assert Steps(11, s, x) == Quad(0x9bc1_3ce9, 0xe1ef_0576, 0xfce4_a312, 0x3893_b991);
  }

  lemma Empty12(s: Quad, x: seq<bv32>)
    requires EmptyBlock(x) && Steps(12, s, x) == Quad(0x3893_b991, 0x7076_8a29, 0xe1ef_0576, 0xfce4_a312)
    ensures Steps(16, s, x) == Quad(0xf56c_7cf1, 0xd681_9c6a, 0x5aa5_3f75, 0x3749_43a7)
  {
    Entries12();
    hide Steps, Index, Amount, T;
    NextStep(12, s, x);
    NextStep(13, s, x);
    NextStep(14, s, x);
    NextStep(15, s, x);
    assert Steps(13, s, x) == Quad(0xfce4_a312, 0xf56c_7cf1, 0x7076_8a29, 0xe1ef_0576);
    assert Steps(14, s, x) == Quad(0xe1ef_0576, 0x3749_43a7, 0xf56c_7cf1, 0x7076_8a29);
    assert Steps(15, s, x) == Quad(0x7076_8a29, 0x5aa5_3f75, 0x3749_43a7, 0xf56c_7cf1);
  }

  lemma Empty16(s: Quad, x: seq<bv32>)
    requires EmptyBlock(x) && Steps(16, s, x) == Quad(0xf56c_7cf1, 0xd681_9c6a, 0x5aa5_3f75, 0x3749_43a7)
    ensures Steps(20, s, x) == Quad(0x1c7d_7513, 0xbd78_2e17, 0xc095_f13a, 0x7bd5_7a3a)
  {
    Entries16();
    hide Steps, Index, Amount, T;
    NextStep(16, s, x);
    NextStep(17, s, x);
    NextStep(18, s, x);
    NextStep(19, s, x);
    assert Steps(17, s, x) == Quad(0x3749_43a7, 0x1c7d_7513, 0xd681_9c6a, 0x5aa5_3f75);
    assert Steps(18, s, x) == Quad(0x5aa5_3f75, 0x7bd5_7a3a, 0x1c7d_7513, 0xd681_9c6a);
    assert Steps(19, s, x) == Quad(0xd681_9c6a, 0xc095_f13a, 0x7bd5_7a3a, 0x1c7d_7513);
  }

  lemma Empty20(s: Quad, x: seq<bv32>)
    requires EmptyBlock(x) && Steps(20, s, x) == Quad(0x1c7d_7513, 0xbd78_2e17, 0xc095_f13a, 0x7bd5_7a3a)
    ensures Steps(24, s, x) == Quad(0x3d1e_3e6c, 0xe422_531a, 0xeb41_643e, 0x68b7_b3e3)
  {
    Entries20();
    hide Steps, Index, Amount, T;
    NextStep(20, s, x);
    NextStep(21, s, x);
    NextStep(22, s, x);
    NextStep(23, s, x);
    assert Steps(21, s, x) == Quad(0x7bd5_7a3a, 0x3d1e_3e6c, 0xbd78_2e17, 0xc095_f13a);
    assert Steps(22, s, x) == Quad(0xc095_f13a, 0x68b7_b3e3, 0x3d1e_3e6c, 0xbd78_2e17);
    assert Steps(23, s, x) == Quad(0xbd78_2e17, 0xeb41_643e, 0x68b7_b3e3, 0x3d1e_3e6c);
  }

  lemma Empty24(s: Quad, x: seq<bv32>)
    requires EmptyBlock(x) && Steps(24, s, x) == Quad(0x3d1e_3e6c, 0xe422_531a, 0xeb41_643e, 0x68b7_b3e3)
    ensures Steps(28, s, x) == Quad(0x306e_c122, 0xa057_2807, 0xa3c6_63da, 0xd28c_77c2)
  {
    Entries24();
    hide Steps, Index, Amount, T;
    NextStep(24, s, x);
    NextStep(25, s, x);
    NextStep(26, s, x);
    NextStep(27, s, x);
    assert Steps(25, s, x) == Quad(0x68b7_b3e3, 0x306e_c122, 0xe422_531a, 0xeb41_643e);
    assert Steps(26, s, x) == Quad(0xeb41_643e, 0xd28c_77c2, 0x306e_c122, 0xe422_531a);
    assert Steps(27, s, x) == Quad(0xe422_531a, 0xa3c6_63da, 0xd28c_77c2, 0x306e_c122);
  }

  lemma Empty28(s: Quad, x: seq<bv32>)
    requires EmptyBlock(x) && Steps(28, s, x) == Quad(0x306e_c122, 0xa057_2807, 0xa3c6_63da, 0xd28c_77c2)
    ensures Steps(32, s, x) == Quad(0x1370_7036, 0xa220_5f1f, 0x1c31_c384, 0xae78_13db)
  {
    Entries28();
    hide Steps, Index, Amount, T;
    NextStep(28, s, x);
    NextStep(29, s, x);
    NextStep(30, s, x);
    NextStep(31, s, x);
    assert Steps(29, s, x) == Quad(0xd28c_77c2, 0x1370_7036, 0xa057_2807, 0xa3c6_63da);
    assert Steps(30, s, x) == Quad(0xa3c6_63da, 0xae78_13db, 0x1370_7036, 0xa057_2807);
    assert Steps(31, s, x) == Quad(0xa057_2807, 0x1c31_c384, 0xae78_13db, 0x1370_7036);
  }

  lemma Empty32(s: Quad, x: seq<bv32>)
    requires EmptyBlock(x) && Steps(32, s, x) == Quad(0x1370_7036, 0xa220_5f1f, 0x1c31_c384, 0xae78_13db)
    ensures Steps(36, s, x) == Quad(0xdf63_eaa1, 0x004b_6669, 0x12f3_e755, 0xc368_9f5b)
  {
    Entries32();
    hide Steps, Index, Amount, T;
    NextStep(32, s, x);
    NextStep(33, s, x);
    NextStep(34, s, x);
    NextStep(35, s, x);
    assert Steps(33, s, x) == Quad(0xae78_13db, 0xdf63_eaa1, 0xa220_5f1f, 0x1c31_c384);
    assert Steps(34, s, x) == Quad(0x1c31_c384, 0xc368_9f5b, 0xdf63_eaa1, 0xa220_5f1f);
    assert Steps(35, s, x) == Quad(0xa220_5f1f, 0x12f3_e755, 0xc368_9f5b, 0xdf63_eaa1);
  }

  lemma Empty36(s: Quad, x: seq<bv32>)
    requires EmptyBlock(x) && Steps(36, s, x) == Quad(0xdf63_eaa1, 0x004b_6669, 0x12f3_e755, 0xc368_9f5b)
    ensures Steps(40, s, x) == Quad(0x5f7a_9b2e, 0xc5dc_8c15, 0x91ca_4cb7, 0xabc3_4e16)
  {
    Entries36();
    hide Steps, Index, Amount, T;
    NextStep(36, s, x);
    NextStep(37, s, x);
    NextStep(38, s, x);
    NextStep(39, s, x);
    assert Steps(37, s, x) == Quad(0xc368_9f5b, 0x5f7a_9b2e, 0x004b_6669, 0x12f3_e755);
    assert Steps(38, s, x) == Quad(0x12f3_e755, 0xabc3_4e16, 0x5f7a_9b2e, 0x004b_6669);
    assert Steps(39, s, x) == Quad(0x004b_6669, 0x91ca_4cb7, 0xabc3_4e16, 0x5f7a_9b2e);
  }

  lemma Empty40(s: Quad, x: seq<bv32>)
    requires EmptyBlock(x) && Steps(40, s, x) == Quad(0x5f7a_9b2e, 0xc5dc_8c15, 0x91ca_4cb7, 0xabc3_4e16)
    ensures Steps(44, s, x) == Quad(0x4497_169d, 0x0fe3_2453, 0xfd95_f243, 0x76fd_93d4)
  {
    Entries40();
    hide Steps, Index, Amount, T;
    NextStep(40, s, x);
    NextStep(41, s, x);
    NextStep(42, s, x);
    NextStep(43, s, x);
    assert Steps(41, s, x) == Quad(0xabc3_4e16, 0x4497_169d, 0xc5dc_8c15, 0x91ca_4cb7);
    assert Steps(42, s, x) == Quad(0x91ca_4cb7, 0x76fd_93d4, 0x4497_169d, 0xc5dc_8c15);
    assert Steps(43, s, x) == Quad(0xc5dc_8c15, 0xfd95_f243, 0x76fd_93d4, 0x4497_169d);
  }

  lemma Empty44(s: Quad, x: seq<bv32>)
    requires EmptyBlock(x) && Steps(44, s, x) == Quad(0x4497_169d, 0x0fe3_2453, 0xfd95_f243, 0x76fd_93d4)
    ensures Steps(48, s, x) == Quad(0x3f55_edfd, 0xca7d_2dbd, 0x68d8_4ea2, 0x22a3_1f54)
  {
    Entries44();
    hide Steps, Index, Amount, T;
    NextStep(44, s, x);
    NextStep(45, s, x);
    NextStep(46, s, x);
    NextStep(47, s, x);
    assert Steps(45, s, x) == Quad(0x76fd_93d4, 0x3f55_edfd, 0x0fe3_2453, 0xfd95_f243);
    assert Steps(46, s, x) == Quad(0xfd95_f243, 0x22a3_1f54, 0x3f55_edfd, 0x0fe3_2453);
    assert Steps(47, s, x) == Quad(0x0fe3_2453, 0x68d8_4ea2, 0x22a3_1f54, 0x3f55_edfd);
  }

  lemma Empty48(s: Quad, x: seq<bv32>)
    requires EmptyBlock(x) && Steps(48, s, x) == Quad(0x3f55_edfd, 0xca7d_2dbd, 0x68d8_4ea2, 0x22a3_1f54)
    ensures Steps(52, s, x) == Quad(0x93aa_2577, 0x561e_0689, 0xcd85_b8cb, 0x1688_dc85)
  {
    Entries48();
    hide Steps, Index, Amount, T;
    NextStep(48, s, x);
    NextStep(49, s, x);
    NextStep(50, s, x);
    NextStep(51, s, x);
    assert Steps(49, s, x) == Quad(0x22a3_1f54, 0x93aa_2577, 0xca7d_2dbd, 0x68d8_4ea2);
    assert Steps(50, s, x) == Quad(0x68d8_4ea2, 0x1688_dc85, 0x93aa_2577, 0xca7d_2dbd);
    assert Steps(51, s, x) == Quad(0xca7d_2dbd, 0xcd85_b8cb, 0x1688_dc85, 0x93aa_2577);
  }

  lemma Empty52(s: Quad, x: seq<bv32>)
    requires EmptyBlock(x) && Steps(52, s, x) == Quad(0x93aa_2577, 0x561e_0689, 0xcd85_b8cb, 0x1688_dc85)
    ensures Steps(56, s, x) == Quad(0x5625_a114, 0x1e77_fa61, 0x392a_d0d0, 0x3450_f42b)
  {
    Entries52();
    hide Steps, Index, Amount, T;
    NextStep(52, s, x);
    NextStep(53, s, x);
    NextStep(54, s, x);
    NextStep(55, s, x);
    assert Steps(53, s, x) == Quad(0x1688_dc85, 0x5625_a114, 0x561e_0689, 0xcd85_b8cb);
    assert Steps(54, s, x) == Quad(0xcd85_b8cb, 0x3450_f42b, 0x5625_a114, 0x561e_0689);
    assert Steps(55, s, x) == Quad(0x561e_0689, 0x392a_d0d0, 0x3450_f42b, 0x5625_a114);
  }

  lemma Empty56(s: Quad, x: seq<bv32>)
    requires EmptyBlock(x) && Steps(56, s, x) == Quad(0x5625_a114, 0x1e77_fa61, 0x392a_d0d0, 0x3450_f42b)
    ensures Steps(60, s, x) == Quad(0x474a_9c8c, 0x3013_0182, 0x3659_4b14, 0xdfce_00bc)
  {
    Entries56();
    hide Steps, Index, Amount, T;
    NextStep(56, s, x);
    NextStep(57, s, x);
    NextStep(58, s, x);
    NextStep(59, s, x);
    assert Steps(57, s, x) == Quad(0x3450_f42b, 0x474a_9c8c, 0x1e77_fa61, 0x392a_d0d0);
    assert Steps(58, s, x) == Quad(0x392a_d0d0, 0xdfce_00bc, 0x474a_9c8c, 0x1e77_fa61);
    assert Steps(59, s, x) == Quad(0x1e77_fa61, 0x3659_4b14, 0xdfce_00bc, 0x474a_9c8c);
  }

  lemma Empty60(s: Quad, x: seq<bv32>)
    requires EmptyBlock(x) && Steps(60, s, x) == Quad(0x474a_9c8c, 0x3013_0182, 0x3659_4b14, 0xdfce_00bc)
    ensures Steps(64, s, x) == Quad(0x7246_fad3, 0x14e4_5506, 0xff4e_a3eb, 0x6e10_a476)
  {
    Entries60();
    hide Steps, Index, Amount, T;
    NextStep(60, s, x);
    NextStep(61, s, x);
    NextStep(62, s, x);
    NextStep(63, s, x);
    assert Steps(61, s, x) == Quad(0xdfce_00bc, 0x7246_fad3, 0x3013_0182, 0x3659_4b14);
    assert Steps(62, s, x) == Quad(0x3659_4b14, 0x6e10_a476, 0x7246_fad3, 0x3013_0182);
    assert Steps(63, s, x) == Quad(0x3013_0182, 0xff4e_a3eb, 0x6e10_a476, 0x7246_fad3);
  }

  lemma NextStep(i: nat, s: Quad, x: seq<bv32>)
    requires i < 64 && |x| == 16
    ensures Steps(i + 1, s, x) == Step(i, Steps(i, s, x), x)
  {
    hide Step;
  }

  lemma EmptySteps(x: seq<bv32>)
    requires EmptyBlock(x)
    ensures Steps(64, START, x) == LAST
  {
    var s := START;
    assert Steps(0, s, x) == s;
    hide Steps;
    Empty0(s, x);
    Empty4(s, x);
    Empty8(s, x);
    Empty12(s, x);
    Empty16(s, x);
    Empty20(s, x);
    Empty24(s, x);
    Empty28(s, x);
    Empty32(s, x);
    Empty36(s, x);
    Empty40(s, x);
    Empty44(s, x);
    Empty48(s, x);
    Empty52(s, x);
    Empty56(s, x);
    Empty60(s, x);
  }

  lemma {:induction false} WordsAt(b: seq<byte>, k: nat)
    requires |b| % 4 == 0 && 4 * k < |b|
    ensures FromLittleEndian(b)[k] == WordOf(b[4 * k], b[4 * k + 1], b[4 * k + 2], b[4 * k + 3])
  {
    hide WordOf;
    if k > 0 {
      WordsAt(b[4..], k - 1);
    }
  }

  lemma EmptyWords(b: Block)
    requires b[0] == 0x80 && forall i :: 0 < i < 64 ==> b[i] == 0
    ensures EmptyBlock(BitsOf(FromLittleEndian(b)))
  {
    var words := FromLittleEndian(b);
    WordsAt(b, 0);
    forall k | 0 < k < 16
      ensures words[k] == 0
    {
      WordsAt(b, k);
    }
    hide FromLittleEndian;
    assert words[0] == 0x80;
    hide WordOf;
    assert words[0] as bv32 == 0x80;
  }

  const RESULT: State := State(0xd98c_1dd4, 0x04b2_008f, 0x9809_80e9, 0x7e42_f8ec)

  const DIGEST: seq<byte> :=
    [0xd4, 0x1d, 0x8c, 0xd9, 0x8f, 0x00, 0xb2, 0x04,
     0xe9, 0x80, 0x09, 0x98, 0xec, 0xf8, 0x42, 0x7e]

  lemma InitQuad()
    ensures QuadOf(INIT) == START
  {
    FirstBits();
    SecondBits();
    ThirdBits();
    FourthBits();
  }

  lemma ThereAndBack(x: bv32)
    ensures (x as int) as bv32 == x
  {
  }

  lemma FirstBits()
    ensures INIT.a as bv32 == 0x6745_2301
  {
    ThereAndBack(0x6745_2301);
  }

  lemma SecondBits()
    ensures INIT.b as bv32 == 0xefcd_ab89
  {
    ThereAndBack(0xefcd_ab89);
  }

  lemma ThirdBits()
    ensures INIT.c as bv32 == 0x98ba_dcfe
  {
    ThereAndBack(0x98ba_dcfe);
  }

  lemma FourthBits()
    ensures INIT.d as bv32 == 0x1032_5476
  {
    ThereAndBack(0x1032_5476);
  }

  lemma EmptySum()
    ensures StateOf(Sum(START, LAST)) == RESULT
  {
  }

  lemma EmptyCompressed(b: Block)
    requires b[0] == 0x80 && forall i :: 0 < i < 64 ==> b[i] == 0
    ensures Compress(INIT, b) == RESULT
  {
    hide Steps, QuadOf, StateOf, Sum, BitsOf, FromLittleEndian, EmptyBlock;
    EmptyWords(b);
    InitQuad();
    EmptySteps(BitsOf(FromLittleEndian(b)));
    EmptySum();
  }

  lemma EmptyPadded()
    ensures var p := Padded([]); |p| == 64 && p[0] == 0x80 && forall i :: 0 < i < 64 ==> p[i] == 0
  {
    PaddedWhole([]);
    PaddedBytes([], 0);
    hide Padded;
    var p := Padded([]);
    forall i | 0 < i < 64
      ensures p[i] == 0
    {
      if i >= 56 {
        LengthByte(i - 56);
      }
    }
  }

  lemma LengthByte(k: nat)
    requires k < 8
    ensures var p := Padded([]); 9 <= |p| && p[|p| - 8 + k] == 0
  {
    hide *;
    PaddedBytes([], k);
  }

  lemma EmptyBytes()
    ensures LittleEndian(Words(RESULT)) == DIGEST
  {
    FourWords(RESULT);
    assert FourOf(0xd98c_1dd4) == [0xd4, 0x1d, 0x8c, 0xd9] && FourOf(0x04b2_008f) == [0x8f, 0x00, 0xb2, 0x04];
    assert FourOf(0x9809_80e9) == [0xe9, 0x80, 0x09, 0x98] && FourOf(0x7e42_f8ec) == [0xec, 0xf8, 0x42, 0x7e];
    hide FourOf, LittleEndian;
  }

  lemma {:induction false} HexAppend(a: seq<byte>, b: seq<byte>)
    ensures HexBytes(a + b) == HexBytes(a) + HexBytes(b)
  {
    if a == [] {
      assert a + b == b;
    } else {
      assert (a + b)[1..] == a[1..] + b;
      HexAppend(a[1..], b);
    }
  }

  lemma HexOne(a: byte, rest: seq<byte>)
    ensures HexBytes([a] + rest) == [HEX[a / 16], HEX[a % 16]] + HexBytes(rest)
    ensures HexBytes([]) == ""
  {
    assert ([a] + rest)[1..] == rest;
  }

  lemma HexFour(a: byte, b: byte, c: byte, d: byte)
    ensures HexBytes([a, b, c, d])
         == [HEX[a / 16], HEX[a % 16], HEX[b / 16], HEX[b % 16], HEX[c / 16], HEX[c % 16], HEX[d / 16], HEX[d % 16]]
  {
    HexOne(a, [b, c, d]);
    HexOne(b, [c, d]);
    HexOne(c, [d]);
    HexOne(d, []);
    assert [a] + [b, c, d] == [a, b, c, d] && [b] + [c, d] == [b, c, d] && [c] + [d] == [c, d] && [d] + [] == [d];
  }

  /** The first of the test values of section A.5 of RFC 1321. */
  lemma EmptyDigest()
    ensures HexBytes(Digest([])) == "d41d8cd98f00b204e9800998ecf8427e"
  {
    hide Fold, Padded, LittleEndian, Compress;
    EmptyPadded();
    var p: Block := Padded([]);
    var none: seq<byte> := [];
    FoldOne(Compress, INIT, none, p);
    assert none + p == p;
    EmptyCompressed(p);
    EmptyBytes();
    EmptyText();
  }

  lemma Text0()
    ensures HexBytes([0xd4, 0x1d, 0x8c, 0xd9]) == "d41d8cd9"
  {
    HexFour(0xd4, 0x1d, 0x8c, 0xd9);
  }

  lemma Text1()
    ensures HexBytes([0x8f, 0x00, 0xb2, 0x04]) == "8f00b204"
  {
    HexFour(0x8f, 0x00, 0xb2, 0x04);
  }

  lemma Text2()
    ensures HexBytes([0xe9, 0x80, 0x09, 0x98]) == "e9800998"
  {
    HexFour(0xe9, 0x80, 0x09, 0x98);
  }

  lemma Text3()
    ensures HexBytes([0xec, 0xf8, 0x42, 0x7e]) == "ecf8427e"
  {
    HexFour(0xec, 0xf8, 0x42, 0x7e);
  }

  lemma EmptyText()
    ensures HexBytes(DIGEST) == "d41d8cd98f00b204e9800998ecf8427e"
  {
    Text0();
    Text1();
    Text2();
    Text3();
    hide HexBytes;
    HexAppend([0xd4, 0x1d, 0x8c, 0xd9], [0x8f, 0x00, 0xb2, 0x04]);
    HexAppend([0xe9, 0x80, 0x09, 0x98], [0xec, 0xf8, 0x42, 0x7e]);
    HexAppend(DIGEST[..8], DIGEST[8..]);
    assert DIGEST[..8] == [0xd4, 0x1d, 0x8c, 0xd9] + [0x8f, 0x00, 0xb2, 0x04];
    assert DIGEST[8..] == [0xe9, 0x80, 0x09, 0x98] + [0xec, 0xf8, 0x42, 0x7e];
    assert DIGEST == DIGEST[..8] + DIGEST[8..];
    assert "d41d8cd9" + "8f00b204" == "d41d8cd98f00b204" && "e9800998" + "ecf8427e" == "e9800998ecf8427e";
  }
}

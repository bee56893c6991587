/** The compression function of MD5 as crypt.c writes it out, against the scheme of section 3.4 of RFC 1321:
    64 steps that differ in four tables. */
module Md5Rounds {
  type byte = x: int | 0 <= x < 256 witness 0

  const WORD := 0x1_0000_0000

  type Word = x: int | 0 <= x < WORD witness 0

  type Block = b: seq<byte> | |b| == 64 witness seq(64, _ => 0)

  datatype State = State(a: Word, b: Word, c: Word, d: Word)

  /** The same as bits. */
  datatype Quad = Quad(a: bv32, b: bv32, c: bv32, d: bv32)

  // ---------------------------------------------------------------- the scheme

  /** The table that RFC 1321 takes from the sine. */
  function T(i: nat): bv32
    requires i < 64
  {
    if i < 16 then T1(i) else if i < 32 then T2(i - 16) else if i < 48 then T3(i - 32) else T4(i - 48)
  }

  function T1(k: nat): bv32
    requires k < 16
  {
    match k
    case 0 => 0xd76a_a478
    case 1 => 0xe8c7_b756
    case 2 => 0x2420_70db
    case 3 => 0xc1bd_ceee
    case 4 => 0xf57c_0faf
    case 5 => 0x4787_c62a
    case 6 => 0xa830_4613
    case 7 => 0xfd46_9501
    case 8 => 0x6980_98d8
    case 9 => 0x8b44_f7af
    case 10 => 0xffff_5bb1
    case 11 => 0x895c_d7be
    case 12 => 0x6b90_1122
    case 13 => 0xfd98_7193
    case 14 => 0xa679_438e
    case _ => 0x49b4_0821
  }

  function T2(k: nat): bv32
    requires k < 16
  {
    match k
    case 0 => 0xf61e_2562
    case 1 => 0xc040_b340
    case 2 => 0x265e_5a51
    case 3 => 0xe9b6_c7aa
    case 4 => 0xd62f_105d
    case 5 => 0x0244_1453
    case 6 => 0xd8a1_e681
    case 7 => 0xe7d3_fbc8
    case 8 => 0x21e1_cde6
    case 9 => 0xc337_07d6
    case 10 => 0xf4d5_0d87
    case 11 => 0x455a_14ed
    case 12 => 0xa9e3_e905
    case 13 => 0xfcef_a3f8
    case 14 => 0x676f_02d9
    case _ => 0x8d2a_4c8a
  }

  function T3(k: nat): bv32
    requires k < 16
  {
    match k
    case 0 => 0xfffa_3942
    case 1 => 0x8771_f681
    case 2 => 0x6d9d_6122
    case 3 => 0xfde5_380c
    case 4 => 0xa4be_ea44
    case 5 => 0x4bde_cfa9
    case 6 => 0xf6bb_4b60
    case 7 => 0xbebf_bc70
    case 8 => 0x289b_7ec6
    case 9 => 0xeaa1_27fa
    case 10 => 0xd4ef_3085
    case 11 => 0x0488_1d05
    case 12 => 0xd9d4_d039
    case 13 => 0xe6db_99e5
    case 14 => 0x1fa2_7cf8
    case _ => 0xc4ac_5665
  }

  function T4(k: nat): bv32
    requires k < 16
  {
    match k
    case 0 => 0xf429_2244
    case 1 => 0x432a_ff97
    case 2 => 0xab94_23a7
    case 3 => 0xfc93_a039
    case 4 => 0x655b_59c3
    case 5 => 0x8f0c_cc92
    case 6 => 0xffef_f47d
    case 7 => 0x8584_5dd1
    case 8 => 0x6fa8_7e4f
    case 9 => 0xfe2c_e6e0
    case 10 => 0xa301_4314
    case 11 => 0x4e08_11a1
    case 12 => 0xf753_7e82
    case 13 => 0xbd3a_f235
    case 14 => 0x2ad7_d2bb
    case _ => 0xeb86_d391
  }

  /** The word of the block that a step takes. */
  function Index(i: nat): (k: nat)
    ensures k < 16
  {
    if i < 16 then i % 16
    else if i < 32 then (5 * i + 1) % 16
    else if i < 48 then (3 * i + 5) % 16
    else 7 * i % 16
  }

  /** By how much it rotates. */
  function Amount(i: nat): (s: nat)
    ensures 0 < s < 32
  {
    var k := i % 4;
    if i < 16 then (if k == 0 then 7 else if k == 1 then 12 else if k == 2 then 17 else 22)
    else if i < 32 then (if k == 0 then 5 else if k == 1 then 9 else if k == 2 then 14 else 20)
    else if i < 48 then (if k == 0 then 4 else if k == 1 then 11 else if k == 2 then 16 else 23)
    else if k == 0 then 6
    else if k == 1 then 10
    else if k == 2 then 15
    else 21
  }

  /** The four auxiliary functions: a choice by the bits of `x`, a choice by those of `z`, the parity, and
      the fourth. */
  function Mix(i: nat, x: bv32, y: bv32, z: bv32): bv32 {
    if i < 16 then z ^ (x & (y ^ z))
    else if i < 32 then y ^ (z & (x ^ y))
    else if i < 48 then x ^ y ^ z
    else y ^ (x | !z)
  }

  /** Rotation to the left. */
  function Rotate(x: bv32, s: nat): bv32
    requires 0 < s < 32
  {
    (x << s) | (x >> (32 - s))
  }

  /** What a step makes of the first of four words. */
  function StepWord(i: nat, s: Quad, x: seq<bv32>): bv32
    requires i < 64 && |x| == 16
  {
    Turn(s.a, Mix(i, s.b, s.c, s.d), s.b, x[Index(i)], Amount(i), T(i))
  }

  function Turn(a: bv32, m: bv32, b: bv32, w: bv32, s: nat, t: bv32): bv32
    requires 0 < s < 32
  {
    Plus(b, Rotate(Plus(Plus(Plus(a, m), w), t), s))
  }

  /** Addition of 32-bit words. */
  function Plus(x: bv32, y: bv32): bv32 {
    x + y
  }

  /** A step: the four words move on by one place. */
  function Step(i: nat, s: Quad, x: seq<bv32>): Quad
    requires i < 64 && |x| == 16
  {
    Quad(s.d, StepWord(i, s, x), s.b, s.c)
  }

  /** The first `n` steps. */
  function Steps(n: nat, s: Quad, x: seq<bv32>): Quad
    requires n <= 64 && |x| == 16
  {
    if n == 0 then s else Step(n - 1, Steps(n - 1, s, x), x)
  }

  function WordOf(b0: int, b1: int, b2: int, b3: int): (w: Word)
    requires 0 <= b0 < 256 && 0 <= b1 < 256 && 0 <= b2 < 256 && 0 <= b3 < 256
  {
    b0 + 0x100 * b1 + 0x1_0000 * b2 + 0x100_0000 * b3
  }

  /** decode: bytes to words, low byte first. */
  function FromLittleEndian(bytes: seq<byte>): (words: seq<Word>)
    requires |bytes| % 4 == 0
    ensures 4 * |words| == |bytes|
    decreases |bytes|
  {
    if bytes == [] then []
    else [WordOf(bytes[0], bytes[1], bytes[2], bytes[3])] + FromLittleEndian(bytes[4..])
  }

  function BitsOf(words: seq<Word>): (x: seq<bv32>)
    ensures |x| == |words|
  {
    seq(|words|, i requires 0 <= i < |words| => words[i] as bv32)
  }

  /** Section 3.4 of RFC 1321 for one block: the steps, and what results is added to the state. */
  function Compress(state: State, block: Block): State {
    var s := QuadOf(state);
    StateOf(Sum(s, Steps(64, s, BitsOf(FromLittleEndian(block)))))
  }

  function QuadOf(s: State): Quad {
    Quad(s.a as bv32, s.b as bv32, s.c as bv32, s.d as bv32)
  }

  function StateOf(q: Quad): State {
    State(q.a as int, q.b as int, q.c as int, q.d as int)
  }

  function Sum(s: Quad, r: Quad): Quad {
    Quad(Plus(s.a, r.a), Plus(s.b, r.b), Plus(s.c, r.c), Plus(s.d, r.d))
  }

  // ---------------------------------------------------------------- the macros

  function F(x: bv32, y: bv32, z: bv32): bv32 {
    (x & y) | (!x & z)
  }

  function G(x: bv32, y: bv32, z: bv32): bv32 {
    (x & z) | (y & !z)
  }

  function H(x: bv32, y: bv32, z: bv32): bv32 {
    x ^ y ^ z
  }

  function I(x: bv32, y: bv32, z: bv32): bv32 {
    y ^ (x | !z)
  }

  /** What the four macros share: the sum is formed, rotated and added to. */
  function Macro(a: bv32, m: bv32, b: bv32, x: bv32, s: nat, ac: bv32): bv32
    requires 0 < s < 32
  {
    Plus(Rotate(Plus(a, Plus(Plus(m, x), ac)), s), b)
  }

  function FF(a: bv32, b: bv32, c: bv32, d: bv32, x: bv32, s: nat, ac: bv32): bv32
    requires 0 < s < 32
  {
    Macro(a, F(b, c, d), b, x, s, ac)
  }

  function GG(a: bv32, b: bv32, c: bv32, d: bv32, x: bv32, s: nat, ac: bv32): bv32
    requires 0 < s < 32
  {
    Macro(a, G(b, c, d), b, x, s, ac)
  }

  function HH(a: bv32, b: bv32, c: bv32, d: bv32, x: bv32, s: nat, ac: bv32): bv32
    requires 0 < s < 32
  {
    Macro(a, H(b, c, d), b, x, s, ac)
  }

  function II(a: bv32, b: bv32, c: bv32, d: bv32, x: bv32, s: nat, ac: bv32): bv32
    requires 0 < s < 32
  {
    Macro(a, I(b, c, d), b, x, s, ac)
  }

  lemma FIs(x: bv32, y: bv32, z: bv32)
    ensures z ^ (x & (y ^ z)) == F(x, y, z)
  {
  }

  lemma GIs(x: bv32, y: bv32, z: bv32)
    ensures y ^ (z & (x ^ y)) == G(x, y, z)
  {
  }

  lemma MixIs(i: nat, x: bv32, y: bv32, z: bv32)
    ensures i < 16 ==> Mix(i, x, y, z) == F(x, y, z)
    ensures 16 <= i < 32 ==> Mix(i, x, y, z) == G(x, y, z)
    ensures 32 <= i < 48 ==> Mix(i, x, y, z) == H(x, y, z)
    ensures 48 <= i ==> Mix(i, x, y, z) == I(x, y, z)
  {
    FIs(x, y, z);
    GIs(x, y, z);
    hide F, G;
  }

  lemma PlusLaws(x: bv32, y: bv32, z: bv32)
    ensures Plus(x, Plus(y, z)) == Plus(Plus(x, y), z) && Plus(x, y) == Plus(y, x)
  {
  }

  lemma MacroSum(a: bv32, m: bv32, b: bv32, w: bv32, s: nat, t: bv32)
    requires 0 < s < 32
    ensures Macro(a, m, b, w, s, t) == Turn(a, m, b, w, s, t)
  {
    hide Rotate, Plus;
    PlusLaws(a, Plus(m, w), t);
    PlusLaws(a, m, w);
    PlusLaws(b, Rotate(Plus(Plus(Plus(a, m), w), t), s), 0);
  }

  /** A macro does what the step with its arguments does. */
  lemma MacroIs(i: nat, a: bv32, b: bv32, c: bv32, d: bv32, x: seq<bv32>)
    requires i < 64 && |x| == 16
    ensures var (w, s, t) := (x[Index(i)], Amount(i), T(i));
            StepWord(i, Quad(a, b, c, d), x)
            == if i < 16 then FF(a, b, c, d, w, s, t)
               else if i < 32 then GG(a, b, c, d, w, s, t)
               else if i < 48 then HH(a, b, c, d, w, s, t)
               else II(a, b, c, d, w, s, t)
  {
    MixIs(i, b, c, d);
    hide Mix, F, G, H, I, Index, Amount, T, Macro, Turn;
    MacroSum(a, Mix(i, b, c, d), b, x[Index(i)], Amount(i), T(i));
  }

  /** Four steps bring every word back to its place. */
  lemma FourSteps(i: nat, s: Quad, x: seq<bv32>, a: bv32, b: bv32, c: bv32, d: bv32,
                  a': bv32, b': bv32, c': bv32, d': bv32)
    requires i + 4 <= 64 && |x| == 16 && Steps(i, s, x) == Quad(a, b, c, d)
    requires a' == StepWord(i, Quad(a, b, c, d), x) && d' == StepWord(i + 1, Quad(d, a', b, c), x)
    requires c' == StepWord(i + 2, Quad(c, d', a', b), x) && b' == StepWord(i + 3, Quad(b, c', d', a'), x)
    ensures Steps(i + 4, s, x) == Quad(a', b', c', d')
  {
    hide StepWord;
    assert Steps(i + 1, s, x) == Quad(d, a', b, c);
    assert Steps(i + 2, s, x) == Quad(c, d', a', b);
    assert Steps(i + 3, s, x) == Quad(b, c', d', a');
  }

  lemma Entries0()
    ensures Index(0) == 0 && Amount(0) == 7 && T(0) == 0xd76a_a478
    ensures Index(1) == 1 && Amount(1) == 12 && T(1) == 0xe8c7_b756
    ensures Index(2) == 2 && Amount(2) == 17 && T(2) == 0x2420_70db
    ensures Index(3) == 3 && Amount(3) == 22 && T(3) == 0xc1bd_ceee
  {
  }

  lemma Group0(s: Quad, x: seq<bv32>, a: bv32, b: bv32, c: bv32, d: bv32, a': bv32, b': bv32, c': bv32, d': bv32)
    requires |x| == 16 && Steps(0, s, x) == Quad(a, b, c, d)
    requires a' == FF(a, b, c, d, x[0], 7, 0xd76a_a478)
    requires d' == FF(d, a', b, c, x[1], 12, 0xe8c7_b756)
    requires c' == FF(c, d', a', b, x[2], 17, 0x2420_70db)
    requires b' == FF(b, c', d', a', x[3], 22, 0xc1bd_ceee)
    ensures Steps(4, s, x) == Quad(a', b', c', d')
  {
    Entries0();
    hide Steps, StepWord, FF, Index, Amount, T;
    MacroIs(0, a, b, c, d, x);
    MacroIs(1, d, a', b, c, x);
    MacroIs(2, c, d', a', b, x);
    MacroIs(3, b, c', d', a', x);
    FourSteps(0, s, x, a, b, c, d, a', b', c', d');
  }

  lemma Entries4()
    ensures Index(4) == 4 && Amount(4) == 7 && T(4) == 0xf57c_0faf
    ensures Index(5) == 5 && Amount(5) == 12 && T(5) == 0x4787_c62a
    ensures Index(6) == 6 && Amount(6) == 17 && T(6) == 0xa830_4613
    ensures Index(7) == 7 && Amount(7) == 22 && T(7) == 0xfd46_9501
  {
  }

  lemma Group4(s: Quad, x: seq<bv32>, a: bv32, b: bv32, c: bv32, d: bv32, a': bv32, b': bv32, c': bv32, d': bv32)
    requires |x| == 16 && Steps(4, s, x) == Quad(a, b, c, d)
    requires a' == FF(a, b, c, d, x[4], 7, 0xf57c_0faf)
    requires d' == FF(d, a', b, c, x[5], 12, 0x4787_c62a)
    requires c' == FF(c, d', a', b, x[6], 17, 0xa830_4613)
    requires b' == FF(b, c', d', a', x[7], 22, 0xfd46_9501)
    ensures Steps(8, s, x) == Quad(a', b', c', d')
  {
    Entries4();
    hide Steps, StepWord, FF, Index, Amount, T;
    MacroIs(4, a, b, c, d, x);
    MacroIs(5, d, a', b, c, x);
    MacroIs(6, c, d', a', b, x);
    MacroIs(7, b, c', d', a', x);
    FourSteps(4, s, x, a, b, c, d, a', b', c', d');
  }

  lemma Entries8()
    ensures Index(8) == 8 && Amount(8) == 7 && T(8) == 0x6980_98d8
    ensures Index(9) == 9 && Amount(9) == 12 && T(9) == 0x8b44_f7af
    ensures Index(10) == 10 && Amount(10) == 17 && T(10) == 0xffff_5bb1
    ensures Index(11) == 11 && Amount(11) == 22 && T(11) == 0x895c_d7be
  {
  }

  lemma Group8(s: Quad, x: seq<bv32>, a: bv32, b: bv32, c: bv32, d: bv32, a': bv32, b': bv32, c': bv32, d': bv32)
    requires |x| == 16 && Steps(8, s, x) == Quad(a, b, c, d)
    requires a' == FF(a, b, c, d, x[8], 7, 0x6980_98d8)
    requires d' == FF(d, a', b, c, x[9], 12, 0x8b44_f7af)
    requires c' == FF(c, d', a', b, x[10], 17, 0xffff_5bb1)
    requires b' == FF(b, c', d', a', x[11], 22, 0x895c_d7be)
    ensures Steps(12, s, x) == Quad(a', b', c', d')
  {
    Entries8();
    hide Steps, StepWord, FF, Index, Amount, T;
    MacroIs(8, a, b, c, d, x);
    MacroIs(9, d, a', b, c, x);
    MacroIs(10, c, d', a', b, x);
    MacroIs(11, b, c', d', a', x);
    FourSteps(8, s, x, a, b, c, d, a', b', c', d');
  }

  lemma Entries12()
    ensures Index(12) == 12 && Amount(12) == 7 && T(12) == 0x6b90_1122
    ensures Index(13) == 13 && Amount(13) == 12 && T(13) == 0xfd98_7193
    ensures Index(14) == 14 && Amount(14) == 17 && T(14) == 0xa679_438e
    ensures Index(15) == 15 && Amount(15) == 22 && T(15) == 0x49b4_0821
  {
  }

  lemma Group12(s: Quad, x: seq<bv32>, a: bv32, b: bv32, c: bv32, d: bv32, a': bv32, b': bv32, c': bv32, d': bv32)
    requires |x| == 16 && Steps(12, s, x) == Quad(a, b, c, d)
    requires a' == FF(a, b, c, d, x[12], 7, 0x6b90_1122)
    requires d' == FF(d, a', b, c, x[13], 12, 0xfd98_7193)
    requires c' == FF(c, d', a', b, x[14], 17, 0xa679_438e)
    requires b' == FF(b, c', d', a', x[15], 22, 0x49b4_0821)
    ensures Steps(16, s, x) == Quad(a', b', c', d')
  {
    Entries12();
    hide Steps, StepWord, FF, Index, Amount, T;
    MacroIs(12, a, b, c, d, x);
    MacroIs(13, d, a', b, c, x);
    MacroIs(14, c, d', a', b, x);
    MacroIs(15, b, c', d', a', x);
    FourSteps(12, s, x, a, b, c, d, a', b', c', d');
  }

  lemma Entries16()
    ensures Index(16) == 1 && Amount(16) == 5 && T(16) == 0xf61e_2562
    ensures Index(17) == 6 && Amount(17) == 9 && T(17) == 0xc040_b340
    ensures Index(18) == 11 && Amount(18) == 14 && T(18) == 0x265e_5a51
    ensures Index(19) == 0 && Amount(19) == 20 && T(19) == 0xe9b6_c7aa
  {
  }

  lemma Group16(s: Quad, x: seq<bv32>, a: bv32, b: bv32, c: bv32, d: bv32, a': bv32, b': bv32, c': bv32, d': bv32)
    requires |x| == 16 && Steps(16, s, x) == Quad(a, b, c, d)
    requires a' == GG(a, b, c, d, x[1], 5, 0xf61e_2562)
    requires d' == GG(d, a', b, c, x[6], 9, 0xc040_b340)
    requires c' == GG(c, d', a', b, x[11], 14, 0x265e_5a51)
    requires b' == GG(b, c', d', a', x[0], 20, 0xe9b6_c7aa)
    ensures Steps(20, s, x) == Quad(a', b', c', d')
  {
    Entries16();
    hide Steps, StepWord, GG, Index, Amount, T;
    MacroIs(16, a, b, c, d, x);
    MacroIs(17, d, a', b, c, x);
    MacroIs(18, c, d', a', b, x);
    MacroIs(19, b, c', d', a', x);
    FourSteps(16, s, x, a, b, c, d, a', b', c', d');
  }

  lemma Entries20()
    ensures Index(20) == 5 && Amount(20) == 5 && T(20) == 0xd62f_105d
    ensures Index(21) == 10 && Amount(21) == 9 && T(21) == 0x0244_1453
    ensures Index(22) == 15 && Amount(22) == 14 && T(22) == 0xd8a1_e681
    ensures Index(23) == 4 && Amount(23) == 20 && T(23) == 0xe7d3_fbc8
  {
  }

  lemma Group20(s: Quad, x: seq<bv32>, a: bv32, b: bv32, c: bv32, d: bv32, a': bv32, b': bv32, c': bv32, d': bv32)
    requires |x| == 16 && Steps(20, s, x) == Quad(a, b, c, d)
    requires a' == GG(a, b, c, d, x[5], 5, 0xd62f_105d)
    requires d' == GG(d, a', b, c, x[10], 9, 0x0244_1453)
    requires c' == GG(c, d', a', b, x[15], 14, 0xd8a1_e681)
    requires b' == GG(b, c', d', a', x[4], 20, 0xe7d3_fbc8)
    ensures Steps(24, s, x) == Quad(a', b', c', d')
  {
    Entries20();
    hide Steps, StepWord, GG, Index, Amount, T;
    MacroIs(20, a, b, c, d, x);
    MacroIs(21, d, a', b, c, x);
    MacroIs(22, c, d', a', b, x);
    MacroIs(23, b, c', d', a', x);
    FourSteps(20, s, x, a, b, c, d, a', b', c', d');
  }

  lemma Entries24()
    ensures Index(24) == 9 && Amount(24) == 5 && T(24) == 0x21e1_cde6
    ensures Index(25) == 14 && Amount(25) == 9 && T(25) == 0xc337_07d6
    ensures Index(26) == 3 && Amount(26) == 14 && T(26) == 0xf4d5_0d87
    ensures Index(27) == 8 && Amount(27) == 20 && T(27) == 0x455a_14ed
  {
  }

  lemma Group24(s: Quad, x: seq<bv32>, a: bv32, b: bv32, c: bv32, d: bv32, a': bv32, b': bv32, c': bv32, d': bv32)
    requires |x| == 16 && Steps(24, s, x) == Quad(a, b, c, d)
    requires a' == GG(a, b, c, d, x[9], 5, 0x21e1_cde6)
    requires d' == GG(d, a', b, c, x[14], 9, 0xc337_07d6)
    requires c' == GG(c, d', a', b, x[3], 14, 0xf4d5_0d87)
    requires b' == GG(b, c', d', a', x[8], 20, 0x455a_14ed)
    ensures Steps(28, s, x) == Quad(a', b', c', d')
  {
    Entries24();
    hide Steps, StepWord, GG, Index, Amount, T;
    MacroIs(24, a, b, c, d, x);
    MacroIs(25, d, a', b, c, x);
    MacroIs(26, c, d', a', b, x);
    MacroIs(27, b, c', d', a', x);
    FourSteps(24, s, x, a, b, c, d, a', b', c', d');
  }

  lemma Entries28()
    ensures Index(28) == 13 && Amount(28) == 5 && T(28) == 0xa9e3_e905
    ensures Index(29) == 2 && Amount(29) == 9 && T(29) == 0xfcef_a3f8
    ensures Index(30) == 7 && Amount(30) == 14 && T(30) == 0x676f_02d9
    ensures Index(31) == 12 && Amount(31) == 20 && T(31) == 0x8d2a_4c8a
  {
  }

  lemma Group28(s: Quad, x: seq<bv32>, a: bv32, b: bv32, c: bv32, d: bv32, a': bv32, b': bv32, c': bv32, d': bv32)
    requires |x| == 16 && Steps(28, s, x) == Quad(a, b, c, d)
    requires a' == GG(a, b, c, d, x[13], 5, 0xa9e3_e905)
    requires d' == GG(d, a', b, c, x[2], 9, 0xfcef_a3f8)
    requires c' == GG(c, d', a', b, x[7], 14, 0x676f_02d9)
    requires b' == GG(b, c', d', a', x[12], 20, 0x8d2a_4c8a)
    ensures Steps(32, s, x) == Quad(a', b', c', d')
  {
    Entries28();
    hide Steps, StepWord, GG, Index, Amount, T;
    MacroIs(28, a, b, c, d, x);
    MacroIs(29, d, a', b, c, x);
    MacroIs(30, c, d', a', b, x);
    MacroIs(31, b, c', d', a', x);
    FourSteps(28, s, x, a, b, c, d, a', b', c', d');
  }

  lemma Entries32()
    ensures Index(32) == 5 && Amount(32) == 4 && T(32) == 0xfffa_3942
    ensures Index(33) == 8 && Amount(33) == 11 && T(33) == 0x8771_f681
    ensures Index(34) == 11 && Amount(34) == 16 && T(34) == 0x6d9d_6122
    ensures Index(35) == 14 && Amount(35) == 23 && T(35) == 0xfde5_380c
  {
  }

  lemma Group32(s: Quad, x: seq<bv32>, a: bv32, b: bv32, c: bv32, d: bv32, a': bv32, b': bv32, c': bv32, d': bv32)
    requires |x| == 16 && Steps(32, s, x) == Quad(a, b, c, d)
    requires a' == HH(a, b, c, d, x[5], 4, 0xfffa_3942)
    requires d' == HH(d, a', b, c, x[8], 11, 0x8771_f681)
    requires c' == HH(c, d', a', b, x[11], 16, 0x6d9d_6122)
    requires b' == HH(b, c', d', a', x[14], 23, 0xfde5_380c)
    ensures Steps(36, s, x) == Quad(a', b', c', d')
  {
    Entries32();
    hide Steps, StepWord, HH, Index, Amount, T;
    MacroIs(32, a, b, c, d, x);
    MacroIs(33, d, a', b, c, x);
    MacroIs(34, c, d', a', b, x);
    MacroIs(35, b, c', d', a', x);
    FourSteps(32, s, x, a, b, c, d, a', b', c', d');
  }

  lemma Entries36()
    ensures Index(36) == 1 && Amount(36) == 4 && T(36) == 0xa4be_ea44
    ensures Index(37) == 4 && Amount(37) == 11 && T(37) == 0x4bde_cfa9
    ensures Index(38) == 7 && Amount(38) == 16 && T(38) == 0xf6bb_4b60
    ensures Index(39) == 10 && Amount(39) == 23 && T(39) == 0xbebf_bc70
  {
  }

  lemma Group36(s: Quad, x: seq<bv32>, a: bv32, b: bv32, c: bv32, d: bv32, a': bv32, b': bv32, c': bv32, d': bv32)
    requires |x| == 16 && Steps(36, s, x) == Quad(a, b, c, d)
    requires a' == HH(a, b, c, d, x[1], 4, 0xa4be_ea44)
    requires d' == HH(d, a', b, c, x[4], 11, 0x4bde_cfa9)
    requires c' == HH(c, d', a', b, x[7], 16, 0xf6bb_4b60)
    requires b' == HH(b, c', d', a', x[10], 23, 0xbebf_bc70)
    ensures Steps(40, s, x) == Quad(a', b', c', d')
  {
    Entries36();
    hide Steps, StepWord, HH, Index, Amount, T;
    MacroIs(36, a, b, c, d, x);
    MacroIs(37, d, a', b, c, x);
    MacroIs(38, c, d', a', b, x);
    MacroIs(39, b, c', d', a', x);
    FourSteps(36, s, x, a, b, c, d, a', b', c', d');
  }

  lemma Entries40()
    ensures Index(40) == 13 && Amount(40) == 4 && T(40) == 0x289b_7ec6
    ensures Index(41) == 0 && Amount(41) == 11 && T(41) == 0xeaa1_27fa
    ensures Index(42) == 3 && Amount(42) == 16 && T(42) == 0xd4ef_3085
    ensures Index(43) == 6 && Amount(43) == 23 && T(43) == 0x0488_1d05
  {
  }

  lemma Group40(s: Quad, x: seq<bv32>, a: bv32, b: bv32, c: bv32, d: bv32, a': bv32, b': bv32, c': bv32, d': bv32)
    requires |x| == 16 && Steps(40, s, x) == Quad(a, b, c, d)
    requires a' == HH(a, b, c, d, x[13], 4, 0x289b_7ec6)
    requires d' == HH(d, a', b, c, x[0], 11, 0xeaa1_27fa)
    requires c' == HH(c, d', a', b, x[3], 16, 0xd4ef_3085)
    requires b' == HH(b, c', d', a', x[6], 23, 0x0488_1d05)
    ensures Steps(44, s, x) == Quad(a', b', c', d')
  {
    Entries40();
    hide Steps, StepWord, HH, Index, Amount, T;
    MacroIs(40, a, b, c, d, x);
    MacroIs(41, d, a', b, c, x);
    MacroIs(42, c, d', a', b, x);
    MacroIs(43, b, c', d', a', x);
    FourSteps(40, s, x, a, b, c, d, a', b', c', d');
  }

  lemma Entries44()
    ensures Index(44) == 9 && Amount(44) == 4 && T(44) == 0xd9d4_d039
    ensures Index(45) == 12 && Amount(45) == 11 && T(45) == 0xe6db_99e5
    ensures Index(46) == 15 && Amount(46) == 16 && T(46) == 0x1fa2_7cf8
    ensures Index(47) == 2 && Amount(47) == 23 && T(47) == 0xc4ac_5665
  {
  }

  lemma Group44(s: Quad, x: seq<bv32>, a: bv32, b: bv32, c: bv32, d: bv32, a': bv32, b': bv32, c': bv32, d': bv32)
    requires |x| == 16 && Steps(44, s, x) == Quad(a, b, c, d)
    requires a' == HH(a, b, c, d, x[9], 4, 0xd9d4_d039)
    requires d' == HH(d, a', b, c, x[12], 11, 0xe6db_99e5)
    requires c' == HH(c, d', a', b, x[15], 16, 0x1fa2_7cf8)
    requires b' == HH(b, c', d', a', x[2], 23, 0xc4ac_5665)
    ensures Steps(48, s, x) == Quad(a', b', c', d')
  {
    Entries44();
    hide Steps, StepWord, HH, Index, Amount, T;
    MacroIs(44, a, b, c, d, x);
    MacroIs(45, d, a', b, c, x);
    MacroIs(46, c, d', a', b, x);
    MacroIs(47, b, c', d', a', x);
    FourSteps(44, s, x, a, b, c, d, a', b', c', d');
  }

  lemma Entries48()
    ensures Index(48) == 0 && Amount(48) == 6 && T(48) == 0xf429_2244
    ensures Index(49) == 7 && Amount(49) == 10 && T(49) == 0x432a_ff97
    ensures Index(50) == 14 && Amount(50) == 15 && T(50) == 0xab94_23a7
    ensures Index(51) == 5 && Amount(51) == 21 && T(51) == 0xfc93_a039
  {
  }

  lemma Group48(s: Quad, x: seq<bv32>, a: bv32, b: bv32, c: bv32, d: bv32, a': bv32, b': bv32, c': bv32, d': bv32)
    requires |x| == 16 && Steps(48, s, x) == Quad(a, b, c, d)
    requires a' == II(a, b, c, d, x[0], 6, 0xf429_2244)
    requires d' == II(d, a', b, c, x[7], 10, 0x432a_ff97)
    requires c' == II(c, d', a', b, x[14], 15, 0xab94_23a7)
    requires b' == II(b, c', d', a', x[5], 21, 0xfc93_a039)
    ensures Steps(52, s, x) == Quad(a', b', c', d')
  {
    Entries48();
    hide Steps, StepWord, II, Index, Amount, T;
    MacroIs(48, a, b, c, d, x);
    MacroIs(49, d, a', b, c, x);
    MacroIs(50, c, d', a', b, x);
    MacroIs(51, b, c', d', a', x);
    FourSteps(48, s, x, a, b, c, d, a', b', c', d');
  }

  lemma Entries52()
    ensures Index(52) == 12 && Amount(52) == 6 && T(52) == 0x655b_59c3
    ensures Index(53) == 3 && Amount(53) == 10 && T(53) == 0x8f0c_cc92
    ensures Index(54) == 10 && Amount(54) == 15 && T(54) == 0xffef_f47d
    ensures Index(55) == 1 && Amount(55) == 21 && T(55) == 0x8584_5dd1
  {
  }

  lemma Group52(s: Quad, x: seq<bv32>, a: bv32, b: bv32, c: bv32, d: bv32, a': bv32, b': bv32, c': bv32, d': bv32)
    requires |x| == 16 && Steps(52, s, x) == Quad(a, b, c, d)
    requires a' == II(a, b, c, d, x[12], 6, 0x655b_59c3)
    requires d' == II(d, a', b, c, x[3], 10, 0x8f0c_cc92)
    requires c' == II(c, d', a', b, x[10], 15, 0xffef_f47d)
    requires b' == II(b, c', d', a', x[1], 21, 0x8584_5dd1)
    ensures Steps(56, s, x) == Quad(a', b', c', d')
  {
    Entries52();
    hide Steps, StepWord, II, Index, Amount, T;
    MacroIs(52, a, b, c, d, x);
    MacroIs(53, d, a', b, c, x);
    MacroIs(54, c, d', a', b, x);
    MacroIs(55, b, c', d', a', x);
    FourSteps(52, s, x, a, b, c, d, a', b', c', d');
  }

  lemma Entries56()
    ensures Index(56) == 8 && Amount(56) == 6 && T(56) == 0x6fa8_7e4f
    ensures Index(57) == 15 && Amount(57) == 10 && T(57) == 0xfe2c_e6e0
    ensures Index(58) == 6 && Amount(58) == 15 && T(58) == 0xa301_4314
    ensures Index(59) == 13 && Amount(59) == 21 && T(59) == 0x4e08_11a1
  {
  }

  lemma Group56(s: Quad, x: seq<bv32>, a: bv32, b: bv32, c: bv32, d: bv32, a': bv32, b': bv32, c': bv32, d': bv32)
    requires |x| == 16 && Steps(56, s, x) == Quad(a, b, c, d)
    requires a' == II(a, b, c, d, x[8], 6, 0x6fa8_7e4f)
    requires d' == II(d, a', b, c, x[15], 10, 0xfe2c_e6e0)
    requires c' == II(c, d', a', b, x[6], 15, 0xa301_4314)
    requires b' == II(b, c', d', a', x[13], 21, 0x4e08_11a1)
    ensures Steps(60, s, x) == Quad(a', b', c', d')
  {
    Entries56();
    hide Steps, StepWord, II, Index, Amount, T;
    MacroIs(56, a, b, c, d, x);
    MacroIs(57, d, a', b, c, x);
    MacroIs(58, c, d', a', b, x);
    MacroIs(59, b, c', d', a', x);
    FourSteps(56, s, x, a, b, c, d, a', b', c', d');
  }

  lemma Entries60()
    ensures Index(60) == 4 && Amount(60) == 6 && T(60) == 0xf753_7e82
    ensures Index(61) == 11 && Amount(61) == 10 && T(61) == 0xbd3a_f235
    ensures Index(62) == 2 && Amount(62) == 15 && T(62) == 0x2ad7_d2bb
    ensures Index(63) == 9 && Amount(63) == 21 && T(63) == 0xeb86_d391
  {
  }

  lemma Group60(s: Quad, x: seq<bv32>, a: bv32, b: bv32, c: bv32, d: bv32, a': bv32, b': bv32, c': bv32, d': bv32)
    requires |x| == 16 && Steps(60, s, x) == Quad(a, b, c, d)
    requires a' == II(a, b, c, d, x[4], 6, 0xf753_7e82)
    requires d' == II(d, a', b, c, x[11], 10, 0xbd3a_f235)
    requires c' == II(c, d', a', b, x[2], 15, 0x2ad7_d2bb)
    requires b' == II(b, c', d', a', x[9], 21, 0xeb86_d391)
    ensures Steps(64, s, x) == Quad(a', b', c', d')
  {
    Entries60();
    hide Steps, StepWord, II, Index, Amount, T;
    MacroIs(60, a, b, c, d, x);
    MacroIs(61, d, a', b, c, x);
    MacroIs(62, c, d', a', b, x);
    MacroIs(63, b, c', d', a', x);
    FourSteps(60, s, x, a, b, c, d, a', b', c', d');
  }

  // ---------------------------------------------------------------- transform

  /** Round 1. */
  method Round1(s: Quad, x: seq<bv32>, ghost first: Quad) returns (r: Quad)
    requires |x| == 16 && s == Steps(0, first, x)
    ensures r == Steps(16, first, x)
  {
    hide Steps, FF;
    var a, b, c, d := s.a, s.b, s.c, s.d;
    ghost var a0, b0, c0, d0 := a, b, c, d;
    a := FF(a, b, c, d, x[0], 7, 0xd76a_a478);
    d := FF(d, a, b, c, x[1], 12, 0xe8c7_b756);
    c := FF(c, d, a, b, x[2], 17, 0x2420_70db);
    b := FF(b, c, d, a, x[3], 22, 0xc1bd_ceee);
    Group0(first, x, a0, b0, c0, d0, a, b, c, d);
    ghost var a1, b1, c1, d1 := a, b, c, d;
    a := FF(a, b, c, d, x[4], 7, 0xf57c_0faf);
    d := FF(d, a, b, c, x[5], 12, 0x4787_c62a);
    c := FF(c, d, a, b, x[6], 17, 0xa830_4613);
    b := FF(b, c, d, a, x[7], 22, 0xfd46_9501);
    Group4(first, x, a1, b1, c1, d1, a, b, c, d);
    ghost var a2, b2, c2, d2 := a, b, c, d;
    a := FF(a, b, c, d, x[8], 7, 0x6980_98d8);
    d := FF(d, a, b, c, x[9], 12, 0x8b44_f7af);
    c := FF(c, d, a, b, x[10], 17, 0xffff_5bb1);
    b := FF(b, c, d, a, x[11], 22, 0x895c_d7be);
    Group8(first, x, a2, b2, c2, d2, a, b, c, d);
    ghost var a3, b3, c3, d3 := a, b, c, d;
    a := FF(a, b, c, d, x[12], 7, 0x6b90_1122);
    d := FF(d, a, b, c, x[13], 12, 0xfd98_7193);
    c := FF(c, d, a, b, x[14], 17, 0xa679_438e);
    b := FF(b, c, d, a, x[15], 22, 0x49b4_0821);
    Group12(first, x, a3, b3, c3, d3, a, b, c, d);
    r := Quad(a, b, c, d);
  }

  /** Round 2. */
  method Round2(s: Quad, x: seq<bv32>, ghost first: Quad) returns (r: Quad)
    requires |x| == 16 && s == Steps(16, first, x)
    ensures r == Steps(32, first, x)
  {
    hide Steps, GG;
    var a, b, c, d := s.a, s.b, s.c, s.d;
    ghost var a0, b0, c0, d0 := a, b, c, d;
    a := GG(a, b, c, d, x[1], 5, 0xf61e_2562);
    d := GG(d, a, b, c, x[6], 9, 0xc040_b340);
    c := GG(c, d, a, b, x[11], 14, 0x265e_5a51);
    b := GG(b, c, d, a, x[0], 20, 0xe9b6_c7aa);
    Group16(first, x, a0, b0, c0, d0, a, b, c, d);
    ghost var a1, b1, c1, d1 := a, b, c, d;
    a := GG(a, b, c, d, x[5], 5, 0xd62f_105d);
    d := GG(d, a, b, c, x[10], 9, 0x0244_1453);
    c := GG(c, d, a, b, x[15], 14, 0xd8a1_e681);
    b := GG(b, c, d, a, x[4], 20, 0xe7d3_fbc8);
    Group20(first, x, a1, b1, c1, d1, a, b, c, d);
    ghost var a2, b2, c2, d2 := a, b, c, d;
    a := GG(a, b, c, d, x[9], 5, 0x21e1_cde6);
    d := GG(d, a, b, c, x[14], 9, 0xc337_07d6);
    c := GG(c, d, a, b, x[3], 14, 0xf4d5_0d87);
    b := GG(b, c, d, a, x[8], 20, 0x455a_14ed);
    Group24(first, x, a2, b2, c2, d2, a, b, c, d);
    ghost var a3, b3, c3, d3 := a, b, c, d;
    a := GG(a, b, c, d, x[13], 5, 0xa9e3_e905);
    d := GG(d, a, b, c, x[2], 9, 0xfcef_a3f8);
    c := GG(c, d, a, b, x[7], 14, 0x676f_02d9);
    b := GG(b, c, d, a, x[12], 20, 0x8d2a_4c8a);
    Group28(first, x, a3, b3, c3, d3, a, b, c, d);
    r := Quad(a, b, c, d);
  }

  /** Round 3. */
  method Round3(s: Quad, x: seq<bv32>, ghost first: Quad) returns (r: Quad)
    requires |x| == 16 && s == Steps(32, first, x)
    ensures r == Steps(48, first, x)
  {
    hide Steps, HH;
    var a, b, c, d := s.a, s.b, s.c, s.d;
    ghost var a0, b0, c0, d0 := a, b, c, d;
    a := HH(a, b, c, d, x[5], 4, 0xfffa_3942);
    d := HH(d, a, b, c, x[8], 11, 0x8771_f681);
    c := HH(c, d, a, b, x[11], 16, 0x6d9d_6122);
    b := HH(b, c, d, a, x[14], 23, 0xfde5_380c);
    Group32(first, x, a0, b0, c0, d0, a, b, c, d);
    ghost var a1, b1, c1, d1 := a, b, c, d;
    a := HH(a, b, c, d, x[1], 4, 0xa4be_ea44);
    d := HH(d, a, b, c, x[4], 11, 0x4bde_cfa9);
    c := HH(c, d, a, b, x[7], 16, 0xf6bb_4b60);
    b := HH(b, c, d, a, x[10], 23, 0xbebf_bc70);
    Group36(first, x, a1, b1, c1, d1, a, b, c, d);
    ghost var a2, b2, c2, d2 := a, b, c, d;
    a := HH(a, b, c, d, x[13], 4, 0x289b_7ec6);
    d := HH(d, a, b, c, x[0], 11, 0xeaa1_27fa);
    c := HH(c, d, a, b, x[3], 16, 0xd4ef_3085);
    b := HH(b, c, d, a, x[6], 23, 0x0488_1d05);
    Group40(first, x, a2, b2, c2, d2, a, b, c, d);
    ghost var a3, b3, c3, d3 := a, b, c, d;
    a := HH(a, b, c, d, x[9], 4, 0xd9d4_d039);
    d := HH(d, a, b, c, x[12], 11, 0xe6db_99e5);
    c := HH(c, d, a, b, x[15], 16, 0x1fa2_7cf8);
    b := HH(b, c, d, a, x[2], 23, 0xc4ac_5665);
    Group44(first, x, a3, b3, c3, d3, a, b, c, d);
    r := Quad(a, b, c, d);
  }

  /** Round 4. */
  method Round4(s: Quad, x: seq<bv32>, ghost first: Quad) returns (r: Quad)
    requires |x| == 16 && s == Steps(48, first, x)
    ensures r == Steps(64, first, x)
  {
    hide Steps, II;
    var a, b, c, d := s.a, s.b, s.c, s.d;
    ghost var a0, b0, c0, d0 := a, b, c, d;
    a := II(a, b, c, d, x[0], 6, 0xf429_2244);
    d := II(d, a, b, c, x[7], 10, 0x432a_ff97);
    c := II(c, d, a, b, x[14], 15, 0xab94_23a7);
    b := II(b, c, d, a, x[5], 21, 0xfc93_a039);
    Group48(first, x, a0, b0, c0, d0, a, b, c, d);
    ghost var a1, b1, c1, d1 := a, b, c, d;
    a := II(a, b, c, d, x[12], 6, 0x655b_59c3);
    d := II(d, a, b, c, x[3], 10, 0x8f0c_cc92);
    c := II(c, d, a, b, x[10], 15, 0xffef_f47d);
    b := II(b, c, d, a, x[1], 21, 0x8584_5dd1);
    Group52(first, x, a1, b1, c1, d1, a, b, c, d);
    ghost var a2, b2, c2, d2 := a, b, c, d;
    a := II(a, b, c, d, x[8], 6, 0x6fa8_7e4f);
    d := II(d, a, b, c, x[15], 10, 0xfe2c_e6e0);
    c := II(c, d, a, b, x[6], 15, 0xa301_4314);
    b := II(b, c, d, a, x[13], 21, 0x4e08_11a1);
    Group56(first, x, a2, b2, c2, d2, a, b, c, d);
    ghost var a3, b3, c3, d3 := a, b, c, d;
    a := II(a, b, c, d, x[4], 6, 0xf753_7e82);
    d := II(d, a, b, c, x[11], 10, 0xbd3a_f235);
    c := II(c, d, a, b, x[2], 15, 0x2ad7_d2bb);
    b := II(b, c, d, a, x[9], 21, 0xeb86_d391);
    Group60(first, x, a3, b3, c3, d3, a, b, c, d);
    r := Quad(a, b, c, d);
  }

  /** decode. */
  method Decode(input: Block) returns (output: seq<bv32>)
    ensures output == BitsOf(FromLittleEndian(input))
  {
    hide WordOf, FromLittleEndian, BitsOf;
    output := [];
    ghost var words := FromLittleEndian(input);
    assert input[0..] == input && words[0..] == words;
    for i := 0 to 16
      invariant FromLittleEndian(input[4 * i..]) == words[i..] && output == BitsOf(words[..i])
    {
      DecodeOne(input, 4 * i);
      var w := WordOf(input[4 * i], input[4 * i + 1], input[4 * i + 2], input[4 * i + 3]);
      BitsMore(words, i, w, FromLittleEndian(input[4 * (i + 1)..]));
      output := output + [w as bv32];
    }
    assert words[..16] == words;
  }

  lemma BitsMore(words: seq<Word>, i: nat, w: Word, rest: seq<Word>)
    requires i < |words| && words[i..] == [w] + rest
    ensures BitsOf(words[..i + 1]) == BitsOf(words[..i]) + [w as bv32] && words[i + 1..] == rest
  {
    assert words[i] == words[i..][0] == w;
    assert words[i + 1..] == words[i..][1..];
  }

  lemma DecodeOne(input: seq<byte>, at: nat)
    requires at + 4 <= |input| && (|input| - at) % 4 == 0
    ensures FromLittleEndian(input[at..])
         == [WordOf(input[at], input[at + 1], input[at + 2], input[at + 3])] + FromLittleEndian(input[at + 4..])
  {
    hide WordOf;
    assert input[at..][4..] == input[at + 4..];
  }

  /** transform. */
  method Transform(state: State, block: Block) returns (next: State)
    ensures next == Compress(state, block)
  {
    var x := Decode(block);
    hide Steps, BitsOf, FromLittleEndian, QuadOf, StateOf, Sum;
    var s := QuadOf(state);
    NoSteps(s, x);
    var r := Round1(s, x, s);
    r := Round2(r, x, s);
    r := Round3(r, x, s);
    r := Round4(r, x, s);
    next := StateOf(Sum(s, r));
  }

  lemma NoSteps(s: Quad, x: seq<bv32>)
    requires |x| == 16
    ensures Steps(0, s, x) == s
  {
  }
}

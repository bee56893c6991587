/** The two table-driven checksums: the Modbus CRC of ModbusCrc.c and that of the K1000A analyser in
    k1000a.c.  Each equals the bit-by-bit division that defines it (section 6.2.2 of the MODBUS over
    Serial Line Specification V1.02 for the first).  A row of a table is one wide literal, its entries
    in the order of the C array. */
module Crc {
  // ---------------------------------------------------------------- the Modbus tables

  function HighRow(row: bv8): bv128 {
    if row == 0 then 0x00C1814001C08041_01C0804100C18140 else
    if row == 1 then 0x01C0804100C18140_00C1814001C08041 else
    if row == 2 then 0x01C0804100C18140_00C1814001C08041 else
    if row == 3 then 0x00C1814001C08041_01C0804100C18140 else
    if row == 4 then 0x01C0804100C18140_00C1814001C08041 else
    if row == 5 then 0x00C1814001C08041_01C0804100C18140 else
    if row == 6 then 0x00C1814001C08041_01C0804100C18140 else
    if row == 7 then 0x01C0804100C18140_00C1814001C08041 else
    if row == 8 then 0x01C0804100C18140_00C1814001C08041 else
    if row == 9 then 0x00C1814001C08041_01C0804100C18140 else
    if row == 10 then 0x00C1814001C08041_01C0804100C18140 else
    if row == 11 then 0x01C0804100C18140_00C1814001C08041 else
    if row == 12 then 0x00C1814001C08041_01C0804100C18140 else
    if row == 13 then 0x01C0804100C18140_00C1814001C08041 else
    if row == 14 then 0x01C0804100C18140_00C1814001C08041 else
    0x00C1814001C08041_01C0804100C18140
  }

  function LowRow(row: bv8): bv128 {
    if row == 0 then 0x00C0C101C30302C2_C60607C705C5C404 else
    if row == 1 then 0xCC0C0DCD0FCFCE0E_0ACACB0BC90908C8 else
    if row == 2 then 0xD81819D91BDBDA1A_1EDEDF1FDD1D1CDC else
    if row == 3 then 0x14D4D515D71716D6_D21213D311D1D010 else
    if row == 4 then 0xF03031F133F3F232_36F6F737F53534F4 else
    if row == 5 then 0x3CFCFD3DFF3F3EFE_FA3A3BFB39F9F838 else
    if row == 6 then 0x28E8E929EB2B2AEA_EE2E2FEF2DEDEC2C else
    if row == 7 then 0xE42425E527E7E626_22E2E323E12120E0 else
    if row == 8 then 0xA06061A163A3A262_66A6A767A56564A4 else
    if row == 9 then 0x6CACAD6DAF6F6EAE_AA6A6BAB69A9A868 else
    if row == 10 then 0x78B8B979BB7B7ABA_BE7E7FBF7DBDBC7C else
    if row == 11 then 0xB47475B577B7B676_72B2B373B17170B0 else
    if row == 12 then 0x5090915193535292_9656579755959454 else
    if row == 13 then 0x9C5C5D9D5F9F9E5E_5A9A9B5B99595898 else
    if row == 14 then 0x884849894B8B8A4A_4E8E8F4F8D4D4C8C else
    0x4484854587474686_8242438341818040
  }

  /** The `k`-th byte of a row of sixteen. */
  function ByteAt(row: bv128, k: bv8): bv8
    requires k < 16
  {
    ((row >> (8 * (15 - k))) & 0xff) as bv8
  }

  function TableHigh(idx: bv8): bv8 {
    ByteAt(HighRow(idx >> 4), idx & 0xf)
  }

  function TableLow(idx: bv8): bv8 {
    ByteAt(LowRow(idx >> 4), idx & 0xf)
  }

  // ---------------------------------------------------------------- division, low bit first

  /** One bit of division by the reflected polynomial. */
  function Shift1(x: bv16): bv16 {
    (x >> 1) ^ (if x & 1 == 1 then 0xA001 else 0)
  }

  function Shift8(x: bv16): bv16 {
    Shift1(Shift1(Shift1(Shift1(Shift1(Shift1(Shift1(Shift1(x))))))))
  }

  function Feed(crc: bv16, b: bv8): bv16 {
    Shift8(crc ^ (b as bv16))
  }

  function Divide(crc: bv16, m: seq<bv8>): bv16
    decreases |m|
  {
    if m == [] then crc else Divide(Feed(crc, m[0]), m[1..])
  }

  lemma HighDivides(idx: bv8)
    ensures TableHigh(idx) == (Shift8(idx as bv16) & 0xff) as bv8
  {
  }

  lemma LowDivides(idx: bv8)
    ensures TableLow(idx) == (Shift8(idx as bv16) >> 8) as bv8
  {
  }

  lemma TablesDivide(idx: bv8)
    ensures TableHigh(idx) == (Shift8(idx as bv16) & 0xff) as bv8
    ensures TableLow(idx) == (Shift8(idx as bv16) >> 8) as bv8
  {
    hide TableHigh, TableLow, Shift8;
    HighDivides(idx);
    LowDivides(idx);
  }

  /** One table step is eight bits of division. */
  lemma TableStep(crcHi: bv8, crcLo: bv8, b: bv8)
    ensures var idx := crcHi ^ b;
            Swap(crcLo ^ TableHigh(idx), TableLow(idx)) == Feed(Swap(crcHi, crcLo), b)
  {
    hide TableHigh, TableLow, Feed, Swap, Shift8;
    var idx := crcHi ^ b;
    StepIndexed(crcHi, crcLo, b, idx, TableHigh(idx), TableLow(idx));
  }

  lemma StepIndexed(crcHi: bv8, crcLo: bv8, b: bv8, idx: bv8, high: bv8, low: bv8)
    requires idx == crcHi ^ b && high == TableHigh(idx) && low == TableLow(idx)
    ensures Swap(crcLo ^ high, low) == Feed(Swap(crcHi, crcLo), b)
  {
    hide TableHigh, TableLow;
    TablesDivide(idx);
  }

  /** The register from its two bytes: `crc_hi` holds the low one. */
  function Swap(crcHi: bv8, crcLo: bv8): bv16 {
    ((crcLo as bv16) << 8) | (crcHi as bv16)
  }

  // ---------------------------------------------------------------- nothing is lost

  /** The bit shifted out can be told from the top bit of what results. */
  function Unshift1(y: bv16): bv16 {
    if y & 0x8000 != 0 then ((y ^ 0xA001) << 1) | 1 else y << 1
  }

  function Unshift8(y: bv16): bv16 {
    Unshift1(Unshift1(Unshift1(Unshift1(Unshift1(Unshift1(Unshift1(Unshift1(y))))))))
  }

  lemma Unshifts8(x: bv16)
    ensures Unshift8(Shift8(x)) == x
  {
    var x1 := Shift1(x);
    var x2 := Shift1(x1);
    var x3 := Shift1(x2);
    var x4 := Shift1(x3);
    var x5 := Shift1(x4);
    var x6 := Shift1(x5);
    var x7 := Shift1(x6);
    hide Shift1, Unshift1;
    Unshifts1(x7);
    Unshifts1(x6);
    Unshifts1(x5);
    Unshifts1(x4);
    Unshifts1(x3);
    Unshifts1(x2);
    Unshifts1(x1);
    Unshifts1(x);
  }

  lemma Unshifts1(x: bv16)
    ensures Unshift1(Shift1(x)) == x
  {
  }

  function IndexOf(high: bv8): bv8 {
    (Unshift8((high as bv16) << 8) & 0xff) as bv8
  }

  /** A table entry's high byte gives the index back. */
  lemma EntryGivesIndex(i: bv8)
    ensures IndexOf(TableLow(i)) == i
  {
    hide TableLow;
    LowDivides(i);
  }

  lemma HighByte(x: bv16)
    ensures (Shift8(x) >> 8) as bv8 == TableLow((x & 0xff) as bv8)
  {
    hide TableLow;
    LowDivides((x & 0xff) as bv8);
  }

  lemma FeedUndone(crc: bv16, b: bv8)
    ensures Unshift8(Feed(crc, b)) == crc ^ (b as bv16)
  {
    hide Shift8, Unshift8;
    Unshifts8(crc ^ (b as bv16));
  }

  lemma FeedHigh(crc: bv16, b: bv8)
    ensures (Feed(crc, b) >> 8) as bv8 == TableLow(((crc ^ (b as bv16)) & 0xff) as bv8)
  {
    hide Shift8, TableLow;
    HighByte(crc ^ (b as bv16));
  }

  /** The step is injective in the state, and in the byte. */
  lemma FeedInjective(crc: bv16, crc': bv16, b: bv8, b': bv8)
    requires Feed(crc, b) == Feed(crc', b')
    ensures b == b' ==> crc == crc'
    ensures crc == crc' ==> b == b'
  {
    hide Feed, Unshift8;
    FeedUndone(crc, b);
    FeedUndone(crc', b');
    XorCancels(crc, crc', b as bv16, b' as bv16);
    WidenInjective(b, b');
  }

  lemma WidenInjective(b: bv8, b': bv8)
    ensures b as bv16 == b' as bv16 <==> b == b'
  {
  }

  lemma XorCancels(x: bv16, y: bv16, a: bv16, b: bv16)
    requires x ^ a == y ^ b
    ensures (a == b ==> x == y) && (x == y ==> a == b)
  {
  }

  /** Two bytes in a row can be told apart as well: the state after them determines both. */
  lemma FeedTwice(crc: bv16, a: bv8, b: bv8, a': bv8, b': bv8)
    requires Feed(Feed(crc, a), b) == Feed(Feed(crc, a'), b')
    ensures a == a' && b == b'
  {
    hide Feed;
    var x, y := Feed(crc, a), Feed(crc, a');
    FeedSameHigh(x, y, b, b');
    HighGivesByte(crc, a, a');
    FeedInjective(x, y, b, b');
  }

  lemma FeedSameHigh(x: bv16, y: bv16, b: bv8, b': bv8)
    requires Feed(x, b) == Feed(y, b')
    ensures (x >> 8) as bv8 == (y >> 8) as bv8
  {
    hide Feed, Unshift8;
    FeedUndone(x, b);
    FeedUndone(y, b');
    SameHigh(x, y, b, b');
  }

  lemma HighGivesByte(crc: bv16, a: bv8, a': bv8)
    requires (Feed(crc, a) >> 8) as bv8 == (Feed(crc, a') >> 8) as bv8
    ensures a == a'
  {
    hide Feed, TableLow;
    FeedHigh(crc, a);
    FeedHigh(crc, a');
    var i, j := ((crc ^ (a as bv16)) & 0xff) as bv8, ((crc ^ (a' as bv16)) & 0xff) as bv8;
    SameEntry(i, j);
    SameIndex(crc, a, a');
  }

  lemma SameEntry(i: bv8, j: bv8)
    requires TableLow(i) == TableLow(j)
    ensures i == j
  {
    hide TableLow, IndexOf;
    EntryGivesIndex(i);
    EntryGivesIndex(j);
  }

  lemma SameHigh(x: bv16, y: bv16, b: bv8, b': bv8)
    requires x ^ (b as bv16) == y ^ (b' as bv16)
    ensures (x >> 8) as bv8 == (y >> 8) as bv8
  {
  }

  lemma SameIndex(crc: bv16, a: bv8, a': bv8)
    requires ((crc ^ (a as bv16)) & 0xff) as bv8 == ((crc ^ (a' as bv16)) & 0xff) as bv8
    ensures a == a'
  {
  }

  /** Behind equal bytes, different states stay different. */
  lemma {:induction false} DivideInjective(crc: bv16, crc': bv16, m: seq<bv8>)
    requires Divide(crc, m) == Divide(crc', m)
    ensures crc == crc'
    decreases |m|
  {
    hide Feed;
    if m != [] {
      DivideInjective(Feed(crc, m[0]), Feed(crc', m[0]), m[1..]);
      FeedInjective(crc, crc', m[0], m[0]);
    }
  }

  lemma {:induction false} DivideAppend(crc: bv16, a: seq<bv8>, b: seq<bv8>)
    ensures Divide(crc, a + b) == Divide(Divide(crc, a), b)
    decreases |a|
  {
    hide Feed;
    if a == [] {
      assert a + b == b;
    } else {
      assert (a + b)[1..] == a[1..] + b;
      DivideAppend(Feed(crc, a[0]), a[1..], b);
    }
  }

  /** Every change that is confined to two bytes next to each other is detected. */
  lemma DetectsTwoBytes(crc: bv16, before: seq<bv8>, a: bv8, b: bv8, a': bv8, b': bv8, behind: seq<bv8>)
    requires (a, b) != (a', b')
    ensures Divide(crc, before + [a, b] + behind) != Divide(crc, before + [a', b'] + behind)
  {
    hide Feed;
    var s := Divide(crc, before);
    TwoBytes(crc, before, a, b, behind);
    TwoBytes(crc, before, a', b', behind);
    if Divide(Feed(Feed(s, a), b), behind) == Divide(Feed(Feed(s, a'), b'), behind) {
      DivideInjective(Feed(Feed(s, a), b), Feed(Feed(s, a'), b'), behind);
      FeedTwice(s, a, b, a', b');
      assert false;
    }
  }

  lemma TwoBytes(crc: bv16, before: seq<bv8>, a: bv8, b: bv8, behind: seq<bv8>)
    ensures Divide(crc, before + [a, b] + behind) == Divide(Feed(Feed(Divide(crc, before), a), b), behind)
  {
    DivideAppend(crc, before + [a, b], behind);
    DivideAppend(crc, before, [a, b]);
    DivideTwo(Divide(crc, before), a, b);
    hide Divide, Feed;
  }

  lemma DivideTwo(crc: bv16, a: bv8, b: bv8)
    ensures Divide(crc, [a, b]) == Feed(Feed(crc, a), b)
  {
    hide Feed;
    assert [a, b][1..] == [b] && [b][1..] == [];
    assert Divide(Feed(crc, a), [b]) == Divide(Feed(Feed(crc, a), b), []);
  }

  function Reversed(x: bv16): bv16 {
    (x << 8) | (x >> 8)
  }

  lemma ReversedInjective(x: bv16, y: bv16)
    ensures Reversed(x) == Reversed(y) ==> x == y
  {
  }

  /** Two messages of one length that differ, and only within two bytes next to each other, have
      different checksums, in the register and as they are returned. */
  lemma BurstDetected(m: seq<bv8>, m': seq<bv8>, k: nat)
    requires |m| == |m'| && m != m' && k + 1 < |m|
    requires forall i :: 0 <= i < |m| && i != k && i != k + 1 ==> m[i] == m'[i]
    ensures Divide(0xFFFF, m) != Divide(0xFFFF, m')
    ensures Reversed(Divide(0xFFFF, m)) != Reversed(Divide(0xFFFF, m'))
  {
    hide Divide, Reversed;
    var before, behind := m[..k], m[k + 2..];
    assert m == before + [m[k], m[k + 1]] + behind;
    assert m' == before + [m'[k], m'[k + 1]] + behind;
    DetectsTwoBytes(0xFFFF, before, m[k], m[k + 1], m'[k], m'[k + 1], behind);
    ReversedInjective(Divide(0xFFFF, m), Divide(0xFFFF, m'));
  }

  /** Behind its own checksum, low byte first, every message leaves the register at zero. */
  lemma ModbusResidue(crc: bv16, m: seq<bv8>)
    ensures var r := Divide(crc, m);
            Divide(crc, m + [(r & 0xff) as bv8, (r >> 8) as bv8]) == 0
  {
    var r := Divide(crc, m);
    var lo, hi := (r & 0xff) as bv8, (r >> 8) as bv8;
    TwoBytes(crc, m, lo, hi, []);
    assert m + [lo, hi] + [] == m + [lo, hi];
    OwnBytes(r);
  }

  lemma OwnBytes(r: bv16)
    ensures Feed(Feed(r, (r & 0xff) as bv8), (r >> 8) as bv8) == 0
  {
  }

  /** The result is the register with its two bytes exchanged: its low byte, which goes out first, on top.
      The bytes 02 07 leave the register at 1241. */
  lemma ModbusBytes(x: bv16)
    ensures Reversed(x) >> 8 == x & 0xff && Reversed(x) & 0xff == x >> 8
    ensures Divide(0xFFFF, [0x02, 0x07]) == 0x1241 && Reversed(0x1241) == 0x4112
  {
    assert Feed(0xFFFF, 0x02) == 0x813E && Feed(0x813E, 0x07) == 0x1241;
    hide Feed;
    DivideTwo(0xFFFF, 0x02, 0x07);
  }

  // ---------------------------------------------------------------- _crc16_modbus

  lemma SwapBytes(crcHi: bv8, crcLo: bv8)
    ensures Reversed(Swap(crcHi, crcLo)) == ((crcHi as bv16) << 8) | (crcLo as bv16)
  {
  }

  /** _crc16_modbus: the register's low byte comes out as the high byte of the result. */
  method Crc16Modbus(data: array<bv8>, size: bv8) returns (crc: bv16)
    requires size as nat <= data.Length
    ensures crc == Reversed(Divide(0xFFFF, data[..size as nat]))
  {
    hide Feed, TableHigh, TableLow, Swap, Divide, Reversed;
    var crcHi: bv8, crcLo: bv8 := 0xFF, 0xFF;
    var left, at := size as nat, 0;
    ghost var m := data[..left];
    StartState();
    assert m[0..] == m;
    while left > 0
      invariant at + left == |m|
      invariant Divide(Swap(crcHi, crcLo), m[at..]) == Divide(0xFFFF, m)
      decreases left
    {
      left := left - 1;
      var idx := crcHi ^ data[at];
      DivideStep(Swap(crcHi, crcLo), m, at);
      TableStep(crcHi, crcLo, data[at]);
      var value := TableHigh(idx);
      crcHi := crcLo ^ value;
      crcLo := TableLow(idx);
      at := at + 1;
    }
    DivideNothing(Swap(crcHi, crcLo), m[at..]);
    SwapBytes(crcHi, crcLo);
    crc := ((crcHi as bv16) << 8) | (crcLo as bv16);
  }

  lemma StartState()
    ensures Swap(0xFF, 0xFF) == 0xFFFF
  {
  }

  lemma DivideStep(crc: bv16, m: seq<bv8>, at: nat)
    requires at < |m|
    ensures Divide(crc, m[at..]) == Divide(Feed(crc, m[at]), m[at + 1..])
  {
    hide Feed;
    assert m[at..][1..] == m[at + 1..];
  }

  lemma DivideNothing(crc: bv16, m: seq<bv8>)
    requires m == []
    ensures Divide(crc, m) == crc
  {
  }

  // ---------------------------------------------------------------- cal2_crc16

  /** The remainder table, eight entries to a row. */
  function K1000Row(row: bv8): bv128 {
    if row == 0 then 0x0000102120423063_408450A560C670E7 else
    if row == 1 then 0x81089129A14AB16B_C18CD1ADE1CEF1EF else
    if row == 2 then 0x1231021032732252_52B5429472F762D6 else
    if row == 3 then 0x93398318B37BA35A_D3BDC39CF3FFE3DE else
    if row == 4 then 0x2462344304201401_64E674C744A45485 else
    if row == 5 then 0xA56AB54B85289509_E5EEF5CFC5ACD58D else
    if row == 6 then 0x3653267216110630_76D766F6569546B4 else
    if row == 7 then 0xB75BA77A97198738_F7DFE7FED79DC7BC else
    if row == 8 then 0x48C458E5688678A7_0840186128023823 else
    if row == 9 then 0xC9CCD9EDE98EF9AF_89489969A90AB92B else
    if row == 10 then 0x5AF54AD47AB76A96_1A710A503A332A12 else
    if row == 11 then 0xDBFDCBDCFBBFEB9E_9B798B58BB3BAB1A else
    if row == 12 then 0x6CA67C874CE45CC5_2C223C030C601C41 else
    if row == 13 then 0xEDAEFD8FCDECDDCD_AD2ABD0B8D689D49 else
    if row == 14 then 0x7E976EB65ED54EF4_3E132E321E510E70 else
    if row == 15 then 0xFF9FEFBEDFDDCFFC_BF1BAF3A9F598F78 else
    if row == 16 then 0x918881A9B1CAA1EB_D10CC12DF14EE16F else
    if row == 17 then 0x108000A130C220E3_5004402570466067 else
    if row == 18 then 0x83B99398A3FBB3DA_C33DD31CE37FF35E else
    if row == 19 then 0x02B1129022F332D2_4235521462777256 else
    if row == 20 then 0xB5EAA5CB95A88589_F56EE54FD52CC50D else
    if row == 21 then 0x34E224C314A00481_7466644754244405 else
    if row == 22 then 0xA7DBB7FA879997B8_E75FF77EC71DD73C else
    if row == 23 then 0x26D336F2069116B0_6657767646155634 else
    if row == 24 then 0xD94CC96DF90EE92F_99C889E9B98AA9AB else
    if row == 25 then 0x5844486578066827_18C008E1388228A3 else
    if row == 26 then 0xCB7DDB5CEB3FFB1E_8BF99BD8ABBBBB9A else
    if row == 27 then 0x4A755A546A377A16_0AF11AD02AB33A92 else
    if row == 28 then 0xFD2EED0FDD6CCD4D_BDAAAD8B9DE88DC9 else
    if row == 29 then 0x7C266C075C644C45_3CA22C831CE00CC1 else
    if row == 30 then 0xEF1FFF3ECF5DDF7C_AF9BBFBA8FD99FF8 else
    0x6E177E364E555E74_2E933EB20ED11EF0
  }

  function K1000Table(idx: bv8): bv16 {
    ((K1000Row(idx >> 3) >> (16 * (7 - (idx & 7)))) & 0xffff) as bv16
  }

  /** One bit of division by the polynomial 0x1021, high bit first. */
  function Up1(x: bv16): bv16 {
    (x << 1) ^ (if x & 0x8000 != 0 then 0x1021 else 0)
  }

  function Up8(x: bv16): bv16 {
    Up1(Up1(Up1(Up1(Up1(Up1(Up1(Up1(x))))))))
  }

  function UpFeed(crc: bv16, b: bv8): bv16 {
    Up8(crc ^ ((b as bv16) << 8))
  }

  function UpDivide(crc: bv16, m: seq<bv8>): bv16
    decreases |m|
  {
    if m == [] then crc else UpDivide(UpFeed(crc, m[0]), m[1..])
  }

  /** The bytes that count. */
  function WithoutTabs(m: seq<bv8>): seq<bv8> {
    if m == [] then [] else (if m[0] == 0x09 then [] else [m[0]]) + WithoutTabs(m[1..])
  }

  lemma K1000Divides0(idx: bv8, lo: bv8)
    requires idx < 0x40
    ensures ((lo as bv16) << 8) ^ K1000Table(idx) == Up8(((idx as bv16) << 8) | (lo as bv16))
  {
  }

  lemma K1000Divides4(idx: bv8, lo: bv8)
    requires 0x40 <= idx < 0x80
    ensures ((lo as bv16) << 8) ^ K1000Table(idx) == Up8(((idx as bv16) << 8) | (lo as bv16))
  {
  }

  lemma K1000Divides8(idx: bv8, lo: bv8)
    requires 0x80 <= idx < 0xA0
    ensures ((lo as bv16) << 8) ^ K1000Table(idx) == Up8(((idx as bv16) << 8) | (lo as bv16))
  {
  }

  lemma K1000DividesA(idx: bv8, lo: bv8)
    requires 0xA0 <= idx < 0xC0
    ensures ((lo as bv16) << 8) ^ K1000Table(idx) == Up8(((idx as bv16) << 8) | (lo as bv16))
  {
  }

  lemma K1000DividesC(idx: bv8, lo: bv8)
    requires 0xC0 <= idx < 0xE0
    ensures ((lo as bv16) << 8) ^ K1000Table(idx) == Up8(((idx as bv16) << 8) | (lo as bv16))
  {
  }

  lemma K1000DividesE(idx: bv8, lo: bv8)
    requires 0xE0 <= idx
    ensures ((lo as bv16) << 8) ^ K1000Table(idx) == Up8(((idx as bv16) << 8) | (lo as bv16))
  {
  }

  lemma K1000Divides(idx: bv8, lo: bv8)
    ensures ((lo as bv16) << 8) ^ K1000Table(idx) == Up8(((idx as bv16) << 8) | (lo as bv16))
  {
    hide K1000Table, Up8;
    if idx < 0x40 {
      K1000Divides0(idx, lo);
    } else if idx < 0x80 {
      K1000Divides4(idx, lo);
    } else if idx < 0xA0 {
      K1000Divides8(idx, lo);
    } else if idx < 0xC0 {
      K1000DividesA(idx, lo);
    } else if idx < 0xE0 {
      K1000DividesC(idx, lo);
    } else {
      K1000DividesE(idx, lo);
    }
  }

  lemma Bytes(crc: bv16, b: bv8, idx: bv8, lo: bv8)
    requires idx == (crc >> 8) as bv8 ^ b && lo == (crc & 0xff) as bv8
    ensures crc == (((idx ^ b) as bv16) << 8) | (lo as bv16)
  {
  }

  lemma FeedBytes(idx: bv8, b: bv8, lo: bv8, crc: bv16)
    requires crc == (((idx ^ b) as bv16) << 8) | (lo as bv16)
    ensures UpFeed(crc, b) == Up8(((idx as bv16) << 8) | (lo as bv16)) && crc << 8 == (lo as bv16) << 8
  {
    hide Up8;
    XorByte(idx, b, lo);
  }

  lemma XorByte(idx: bv8, b: bv8, lo: bv8)
    ensures var crc := (((idx ^ b) as bv16) << 8) | (lo as bv16);
            crc ^ ((b as bv16) << 8) == ((idx as bv16) << 8) | (lo as bv16) && crc << 8 == (lo as bv16) << 8
  {
  }

  /** One table step is eight bits of division. */
  lemma K1000Step(crc: bv16, b: bv8, idx: bv8)
    requires idx == (crc >> 8) as bv8 ^ b
    ensures (crc << 8) ^ K1000Table(idx) == UpFeed(crc, b)
  {
    var lo := (crc & 0xff) as bv8;
    Bytes(crc, b, idx, lo);
    FeedBytes(idx, b, lo, crc);
    K1000Divides(idx, lo);
    hide UpFeed, Up8, K1000Table;
  }

  /** cal2_crc16: the division of the message without its 0x09 bytes. */
  method Cal2Crc16(buff: array<bv8>, len: bv8) returns (crc: bv16)
    requires len as nat <= buff.Length
    ensures crc == UpDivide(0, WithoutTabs(buff[..len as nat]))
  {
    hide UpFeed, K1000Table, UpDivide, WithoutTabs, FedUnlessTab;
    crc := 0;
    var left, at := len as nat, 0;
    ghost var m := buff[..left];
    assert m[0..] == m;
    while left != 0
      invariant 0 <= left && at + left == |m|
      invariant UpDivide(crc, WithoutTabs(m[at..])) == UpDivide(0, WithoutTabs(m))
      decreases left
    {
      left := left - 1;
      CountStep(crc, m, at);
      FedByTable(crc, m[at]);
      if buff[at] != 0x09 {
        var da := (crc >> 8) as bv8;
        crc := crc << 8;
        crc := crc ^ K1000Table(da ^ buff[at]);
      }
      at := at + 1;
    }
    CountNothing(crc, m[at..]);
  }

  lemma FedByTable(crc: bv16, b: bv8)
    ensures FedUnlessTab(crc, b) == if b == 0x09 then crc else (crc << 8) ^ K1000Table((crc >> 8) as bv8 ^ b)
  {
    hide UpFeed, K1000Table;
    K1000Step(crc, b, (crc >> 8) as bv8 ^ b);
  }

  lemma CountStep(crc: bv16, m: seq<bv8>, at: nat)
    requires at < |m|
    ensures UpDivide(crc, WithoutTabs(m[at..]))
         == UpDivide(FedUnlessTab(crc, m[at]), WithoutTabs(m[at + 1..]))
  {
    hide UpDivide, WithoutTabs;
    assert m[at..] == [m[at]] + m[at + 1..];
    FedOne(crc, m[at], m[at + 1..]);
  }

  lemma CountNothing(crc: bv16, m: seq<bv8>)
    requires m == []
    ensures UpDivide(crc, WithoutTabs(m)) == crc
  {
  }

  /** A receiver that runs the same loop over a message and its checksum, high byte first, gets zero
      exactly if neither byte of the checksum is one of those that the loop passes over. */
  lemma K1000Residue(m: seq<bv8>)
    ensures var r := UpDivide(0, WithoutTabs(m));
            UpDivide(0, WithoutTabs(m + [Top(r), Bottom(r)])) == 0 <==> Top(r) != 0x09 && Bottom(r) != 0x09
  {
    hide FedUnlessTab, UpDivide, WithoutTabs, Top, Bottom;
    var r := UpDivide(0, WithoutTabs(m));
    var own := [Top(r), Bottom(r)];
    WithoutTabsAppend(m, own);
    UpDivideAppend(0, WithoutTabs(m), WithoutTabs(own));
    K1000OwnBytes(r, Top(r), Bottom(r));
    FedTwo(r, Top(r), Bottom(r));
  }

  /** The checksum of the digits 1 to 9 is 31C3; 0x09 bytes among them count for nothing. */
  lemma K1000Value()
    ensures var m: seq<bv8> := [0x31, 0x32, 0x33, 0x34, 0x35, 0x36, 0x37, 0x38, 0x39];
            && UpDivide(0, WithoutTabs(m)) == 0x31C3
            && forall i :: 0 <= i <= 9 ==> WithoutTabs(m[..i] + [0x09] + m[i..]) == WithoutTabs(m)
  {
    var m: seq<bv8> := [0x31, 0x32, 0x33, 0x34, 0x35, 0x36, 0x37, 0x38, 0x39];
    NineFeeds();
    hide FedUnlessTab, UpDivide, WithoutTabs;
    Fed(0, m, 0, 0x2672);
    Fed(0x2672, m, 1, 0x20B5);
    Fed(0x20B5, m, 2, 0x9752);
    Fed(0x9752, m, 3, 0xD789);
    Fed(0xD789, m, 4, 0x546C);
    Fed(0x546C, m, 5, 0x20E4);
    Fed(0x20E4, m, 6, 0x86D6);
    Fed(0x86D6, m, 7, 0x9015);
    Fed(0x9015, m, 8, 0x31C3);
    CountNothing(0x31C3, m[9..]);
    assert m[0..] == m;
    forall i | 0 <= i <= 9
      ensures WithoutTabs(m[..i] + [0x09] + m[i..]) == WithoutTabs(m)
    {
      TabDropped(m[..i], m[i..]);
      assert m[..i] + m[i..] == m;
    }
  }

  lemma NineFeeds()
    ensures FedUnlessTab(0, 0x31) == 0x2672 && FedUnlessTab(0x2672, 0x32) == 0x20B5
    ensures FedUnlessTab(0x20B5, 0x33) == 0x9752 && FedUnlessTab(0x9752, 0x34) == 0xD789
    ensures FedUnlessTab(0xD789, 0x35) == 0x546C && FedUnlessTab(0x546C, 0x36) == 0x20E4
    ensures FedUnlessTab(0x20E4, 0x37) == 0x86D6 && FedUnlessTab(0x86D6, 0x38) == 0x9015
    ensures FedUnlessTab(0x9015, 0x39) == 0x31C3
  {
  }

  lemma Fed(crc: bv16, m: seq<bv8>, i: nat, next: bv16)
    requires i < |m| && FedUnlessTab(crc, m[i]) == next
    ensures UpDivide(crc, WithoutTabs(m[i..])) == UpDivide(next, WithoutTabs(m[i + 1..]))
  {
    hide FedUnlessTab, UpDivide, WithoutTabs;
    CountStep(crc, m, i);
  }

  lemma TabDropped(a: seq<bv8>, b: seq<bv8>)
    ensures WithoutTabs(a + [0x09] + b) == WithoutTabs(a + b)
  {
    WithoutTabsAppend(a + [0x09], b);
    WithoutTabsAppend(a, [0x09]);
    WithoutTabsAppend(a, b);
    var tab: seq<bv8> := [0x09];
    assert tab[1..] == [] && WithoutTabs(tab) == [];
    hide WithoutTabs;
    assert WithoutTabs(a) + [] == WithoutTabs(a);
  }

  function Top(r: bv16): bv8 {
    (r >> 8) as bv8
  }

  function Bottom(r: bv16): bv8 {
    (r & 0xff) as bv8
  }

  lemma FedTwo(r: bv16, hi: bv8, lo: bv8)
    ensures UpDivide(r, WithoutTabs([hi, lo])) == FedUnlessTab(FedUnlessTab(r, hi), lo)
  {
    hide UpFeed;
    FedOne(r, hi, [lo]);
    FedOne(FedUnlessTab(r, hi), lo, []);
    assert [hi] + [lo] == [hi, lo] && [lo] + [] == [lo];
  }

  function FedUnlessTab(crc: bv16, b: bv8): bv16 {
    if b == 0x09 then crc else UpFeed(crc, b)
  }

  lemma FedOne(crc: bv16, b: bv8, m: seq<bv8>)
    ensures UpDivide(crc, WithoutTabs([b] + m)) == UpDivide(FedUnlessTab(crc, b), WithoutTabs(m))
  {
    hide UpFeed;
    var rest := WithoutTabs(m);
    assert ([b] + m)[1..] == m && [] + rest == rest && ([b] + rest)[1..] == rest;
  }

  lemma K1000OwnBytes(r: bv16, hi: bv8, lo: bv8)
    requires hi == Top(r) && lo == Bottom(r)
    ensures FedUnlessTab(FedUnlessTab(r, hi), lo) == 0 <==> hi != 0x09 && lo != 0x09
  {
  }

  lemma {:induction false} WithoutTabsAppend(a: seq<bv8>, b: seq<bv8>)
    ensures WithoutTabs(a + b) == WithoutTabs(a) + WithoutTabs(b)
  {
    if a == [] {
      assert a + b == b;
    } else {
      var first: seq<bv8> := if a[0] == 0x09 then [] else [a[0]];
      assert (a + b)[1..] == a[1..] + b && (a + b)[0] == a[0];
      WithoutTabsAppend(a[1..], b);
      assert WithoutTabs(a) == first + WithoutTabs(a[1..]) && WithoutTabs(a + b) == first + WithoutTabs(a[1..] + b);
      hide WithoutTabs;
      assert first + (WithoutTabs(a[1..]) + WithoutTabs(b)) == first + WithoutTabs(a[1..]) + WithoutTabs(b);
    }
  }

  lemma {:induction false} UpDivideAppend(crc: bv16, a: seq<bv8>, b: seq<bv8>)
    ensures UpDivide(crc, a + b) == UpDivide(UpDivide(crc, a), b)
    decreases |a|
  {
    hide UpFeed;
    if a == [] {
      assert a + b == b;
    } else {
      assert (a + b)[1..] == a[1..] + b;
      UpDivideAppend(UpFeed(crc, a[0]), a[1..], b);
    }
  }
}

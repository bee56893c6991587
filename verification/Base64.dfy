/** The Base64 of crypt.c, section 4 of RFC 4648: what the two block functions compute, that the
    buffers they allocate are large enough, and that decoding undoes encoding. */
module Base64 {
  import opened Ascii
  import opened Powers
  import opened Wrappers

  const UPPER := "ABCDEFGHIJKLMNOPQRSTUVWXYZ"
  const LOWER := "abcdefghijklmnopqrstuvwxyz"
  const DIGITS := "0123456789+/"

  const ENCODE_MAP := UPPER + LOWER + DIGITS

  /** decodeMap, which is -1 off the alphabet. */
  function DecodeMap(c: char): (d: int)
    ensures -1 <= d < 64
  {
    if c == '+' then 62
    else if c == '/' then 63
    else if '0' <= c <= '9' then c as int - '0' as int + 52
    else if 'A' <= c <= 'Z' then c as int - 'A' as int
    else if 'a' <= c <= 'z' then c as int - 'a' as int + 26
    else -1
  }

  lemma MapsInverse(v: nat)
    requires v < 64
    ensures |ENCODE_MAP| == 64 && DecodeMap(ENCODE_MAP[v]) == v && ENCODE_MAP[v] != '='
    ensures 0 < ENCODE_MAP[v] as int < 256
  {
    TableOne(ENCODE_MAP[v], v);
  }

  lemma UpperInverse(v: nat)
    requires v < 26
    ensures UPPER[v] == ('A' as int + v) as char
  {
  }

  lemma LowerInverse(v: nat)
    requires v < 26
    ensures LOWER[v] == ('a' as int + v) as char
  {
  }

  /** Table 1 of RFC 4648, by character codes. */
  function Letter(v: nat): (c: int)
    requires v < 64
  {
    if v < 26 then 65 + v
    else if v < 52 then 97 + (v - 26)
    else if v < 62 then 48 + (v - 52)
    else if v == 62 then 43
    else 47
  }

  /** Both tables are that one, and off it decodeMap is -1. */
  lemma TableOne(c: char, v: nat)
    requires v < 64
    ensures |ENCODE_MAP| == 64 && ENCODE_MAP[v] as int == Letter(v)
    ensures DecodeMap(c) == v <==> c as int == Letter(v)
    ensures DecodeMap(c) == -1 <==> forall w: nat :: w < 64 ==> c as int != Letter(w)
  {
    if v < 26 {
      UpperInverse(v);
      assert ENCODE_MAP[v] == UPPER[v];
    } else if v < 52 {
      LowerInverse(v - 26);
      assert ENCODE_MAP[v] == LOWER[v - 26];
    } else {
      assert ENCODE_MAP[v] == DIGITS[v - 52];
    }
    var d := DecodeMap(c);
    if d >= 0 {
      assert c as int == Letter(d);
    }
  }

  // ---------------------------------------------------------------- what is to be computed

  /** Up to three bytes as a 24-bit group. */
  function Group(s: string): (g: nat)
    requires |s| <= 3 && Bytes(s)
    ensures g < 0x100_0000
  {
    (if |s| > 0 then s[0] as int * 0x1_0000 else 0) + (if |s| > 1 then s[1] as int * 0x100 else 0)
    + (if |s| > 2 then s[2] as int else 0)
  }

  /** The `k`-th six bits of a group, from the top. */
  function Six(g: nat, k: nat): (v: nat)
    requires k < 4
    ensures v < 64
  {
    match k
    case 0 => g / 0x4_0000 % 0x40
    case 1 => g / 0x1000 % 0x40
    case 2 => g / 0x40 % 0x40
    case _ => g % 0x40
  }

  /** The first `n` of the four characters of a group. */
  function Letters(g: nat, n: nat): (t: string)
    requires n <= 4
    ensures |t| == n
  {
    seq(n, k requires 0 <= k < n => ENCODE_MAP[Six(g, k)])
  }

  predicate Bytes(s: string) {
    forall i :: 0 <= i < |s| ==> s[i] as int < 256
  }

  function Pad(n: nat): (p: string)
    ensures |p| == n
  {
    seq(n, _ => '=')
  }

  /** The encoding: four characters for three bytes, with '=' for those a shorter last group lacks. */
  function Encoded(s: string): string
    requires Bytes(s)
  {
    if s == "" then ""
    else
      var n := if |s| < 3 then |s| else 3;
      Letters(Group(s[..n]), n + 1) + Pad(3 - n) + Encoded(s[n..])
  }

  lemma {:induction false} EncodedLength(s: string)
    requires Bytes(s)
    ensures |Encoded(s)| == (|s| + 2) / 3 * 4
    ensures |Encoded(s)| <= 2 * |s| <==> |s| != 1
  {
    GroupsOf(|s|);
    if |s| > 2 {
      EncodedLength(s[3..]);
      assert |Encoded(s)| == 4 + |Encoded(s[3..])|;
      hide *;
      GroupsOf(|s| - 3);
    } else if s != "" {
      assert s[|s|..] == "";
      assert |Encoded(s)| == 4;
    }
  }

  lemma GroupsOf(n: nat)
    ensures (n + 2) / 3 * 4 <= 2 * n <==> n != 1
    ensures n > 0 ==> (n + 2) / 3 == (n - 1) / 3 + 1
    ensures n < 4 ==> (n + 2) / 3 == if n == 0 then 0 else 1
  {
  }

  /** Byte `i` of a text, or nothing behind its end. */
  function ByteAt(s: string, i: nat): nat {
    if i < |s| then s[i] as int else 0
  }

  /** The `k`-th six of the 24 bits of three bytes: section 4 of RFC 4648. */
  function SixBits(b0: nat, b1: nat, b2: nat, k: nat): nat {
    if k == 0 then b0 / 4
    else if k == 1 then b0 % 4 * 16 + b1 / 16
    else if k == 2 then b1 % 16 * 4 + b2 / 64
    else b2 % 64
  }

  lemma SixIs(b0: nat, b1: nat, b2: nat, k: nat)
    requires b0 < 256 && b1 < 256 && b2 < 256 && k < 4
    ensures SixBits(b0, b1, b2, k) < 64 && Six(b0 * 0x1_0000 + b1 * 0x100 + b2, k) == SixBits(b0, b1, b2, k)
  {
    var g := b0 * 0x1_0000 + b1 * 0x100 + b2;
    var (q0, r0, q1, r1, q2, r2) := (b0 / 4, b0 % 4, b1 / 16, b1 % 16, b2 / 64, b2 % 64);
    assert b0 == 4 * q0 + r0 && b1 == 16 * q1 + r1 && b2 == 64 * q2 + r2;
    if k == 0 {
      DivIs(g, 0x4_0000, q0, r0 * 0x1_0000 + b1 * 0x100 + b2);
    } else if k == 1 {
      DivIs(g, 0x1000, b0 * 16 + q1, r1 * 0x100 + b2);
      DivIs(b0 * 16 + q1, 64, q0, r0 * 16 + q1);
    } else if k == 2 {
      DivIs(g, 0x40, b0 * 1024 + b1 * 4 + q2, r2);
      DivIs(b0 * 1024 + b1 * 4 + q2, 64, b0 * 16 + q1, r1 * 4 + q2);
    } else {
      DivIs(g, 64, b0 * 1024 + b1 * 4 + q2, r2);
    }
  }

  /** Character `4*i+k` of the encoding is the letter of the `k`-th six bits of the bytes from `3*i` on, as
      long as some of the bits belong to a byte of the text; behind that it is '='. */
  lemma {:induction false} EncodedAt(s: string, i: nat, k: nat)
    requires Bytes(s) && 3 * i < |s| && k < 4
    ensures 4 * i + k < |Encoded(s)|
    ensures var six := SixBits(ByteAt(s, 3 * i), ByteAt(s, 3 * i + 1), ByteAt(s, 3 * i + 2), k);
            six < 64 && Encoded(s)[4 * i + k] as int == if 3 * i + k <= |s| then Letter(six) else 61
  {
    hide *;
    var n := if |s| < 3 then |s| else 3;
    BytesCut(s, n);
    EncodedFirst(s, n);
    var first, rest := Letters(Group(s[..n]), n + 1) + Pad(3 - n), s[n..];
    FirstGroup(s, n, k);
    if i == 0 {
      ByteSmall(s, 0);
      ByteSmall(s, 1);
      ByteSmall(s, 2);
      SixIs(ByteAt(s, 0), ByteAt(s, 1), ByteAt(s, 2), k);
    } else {
      EncodedAt(rest, i - 1, k);
      ByteBehind(s, 3, 3 * (i - 1));
      ByteBehind(s, 3, 3 * (i - 1) + 1);
      ByteBehind(s, 3, 3 * (i - 1) + 2);
      Behind(first, Encoded(rest), 4 * (i - 1) + k);
    }
  }

  lemma BytesCut(s: string, n: nat)
    requires Bytes(s) && n <= |s|
    ensures Bytes(s[n..]) && Bytes(s[..n])
  {
  }

  lemma EncodedFirst(s: string, n: nat)
    requires Bytes(s) && s != "" && n == (if |s| < 3 then |s| else 3) && Bytes(s[n..]) && Bytes(s[..n])
    ensures Encoded(s) == Letters(Group(s[..n]), n + 1) + Pad(3 - n) + Encoded(s[n..])
  {
    hide Letters, Group, Pad, Bytes;
  }

  lemma ByteSmall(s: string, i: nat)
    requires Bytes(s)
    ensures ByteAt(s, i) < 256
  {
  }

  lemma ByteBehind(s: string, n: nat, i: nat)
    requires n <= |s|
    ensures ByteAt(s[n..], i) == ByteAt(s, n + i)
  {
  }

  lemma Behind(a: string, b: string, i: nat)
    requires i < |b|
    ensures |a| + i < |a + b| && (a + b)[|a| + i] == b[i]
  {
  }

  lemma FirstGroup(s: string, n: nat, k: nat)
    requires Bytes(s) && s != "" && n == (if |s| < 3 then |s| else 3) && k < 4
    ensures var first := Letters(Group(s[..n]), n + 1) + Pad(3 - n);
            && |first| == 4
            && first[k] as int == if k <= n then
                                    Letter(Six(ByteAt(s, 0) * 0x1_0000 + ByteAt(s, 1) * 0x100 + ByteAt(s, 2), k))
                                  else 61
  {
    assert Group(s[..n]) == ByteAt(s, 0) * 0x1_0000 + ByteAt(s, 1) * 0x100 + ByteAt(s, 2);
    hide Group, Six;
    if k <= n {
      TableOne('=', Six(Group(s[..n]), k));
    }
  }

  /** The text that counts: up to the first '=' if that is what stops. */
  function Stop(s: string, tokeq: bool): string {
    if s == "" || (tokeq && s[0] == '=') then "" else [s[0]] + Stop(s[1..], tokeq)
  }

  function Bits(t: string): (g: nat)
    requires |t| <= 4 && InAlphabet(t)
    ensures g < 0x100_0000
  {
    (if |t| > 0 then DecodeMap(t[0]) * 0x4_0000 else 0) + (if |t| > 1 then DecodeMap(t[1]) * 0x1000 else 0)
    + (if |t| > 2 then DecodeMap(t[2]) * 0x40 else 0) + (if |t| > 3 then DecodeMap(t[3]) else 0)
  }

  /** The first `n` of the three bytes of a group. */
  function Octets(g: nat, n: nat): (s: string)
    requires g < 0x100_0000 && n <= 3
    ensures |s| == n
  {
    [(g / 0x1_0000) as char, (g / 0x100 % 0x100) as char, (g % 0x100) as char][..n]
  }

  predicate InAlphabet(t: string) {
    forall i :: 0 <= i < |t| ==> DecodeMap(t[i]) >= 0
  }

  /** The decoding of text without a stop: a group of `n` characters gives `n - 1` bytes. */
  function Decoded(t: string): (r: Option<string>)
    ensures r.Some? ==> |r.value| <= |t|
  {
    if t == "" then Some("")
    else
      var n := if |t| < 4 then |t| else 4;
      if !InAlphabet(t[..n]) then None
      else
        match Decoded(t[n..])
        case None => None
        case Some(rest) => Some(Octets(Bits(t[..n]), n - 1) + rest)
  }

  /** The value of the letter at `i`, or nothing behind the end. */
  function ValueAt(t: string, i: nat): int {
    if i < |t| then DecodeMap(t[i]) else 0
  }

  /** The `j`-th byte of the 24 bits of four letters. */
  function EightBits(v0: int, v1: int, v2: int, v3: int, j: nat): int {
    if j == 0 then v0 * 4 + v1 / 16 else if j == 1 then v1 % 16 * 16 + v2 / 4 else v2 % 4 * 64 + v3
  }

  /** Text of letters, and no other, is decoded: each group of `n` letters to `n - 1` bytes. */
  lemma {:induction false} DecodedLength(t: string)
    ensures Decoded(t).Some? <==> InAlphabet(t)
    ensures InAlphabet(t) ==> |Decoded(t).value| == |t| - (|t| + 3) / 4
  {
    if t != "" {
      var n := if |t| < 4 then |t| else 4;
      InHalves(t, n);
      DecodedFirst(t, n);
      hide *;
      DecodedLength(t[n..]);
      Lengths(|t|, n);
    }
  }

  /** Byte `3*i+j` of what is decoded is the `j`-th eight bits of the letters from `4*i` on, as far as there
      are any. */
  lemma {:induction false} DecodedAt(t: string, i: nat, j: nat)
    requires InAlphabet(t) && j < 3 && 4 * i + j + 1 < |t|
    ensures Decoded(t).Some? && 3 * i + j < |Decoded(t).value|
    ensures Decoded(t).value[3 * i + j] as int
         == EightBits(ValueAt(t, 4 * i), ValueAt(t, 4 * i + 1), ValueAt(t, 4 * i + 2), ValueAt(t, 4 * i + 3), j)
  {
    hide *;
    var n := if |t| < 4 then |t| else 4;
    var first, rest := t[..n], t[n..];
    InHalves(t, n);
    DecodedFirst(t, n);
    DecodedLength(t);
    DecodedLength(rest);
    var x, y := Octets(Bits(first), n - 1), Decoded(rest).value;
    if i == 0 {
      FirstOctets(t, n, j);
    } else {
      DecodedAt(rest, i - 1, j);
      ValueBehind(t, 4, 4 * (i - 1));
      ValueBehind(t, 4, 4 * (i - 1) + 1);
      ValueBehind(t, 4, 4 * (i - 1) + 2);
      ValueBehind(t, 4, 4 * (i - 1) + 3);
      Behind(x, y, 3 * (i - 1) + j);
    }
  }

  lemma Lengths(t: nat, n: nat)
    requires t > 0 && n == if t < 4 then t else 4
    ensures n - 1 + (t - n - (t - n + 3) / 4) == t - (t + 3) / 4
  {
  }

  lemma DecodedFirst(t: string, n: nat)
    requires t != "" && n == if |t| < 4 then |t| else 4
    ensures Decoded("") == Some("") && InAlphabet("")
    ensures Decoded(t)
         == if !InAlphabet(t[..n]) || Decoded(t[n..]).None? then None
            else Some(Octets(Bits(t[..n]), n - 1) + Decoded(t[n..]).value)
  {
  }

  lemma ValueBehind(t: string, n: nat, i: nat)
    requires n <= |t|
    ensures ValueAt(t[n..], i) == ValueAt(t, n + i)
  {
  }

  lemma InHalves(t: string, n: nat)
    requires n <= |t|
    ensures InAlphabet(t) <==> InAlphabet(t[..n]) && InAlphabet(t[n..])
  {
    hide DecodeMap;
    if InAlphabet(t[..n]) && InAlphabet(t[n..]) {
      forall i | 0 <= i < |t|
        ensures DecodeMap(t[i]) >= 0
      {
        assert t[i] == if i < n then t[..n][i] else t[n..][i - n];
      }
    }
  }

  lemma FirstOctets(t: string, n: nat, j: nat)
    requires t != "" && n == (if |t| < 4 then |t| else 4) && InAlphabet(t[..n]) && j < 3
    ensures var s := Octets(Bits(t[..n]), n - 1);
            j < n - 1 ==> s[j] as int == EightBits(ValueAt(t, 0), ValueAt(t, 1), ValueAt(t, 2), ValueAt(t, 3), j)
  {
    assert forall k :: 0 <= k < n ==> t[..n][k] == t[k];
    var v0, v1, v2, v3 := ValueAt(t, 0), ValueAt(t, 1), ValueAt(t, 2), ValueAt(t, 3);
    hide DecodeMap;
    var g := Bits(t[..n]);
    assert g == v0 * 0x4_0000 + v1 * 0x1000 + v2 * 0x40 + v3;
    hide Bits;
    EightIs(v0, v1, v2, v3);
  }

  lemma EightIs(v0: int, v1: int, v2: int, v3: int)
    requires 0 <= v0 < 64 && 0 <= v1 < 64 && 0 <= v2 < 64 && 0 <= v3 < 64
    ensures var g := v0 * 0x4_0000 + v1 * 0x1000 + v2 * 0x40 + v3;
            && g / 0x1_0000 == v0 * 4 + v1 / 16 && g / 0x100 % 0x100 == v1 % 16 * 16 + v2 / 4
            && g % 0x100 == v2 % 4 * 64 + v3
  {
    var g := v0 * 0x4_0000 + v1 * 0x1000 + v2 * 0x40 + v3;
    var (q1, r1, q2, r2) := (v1 / 16, v1 % 16, v2 / 4, v2 % 4);
    assert v1 == 16 * q1 + r1 && v2 == 4 * q2 + r2;
    DivIs(g, 0x1_0000, v0 * 4 + q1, r1 * 0x1000 + v2 * 0x40 + v3);
    DivIs(g, 0x100, v0 * 1024 + v1 * 16 + q2, r2 * 64 + v3);
    DivIs(v0 * 1024 + v1 * 16 + q2, 0x100, v0 * 4 + q1, r1 * 16 + q2);
  }

  // ---------------------------------------------------------------- round trip

  lemma BitsOfLetters(s: string, n: nat)
    requires 0 < |s| <= 3 && Bytes(s) && n == |s| + 1
    ensures InAlphabet(Letters(Group(s), n)) && Bits(Letters(Group(s), n)) == Group(s)
    ensures Octets(Group(s), |s|) == s && '=' !in Letters(Group(s), n)
  {
    hide DecodeMap, Six;
    var g, t := Group(s), Letters(Group(s), n);
    forall k | 0 <= k < n
      ensures t[k] == ENCODE_MAP[Six(g, k)] && DecodeMap(t[k]) == Six(g, k) && t[k] != '='
    {
      MapsInverse(Six(g, k));
    }
    LowBits(s);
    Recombine(g, n);
    OctetsOfGroup(s);
  }

  lemma LowBits(s: string)
    requires |s| <= 3 && Bytes(s)
    ensures (|s| == 1 ==> Group(s) % 0x1000 == 0) && (|s| == 2 ==> Group(s) % 0x40 == 0)
  {
  }

  lemma ThreeBytes(g: nat, b0: nat, b1: nat, b2: nat)
    requires b0 < 0x100 && b1 < 0x100 && b2 < 0x100 && g == b0 * 0x1_0000 + b1 * 0x100 + b2
    ensures g / 0x1_0000 == b0 && g / 0x100 % 0x100 == b1 && g % 0x100 == b2
  {
    assert g / 0x100 == b0 * 0x100 + b1;
  }

  lemma OctetsOfGroup(s: string)
    requires |s| <= 3 && Bytes(s)
    ensures Octets(Group(s), |s|) == s
  {
    var g := Group(s);
    var b0 := if |s| > 0 then s[0] as int else 0;
    var b1 := if |s| > 1 then s[1] as int else 0;
    var b2 := if |s| > 2 then s[2] as int else 0;
    ThreeBytes(g, b0, b1, b2);
    hide Group;
    assert forall k :: 0 <= k < |s| ==> Octets(g, |s|)[k] == s[k];
  }

  lemma Recombine(g: nat, n: nat)
    requires g < 0x100_0000 && 2 <= n <= 4 && (n == 2 ==> g % 0x1000 == 0) && (n == 3 ==> g % 0x40 == 0)
    ensures Six(g, 0) * 0x4_0000 + Six(g, 1) * 0x1000 + (if n > 2 then Six(g, 2) * 0x40 else 0)
            + (if n > 3 then Six(g, 3) else 0) == g
  {
  }

  lemma {:induction false} NoStop(t: string, u: string)
    requires '=' !in t && (u == "" || u[0] == '=')
    ensures Stop(t + u, true) == t
  {
    if t == "" {
      assert t + u == u;
    } else {
      assert (t + u)[1..] == t[1..] + u;
      NoStop(t[1..], u);
    }
  }

  /** Decoding the encoding gives the text back, for every block of bytes. */
  lemma EncodeDecode(s: string)
    requires Bytes(s)
    ensures Decoded(Stop(Encoded(s), true)) == Some(s)
  {
    var t, pad := Unpadded(s);
    NoStop(t, pad);
  }

  /** The encoding without its padding. */
  lemma {:induction false} Unpadded(s: string) returns (t: string, pad: string)
    requires Bytes(s)
    ensures Encoded(s) == t + pad && (pad == "" || pad[0] == '=')
    ensures '=' !in t && Decoded(t) == Some(s)
  {
    if s == "" {
      t, pad := "", "";
    } else if |s| < 3 {
      t, pad := LastGroup(s);
    } else {
      assert s == s[..3] + s[3..];
      t, pad := Unpadded(s[3..]);
      t := MoreGroups(s[..3], s[3..], t, pad);
    }
  }

  lemma MoreGroups(head: string, tail: string, u: string, pad: string) returns (t: string)
    requires |head| == 3 && Bytes(head) && Bytes(tail)
    requires Encoded(tail) == u + pad && '=' !in u && Decoded(u) == Some(tail)
    ensures Bytes(head + tail) && Encoded(head + tail) == t + pad && '=' !in t && Decoded(t) == Some(head + tail)
  {
    hide *;
    var first := Letters(Group(head), 4);
    BitsOfLetters(head, 4);
    EncodeMore(head, tail);
    DecodeMore(first, u);
    t := first + u;
    assert first + (u + pad) == t + pad;
  }

  lemma EncodeMore(head: string, tail: string)
    requires |head| == 3 && Bytes(head) && Bytes(tail)
    ensures Bytes(head + tail) && Encoded(head + tail) == Letters(Group(head), 4) + Encoded(tail)
  {
    assert (head + tail)[..3] == head && (head + tail)[3..] == tail && Pad(0) == "";
    assert Letters(Group(head), 4) + "" == Letters(Group(head), 4);
  }

  lemma LastGroup(s: string) returns (t: string, pad: string)
    requires Bytes(s) && 1 <= |s| <= 2
    ensures Encoded(s) == t + pad && pad != "" && pad[0] == '='
    ensures '=' !in t && Decoded(t) == Some(s)
  {
    var n := |s| + 1;
    BitsOfLetters(s, n);
    assert s[..|s|] == s && s[|s|..] == "";
    t, pad := Letters(Group(s), n), Pad(3 - |s|);
    assert Encoded(s) == t + pad + "";
    hide Group, Bits, Octets, Letters, Pad, Encoded;
    assert t[..n] == t && t[n..] == "";
    assert Octets(Bits(t), n - 1) + "" == s;
  }

  lemma DecodeMore(first: string, t: string)
    requires |first| == 4 && InAlphabet(first) && Decoded(t).Some?
    ensures Decoded(first + t) == Some(Octets(Bits(first), 3) + Decoded(t).value)
  {
    assert (first + t)[..4] == first && (first + t)[4..] == t;
  }

  // ---------------------------------------------------------------- the block functions

  lemma EncodeStep(s: string, at: nat, n: nat)
    requires Bytes(s) && at < |s| && n == if |s| - at < 3 then |s| - at else 3
    ensures Encoded(s[at..]) == Letters(Group(s[at..at + n]), n + 1) + Pad(3 - n) + Encoded(s[at + n..])
  {
    assert s[at..][..n] == s[at..at + n] && s[at..][n..] == s[at + n..];
  }

  lemma EncodedEmpty()
    ensures Encoded("") == ""
  {
  }

  /** websEncode64Block on a string and its length.  The buffer of `2 * len + 1` is enough, and the
      guard on it in the inner loop never cuts a group short. */
  method Encode64Block(s: string) returns (buffer: array<char>)
    requires CString(s) && |s| != 1
    ensures TextIn(buffer, Encoded(s))
  {
    hide Encoded, Group, Letters, Pad;
    var size := 2 * |s|;
    EncodedLength(s);
    buffer := new char[size + 1];
    var bp: nat, at: nat := 0, 0;
    buffer[bp] := '\0';
    ghost var whole := Encoded(s);
    assert s[0..] == s && buffer[..bp] == "";
    while at < |s|
      invariant at <= |s| && bp < buffer.Length && buffer[bp] == '\0'
      invariant buffer[..bp] + Encoded(s[at..]) == whole
      decreases |s| - at
    {
      bp, at := EncodeGroup(buffer, bp, s, at, size, whole);
    }
    EncodedEmpty();
    assert s[at..] == "" && buffer[..bp] + "" == buffer[..bp];
  }

  /** One round: up to three bytes, the letters for them and the padding. */
  method EncodeGroup(buffer: array<char>, bp: nat, s: string, at: nat, size: nat, ghost whole: string)
    returns (bp': nat, at': nat)
    requires CString(s) && at < |s| && |whole| <= size < buffer.Length && bp < buffer.Length
    requires buffer[..bp] + Encoded(s[at..]) == whole
    modifies buffer
    ensures at < at' <= |s| && bp' < buffer.Length && buffer[bp'] == '\0'
    ensures buffer[..bp'] + Encoded(s[at'..]) == whole
  {
    hide Encoded, Group, Letters, Pad;
    ghost var done, n := buffer[..bp], if |s| - at < 3 then |s| - at else 3;
    ghost var letters, pad, rest := Letters(Group(s[at..at + n]), n + 1), Pad(3 - n), Encoded(s[at + n..]);
    EncodeStep(s, at, n);
    Assoc(done, letters, pad, rest);
    assert |done| + |letters| + |pad| <= size;
    var shiftbuf, j := ReadBytes(s, at);
    at' := at + (3 - j);
    bp' := PutLetters(buffer, bp, shiftbuf, j, size);
    bp' := PutPad(buffer, bp', j);
  }

  lemma Assoc(a: string, b: string, c: string, d: string)
    ensures a + (b + c + d) == a + b + c + d
  {
  }

  /** `1 << (8 * j)`. */
  function Byte(j: nat): nat
    requires j <= 2
  {
    if j == 2 then 0x1_0000 else if j == 1 then 0x100 else 1
  }

  /** Up to three bytes into the shift buffer; `j` is how many are missing. */
  method ReadBytes(s: string, at: nat) returns (shiftbuf: nat, j: nat)
    requires Bytes(s) && at < |s|
    ensures j == 3 - (if |s| - at < 3 then |s| - at else 3) && shiftbuf == Group(s[at..at + (3 - j)])
  {
    shiftbuf := 0;
    var i := 2;
    ghost var k := at;
    var p := at;
    while i >= 0 && p < |s|
      invariant -1 <= i <= 2 && p == at + 2 - i <= |s|
      invariant shiftbuf == Group(s[at..p])
    {
      shiftbuf := shiftbuf + s[p] as int * Byte(i);
      p := p + 1;
      i := i - 1;
    }
    j := i + 1;
  }

  /** The letters of a group, and no more than the buffer has room for. */
  method PutLetters(buffer: array<char>, at: nat, shiftbuf: nat, j: nat, size: nat) returns (bp: nat)
    requires j <= 2 && at + 4 - j <= size < buffer.Length
    modifies buffer
    ensures bp == at + 4 - j && buffer[..bp] == old(buffer[..at]) + Letters(shiftbuf, 4 - j)
  {
    bp := at;
    var i := j;
    assert Letters(shiftbuf, 0) == "";
    while i < 4 && bp < size
      invariant j <= i <= 4 && bp == at + i - j
      invariant buffer[..bp] == old(buffer[..at]) + Letters(shiftbuf, i - j)
    {
      assert Letters(shiftbuf, i - j + 1) == Letters(shiftbuf, i - j) + [ENCODE_MAP[Six(shiftbuf, i - j)]];
      buffer[bp] := ENCODE_MAP[Six(shiftbuf, i - j)];
      bp := bp + 1;
      i := i + 1;
    }
  }

  method PutPad(buffer: array<char>, at: nat, n: nat) returns (bp: nat)
    requires at + n < buffer.Length
    modifies buffer
    ensures bp == at + n && buffer[..bp] == old(buffer[..at]) + Pad(n) && buffer[bp] == '\0'
  {
    bp := at;
    for j := 0 to n
      invariant bp == at + j && buffer[..bp] == old(buffer[..at]) + Pad(j)
    {
      buffer[bp] := '=';
      bp := bp + 1;
    }
    buffer[bp] := '\0';
  }

  // ---------------------------------------------------------------- decoding

  lemma {:induction false} StopsAt(s: string, tokeq: bool)
    ensures var t := Stop(s, tokeq);
            && t <= s && (tokeq ==> '=' !in t)
            && (|t| == |s| || (tokeq && s[|t|] == '='))
  {
    if s != "" && !(tokeq && s[0] == '=') {
      StopsAt(s[1..], tokeq);
      var t := Stop(s[1..], tokeq);
      assert s[1..][|t|..] == s[1 + |t|..];
      assert [s[0]] + t <= [s[0]] + s[1..] == s;
    }
  }

  function Prepend(done: string, r: Option<string>): Option<string> {
    match r
    case Some(rest) => Some(done + rest)
    case None => None
  }

  /** websDecode64Block.  `ok` is false where it returns no buffer.  The assertion in its loop holds
      for every input. */
  method Decode64Block(s: string, tokeq: bool) returns (ok: bool, buffer: array<char>, len: nat)
    requires CString(s)
    ensures ok <==> Decoded(Stop(s, tokeq)).Some?
    ensures ok ==> TextIn(buffer, Decoded(Stop(s, tokeq)).value) && len == |Decoded(Stop(s, tokeq)).value|
  {
    hide Stop, Decoded, Bits, Octets, Prepend, InAlphabet;
    ghost var t := Stop(s, tokeq);
    StopsAt(s, tokeq);
    var size := |s|;
    buffer := new char[size + 1];
    var bp: nat, at: nat := 0, 0;
    buffer[bp] := '\0';
    assert t[0..] == t && buffer[..bp] == "";
    PrependNothing(Decoded(t));
    while at < |s| && !(tokeq && s[at] == '=')
      invariant bp <= at <= |t| && buffer.Length == size + 1 && buffer[bp] == '\0'
      invariant Decoded(t) == Prepend(buffer[..bp], Decoded(t[at..]))
      decreases |s| - at
    {
      ghost var n := if |t| - at < 4 then |t| - at else 4;
      DecodeStep(t, at, n, buffer[..bp]);
      var good, bitBuf, i := ReadLetters(s, at, tokeq, t);
      if !good {
        return false, buffer, 0;
      }
      at := at + i;
      i := i - 1;
      assert bp + i < size;
      bp := PutBytes(buffer, bp, bitBuf, i);
    }
    DecodedEmpty();
    assert t[at..] == "" && buffer[..bp] + "" == buffer[..bp];
    PrependEmpty(buffer[..bp]);
    return true, buffer, bp;
  }

  lemma PrependEmpty(done: string)
    ensures Prepend(done, Some("")) == Some(done)
  {
    assert done + "" == done;
  }

  lemma PrependNothing(r: Option<string>)
    ensures Prepend("", r) == r
  {
    if r.Some? {
      assert "" + r.value == r.value;
    }
  }

  lemma DecodedEmpty()
    ensures Decoded("") == Some("")
  {
  }

  lemma DecodeStep(t: string, at: nat, n: nat, done: string)
    requires at < |t| && n == (if |t| - at < 4 then |t| - at else 4)
    ensures var g := t[at..at + n];
            Prepend(done, Decoded(t[at..]))
            == if InAlphabet(g) then Prepend(done + Octets(Bits(g), n - 1), Decoded(t[at + n..])) else None
  {
    var g, u := t[at..at + n], t[at..];
    assert u[..n] == g && u[n..] == t[at + n..];
    assert Decoded(u) == if InAlphabet(g) then Prepend(Octets(Bits(g), n - 1), Decoded(u[n..])) else None;
    hide Decoded, Prepend;
    if InAlphabet(g) {
      PrependTwice(done, Octets(Bits(g), n - 1), Decoded(u[n..]));
    }
  }

  lemma PrependTwice(a: string, b: string, r: Option<string>)
    ensures Prepend(a, Prepend(b, r)) == Prepend(a + b, r)
  {
    if r.Some? {
      assert a + (b + r.value) == a + b + r.value;
    }
  }

  /** `1 << shift` for the shift of the `i`-th letter. */
  function Sixth(i: nat): nat
    requires i <= 3
  {
    if i == 0 then 0x4_0000 else if i == 1 then 0x1000 else if i == 2 then 0x40 else 1
  }

  /** Up to four letters into the bit buffer. */
  method ReadLetters(s: string, at: nat, tokeq: bool, ghost t: string) returns (good: bool, bitBuf: nat, i: nat)
    requires t <= s && (tokeq ==> '=' !in t) && (|t| == |s| || (tokeq && s[|t|] == '=')) && at < |t|
    ensures var n := if |t| - at < 4 then |t| - at else 4;
            && (good <==> InAlphabet(t[at..at + n]))
            && (good ==> i == n && bitBuf == Bits(t[at..at + n]))
  {
    bitBuf, i := 0, 0;
    while i < 4 && at + i < |s| && !(tokeq && s[at + i] == '=')
      invariant i <= 4 && at + i <= |t| && InAlphabet(t[at..at + i]) && bitBuf == Bits(t[at..at + i])
    {
      assert s[at + i] == t[at + i];
      var c := DecodeMap(s[at + i]);
      if c == -1 {
        assert t[at..at + (if |t| - at < 4 then |t| - at else 4)][i] == t[at + i];
        return false, bitBuf, i;
      }
      assert t[at..at + i + 1] == t[at..at + i] + [t[at + i]];
      bitBuf := bitBuf + c * Sixth(i);
      i := i + 1;
    }
    return true, bitBuf, i;
  }

  lemma OctetNext(g: nat, j: nat)
    requires g < 0x100_0000 && j < 3
    ensures Octets(g, j + 1) == Octets(g, j) + [(g / Byte(2 - j) % 0x100) as char]
  {
    assert g / 0x1_0000 < 0x100;
    var all := [(g / 0x1_0000) as char, (g / 0x100 % 0x100) as char, (g % 0x100) as char];
    assert all[j] == (g / Byte(2 - j) % 0x100) as char by {
      if j == 0 {
      } else if j == 1 {
      } else {
        assert g / 1 == g;
      }
    }
    assert all[..j + 1] == all[..j] + [all[j]];
  }

  /** The first `n` bytes of a group. */
  method PutBytes(buffer: array<char>, at: nat, bitBuf: nat, n: nat) returns (bp: nat)
    requires bitBuf < 0x100_0000 && n <= 3 && at + n < buffer.Length
    modifies buffer
    ensures bp == at + n && buffer[..bp] == old(buffer[..at]) + Octets(bitBuf, n) && buffer[bp] == '\0'
  {
    bp := at;
    assert Octets(bitBuf, 0) == "";
    for j := 0 to n
      invariant bp == at + j && buffer[..bp] == old(buffer[..at]) + Octets(bitBuf, j)
    {
      OctetNext(bitBuf, j);
      buffer[bp] := (bitBuf / Byte(2 - j) % 0x100) as char;
      bp := bp + 1;
    }
    buffer[bp] := '\0';
  }

  lemma {:induction false} EncodedIsCString(s: string)
    requires Bytes(s)
    ensures CString(Encoded(s))
  {
    if s != "" {
      var n := if |s| < 3 then |s| else 3;
      EncodedIsCString(s[n..]);
      LettersAreChars(Group(s[..n]), n + 1);
    }
  }

  lemma LettersAreChars(g: nat, n: nat)
    requires n <= 4
    ensures CString(Letters(g, n))
  {
    hide Six;
    var l := Letters(g, n);
    forall k | 0 <= k < |l|
      ensures 0 < l[k] as int < 256
    {
      MapsInverse(Six(g, k));
    }
  }

  /** websDecode64 of websEncode64 of any string but a one-character one. */
  method RoundTrip(s: string) returns (ok: bool, buffer: array<char>)
    requires CString(s) && |s| != 1
    ensures ok && TextIn(buffer, s)
  {
    EncodeDecode(s);
    EncodedIsCString(s);
    var code := Encode64Block(s);
    var n := 0;
    var len;
    ok, buffer, len := Decode64Block(code[..|Encoded(s)|], true);
  }
}

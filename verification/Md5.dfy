/** The MD5 of crypt.c (RFC 1321): how blocks are gathered from pieces, counted and padded, around the
    compression function of Md5Rounds. */
module Md5 {
  import opened Ascii
  import opened Md5Rounds
  import opened Powers

  type Compression = (State, Block) -> State

  const INIT := State(0x67452301, 0xefcdab89, 0x98badcfe, 0x10325476)

  // ---------------------------------------------------------------- what is to be computed

  /** The words in the order of RFC 1321, low byte first. */
  function LittleEndian(words: seq<Word>): (bytes: seq<byte>)
    ensures |bytes| == 4 * |words|
  {
    if words == [] then [] else FourOf(words[0]) + LittleEndian(words[1..])
  }

  function FourOf(w: Word): (bytes: seq<byte>)
    ensures |bytes| == 4
  {
    [w % 256, w / 0x100 % 256, w / 0x1_0000 % 256, w / 0x100_0000 % 256]
  }

  function Zeros(n: nat): (z: seq<byte>)
    ensures |z| == n
  {
    seq(n, _ => 0)
  }

  /** The length in bits as a 64-bit number, low word first: step 2 of RFC 1321. */
  function Bits(length: nat): seq<Word> {
    [8 * length % WORD, 8 * length / WORD % WORD]
  }

  /** The padded message: a 1 bit, zero bits up to 448 modulo 512, then the length in bits: steps 1
      and 2 of RFC 1321, sections 3.1 and 3.2. */
  function Padded(m: seq<byte>): seq<byte> {
    m + ([0x80] + Zeros((119 - |m| % 64) % 64)) + LittleEndian(Bits(|m|))
  }

  /** The blocks of a message taken into the state one after the other: section 3.4. */
  function Fold(f: Compression, s: State, m: seq<byte>): State
    requires |m| % 64 == 0
    decreases |m|
  {
    if m == [] then s else Fold(f, f(s, m[..64]), m[64..])
  }

  function Words(s: State): seq<Word> {
    [s.a, s.b, s.c, s.d]
  }

  /** The state at the start, byte by byte: section 3.3 of RFC 1321. */
  lemma InitBytes()
    ensures LittleEndian(Words(INIT)) == [0x01, 0x23, 0x45, 0x67, 0x89, 0xab, 0xcd, 0xef,
                                          0xfe, 0xdc, 0xba, 0x98, 0x76, 0x54, 0x32, 0x10]
  {
    FourWords(INIT);
    InitWords();
    hide FourOf, LittleEndian;
  }

  lemma InitWords()
    ensures FourOf(INIT.a) == [0x01, 0x23, 0x45, 0x67] && FourOf(INIT.b) == [0x89, 0xab, 0xcd, 0xef]
    ensures FourOf(INIT.c) == [0xfe, 0xdc, 0xba, 0x98] && FourOf(INIT.d) == [0x76, 0x54, 0x32, 0x10]
  {
  }

  lemma FourWords(s: State)
    ensures LittleEndian(Words(s)) == FourOf(s.a) + (FourOf(s.b) + (FourOf(s.c) + FourOf(s.d)))
  {
    hide FourOf;
    OneWord(s.a, [s.b, s.c, s.d]);
    OneWord(s.b, [s.c, s.d]);
    OneWord(s.c, [s.d]);
    OneWord(s.d, []);
    assert LittleEndian([]) == [];
    hide LittleEndian;
    assert FourOf(s.d) + [] == FourOf(s.d);
    assert Words(s) == [s.a] + [s.b, s.c, s.d] && [s.b, s.c, s.d] == [s.b] + [s.c, s.d];
    assert [s.c, s.d] == [s.c] + [s.d] && [s.d] == [s.d] + [];
  }

  lemma OneWord(w: Word, rest: seq<Word>)
    ensures LittleEndian([w] + rest) == FourOf(w) + LittleEndian(rest)
  {
    hide FourOf;
    assert ([w] + rest)[1..] == rest;
  }

  function Power256(k: nat): (p: nat)
    ensures p > 0
  {
    if k == 0 then 1 else 256 * Power256(k - 1)
  }

  /** Byte `k` of a word is the one that weighs 256^k. */
  lemma {:induction false} LittleEndianBytes(words: seq<Word>, i: nat, k: nat)
    requires i < |words| && k < 4
    ensures LittleEndian(words)[4 * i + k] == words[i] / Power256(k) % 256
  {
    if i == 0 {
      assert Power256(1) == 256 && Power256(2) == 0x1_0000 && Power256(3) == 0x100_0000;
    } else {
      LittleEndianBytes(words[1..], i - 1, k);
      assert LittleEndian(words)[4 * i + k] == LittleEndian(words[1..])[4 * (i - 1) + k];
    }
  }

  /** The padded message, byte by byte: the message, 80, zeros, and in the last eight bytes eight times its
      length, of which byte `k` weighs 256^k. */
  lemma PaddedBytes(m: seq<byte>, k: nat)
    requires k < 8
    ensures var (p, n) := (Padded(m), |m|);
            && n + 9 <= |p| && |p| % 64 == 0 && p[..n] == m && p[n] == 0x80
            && (forall i :: n < i < |p| - 8 ==> p[i] == 0)
            && p[|p| - 8 + k] == 8 * n / Power256(k) % 256
  {
    PaddedWhole(m);
    var n := |m|;
    var (i, j) := if k < 4 then (0, k) else (1, k - 4);
    LittleEndianBytes(Bits(n), i, j);
    BitsByte(8 * n, k);
    hide LittleEndian, Power256;
    assert LittleEndian(Bits(n))[k] == LittleEndian(Bits(n))[4 * i + j];
  }

  lemma BitsByte(x: nat, k: nat)
    requires k < 8
    ensures (if k < 4 then x % WORD / Power256(k) else x / WORD % WORD / Power256(k - 4)) % 256
         == x / Power256(k) % 256
  {
    var y := if k < 4 then x else x / WORD;
    var j := if k < 4 then k else k - 4;
    assert Power256(1) == 256 && Power256(2) == 0x1_0000 && Power256(3) == 0x100_0000 && Power256(4) == WORD;
    LowByte(y, j);
    if k >= 4 {
      assert Power256(5) == 256 * WORD && Power256(6) == 0x1_0000 * WORD && Power256(7) == 0x100_0000 * WORD;
      DivDiv(x, j);
    }
  }

  lemma LowByte(y: nat, j: nat)
    requires j < 4
    ensures y % WORD / Power256(j) % 256 == y / Power256(j) % 256
  {
    assert Power256(0) == 1 && Power256(1) == 256 && Power256(2) == 0x1_0000 && Power256(3) == 0x100_0000;
    var q, r := y / WORD, y % WORD;
    assert y == WORD * q + r;
    match j
    case 0 => PartOf(y, 1, 0x100_0000, q, r);
    case 1 => PartOf(y, 0x100, 0x1_0000, q, r);
    case 2 => PartOf(y, 0x1_0000, 0x100, q, r);
    case 3 => PartOf(y, 0x100_0000, 1, q, r);
  }

  lemma PartOf(y: nat, p: nat, c: nat, q: nat, r: nat)
    requires p > 0 && y == p * (256 * (c * q)) + r
    ensures y / p % 256 == r / p % 256
  {
    var t := c * q;
    assert r == p * (r / p) + r % p;
    assert p * (256 * t + r / p) == p * (256 * t) + p * (r / p);
    DivIs(y, p, 256 * t + r / p, r % p);
    Wraps(t, r / p);
  }

  lemma Wraps(t: nat, x: nat)
    ensures (256 * t + x) % 256 == x % 256
  {
  }

  lemma DivDiv(x: nat, j: nat)
    requires j < 4
    ensures x / WORD / Power256(j) == x / Power256(j + 4)
  {
    assert Power256(0) == 1 && Power256(1) == 256 && Power256(2) == 0x1_0000 && Power256(3) == 0x100_0000;
    assert Power256(4) == WORD && Power256(5) == 256 * WORD && Power256(6) == 0x1_0000 * WORD;
    assert Power256(7) == 0x100_0000 * WORD;
  }

  /** The digest of a message. */
  function Digest(m: seq<byte>): seq<byte> {
    PaddedWhole(m);
    LittleEndian(Words(Fold(Compress, INIT, Padded(m))))
  }

  lemma PaddedWhole(m: seq<byte>)
    ensures |Padded(m)| % 64 == 0 && |m| + 9 <= |Padded(m)| < |m| + 73
  {
    assert |LittleEndian(Bits(|m|))| == 8;
    hide LittleEndian, Bits;
    PadLength(|m|);
  }

  lemma PadLength(n: nat)
    ensures (n + 9 + (119 - n % 64) % 64) % 64 == 0
  {
    var q, r := n / 64, n % 64;
    assert n == 64 * q + r;
    if r < 56 {
      assert (119 - r) % 64 == 55 - r;
    } else {
      assert (119 - r) % 64 == 119 - r;
    }
  }

  lemma {:induction false} FoldAppend(f: Compression, s: State, a: seq<byte>, b: seq<byte>)
    requires |a| % 64 == 0 && |b| % 64 == 0
    ensures |a + b| % 64 == 0 && Fold(f, s, a + b) == Fold(f, Fold(f, s, a), b)
    decreases |a|
  {
    if a == [] {
      assert a + b == b;
    } else {
      assert (a + b)[..64] == a[..64] && (a + b)[64..] == a[64..] + b;
      FoldAppend(f, f(s, a[..64]), a[64..], b);
    }
  }

  /** One block more is one compression more; of no blocks the state stays. */
  lemma FoldOne(f: Compression, s: State, a: seq<byte>, block: Block)
    requires |a| % 64 == 0
    ensures |a + block| % 64 == 0 && Fold(f, s, a + block) == f(Fold(f, s, a), block)
    ensures Fold(f, s, []) == s
  {
    FoldAppend(f, s, a, block);
    assert block[..64] == block && block[64..] == [];
    assert Fold(f, f(Fold(f, s, a), block), []) == f(Fold(f, s, a), block);
  }

  lemma {:induction false} DecodeEncode(words: seq<Word>)
    ensures FromLittleEndian(LittleEndian(words)) == words
  {
    if words != [] {
      var rest := LittleEndian(words[1..]);
      DecodeEncode(words[1..]);
      assert LittleEndian(words)[4..] == rest;
      FourBytes(words[0]);
    }
  }

  lemma FourBytes(w: Word)
    ensures w == w % 256 + 0x100 * (w / 0x100 % 256) + 0x1_0000 * (w / 0x1_0000 % 256)
                 + 0x100_0000 * (w / 0x100_0000 % 256)
  {
    assert w / 0x100 / 0x100 == w / 0x1_0000 && w / 0x1_0000 / 0x100 == w / 0x100_0000;
  }

  /** Different messages, of lengths whose bit count fits 64 bits, are padded differently. */
  lemma PaddedInjective(m: seq<byte>, k: seq<byte>)
    requires 8 * |m| < WORD * WORD && 8 * |k| < WORD * WORD && Padded(m) == Padded(k)
    ensures m == k
  {
    var b, c := LittleEndian(Bits(|m|)), LittleEndian(Bits(|k|));
    SameEnds(m + ([0x80] + Zeros((119 - |m| % 64) % 64)), b, k + ([0x80] + Zeros((119 - |k| % 64) % 64)), c);
    BitsInjective(|m|, |k|);
    assert m == Padded(m)[..|m|] == Padded(k)[..|k|] == k;
  }

  lemma SameEnds(a: seq<byte>, b: seq<byte>, c: seq<byte>, d: seq<byte>)
    requires a + b == c + d && |b| == |d|
    ensures b == d
  {
    assert b == (a + b)[|a|..] && d == (c + d)[|c|..];
  }

  lemma BitsInjective(n: nat, k: nat)
    requires 8 * n < WORD * WORD && 8 * k < WORD * WORD && LittleEndian(Bits(n)) == LittleEndian(Bits(k))
    ensures n == k
  {
    DecodeEncode(Bits(n));
    DecodeEncode(Bits(k));
    hide LittleEndian, FromLittleEndian;
    assert Bits(n)[0] == Bits(k)[0] && Bits(n)[1] == Bits(k)[1];
    assert 8 * n == Bits(n)[0] + WORD * Bits(n)[1];
    assert 8 * k == Bits(k)[0] + WORD * Bits(k)[1];
  }

  // ---------------------------------------------------------------- the two-word counter

  /** The 64-bit value of the two words. */
  function Count(lo: Word, hi: Word): nat {
    lo + WORD * hi
  }

  /** Adding a length below 2^32 bytes, in bits, with the carry found by comparison. */
  lemma CountAdds(lo: Word, hi: Word, n: nat, len: nat)
    requires len < WORD && Count(lo, hi) == 8 * n % (WORD * WORD)
    ensures var shifted := len * 8 % WORD;
            var lo' := (lo + shifted) % WORD;
            var hi' := (hi + if lo' < shifted then 1 else 0) % WORD;
            Count(lo', (hi' + len / 0x2000_0000) % WORD) == 8 * (n + len) % (WORD * WORD)
  {
    var shifted: Word := len * 8 % WORD;
    var lo': Word := (lo + shifted) % WORD;
    var carry: Word := if lo' < shifted then 1 else 0;
    var hi': Word := (hi + carry) % WORD;
    var high: Word := len / 0x2000_0000;
    var hi'': Word := (hi' + high) % WORD;
    var q := 8 * n / (WORD * WORD);
    assert 8 * n == lo + WORD * hi + WORD * WORD * q;
    Shift(len, shifted, high);
    Carry(lo, shifted, lo', carry);
    var h := hi + carry + high;
    var k := Wrap(hi + carry, hi', high, hi'');
    assert 8 * (n + len) == lo' + WORD * hi'' + WORD * WORD * (q + k);
    Residue(lo' + WORD * hi'', q + k);
  }

  lemma Shift(len: nat, shifted: Word, high: Word)
    requires shifted == len * 8 % WORD && high == len / 0x2000_0000
    ensures 8 * len == WORD * high + shifted
  {
    var r := len % 0x2000_0000;
    assert len == 0x2000_0000 * high + r;
    assert len * 8 == WORD * high + 8 * r;
  }

  lemma Carry(lo: Word, shifted: Word, lo': Word, carry: Word)
    requires lo' == (lo + shifted) % WORD && carry == (if lo' < shifted then 1 else 0)
    ensures lo + shifted == lo' + WORD * carry
  {
    if lo + shifted < WORD {
      assert lo' == lo + shifted;
    } else {
      assert lo' == lo + shifted - WORD;
    }
  }

  lemma Wrap(h: nat, hi': Word, high: Word, hi'': Word) returns (k: nat)
    requires hi' == h % WORD && hi'' == (hi' + high) % WORD
    ensures h + high == hi'' + WORD * k
  {
    k := h / WORD + (hi' + high) / WORD;
  }

  lemma Residue(r: nat, k: nat)
    requires r < WORD * WORD
    ensures (r + WORD * WORD * k) % (WORD * WORD) == r
  {
  }

  lemma CountLow(lo: Word, hi: Word, n: nat)
    requires Count(lo, hi) == 8 * n % (WORD * WORD)
    ensures lo / 8 % 64 == n % 64 && [lo, hi] == Bits(n)
  {
    var q := 8 * n / (WORD * WORD);
    var x := hi + WORD * q;
    assert 8 * n == lo + WORD * x;
    assert 8 * n / WORD == x && x % WORD == hi;
    LowIndex(lo, x, n);
  }

  lemma LowIndex(lo: Word, x: nat, n: nat)
    requires 8 * n == lo + WORD * x
    ensures lo / 8 % 64 == n % 64
  {
    assert n == lo / 8 + 64 * (0x80_0000 * x);
  }

  // ---------------------------------------------------------------- the context

  /** memcpy of `src` into the buffer. */
  method MemCpy(dst: array<byte>, at: nat, src: seq<byte>)
    requires at + |src| <= dst.Length
    modifies dst
    ensures dst[..at + |src|] == old(dst[..at]) + src
  {
    for i := 0 to |src|
      invariant dst[..at + i] == old(dst[..at]) + src[..i]
    {
      dst[at + i] := src[i];
    }
  }

  class Context {
    var state: State
    var count0: Word
    var count1: Word
    const buffer: array<byte>

    /** The message so far: whole blocks, and what is kept in the buffer. */
    ghost var blocks: seq<byte>
    ghost var tail: seq<byte>

    ghost function Message(): seq<byte>
      reads this
    {
      blocks + tail
    }

    ghost predicate Valid()
      reads this, buffer
    {
      Gathered() && Count(count0, count1) == 8 * |Message()| % (WORD * WORD)
    }

    ghost predicate Gathered()
      reads this, buffer
    {
      && buffer.Length == 64 && |blocks| % 64 == 0 && |tail| < 64
      && state == Fold(Compress, INIT, blocks) && buffer[..|tail|] == tail
    }

    /** initMD5. */
    constructor ()
      ensures Valid() && fresh(buffer) && Message() == []
      ensures LittleEndian(Words(state)) == [0x01, 0x23, 0x45, 0x67, 0x89, 0xab, 0xcd, 0xef,
                                             0xfe, 0xdc, 0xba, 0x98, 0x76, 0x54, 0x32, 0x10]
    {
      InitBytes();
      state, count0, count1, buffer := INIT, 0, 0, new byte[64];
      blocks, tail := [], [];
    }

    /** update. */
    method Update(input: seq<byte>)
      requires Valid() && |input| < WORD - 63
      modifies this, buffer
      ensures Valid() && Message() == old(Message()) + input
    {
      hide Fold, Gathered;
      CountLow(count0, count1, |Message()|);
      var index := count0 / 8 % 64;
      assert index == |tail| by {
        IndexIsTail();
      }
      AddCount(|Message()|, |input|);
      Gather(input, index);
    }

    lemma IndexIsTail()
      requires Gathered()
      ensures |Message()| % 64 == |tail|
    {
      hide Fold;
    }

    /** The counter, in bits. */
    method AddCount(ghost n: nat, len: nat)
      requires Gathered() && len < WORD && Count(count0, count1) == 8 * n % (WORD * WORD)
      modifies this`count0, this`count1
      ensures Gathered() && Count(count0, count1) == 8 * (n + len) % (WORD * WORD)
    {
      hide Fold, Count;
      ghost var lo, hi := count0, count1;
      var shifted := len * 8 % WORD;
      count0 := (count0 + shifted) % WORD;
      if count0 < shifted {
        count1 := (count1 + 1) % WORD;
      }
      count1 := (count1 + len / 0x2000_0000) % WORD;
      CountAdds(lo, hi, n, len);
    }

    /** The part of update that moves bytes: the buffer is filled up and taken, then whole blocks are
        taken straight from the input, then the rest is kept. */
    method Gather(input: seq<byte>, index: nat)
      requires Gathered() && index == |tail|
      modifies this`state, this`blocks, this`tail, buffer
      ensures Gathered() && Message() == old(Message()) + input
    {
      hide Fold;
      var i := 0;
      var at := index;
      var partLen := 64 - index;
      if |input| >= partLen {
        FillBlock(input[..partLen]);
        i := partLen;
        while i + 63 < |input|
          invariant i <= |input| && Gathered() && tail == [] && blocks == old(Message()) + input[..i]
        {
          TakeBlock(input[i..i + 64]);
          Extend(old(Message()), input, i, 64);
          i := i + 64;
        }
        at := 0;
      }
      ghost var before := Message();
      KeepRest(input[i..], at);
      Extend(old(Message()), input, i, |input| - i);
      assert input[i..] == input[i..i + (|input| - i)] && input[..i + (|input| - i)] == input;
    }

    /** The buffer completed with the first bytes of the input. */
    method FillBlock(part: seq<byte>)
      requires Gathered() && |tail| + |part| == 64
      modifies this`state, this`blocks, this`tail, buffer
      ensures Gathered() && tail == [] && blocks == old(Message()) + part
    {
      hide Fold, Compress;
      MemCpy(buffer, 64 - |part|, part);
      assert buffer[..64] == tail + part == buffer[..];
      FoldOne(Compress, INIT, blocks, tail + part);
      state := Transform(state, buffer[..]);
      blocks, tail := blocks + (tail + part), [];
      assert old(blocks) + (old(tail) + part) == old(blocks) + old(tail) + part;
      assert buffer[..0] == [];
    }

    method TakeBlock(block: seq<byte>)
      requires Gathered() && tail == [] && |block| == 64
      modifies this`state, this`blocks
      ensures Gathered() && blocks == old(blocks) + block
    {
      hide Fold, Compress;
      FoldOne(Compress, INIT, blocks, block);
      state := Transform(state, block);
      blocks := blocks + block;
    }

    /** What does not fill a block stays in the buffer. */
    method KeepRest(rest: seq<byte>, at: nat)
      requires Gathered() && at == |tail| && |tail| + |rest| < 64
      modifies this`tail, buffer
      ensures Gathered() && Message() == old(Message()) + rest
    {
      hide Fold;
      MemCpy(buffer, at, rest);
      tail := tail + rest;
      assert blocks + (old(tail) + rest) == blocks + old(tail) + rest;
    }

    /** finalizeMD5: the padding and the length go through update like any input, and the state that
        results is written out; the context is wiped. */
    method Finalize() returns (digest: seq<byte>)
      requires Valid()
      modifies this, buffer
      ensures digest == Digest(old(Message()))
    {
      ghost var m := Message();
      Pad();
      digest := WriteDigest(m);
      Wipe();
    }

    /** The padding, and then the length before it. */
    method Pad()
      requires Valid()
      modifies this, buffer
      ensures Valid() && Message() == Padded(old(Message()))
    {
      hide Fold, Gathered, Count, LittleEndian;
      ghost var n := |Message()|;
      CountLow(count0, count1, n);
      var bits := Encode([count0, count1]);
      var index := count0 / 8 % 64;
      var padLen := if index < 56 then 56 - index else 120 - index;
      var padding := [0x80] + seq(63, _ => 0);
      assert padding[..padLen] == [0x80] + Zeros((119 - n % 64) % 64);
      Update(padding[..padLen]);
      Update(bits);
    }

    method WriteDigest(ghost m: seq<byte>) returns (digest: seq<byte>)
      requires Valid() && Message() == Padded(m)
      ensures digest == Digest(m)
    {
      PaddedWhole(m);
      IndexIsTail();
      hide Fold, Padded, LittleEndian;
      assert blocks + [] == blocks;
      digest := Encode(Words(state));
    }

    /** memset over the context. */
    method Wipe()
      modifies this, buffer
    {
      state, count0, count1 := State(0, 0, 0, 0), 0, 0;
      for i := 0 to buffer.Length {
        buffer[i] := 0;
      }
    }
  }

  /** encode. */
  method Encode(input: seq<Word>) returns (output: seq<byte>)
    ensures output == LittleEndian(input)
  {
    output := [];
    for i := 0 to |input|
      invariant output + LittleEndian(input[i..]) == LittleEndian(input)
    {
      var w := input[i];
      ghost var four := FourOf(w);
      assert LittleEndian(input[i..]) == four + LittleEndian(input[i + 1..]) by {
        assert input[i..][1..] == input[i + 1..];
      }
      assert output + (four + LittleEndian(input[i + 1..])) == output + four + LittleEndian(input[i + 1..]);
      output := output + [w % 256, w / 0x100 % 256, w / 0x1_0000 % 256, w / 0x100_0000 % 256];
    }
  }

  // ---------------------------------------------------------------- whole runs

  function Joined(pieces: seq<seq<byte>>): seq<byte> {
    if pieces == [] then [] else Joined(pieces[..|pieces| - 1]) + pieces[|pieces| - 1]
  }

  lemma JoinedMore(pieces: seq<seq<byte>>, i: nat)
    ensures Joined(pieces[..0]) == []
    ensures i < |pieces| ==> Joined(pieces[..i + 1]) == Joined(pieces[..i]) + pieces[i]
  {
    if i < |pieces| {
      assert pieces[..i + 1][..i] == pieces[..i];
    }
  }

  /** However a message is cut into pieces, the digest is the one of the whole. */
  method DigestPieces(pieces: seq<seq<byte>>) returns (digest: seq<byte>)
    requires forall i :: 0 <= i < |pieces| ==> |pieces[i]| < WORD - 63
    ensures digest == Digest(Joined(pieces))
  {
    hide Digest, Joined, Context.Message, Context.Valid;
    JoinedMore(pieces, 0);
    var context := new Context();
    for i := 0 to |pieces|
      invariant fresh(context) && fresh(context.buffer) && context.Valid()
      invariant context.Message() == Joined(pieces[..i])
    {
      context.Update(pieces[i]);
      JoinedMore(pieces, i);
    }
    assert pieces[..|pieces|] == pieces;
    digest := context.Finalize();
  }

  function HexBytes(bytes: seq<byte>): string {
    if bytes == [] then "" else [HEX[bytes[0] / 16], HEX[bytes[0] % 16]] + HexBytes(bytes[1..])
  }

  /** Two characters a byte: its high half and its low half, as a digit or one of the letters a to f. */
  lemma {:induction false} HexBytesAt(bytes: seq<byte>, i: nat)
    requires i < |bytes|
    ensures var (s, hi, lo) := (HexBytes(bytes), bytes[i] / 16, bytes[i] % 16);
            && |s| == 2 * |bytes|
            && s[2 * i] as int == (if hi < 10 then 48 + hi else 97 + (hi - 10))
            && s[2 * i + 1] as int == (if lo < 10 then 48 + lo else 97 + (lo - 10))
  {
    if i > 0 {
      HexBytesAt(bytes[1..], i - 1);
      assert HexBytes(bytes)[2 * i] == HexBytes(bytes[1..])[2 * (i - 1)];
      assert HexBytes(bytes)[2 * i + 1] == HexBytes(bytes[1..])[2 * (i - 1) + 1];
    } else {
      HexTable('0', bytes[0] / 16);
      HexTable('0', bytes[0] % 16);
      HexLength(bytes[1..]);
    }
  }

  lemma {:induction false} HexLength(bytes: seq<byte>)
    ensures |HexBytes(bytes)| == 2 * |bytes|
  {
    if bytes != [] {
      HexLength(bytes[1..]);
    }
  }

  /** strlen. */
  function Terminator(buf: seq<byte>): (n: nat)
    requires 0 in buf
    ensures n < |buf| && buf[n] == 0 && 0 !in buf[..n]
  {
    if buf[0] == 0 then 0
    else
      var n := 1 + Terminator(buf[1..]);
      assert buf[..n] == [buf[0]] + buf[1..][..n - 1];
      n
  }

  method StrLen(buf: seq<byte>) returns (n: nat)
    requires 0 in buf
    ensures n == Terminator(buf)
  {
    n := 0;
    assert buf[0..] == buf;
    while buf[n] != 0
      invariant n < |buf| && 0 in buf[n..] && n + Terminator(buf[n..]) == Terminator(buf)
      decreases |buf| - n
    {
      assert buf[n..][1..] == buf[n + 1..];
      n := n + 1;
    }
  }

  /** websMD5Block: the prefix and the digest in hex, of `length` bytes or, if that is negative, of
      those before the terminator. */
  method Md5Block(buf: seq<byte>, length: int, prefix: string) returns (str: string)
    requires length <= |buf| < WORD - 63 && (length < 0 ==> 0 in buf)
    ensures str == prefix + HexBytes(Digest(buf[..if length < 0 then Terminator(buf) else length]))
  {
    var n := length;
    if n < 0 {
      n := StrLen(buf);
    }
    var context := new Context();
    context.Update(buf[..n]);
    assert [] + buf[..n] == buf[..n];
    var hash := context.Finalize();
    var result := HexResult(hash);
    str := prefix + result;
  }

  method HexResult(hash: seq<byte>) returns (result: string)
    ensures result == HexBytes(hash)
  {
    result := "";
    assert hash[0..] == hash;
    for i := 0 to |hash|
      invariant result + HexBytes(hash[i..]) == HexBytes(hash)
    {
      assert hash[i..][1..] == hash[i + 1..];
      result := result + [HEX[hash[i] / 16]];
      result := result + [HEX[hash[i] % 16]];
    }
    assert result + "" == result;
  }

  lemma Extend(a: seq<byte>, input: seq<byte>, i: nat, n: nat)
    requires i + n <= |input|
    ensures a + input[..i] + input[i..i + n] == a + input[..i + n]
  {
  }
}

/** The chunked transfer coding of http.c, section 4.1 of RFC 7230: what its decoder takes for a
    size line, and what a stream of chunks means.  A chunk is introduced by one delimiter,
    "\r\nSIZE...\r\n", because the line end after the headers, or after the data of the chunk
    before, belongs to it. */
module ChunkText {
  import opened Ascii

  /** A `uint` holds less than this. */
  const UINT := 0x1_0000_0000

  /** A chunk size that a 32-bit `ssize` does not hold reads as negative. */
  const SSIZE := 0x8000_0000

  // ---------------------------------------------------------------- hextoi

  function HexRun(s: string, v: nat): (n: nat)
    requires v < UINT
    ensures n < UINT
  {
    if s != [] && HexDigit(s[0]) >= 0 then HexRun(s[1..], (v * 16 + HexDigit(s[0])) % UINT) else v
  }

  /** The text after an optional 0x. */
  function HexStart(s: string): string {
    if |s| >= 2 && s[0] == '0' && (s[1] == 'x' || s[1] == 'X') then s[2..] else s
  }

  function HexToI(s: string): (n: nat)
    ensures n < UINT
  {
    HexRun(HexStart(s), 0)
  }

  // ---------------------------------------------------------------- size lines

  function NewLine(s: string, from: nat): (i: nat)
    requires from <= |s|
    ensures from <= i <= |s|
    ensures forall j :: from <= j < i ==> s[j] != '\n'
    ensures i < |s| ==> s[i] == '\n'
    decreases |s| - from
  {
    if from == |s| || s[from] == '\n' then from else NewLine(s, from + 1)
  }

  /** What stands at the start of the unread bytes: too little to tell, nothing acceptable, or a
      delimiter of `len` bytes announcing `size` bytes of data; the last delimiter, of size 0,
      includes the line end that closes the stream. */
  datatype Delimiter = Short | Bad | Delimiter(len: nat, size: nat)

  /** The longest size line, with the line ends around it, that is accepted however it arrives. */
  const LINE_MAX := 80

  function Classify(s: string): (d: Delimiter)
    ensures d.Delimiter? ==> 0 < d.len <= |s|
  {
    if |s| < 5 then Short
    else
      var cp := NewLine(s, 2);
      if cp == |s| then (if cp < LINE_MAX then Short else Bad)
      else if s[0] != '\r' || s[1] != '\n' || s[cp - 1] != '\r' || HexDigit(s[2]) < 0 then Bad
      else
        var size := HexToI(s[2..]);
        if size >= SSIZE then Bad
        else if size > 0 then Delimiter(cp + 1, size)
        else if cp + 2 >= |s| then Short
        else if s[cp + 1] == '\r' && s[cp + 2] == '\n' then Delimiter(cp + 3, 0)
        else Bad
  }

  /** Where a decoder stands between two bytes. */
  datatype Phase = Start | Data(left: nat) | Eof

  /** The decoder as a function of the bytes it has consumed: the phase it reaches and the body
      bytes it delivers; a delimiter is consumed whole or not at all. */
  function Walk(p: Phase, used: string): (r: Progress)
    decreases |used|
  {
    if used == [] then At(p, "")
    else
      match p
      case Eof => Nowhere
      case Data(left) =>
        if left == 0 then Nowhere
        else if left > |used| then At(Data(left - |used|), used)
        else Deliver(used[..left], Walk(Start, used[left..]))
      case Start =>
        match Classify(used)
        case Short => Nowhere
        case Bad => Nowhere
        case Delimiter(len, size) => Walk(if size == 0 then Eof else Data(size), used[len..])
  }

  datatype Progress = At(phase: Phase, body: string) | Nowhere

  function Deliver(bytes: string, r: Progress): Progress {
    match r
    case At(p, body) => At(p, bytes + body)
    case Nowhere => Nowhere
  }

  // ---------------------------------------------------------------- consuming in steps

  lemma {:induction false} HexRunStops(s: string, t: string, v: nat, stop: nat)
    requires v < UINT && stop < |s| && HexDigit(s[stop]) < 0
    ensures HexRun(s + t, v) == HexRun(s, v)
  {
    if HexDigit(s[0]) >= 0 {
      assert (s + t)[1..] == s[1..] + t;
      HexRunStops(s[1..], t, (v * 16 + HexDigit(s[0])) % UINT, stop - 1);
    }
  }

  lemma HexToIStops(s: string, t: string, stop: nat)
    requires 2 <= stop < |s| && HexDigit(s[stop]) < 0
    ensures HexToI(s + t) == HexToI(s)
  {
    if HexStart(s) == s {
      HexRunStops(s, t, 0, stop);
      assert HexStart(s + t) == s + t;
    } else {
      assert HexStart(s + t) == s[2..] + t;
      HexRunStops(s[2..], t, 0, stop - 2);
    }
  }

  lemma NewLineIs(s: string, from: nat, i: nat)
    requires from <= i < |s| && s[i] == '\n' && forall j :: from <= j < i ==> s[j] != '\n'
    ensures NewLine(s, from) == i
  {
    var n := NewLine(s, from);
    assert n <= i;
  }

  /** A delimiter is recognised by its own bytes, whatever follows. */
  lemma ClassifyStable(a: string, b: string)
    requires Classify(a).Delimiter?
    ensures Classify(a + b) == Classify(a)
  {
    var cp := NewLine(a, 2);
    NewLineIs(a + b, 2, cp);
    assert (a + b)[2..] == a[2..] + b;
    assert a[2..][cp - 3] == a[cp - 1];
    if cp == 3 || cp == 4 {
      assert |a| >= 5;
    }
    LineStops(a, b, cp);
  }

  /** The bytes of a delimiter are one on their own. */
  lemma ClassifyOwn(rx: string)
    requires Classify(rx).Delimiter?
    ensures Classify(rx[..Classify(rx).len]) == Classify(rx)
  {
    var a := rx[..Classify(rx).len];
    var cp := NewLine(rx, 2);
    NewLineIs(a, 2, cp);
    assert rx[2..] == a[2..] + rx[|a|..];
    LineStops(a, rx[|a|..], cp);
  }

  lemma LineStops(a: string, b: string, cp: nat)
    requires 3 <= cp < |a| && a[cp - 1] == '\r' && HexDigit(a[2]) >= 0
    ensures HexToI(a[2..] + b) == HexToI(a[2..])
  {
    assert cp > 3;
    assert a[2..][cp - 3] == '\r';
    if cp - 3 >= 2 {
      HexToIStops(a[2..], b, cp - 3);
    } else {
      assert HexStart(a[2..]) == a[2..] && HexStart(a[2..] + b) == a[2..] + b;
      HexRunStops(a[2..], b, 0, cp - 3);
    }
  }

  /** Consuming `a` and then `b` is consuming both. */
  lemma {:induction false} WalkThen(p: Phase, a: string, b: string)
    requires Walk(p, a).At?
    ensures Walk(p, a + b) == Deliver(Walk(p, a).body, Walk(Walk(p, a).phase, b))
    decreases |a|, 1
  {
    if a == "" {
      assert a + b == b;
      DeliverNothing(Walk(p, b));
    } else {
      hide Classify;
      match p
      case Data(left) =>
        if left > |a| {
          DataShort(left, a, b);
        } else {
          DataThen(left, a, b);
        }
      case Start => DelimiterThen(a, b);
      case Eof =>
    }
  }

  lemma DataThen(left: nat, a: string, b: string)
    requires 0 < |a| && left <= |a| && Walk(Data(left), a).At?
    ensures Walk(Data(left), a + b) == Deliver(Walk(Data(left), a).body, Walk(Walk(Data(left), a).phase, b))
    decreases |a|, 0
  {
    assert left > 0;
    hide Walk, Deliver;
    var x, y := a[..left], a[left..];
    CutAppend(a, b, left);
    DataFull(left, a);
    DataFull(left, a + b);
    DeliveredBody(x, Walk(Start, y));
    WalkThen(Start, y, b);
    DeliverTwice(x, Walk(Start, y).body, Walk(Walk(Start, y).phase, b));
  }

  lemma DelimiterThen(a: string, b: string)
    requires a != "" && Walk(Start, a).At?
    ensures Walk(Start, a + b) == Deliver(Walk(Start, a).body, Walk(Walk(Start, a).phase, b))
    decreases |a|, 0
  {
    StartStep(a);
    ClassifyStable(a, b);
    var d := Classify(a);
    hide Classify, Walk, Deliver;
    CutAppend(a, b, d.len);
    StartStep(a + b);
    WalkThen(if d.size == 0 then Eof else Data(d.size), a[d.len..], b);
  }

  lemma CutAppend(a: string, b: string, k: nat)
    requires k <= |a|
    ensures (a + b)[k..] == a[k..] + b && (a + b)[..k] == a[..k]
  {
  }

  lemma DataFull(left: nat, a: string)
    requires 0 < left <= |a|
    ensures Walk(Data(left), a) == Deliver(a[..left], Walk(Start, a[left..]))
  {
    hide Classify;
  }

  lemma DeliveredBody(bytes: string, r: Progress)
    ensures Deliver(bytes, r).At? <==> r.At?
    ensures r.At? ==> Deliver(bytes, r).body == bytes + r.body && Deliver(bytes, r).phase == r.phase
  {
  }

  lemma StartStep(a: string)
    requires a != "" && (Walk(Start, a).At? || Classify(a).Delimiter?)
    ensures Classify(a).Delimiter?
    ensures var d := Classify(a);
            d.len <= |a| && Walk(Start, a) == Walk(if d.size == 0 then Eof else Data(d.size), a[d.len..])
  {
    hide Classify;
  }

  lemma DeliverNothing(r: Progress)
    ensures Deliver("", r) == r
  {
    if r.At? {
      assert "" + r.body == r.body;
    }
  }

  lemma DeliverTwice(a: string, b: string, r: Progress)
    ensures Deliver(a, Deliver(b, r)) == Deliver(a + b, r)
  {
    if r.At? {
      assert a + (b + r.body) == a + b + r.body;
    }
  }

  lemma DataShort(left: nat, a: string, b: string)
    requires left > |a| > 0
    ensures Walk(Data(left), a + b) == Deliver(Walk(Data(left), a).body, Walk(Walk(Data(left), a).phase, b))
  {
    hide Classify;
    var m := left - |a|;
    if b == "" {
      assert a + b == a;
      assert a + "" == a;
    } else if left > |a| + |b| {
    } else {
      DataFull(m, b);
      DataFull(left, a + b);
      hide Walk, Deliver;
      assert (a + b)[left..] == b[m..] && (a + b)[..left] == a + b[..m];
      DeliverTwice(a, b[..m], Walk(Start, b[m..]));
      WalkSome(left, a);
    }
  }

  lemma WalkSome(n: nat, u: string)
    requires |u| < n
    ensures Walk(Data(n), u) == At(Data(n - |u|), u)
  {
    hide Classify;
  }

  // ---------------------------------------------------------------- well-formed streams

  /** One chunk as the standard writes it: size digits, an extension after a semicolon, the data. */
  datatype Chunk = Chunk(digits: string, ext: string, data: string)

  function HexFrom(digits: string, v: nat): nat
    requires forall c :: c in digits ==> HexDigit(c) >= 0
  {
    if digits == [] then v else HexFrom(digits[1..], v * 16 + HexDigit(digits[0]))
  }

  /** What a size line holds: hex digits of value `n`, then nothing or an extension. */
  ghost predicate AnySize(digits: string, ext: string, n: nat) {
    && digits != "" && (forall c :: c in digits ==> HexDigit(c) >= 0) && HexFrom(digits, 0) == n
    && (ext != "" ==> ext[0] == ';') && '\n' !in ext
  }

  /** The same with a size that an `ssize` holds. */
  ghost predicate SizeAndExtension(digits: string, ext: string, n: nat) {
    AnySize(digits, ext, n) && n < SSIZE
  }

  /** A size line that with the line ends around it is no longer than the limit. */
  ghost predicate SizeLine(digits: string, ext: string, n: nat) {
    SizeAndExtension(digits, ext, n) && |LineText(digits, ext)| <= LINE_MAX
  }

  ghost predicate WellFormed(c: Chunk) {
    c.data != "" && SizeLine(c.digits, c.ext, |c.data|)
  }

  function LineText(digits: string, ext: string): string {
    "\r\n" + digits + ext + "\r\n"
  }

  function Wire(cs: seq<Chunk>): string {
    if cs == [] then "" else LineText(cs[0].digits, cs[0].ext) + cs[0].data + Wire(cs[1..])
  }

  /** The last chunk: a size of 0 and the line end that closes the body. */
  function LastText(digits: string, ext: string): string {
    LineText(digits, ext) + "\r\n"
  }

  function Bodies(cs: seq<Chunk>): string {
    if cs == [] then "" else cs[0].data + Bodies(cs[1..])
  }

  lemma {:induction false} HexFromGrows(digits: string, v: nat)
    requires forall c :: c in digits ==> HexDigit(c) >= 0
    ensures HexFrom(digits, v) >= v
  {
    if digits != [] {
      HexFromGrows(digits[1..], v * 16 + HexDigit(digits[0]));
    }
  }

  lemma WrapStep(v: nat, d: nat)
    ensures (v % UINT * 16 + d) % UINT == (v * 16 + d) % UINT
  {
    var q, r := v / UINT, v % UINT;
    assert v * 16 + d == UINT * (16 * q) + (r * 16 + d);
    WrapWhole(r * 16 + d, 16 * q);
  }

  lemma {:induction false} WrapWhole(x: nat, q: nat)
    ensures (UINT * q + x) % UINT == x % UINT
  {
    if q > 0 {
      WrapWhole(x, q - 1);
    }
  }

  lemma {:induction false} HexRunReads(digits: string, t: string, v: nat)
    requires forall c :: c in digits ==> HexDigit(c) >= 0
    requires t != "" && HexDigit(t[0]) < 0
    ensures HexRun(digits + t, v % UINT) == HexFrom(digits, v) % UINT
  {
    if digits == [] {
      assert digits + t == t;
    } else {
      assert (digits + t)[1..] == digits[1..] + t && (digits + t)[0] == digits[0];
      WrapStep(v, HexDigit(digits[0]));
      HexRunReads(digits[1..], t, v * 16 + HexDigit(digits[0]));
    }
  }

  /** hextoi reads the size of any line modulo 2^32. */
  lemma HexToIWraps(digits: string, ext: string, n: nat, t: string)
    requires AnySize(digits, ext, n)
    ensures HexToI(digits + ext + "\r\n" + t) == n % UINT
  {
    hide HexRun, HexFrom;
    var u := ext + "\r\n" + t;
    assert digits + ext + "\r\n" + t == digits + u;
    assert u[0] == if ext == "" then '\r' else ';';
    if |digits| >= 2 {
      assert HexDigit(digits[1]) >= 0;
      assert HexStart(digits + u) == digits + u;
    } else {
      assert (digits + u)[1] == u[0];
    }
    HexRunReads(digits, u, 0);
  }

  /** hextoi reads the size of a well-formed line. */
  lemma HexToIReads(digits: string, ext: string, n: nat, t: string)
    requires SizeAndExtension(digits, ext, n)
    ensures HexToI(digits + ext + "\r\n" + t) == n
  {
    HexToIWraps(digits, ext, n, t);
  }

  /** Of the bytes that start with a well-formed size line, any that have arrived are accepted: the
      line as soon as it is complete, and never an error before. */
  lemma ClassifyLine(digits: string, ext: string, n: nat, t: string, rx: string)
    requires SizeLine(digits, ext, n) && n > 0 && rx <= LineText(digits, ext) + t
    ensures var k := |LineText(digits, ext)|;
            Classify(rx) == if |rx| < k then Short else Delimiter(k, n)
  {
    var line := LineText(digits, ext);
    var k := |line|;
    LineShape(digits, ext);
    if |rx| < k {
      assert forall i :: 0 <= i < |rx| ==> rx[i] == line[i];
    } else {
      var u := rx[k..];
      assert rx == line + u by {
        assert rx[..k] == (line + t)[..k] == line;
      }
      NewLineIs(rx, 2, k - 1);
      assert rx[2..] == digits + ext + "\r\n" + u;
      HexToIReads(digits, ext, n, u);
    }
  }

  /** A size line is refused in no part that has arrived exactly if it is within the limit.  A longer one
      is accepted whole, but refused as soon as 80 characters of it are there and not yet its end. */
  lemma LineLimit(digits: string, ext: string, n: nat)
    requires SizeAndExtension(digits, ext, n)
    ensures var line := LineText(digits, ext);
            && ((forall rx :: rx <= line ==> Classify(rx) != Bad) <==> |line| <= LINE_MAX)
            && (|line| > LINE_MAX ==> Classify(line[..LINE_MAX]) == Bad)
            && (n > 0 ==> Classify(line) == Delimiter(|line|, n))
  {
    var line := LineText(digits, ext);
    LineShape(digits, ext);
    LineWhole(digits, ext, n);
    assert line[..|line|] == line;
    forall rx | rx <= line && |rx| < |line|
      ensures Classify(rx) == if |rx| < 5 || |rx| < LINE_MAX then Short else Bad
    {
      assert forall i :: 2 <= i < |rx| ==> rx[i] == line[i];
    }
    if |line| > LINE_MAX {
      assert line[..LINE_MAX] <= line;
    } else {
      forall rx | rx <= line
        ensures Classify(rx) != Bad
      {
        if |rx| == |line| {
          assert rx == line;
        }
      }
    }
  }

  lemma LineWhole(digits: string, ext: string, n: nat)
    requires SizeAndExtension(digits, ext, n)
    ensures var line := LineText(digits, ext);
            Classify(line) == if n > 0 then Delimiter(|line|, n) else Short
  {
    LineWraps(digits, ext, n);
  }

  /** A whole line is taken for its size modulo 2^32, and refused exactly if that is 2^31 or more: a size
      too large for the counter can be taken for a smaller one, or for the end. */
  lemma LineWraps(digits: string, ext: string, n: nat)
    requires AnySize(digits, ext, n)
    ensures var line, size := LineText(digits, ext), n % UINT;
            Classify(line) == if size == 0 then Short else if size < SSIZE then Delimiter(|line|, size) else Bad
  {
    var line := LineText(digits, ext);
    LineShape(digits, ext);
    NewLineIs(line, 2, |line| - 1);
    assert line[2..] == digits + ext + "\r\n" + "";
    HexToIWraps(digits, ext, n, "");
  }

  lemma LineShape(digits: string, ext: string)
    requires digits != "" && (forall c :: c in digits ==> HexDigit(c) >= 0) && '\n' !in ext
    ensures var line := LineText(digits, ext);
            && |line| == 4 + |digits| + |ext|
            && line[0] == '\r' && line[1] == '\n' && line[2] == digits[0]
            && line[|line| - 2] == '\r' && line[|line| - 1] == '\n'
            && forall i :: 2 <= i < |line| - 1 ==> line[i] != '\n'
  {
    var line := LineText(digits, ext);
    forall i | 2 <= i < |line| - 1
      ensures line[i] != '\n'
    {
      if i < 2 + |digits| {
        assert line[i] == digits[i - 2] && digits[i - 2] in digits;
      } else if i < |line| - 2 {
        assert line[i] == ext[i - 2 - |digits|] && ext[i - 2 - |digits|] in ext;
      }
    }
  }

  /** The same for the last chunk, which is complete only with the line end after it. */
  lemma ClassifyLast(digits: string, ext: string, t: string, rx: string)
    requires SizeLine(digits, ext, 0) && rx <= LastText(digits, ext) + t
    ensures var k := |LastText(digits, ext)|;
            Classify(rx) == if |rx| < k then Short else Delimiter(k, 0)
  {
    hide HexToI, HexFrom;
    var line, last := LineText(digits, ext), LastText(digits, ext);
    var k := |last|;
    LineShape(digits, ext);
    assert forall i :: 0 <= i < |rx| && i < |line| ==> rx[i] == line[i];
    assert forall i :: |line| <= i < |rx| && i < k ==> rx[i] == "\r\n"[i - |line|];
    if |rx| >= |line| {
      var u := rx[|line|..];
      assert rx == line + u by {
        assert rx[..|line|] == line;
      }
      NewLineIs(rx, 2, |line| - 1);
      assert rx[2..] == digits + ext + "\r\n" + u;
      HexToIReads(digits, ext, 0, u);
    }
  }

  /** The whole of a coded body takes a decoder to its end, with the body delivered. */
  lemma {:induction false} WalkWhole(cs: seq<Chunk>, digits: string, ext: string)
    requires Stream(cs, digits, ext)
    ensures Walk(Start, StreamText(cs, digits, ext)) == At(Eof, Bodies(cs))
  {
    var text := StreamText(cs, digits, ext);
    if cs == [] {
      LastNotEmpty(digits, ext);
      assert text == LastText(digits, ext) && text + "" == text;
      ClassifyLast(digits, ext, "", text);
      hide Classify, LastText;
      assert text[|text|..] == "";
    } else {
      WalkFirst(cs, digits, ext);
      WalkWhole(cs[1..], digits, ext);
    }
  }

  lemma WalkFirst(cs: seq<Chunk>, digits: string, ext: string)
    requires cs != [] && Stream(cs, digits, ext)
    ensures Stream(cs[1..], digits, ext) && Bodies(cs) == cs[0].data + Bodies(cs[1..])
    ensures Walk(Start, StreamText(cs, digits, ext))
         == Deliver(cs[0].data, Walk(Start, StreamText(cs[1..], digits, ext)))
  {
    hide Classify, Walk, LineText, SizeLine, StreamText, LastText;
    FirstChunk(cs, digits, ext);
    WholeSplits(cs, digits, ext, "");
    var c, text, after := cs[0], StreamText(cs, digits, ext), StreamText(cs[1..], digits, ext);
    var line, data := LineText(c.digits, c.ext), c.data;
    assert text + "" == text && after + "" == after;
    assert text == line + (data + after);
    ClassifyLine(c.digits, c.ext, |data|, data + after, text);
    StartStep(text);
    assert text[|line|..] == data + after;
    assert (data + after)[..|data|] == data && (data + after)[|data|..] == after;
    WalkAll(data, data + after);
  }

  ghost predicate Stream(cs: seq<Chunk>, digits: string, ext: string) {
    (forall i :: 0 <= i < |cs| ==> WellFormed(cs[i])) && SizeLine(digits, ext, 0)
  }

  /** The whole coded body. */
  function StreamText(cs: seq<Chunk>, digits: string, ext: string): string {
    Wire(cs) + LastText(digits, ext)
  }

  /** A decoder that has reached `r` after `consumed` bytes of a stream that codes `body` in `whole`
      bytes, with `arrived` bytes in and the unread ones classified as `d`: what it has delivered is
      a prefix of the body; it meets no error; it is at the end exactly when it has consumed the
      coded body, and then it has consumed nothing more and delivered everything; and it lacks bytes
      only while some of the coded body has not arrived. */
  ghost predicate OnCourse(r: Progress, consumed: nat, arrived: nat, d: Delimiter, body: string, whole: nat) {
    && r.At? && r.body <= body
    && (r.phase == Eof <==> consumed >= whole)
    && (r.phase == Eof ==> consumed == whole && r.body == body)
    && (r.phase == Start ==> d != Bad)
    && (r.phase == Start && arrived >= whole ==> d.Delimiter?)
  }

  /** Wherever a decoder can stand in a well-formed stream, it is on course. */
  lemma {:induction false} OnTrack(cs: seq<Chunk>, digits: string, ext: string, rest: string, used: string, rx: string)
    requires Stream(cs, digits, ext) && used + rx <= StreamText(cs, digits, ext) + rest
    requires Walk(Start, used).At?
    ensures OnCourse(Walk(Start, used), |used|, |used| + |rx|, Classify(rx), Bodies(cs), |StreamText(cs, digits, ext)|)
    decreases |cs|
  {
    if cs == [] {
      assert StreamText(cs, digits, ext) == LastText(digits, ext);
      TrackLast(digits, ext, rest, used, rx);
    } else {
      TrackChunk(cs, digits, ext, rest, used, rx);
    }
  }

  lemma TrackLast(digits: string, ext: string, rest: string, used: string, rx: string)
    requires SizeLine(digits, ext, 0) && used + rx <= LastText(digits, ext) + rest
    requires Walk(Start, used).At?
    ensures OnCourse(Walk(Start, used), |used|, |used| + |rx|, Classify(rx), "", |LastText(digits, ext)|)
  {
    hide Classify, LastText;
    if used == "" {
      assert used + rx == rx;
      ClassifyLast(digits, ext, rest, rx);
      LastNotEmpty(digits, ext);
    } else {
      ClassifyLast(digits, ext, rest, used);
    }
  }

  lemma LastNotEmpty(digits: string, ext: string)
    ensures |LastText(digits, ext)| > |LineText(digits, ext)| > 0
  {
  }

  lemma TrackChunk(cs: seq<Chunk>, digits: string, ext: string, rest: string, used: string, rx: string)
    requires cs != [] && Stream(cs, digits, ext) && used + rx <= StreamText(cs, digits, ext) + rest
    requires Walk(Start, used).At?
    ensures OnCourse(Walk(Start, used), |used|, |used| + |rx|, Classify(rx), Bodies(cs), |StreamText(cs, digits, ext)|)
    decreases |cs|, 0
  {
    hide *;
    var c := cs[0];
    var line, after := LineText(c.digits, c.ext), StreamText(cs[1..], digits, ext);
    FirstChunk(cs, digits, ext);
    WholeSplits(cs, digits, ext, rest);
    if used == "" {
      assert used + rx == rx;
      ClassifyLine(c.digits, c.ext, |c.data|, c.data + (after + rest), rx);
      CourseStart(rx, |line|, |c.data|, Bodies(cs), |StreamText(cs, digits, ext)|);
    } else {
      var t := c.data + (after + rest);
      PrefixFirst(used, rx, line + t);
      WalkLine(c, t, used);
      PrefixSplit(used, rx, line, t);
      PrefixSplit(used[|line|..], rx, c.data, after + rest);
      TrackData(cs, digits, ext, rest, used[|line|..], rx, |line|);
    }
  }

  lemma FirstChunk(cs: seq<Chunk>, digits: string, ext: string)
    requires cs != [] && Stream(cs, digits, ext)
    ensures WellFormed(cs[0]) && cs[0].data != "" && SizeLine(cs[0].digits, cs[0].ext, |cs[0].data|)
  {
  }

  lemma PrefixFirst(a: string, b: string, w: string)
    requires a + b <= w
    ensures a <= w
  {
    assert forall i :: 0 <= i < |a| ==> a[i] == (a + b)[i] == w[i];
  }

  lemma CourseStart(rx: string, k: nat, n: nat, body: string, whole: nat)
    requires 0 < k && n > 0 && k + n < whole && Classify(rx) == if |rx| < k then Short else Delimiter(k, n)
    ensures OnCourse(Walk(Start, ""), 0, 0 + |rx|, Classify(rx), body, whole)
  {
    hide Classify;
    assert "" <= body;
  }

  /** The data of the first chunk, and what comes after it. */
  lemma TrackData(cs: seq<Chunk>, digits: string, ext: string, rest: string, u: string, rx: string, k: nat)
    requires cs != [] && Stream(cs, digits, ext) && k > 0
    requires Walk(Data(|cs[0].data|), u).At?
    requires |u| < |cs[0].data| ==> u <= cs[0].data
    requires |u| >= |cs[0].data| ==>
               && u[..|cs[0].data|] == cs[0].data
               && u[|cs[0].data|..] + rx <= StreamText(cs[1..], digits, ext) + rest
    ensures OnCourse(Walk(Data(|cs[0].data|), u), k + |u|, k + |u| + |rx|, Classify(rx), Bodies(cs),
                     k + |cs[0].data| + |StreamText(cs[1..], digits, ext)|)
    decreases |cs|, 0, 0
  {
    var data, after := cs[0].data, StreamText(cs[1..], digits, ext);
    assert WellFormed(cs[0]);
    assert Bodies(cs) == data + Bodies(cs[1..]);
    hide Classify, StreamText, Bodies, SizeLine;
    if |u| < |data| {
      WalkSome(|data|, u);
    } else {
      WalkAll(data, u);
      var v := u[|data|..];
      hide Walk, OnCourse;
      OnTrack(cs[1..], digits, ext, rest, v, rx);
      CourseAfter(data, Walk(Start, v), |v|, |v| + |rx|, Classify(rx), Bodies(cs[1..]), |after|, k + |data|);
    }
  }

  lemma CourseAfter(data: string, r: Progress, consumed: nat, arrived: nat, d: Delimiter, body: string, whole: nat,
                    k: nat)
    requires OnCourse(r, consumed, arrived, d, body, whole)
    ensures OnCourse(Deliver(data, r), k + consumed, k + arrived, d, data + body, k + whole)
  {
    assert data + r.body <= data + body;
  }

  lemma WholeSplits(cs: seq<Chunk>, digits: string, ext: string, rest: string)
    requires cs != []
    ensures var (line, after) := (LineText(cs[0].digits, cs[0].ext), StreamText(cs[1..], digits, ext));
            && StreamText(cs, digits, ext) + rest == line + (cs[0].data + (after + rest))
            && |StreamText(cs, digits, ext)| == |line| + |cs[0].data| + |after|
            && |line| > 0 && |after| > 0
    ensures Bodies(cs) == cs[0].data + Bodies(cs[1..])
  {
    var line, data, more, last := LineText(cs[0].digits, cs[0].ext), cs[0].data, Wire(cs[1..]), LastText(digits, ext);
    LastNotEmpty(digits, ext);
    LastNotEmpty(cs[0].digits, cs[0].ext);
    assert Wire(cs) == line + data + more;
    hide Wire, LineText, LastText;
    Assoc(line, data, more);
    Assoc(line, data + more, last);
    Assoc(data, more, last);
    Assoc(line, data + (more + last), rest);
    Assoc(data, more + last, rest);
  }

  lemma Assoc(a: string, b: string, c: string)
    ensures a + b + c == a + (b + c)
  {
  }

  /** Consuming anything of a chunk consumes its size line first. */
  lemma WalkLine(c: Chunk, t: string, used: string)
    requires WellFormed(c) && used != "" && used <= LineText(c.digits, c.ext) + t && Walk(Start, used).At?
    ensures var k := |LineText(c.digits, c.ext)|;
            |used| >= k && Walk(Start, used) == Walk(Data(|c.data|), used[k..])
  {
    ClassifyLine(c.digits, c.ext, |c.data|, t, used);
    hide Classify, LineText;
  }

  lemma WalkAll(data: string, u: string)
    requires 0 < |data| <= |u| && u[..|data|] == data
    ensures Walk(Data(|data|), u) == Deliver(data, Walk(Start, u[|data|..]))
  {
    hide Classify;
  }

  /** How a prefix of `x + y` that is itself in two parts lies over the two. */
  lemma PrefixSplit(a: string, b: string, x: string, y: string)
    requires a + b <= x + y
    ensures |a| < |x| ==> a <= x
    ensures |a| >= |x| ==> a[..|x|] == x && a[|x|..] + b <= y
  {
    assert forall i :: 0 <= i < |a + b| ==> (a + b)[i] == (x + y)[i];
    if |a| < |x| {
      assert forall i :: 0 <= i < |a| ==> a[i] == (a + b)[i] == x[i];
    } else {
      assert forall i :: 0 <= i < |x| ==> a[i] == (a + b)[i] == x[i];
      var c := a[|x|..] + b;
      assert forall i :: 0 <= i < |c| ==> c[i] == (a + b)[|x| + i] == y[i];
    }
  }

  // ---------------------------------------------------------------- the encoder's chunks

  lemma {:induction false} HexTextDigits(n: nat)
    ensures forall c :: c in HexText(n) ==> HexDigit(c) >= 0
    ensures HexFrom(HexText(n), 0) == n
  {
    HexDigitOf(n % 16);
    if n >= 16 {
      HexTextDigits(n / 16);
      hide HexDigit;
      HexFromAppend(HexText(n / 16), HEX[n % 16], 0);
    }
  }

  lemma HexDigitOf(d: nat)
    requires d < 16
    ensures HexDigit(HEX[d]) == d
  {
  }

  lemma {:induction false} HexFromAppend(digits: string, c: char, v: nat)
    requires (forall d :: d in digits ==> HexDigit(d) >= 0) && HexDigit(c) >= 0
    ensures HexFrom(digits + [c], v) == HexFrom(digits, v) * 16 + HexDigit(c)
  {
    if digits == [] {
      assert digits + [c] == [c];
    } else {
      assert (digits + [c])[1..] == digits[1..] + [c];
      HexFromAppend(digits[1..], c, v * 16 + HexDigit(digits[0]));
    }
  }

  lemma {:induction false} HexTextLength(n: nat, k: nat)
    requires k > 0 && n < Sixteen(k)
    ensures |HexText(n)| <= k
  {
    if n >= 16 {
      HexTextLength(n / 16, k - 1);
    }
  }

  function Sixteen(k: nat): nat {
    if k == 0 then 1 else 16 * Sixteen(k - 1)
  }

  /** flushChunkData's "\r\n%x\r\n". */
  function Prefix(n: nat): string {
    LineText(HexText(n), "")
  }

  lemma PrefixIsLine(n: nat)
    requires n < SSIZE
    ensures SizeLine(HexText(n), "", n) && |Prefix(n)| <= 12
  {
    HexTextDigits(n);
    assert Sixteen(4) == 65536;
    assert Sixteen(8) == 65536 * Sixteen(4);
    HexTextLength(n, 8);
  }
}

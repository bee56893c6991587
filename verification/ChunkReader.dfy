/** The receiving side of chunked transfer coding in http.c: filterChunkData, called each time bytes
    have arrived.  A buffer is the sequence of the bytes it holds; the room that `bufRoom` reports
    is any part of what is free, since the buffer is a ring. */
module ChunkReader {
  import opened Ascii
  import opened ChunkText

  datatype RxState = CHUNK_START | CHUNK_DATA

  /** `*p`, with the terminator that bufAddNull puts behind the last byte. */
  function At0(s: string, i: nat): char {
    if i < |s| then s[i] else '\0'
  }

  /** hextoi. */
  method HexToInt(hexstring: string) returns (v: nat)
    ensures v == HexToI(hexstring)
  {
    v := 0;
    var h := 0;
    if At0(hexstring, 0) == '0' && (At0(hexstring, 1) == 'x' || At0(hexstring, 1) == 'X') {
      h := 2;
    }
    assert hexstring[h..] == HexStart(hexstring);
    while HexDigit(At0(hexstring, h)) >= 0
      invariant h <= |hexstring| && v < UINT
      invariant HexRun(hexstring[h..], v) == HexToI(hexstring)
      decreases |hexstring| - h
    {
      assert hexstring[h..][1..] == hexstring[h + 1..];
      v := (v * 0x10 + HexDigit(At0(hexstring, h))) % UINT;
      h := h + 1;
    }
  }

  /** The scan for the end of the size line. */
  method ScanLine(start: string) returns (cp: nat)
    requires |start| >= 2
    ensures cp == NewLine(start, 2)
  {
    cp := 2;
    while cp < |start| && start[cp] != '\n'
      invariant cp <= |start| && NewLine(start, cp) == NewLine(start, 2)
    {
      cp := cp + 1;
    }
  }

  lemma DelimiterMoves(used: string, body: string, rx: string) returns (after: string)
    requires Walk(Start, used) == At(Start, body) && Classify(rx).Delimiter?
    ensures var d := Classify(rx);
            && 0 < d.len <= |rx| && after + rx[d.len..] == used + rx
            && Walk(Start, after) == At(if d.size == 0 then Eof else Data(d.size), body)
  {
    var d := Classify(rx);
    var x := rx[..d.len];
    ClassifyOwn(rx);
    WalkThen(Start, used, x);
    assert Walk(Start, x) == At(if d.size == 0 then Eof else Data(d.size), "") by {
      hide Classify;
      StartStep(x);
    }
    assert body + "" == body;
    after := used + x;
    Regroup(used, rx, d.len);
  }

  lemma DataMoves(used: string, body: string, left: nat, x: string)
    requires Walk(Start, used) == At(Data(left), body) && 0 < left && |x| <= left
    ensures Walk(Start, used + x) == At(if |x| == left then Start else Data(left - |x|), body + x)
  {
    hide Classify;
    WalkThen(Start, used, x);
    if |x| < left {
      WalkSome(left, x);
    } else {
      WalkAll(x, x);
      assert x + "" == x;
    }
  }

  lemma Regroup(a: string, b: string, k: nat)
    requires k <= |b|
    ensures a + b[..k] + b[k..] == a + b
  {
  }

  class Receiver {
    var rxbuf: string
    var input: string
    const limit: nat
    var state: RxState
    var remaining: nat
    var eof: bool
    var refused: bool

    /** Every byte that has arrived and the part of it consumed; every byte put into `input` and the
        part of it that has been taken out. */
    ghost var arrived: string
    ghost var used: string
    ghost var delivered: string
    ghost var taken: string
    /** How often bufRoom has reported less than is free. */
    ghost var narrow: nat

    ghost predicate Valid()
      reads this
    {
      && arrived == used + rxbuf
      && Walk(Start, used) == At(Where(), delivered)
      && |input| <= limit && taken + input == delivered
      && (eof ==> state == CHUNK_START)
      && (state == CHUNK_DATA ==> remaining > 0)
      && (refused ==> !eof && state == CHUNK_START && Classify(rxbuf) == Bad)
    }

    function Where(): Phase
      reads this
    {
      if eof then Eof else if state == CHUNK_START then Start else Data(remaining)
    }

    constructor (limit: nat)
      ensures Valid() && !eof && !refused && arrived == "" && delivered == "" && this.limit == limit
      ensures input == rxbuf == "" && narrow == 0
    {
      this.limit := limit;
      narrow := 0;
      rxbuf, input, state, remaining, eof, refused := "", "", CHUNK_START, 0, false, false;
      arrived, used, delivered, taken := "", "", "", "";
    }

    /** readEvent: bytes from the socket go behind those not consumed yet. */
    method Receive(bytes: string)
      requires Valid() && !refused
      modifies this`rxbuf, this`arrived
      ensures Valid() && arrived == old(arrived) + bytes && rxbuf == old(rxbuf) + bytes
    {
      rxbuf := rxbuf + bytes;
      arrived := arrived + bytes;
    }

    /** websConsumeInput. */
    method ConsumeInput(n: nat)
      requires Valid() && n <= |input|
      modifies this`input, this`taken
      ensures Valid() && input == old(input)[n..]
    {
      hide Walk, Classify;
      Regroup(taken, input, n);
      taken := taken + input[..n];
      input := input[n..];
    }

    /** `bufRoom`: some of the free space of `input`, but not none of it, and all of it while the buffer is
        empty. */
    method BufRoom() returns (room: nat)
      requires Valid()
      modifies this`narrow
      ensures Valid() && room <= limit - |input| && (|input| < limit ==> room > 0)
      ensures narrow >= old(narrow) && (room < limit - |input| ==> narrow > old(narrow) && input != "")
    {
      hide Walk, Classify;
      var free := limit - |input|;
      room :| 0 <= room <= free && (free > 0 ==> room > 0) && (input == "" ==> room == free);
      if room < free {
        narrow := narrow + 1;
      }
    }

    /** What a call may stop for without having reached the end or refused the stream: nothing is
        left to read, or a size line is incomplete, or the input buffer had too little room. */
    ghost predicate Stopped(full: bool)
      reads this
    {
      refused || eof || full || rxbuf == "" || (state == CHUNK_START && Classify(rxbuf) == Short)
    }

    /** filterChunkData.  `full` tells of the return for want of room.  The result is true at the end of
        the stream, for want of room, and when all bytes were read and some of them delivered; it is
        false at an incomplete size line, even if bytes were delivered before it. */
    method FilterChunkData() returns (added: bool, ghost full: bool)
      requires Valid() && !eof && !refused
      modifies this
      ensures Valid() && Stopped(full)
      ensures arrived == old(arrived) && old(delivered) <= delivered
      ensures added <==> eof || full || (!refused && rxbuf == "" && |delivered| > |old(delivered)|)
      ensures narrow >= old(narrow)
      ensures full ==> !eof && !refused && added && (|input| == limit || (input != "" && narrow > old(narrow)))
      ensures full && |old(input)| < limit ==> |delivered| > |old(delivered)|
    {
      added, full := false, false;
      while |rxbuf| > 0
        invariant Valid() && !eof && !refused && !full
        invariant arrived == old(arrived) && old(delivered) <= delivered
        invariant added <==> |delivered| > |old(delivered)|
        invariant narrow >= old(narrow) && (!added ==> input == old(input))
        decreases |rxbuf|
      {
        match state
        case CHUNK_START =>
          var end := ReadDelimiter();
          if end {
            return eof, false;
          }
        case CHUNK_DATA =>
          var moved := MoveData();
          added := true;
          if !moved {
            return added, true;
          }
      }
    }

    /** The CHUNK_START case; `end` when it returns from the filter. */
    method ReadDelimiter() returns (end: bool)
      requires Valid() && !eof && !refused && state == CHUNK_START && rxbuf != ""
      modifies this`rxbuf, this`state, this`remaining, this`eof, this`refused, this`used
      ensures Valid()
      ensures end <==> eof || refused || (rxbuf == old(rxbuf) && state == CHUNK_START && Classify(rxbuf) == Short)
      ensures !end ==> |rxbuf| < |old(rxbuf)|
    {
      if |rxbuf| < 5 {
        return true;
      }
      var start := rxbuf;
      var bad := At0(start, 0) != '\r' || At0(start, 1) != '\n';
      var cp := ScanLine(start);
      if At0(start, cp) != '\n' && cp < 80 {
        return true;
      }
      bad := bad || At0(start, cp - 1) != '\r' || At0(start, cp) != '\n';
      if bad {
        refused := true;
        return true;
      }
      var chunkSize := HexToInt(start[2..]);
      if HexDigit(start[2]) < 0 || chunkSize >= SSIZE {
        refused := true;
        return true;
      }
      if chunkSize == 0 {
        if cp + 2 >= |rxbuf| {
          return true;
        }
        cp := cp + 2;
        bad := bad || At0(start, cp - 1) != '\r' || At0(start, cp) != '\n';
        if bad {
          refused := true;
          return true;
        }
      }
      end := TakeDelimiter(cp + 1, chunkSize);
    }

    /** The delimiter is consumed: the stream ends, or data follows. */
    method TakeDelimiter(k: nat, chunkSize: nat) returns (end: bool)
      requires Valid() && !eof && !refused && state == CHUNK_START && Classify(rxbuf) == Delimiter(k, chunkSize)
      modifies this`rxbuf, this`state, this`remaining, this`eof, this`used
      ensures Valid()
      ensures rxbuf == old(rxbuf)[k..] && k > 0 && (end <==> eof) && (eof <==> chunkSize == 0)
    {
      hide Walk, Classify;
      ghost var after := DelimiterMoves(used, delivered, rxbuf);
      rxbuf := rxbuf[k..];
      remaining := chunkSize;
      eof := chunkSize == 0;
      state := if chunkSize == 0 then CHUNK_START else CHUNK_DATA;
      used := after;
      end := eof;
    }

    /** The CHUNK_DATA case: as much data as has arrived, belongs to the chunk and has room. */
    method MoveData() returns (moved: bool)
      requires Valid() && !eof && !refused && state == CHUNK_DATA && rxbuf != ""
      modifies this
      ensures Valid() && !eof && !refused && arrived == old(arrived) && old(delivered) <= delivered
      ensures moved ==> |rxbuf| < |old(rxbuf)| && |delivered| > |old(delivered)|
      ensures !moved ==> |input| == limit || (input != "" && narrow > old(narrow))
      ensures !moved && |old(input)| < limit ==> |delivered| > |old(delivered)|
      ensures narrow >= old(narrow)
    {
      hide Walk, Classify;
      var room := BufRoom();
      var len := if |rxbuf| < remaining then |rxbuf| else remaining;
      var nbytes := if room < len then room else len;
      var data := rxbuf[..nbytes];
      DataMoves(used, delivered, remaining, data);
      Regroup(used, rxbuf, nbytes);
      assert taken + (input + data) == delivered + data;
      input := input + data;
      rxbuf := rxbuf[nbytes..];
      used, delivered := used + data, delivered + data;
      remaining := remaining - nbytes;
      if remaining <= 0 {
        state := CHUNK_START;
      }
      moved := nbytes == len;
    }
  }

  // ---------------------------------------------------------------- without chunks

  /** The receiver of a body whose length was announced, in the state CHUNK_UNCHUNKED. */
  class PlainReceiver {
    var rxbuf: string
    var input: string
    const limit: nat
    var remaining: nat
    var eof: bool

    /** Every byte that has arrived, the part of it consumed, and what of that was put into `input`. */
    ghost var arrived: string
    ghost var used: string
    ghost var delivered: string
    ghost const announced: nat

    ghost predicate Valid()
      reads this
    {
      && arrived == used + rxbuf && |used| + remaining == announced && |input| <= limit
      && (eof <==> remaining == 0)
    }

    constructor (limit: nat, announced: nat)
      ensures Valid() && arrived == used == delivered == input == "" && this.limit == limit
      ensures this.announced == announced
    {
      this.limit, this.announced := limit, announced;
      rxbuf, input, remaining, eof := "", "", announced, announced == 0;
      arrived, used, delivered := "", "", "";
    }

    /** readEvent. */
    method Receive(bytes: string)
      requires Valid()
      modifies this`rxbuf, this`arrived
      ensures Valid() && arrived == old(arrived) + bytes && rxbuf == old(rxbuf) + bytes
    {
      rxbuf := rxbuf + bytes;
      arrived := arrived + bytes;
    }

    /** filterChunkData: as many bytes as belong to the body are consumed; what the input buffer has no
        room for is lost, because the result of bufPutBlk is not looked at. */
    method FilterChunkData() returns (added: bool)
      requires Valid()
      modifies this
      ensures Valid() && arrived == old(arrived) && (added <==> old(rxbuf) != "")
      ensures |used| == if |arrived| < announced then |arrived| else announced
      ensures var len := |used| - |old(used)|;
              var put := if len < limit - |old(input)| then len else limit - |old(input)|;
              && 0 <= len <= |old(rxbuf)| && used == old(used) + old(rxbuf)[..len]
              && delivered == old(delivered) + old(rxbuf)[..put] && input == old(input) + old(rxbuf)[..put]
    {
      if |rxbuf| > 0 {
        var len := if remaining < |rxbuf| then remaining else |rxbuf|;
        var put := if len < limit - |input| then len else limit - |input|;
        Regroup(used, rxbuf, len);
        input := input + rxbuf[..put];
        delivered := delivered + rxbuf[..put];
        used := used + rxbuf[..len];
        rxbuf := rxbuf[len..];
        remaining := remaining - len;
        if remaining <= 0 {
          eof := true;
        }
        return true;
      }
      assert delivered + "" == delivered && input + "" == input && used + "" == used;
      return false;
    }
  }

  /** A receiver that has always had room: when it has filtered all that arrived it has delivered the
      announced number of bytes, or all there are; it is at the end exactly when these are all, and the
      rest is left unread. */
  lemma PlainDelivers(r: PlainReceiver)
    requires r.Valid() && r.delivered == r.used && (r.rxbuf == "" || r.eof)
    ensures r.delivered == r.arrived[..if |r.arrived| < r.announced then |r.arrived| else r.announced]
    ensures (r.eof <==> |r.arrived| >= r.announced) && r.arrived == r.delivered + r.rxbuf
  {
    assert r.arrived[..|r.used|] == r.used;
  }

  // ---------------------------------------------------------------- what runs of it do

  /** Two receivers that got the same bytes, in whatever pieces, and have not been stopped by a
      malformed line or a full buffer, have delivered the same body, keep the same unread bytes and
      agree on the end.  This holds of all bytes, well-formed or not. */
  lemma SplitIndependent(r: Receiver, q: Receiver)
    requires r.Valid() && !r.refused && r.Stopped(false)
    requires q.Valid() && !q.refused && q.Stopped(false)
    requires r.arrived == q.arrived
    ensures r.delivered == q.delivered && r.rxbuf == q.rxbuf && r.eof == q.eof && r.Where() == q.Where()
  {
    if |r.used| <= |q.used| {
      FartherIsSame(r, q);
    } else {
      FartherIsSame(q, r);
    }
  }

  lemma FartherIsSame(r: Receiver, q: Receiver)
    requires r.Valid() && !r.refused && r.Stopped(false) && q.Valid() && r.arrived == q.arrived
    requires |r.used| <= |q.used|
    ensures r.used == q.used && r.rxbuf == q.rxbuf && r.delivered == q.delivered && r.Where() == q.Where()
  {
    var x := Surplus(r.used, r.rxbuf, q.used, q.rxbuf);
    WalkThen(Start, r.used, x);
    hide Classify;
    if x != "" {
      if r.state == CHUNK_START && !r.eof {
        StartStep(x);
        ClassifyStable(x, q.rxbuf);
      }
      assert false;
    }
    assert r.used + "" == r.used && "" + r.rxbuf == r.rxbuf;
  }

  lemma Surplus(a: string, b: string, c: string, d: string) returns (x: string)
    requires a + b == c + d && |a| <= |c|
    ensures c == a + x && b == x + d
  {
    x := c[|a|..];
    assert c[..|a|] == (c + d)[..|a|] == (a + b)[..|a|] == a;
    assert b == (a + b)[|a|..] == (c + d)[|a|..] == x + d;
  }

  /** A receiver that gets a well-formed coded body, cut up in any way, with anything behind it:
      what it delivers is always a prefix of the body, it never refuses, it reports the end only
      when the whole body is delivered and then leaves exactly the bytes behind the coded body
      unread; and it does report the end as soon as every coded byte has arrived, unless the last
      call returned because the input buffer was full. */
  lemma DecodesStream(r: Receiver, cs: seq<Chunk>, digits: string, ext: string, rest: string)
    requires r.Valid() && Stream(cs, digits, ext) && r.arrived <= StreamText(cs, digits, ext) + rest
    ensures r.delivered <= Bodies(cs) && !r.refused
    ensures r.eof ==> r.delivered == Bodies(cs) && r.arrived == StreamText(cs, digits, ext) + r.rxbuf
    ensures r.Stopped(false) && |r.arrived| >= |StreamText(cs, digits, ext)| ==> r.eof
  {
    OnTrack(cs, digits, ext, rest, r.used, r.rxbuf);
    if r.eof {
      var w := StreamText(cs, digits, ext);
      PrefixSplit(r.used, r.rxbuf, w, rest);
      hide StreamText;
      assert r.used[..|w|] == r.used;
    }
  }
}

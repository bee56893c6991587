/** The sending side of chunked transfer coding in http.c: websWriteBlock, websFlush and
    flushChunkData over two bounded buffers and a socket that takes what it likes. */
module ChunkWriter {
  import opened Ascii
  import opened ChunkText
  import opened ChunkReader

  datatype TxState = TX_START | TX_HEADER | TX_DATA

  /** The room that flushChunkData keeps for the trailer and, again, for a prefix. */
  const RESERVE := 16

  const CHUNK_LOW := 128

  const TRAILER := "\r\n0\r\n\r\n"

  /** The chunk that carries `body`. */
  function Coded(body: string): Chunk {
    Chunk(HexText(|body|), "", body)
  }

  lemma {:induction false} WireAppend(cs: seq<Chunk>, c: Chunk)
    ensures Wire(cs + [c]) == Wire(cs) + (LineText(c.digits, c.ext) + c.data)
    ensures Bodies(cs + [c]) == Bodies(cs) + c.data
  {
    var line := LineText(c.digits, c.ext);
    if cs == [] {
      assert [c][1..] == [] && cs + [c] == [c];
    } else {
      assert (cs + [c])[1..] == cs[1..] + [c];
      WireAppend(cs[1..], c);
      var first, w := LineText(cs[0].digits, cs[0].ext) + cs[0].data, Wire(cs[1..]);
      assert Wire(cs) == first + w && Wire(cs + [c]) == first + (w + (line + c.data));
      hide LineText, Wire;
      assert first + (w + (line + c.data)) == first + w + (line + c.data);
    }
  }

  /** A chunk completed: what the stream and the body become. */
  lemma Completed(cs: seq<Chunk>, body: string, stream: string, accepted: string, chunkbuf: string)
    requires body != "" && |body| < SSIZE && forall i :: 0 <= i < |cs| ==> WellFormed(cs[i])
    requires stream == Wire(cs) + Prefix(|body|) + body && accepted == Bodies(cs) + body + chunkbuf
    ensures forall i :: 0 <= i < |cs + [Coded(body)]| ==> WellFormed((cs + [Coded(body)])[i])
    ensures stream == Wire(cs + [Coded(body)]) && accepted == Bodies(cs + [Coded(body)]) + chunkbuf
  {
    PrefixIsLine(|body|);
    WireAppend(cs, Coded(body));
    hide LineText, Wire, SizeLine, Bodies;
    assert Wire(cs) + Prefix(|body|) + body == Wire(cs) + (Prefix(|body|) + body);
  }

  // ---------------------------------------------------------------- when everything goes out

  /** The room that flushChunkData takes for reasonable. */
  predicate Reasonable(room: int) {
    room - RESERVE > CHUNK_LOW
  }

  /** Room is reasonable from 145 bytes on, and a chunk of `c` bytes keeps 32 bytes of the buffer free. */
  lemma RoomNumbers(room: int, c: int, free: int)
    ensures Reasonable(room) <==> room >= 145
    ensures c > 0 ==> (StartFits(c, free) <==> c + 32 <= free && free - (|HexText(c)| + 4) >= 145)
  {
  }

  /** At the start of a chunk: `c` bytes go out as one, whose prefix leaves reasonable room. */
  predicate StartFits(c: int, free: int) {
    c <= 0 || (c <= free - 2 * RESERVE && Reasonable(free - |Prefix(c)|))
  }

  /** Behind a prefix: the `left` bytes of the chunk go out, and then what is behind them. */
  predicate RestFits(c: int, left: int, free: int) {
    Reasonable(free) && left <= free - RESERVE && StartFits(c - left, free - left)
  }

  lemma {:induction false} HexTextGrows(n: nat)
    ensures |HexText(n)| <= |HexText(n + 1)| <= |HexText(n)| + 1
  {
    if n % 16 == 15 && n >= 16 {
      assert (n + 1) / 16 == n / 16 + 1;
      HexTextGrows(n / 16);
    } else if n >= 16 {
      assert (n + 1) / 16 == n / 16;
    }
  }

  lemma {:induction false} PrefixGrows(n: nat, more: nat)
    ensures |Prefix(n + more)| <= |Prefix(n)| + more
  {
    if more > 0 {
      PrefixGrows(n, more - 1);
      HexTextGrows(n + more - 1);
    }
  }

  /** Choosing a chunk by the room reported makes nothing fit that did not, and loses nothing if the
      room is all that is free. */
  lemma ChunkChosen(c: nat, free: nat, room: nat, len: nat)
    requires 0 < c < SSIZE && room <= free && Reasonable(room)
    requires len == if c < room - 2 * RESERVE then c else room - 2 * RESERVE
    ensures RestFits(c, len, free - |Prefix(len)|) ==> StartFits(c, free)
    ensures room == free ==> (RestFits(c, len, free - |Prefix(len)|) <==> StartFits(c, free))
  {
    PrefixIsLine(len);
    if len < c {
      PrefixGrows(c - len, len);
    }
    hide Prefix;
  }

  /** The same for the data that is moved. */
  lemma DataMoved(c: nat, left: nat, free: nat, room: nat, len: nat)
    requires 0 < left <= c && room <= free && Reasonable(room)
    requires len == if room - RESERVE < left then room - RESERVE else left
    ensures len == left ==> (RestFits(c, left, free) <==> StartFits(c - left, free - left))
    ensures len < left ==> RestFits(c - len, left - len, free - len) ==> RestFits(c, left, free)
    ensures len < left && room == free ==>
              (RestFits(c - len, left - len, free - len) <==> RestFits(c, left, free))
  {
    hide Prefix;
  }

  class Sender {
    /** The output buffer and chunkbuf, with the number of bytes each can hold. */
    var output: string
    const outputSize: nat
    var chunkbuf: string
    const chunkSize: nat

    var state: TxState
    var txLen: nat
    var prefix: string
    var chunking: bool
    var finalized: bool
    var complete: bool

    /** What the socket has taken, up to the time it fails, for the other side to read. */
    var sent: string
    var failed: bool
    /** What the output buffer held when chunking began and everything put into it since. */
    ghost var headers: string
    ghost var stream: string
    /** The body bytes accepted for coding, the chunks wholly put out and the part of the current
        one that has been put out. */
    ghost var accepted: string
    ghost var done: seq<Chunk>
    ghost var part: string
    /** Once chunking is over: what was put out after the trailer, and what was still put into
        chunkbuf, from where nothing takes it any more. */
    ghost var after: string
    ghost var lost: string
    /** How often bufRoom has reported less than is free, how often the socket has taken nothing, and
        how often websFlush has been called. */
    ghost var narrow: nat
    ghost var blocked: nat
    ghost var flushes: nat

    ghost predicate Valid()
      reads this
    {
      && |output| <= outputSize && |chunkbuf| <= chunkSize < SSIZE
      && sent <= headers + stream && (!failed ==> headers + stream == sent + output)
      && (forall i :: 0 <= i < |done| ==> WellFormed(done[i]))
      && (if chunking then |output| + RESERVE <= outputSize && Chunking() else Over())
    }

    /** Every byte accepted so far is in a finished chunk, in the current one, or in chunkbuf. */
    ghost predicate Chunking()
      reads this
    {
      && accepted == Bodies(done) + part + chunkbuf && after == "" && lost == ""
      && match state
         case TX_START => part == "" && stream == Wire(done)
         case TX_HEADER => part == "" && 0 < txLen <= |chunkbuf| && |prefix| < RESERVE
                           && stream + prefix == Wire(done) + Prefix(txLen)
         case TX_DATA => 0 < txLen <= |chunkbuf| && |part| + txLen < SSIZE
                         && stream == Wire(done) + Prefix(|part| + txLen) + part
    }

    ghost predicate Over()
      reads this
    {
      accepted == Bodies(done) && stream == Wire(done) + TRAILER + after && chunkbuf == lost
    }

    /** Everything in chunkbuf goes out at the next flush if the output buffer reports all of its free
        space as room, and cannot go out otherwise. */
    predicate AllFits()
      reads this`output, this`chunkbuf, this`state, this`txLen, this`prefix
    {
      var free := outputSize - |output|;
      match state
      case TX_START => StartFits(|chunkbuf|, free)
      case TX_HEADER => RestFits(|chunkbuf|, txLen, free - |prefix|)
      case TX_DATA => RestFits(|chunkbuf|, txLen, free)
    }

    /** The free space of the buffer that websWriteBlock fills. */
    function Free(toChunks: bool): nat
      requires Valid()
      reads this
    {
      if toChunks then chunkSize - |chunkbuf| else outputSize - |output|
    }

    /** Chunking begins, with the headers still in the output buffer. */
    constructor (headers: string, outputSize: nat, chunkSize: nat)
      requires |headers| + RESERVE <= outputSize && chunkSize < SSIZE
      ensures Valid() && chunking && !finalized && accepted == "" && this.headers == headers && !failed
      ensures this.outputSize == outputSize && this.chunkSize == chunkSize && output == headers
      ensures stream == chunkbuf == sent == "" && state == TX_START && !complete
      ensures narrow == blocked == flushes == 0
    {
      this.outputSize, this.chunkSize := outputSize, chunkSize;
      output, chunkbuf, state, txLen, prefix := headers, "", TX_START, 0, "";
      chunking, finalized, complete := true, false, false;
      this.headers, stream, sent, failed := headers, "", "", false;
      accepted, done, part, after, lost := "", [], "", "", "";
      narrow, blocked, flushes := 0, 0, 0;
    }

    /** `bufRoom`: some of the free space, but not none of it; less than all of it where the free space is
        not in one piece. */
    method BufRoom(toChunks: bool) returns (room: nat)
      requires Valid()
      modifies this`narrow
      ensures Valid() && Free(toChunks) == old(Free(toChunks)) && (AllFits() <==> old(AllFits()))
      ensures room <= Free(toChunks) && (Free(toChunks) > 0 ==> room > 0)
      ensures narrow >= old(narrow) && (room < Free(toChunks) ==> narrow > old(narrow))
    {
      hide Wire, Bodies, WellFormed, Prefix, StartFits, RestFits;
      var free := Free(toChunks);
      room :| room <= free && (free > 0 ==> room > 0);
      if room < free {
        narrow := narrow + 1;
      }
    }

    /** websWriteSocket: the socket is offered `n` bytes and says how many of them it takes; -1 when it
        fails. */
    method WriteSocket(n: nat) returns (written: int)
      modifies this`blocked, this`failed
      ensures -1 <= written <= n
      ensures blocked == old(blocked) + (if written == 0 then 1 else 0)
      ensures failed <==> old(failed) || written < 0
    {
      written :| -1 <= written <= n;
      if written < 0 {
        failed := true;
      } else if written == 0 {
        blocked := blocked + 1;
      }
    }

    /** bufPutBlk on the output buffer, of no more than is free. */
    method PutOutput(bytes: string)
      requires |output| + |bytes| <= outputSize
      requires sent <= headers + stream && (!failed ==> headers + stream == sent + output)
      modifies this`output, this`stream
      ensures output == old(output) + bytes && stream == old(stream) + bytes
      ensures sent <= headers + stream && (!failed ==> headers + stream == sent + output)
    {
      assert headers + (stream + bytes) == headers + stream + bytes;
      assert sent + (output + bytes) == sent + output + bytes;
      output := output + bytes;
      stream := stream + bytes;
    }

    /** flushChunkData: chunks are formed from chunkbuf until it is empty or the output has no reasonable
        room.  It may stop in any state and is resumed by the next call. */
    method FlushChunkData() returns (all: bool)
      requires Valid() && chunking
      modifies this`narrow, this`output, this`stream, this`prefix, this`part, this`chunkbuf, this`txLen, this`done,
               this`state
      ensures Valid() && (all <==> chunkbuf == "") && |chunkbuf| <= |old(chunkbuf)| && narrow >= old(narrow)
      ensures old(stream) <= stream && |output| - |stream| == |old(output)| - |old(stream)|
      ensures (all ==> old(AllFits())) && (narrow == old(narrow) ==> (all <==> old(AllFits())))
      ensures !all && narrow == old(narrow) ==> !Reasonable(outputSize - |output|)
      ensures !Reasonable(outputSize - |old(output)|) ==> chunkbuf == old(chunkbuf) && stream == old(stream)
    {
      hide Valid, AllFits, Reasonable;
      while |chunkbuf| > 0
        invariant Valid() && |chunkbuf| <= |old(chunkbuf)| && narrow >= old(narrow)
        invariant AllFits() ==> old(AllFits())
        invariant narrow == old(narrow) ==> (AllFits() <==> old(AllFits()))
        invariant Reasonable(outputSize - |old(output)|) ||
                  (chunkbuf == old(chunkbuf) && output == old(output) && stream == old(stream))
        invariant old(stream) <= stream && |output| - |stream| == |old(output)| - |old(stream)|
        decreases |chunkbuf|, if state == TX_START then 2 else if state == TX_HEADER then 1 else 0
      {
        var free := BufRoom(false);
        var room := free - RESERVE;
        RoomEnough(room);
        if room <= CHUNK_LOW {
          NoRoomNoFit();
          return false;
        }
        var on := ChunkStep(room);
        if !on {
          return false;
        }
      }
      EmptyFits();
      return |chunkbuf| == 0;
    }

    lemma RoomEnough(room: int)
      requires Valid() && room + RESERVE <= outputSize - |output|
      ensures room > CHUNK_LOW ==> Reasonable(outputSize - |output|)
      ensures room <= CHUNK_LOW && room + RESERVE == outputSize - |output| ==> !Reasonable(outputSize - |output|)
    {
    }

    /** One round of flushChunkData's loop. */
    method ChunkStep(room: nat) returns (on: bool)
      requires Valid() && chunking && chunkbuf != "" && room > CHUNK_LOW && room + RESERVE <= outputSize - |output|
      modifies this`output, this`stream, this`prefix, this`part, this`chunkbuf, this`txLen, this`done, this`state
      ensures Valid() && on && (AllFits() ==> old(AllFits()))
      ensures room + RESERVE == outputSize - |old(output)| ==> (AllFits() <==> old(AllFits()))
      ensures old(stream) <= stream && |output| - |stream| == |old(output)| - |old(stream)|
      ensures |chunkbuf| < |old(chunkbuf)|
              || (chunkbuf == old(chunkbuf)
                  && ((old(state) == TX_START && state == TX_HEADER) || (old(state) == TX_HEADER && state == TX_DATA)))
    {
      hide AllFits, StartFits, RestFits, Prefix, Wire, Bodies, WellFormed;
      on := true;
      match state
      case TX_START => SelectChunk(room);
      case TX_HEADER => on := PutPrefix();
      case TX_DATA => PutData(room);
    }

    lemma NoRoomNoFit()
      requires Valid() && chunking && chunkbuf != ""
      ensures !Reasonable(outputSize - |output|) ==> !AllFits()
    {
      hide Prefix, Wire, Bodies, WellFormed;
    }

    /** Whatever is more than the output buffer can take beside what it keeps for the trailer does not
        all go out. */
    lemma Overfull()
      requires Valid() && chunking
      ensures |chunkbuf| + |output| + RESERVE > outputSize ==> !AllFits()
    {
      hide Prefix, Wire, Bodies, WellFormed;
    }

    lemma EmptyFits()
      requires Valid() && chunking && chunkbuf == ""
      ensures AllFits()
    {
      hide Prefix, Wire, Bodies, WellFormed;
    }

    /** A chunk is chosen so that both its prefix and its data fit. */
    method SelectChunk(room: nat)
      requires Valid() && chunking && state == TX_START && chunkbuf != "" && room > CHUNK_LOW
      requires room + RESERVE <= outputSize - |output|
      modifies this`state, this`txLen, this`prefix
      ensures Valid() && state == TX_HEADER && (AllFits() ==> old(AllFits()))
      ensures room + RESERVE == outputSize - |output| ==> (AllFits() <==> old(AllFits()))
    {
      hide Wire, Bodies, WellFormed, StartFits, RestFits;
      txLen := if |chunkbuf| < room - RESERVE then |chunkbuf| else room - RESERVE;
      PrefixIsLine(txLen);
      ChunkChosen(|chunkbuf|, outputSize - |output|, room + RESERVE, txLen);
      prefix := Prefix(txLen);
      state := TX_HEADER;
    }

    /** The prefix is put out; whether all of it was. */
    method PutPrefix() returns (put: bool)
      requires Valid() && chunking && state == TX_HEADER && |output| + RESERVE + CHUNK_LOW <= outputSize
      modifies this`output, this`stream, this`prefix, this`state
      ensures Valid() && put && state == TX_DATA && (AllFits() <==> old(AllFits()))
      ensures old(stream) <= stream && |output| - |stream| == |old(output)| - |old(stream)|
    {
      hide Prefix, Wire, Bodies, WellFormed, StartFits, RestFits;
      var free := outputSize - |output|;
      var written := if |prefix| < free then |prefix| else free;
      DataCut(stream, prefix, written);
      PutOutput(prefix[..written]);
      prefix := prefix[written..];
      put := prefix == "";
      if put {
        assert stream + prefix == stream && Wire(done) + Prefix(txLen) + "" == Wire(done) + Prefix(txLen);
        state := TX_DATA;
      }
    }

    /** As much of the current chunk's data as there is room for. */
    method PutData(room: nat)
      requires Valid() && chunking && state == TX_DATA && |output| + RESERVE + room <= outputSize && room > CHUNK_LOW
      modifies this`output, this`stream, this`part, this`chunkbuf, this`txLen, this`done, this`state
      ensures AllFits() ==> old(AllFits())
      ensures room + RESERVE == outputSize - |old(output)| ==> (AllFits() <==> old(AllFits()))
      ensures Valid() && |chunkbuf| < |old(chunkbuf)|
      ensures old(stream) <= stream && |output| - |stream| == |old(output)| - |old(stream)|
    {
      hide Prefix, Wire, Bodies, WellFormed, StartFits, RestFits;
      var len := if room < txLen then room else txLen;
      DataMoved(|chunkbuf|, txLen, outputSize - |output|, room + RESERVE, len);
      MoveData(len);
      if txLen <= 0 {
        FinishChunk();
        state := TX_START;
      }
    }

    method MoveData(len: nat)
      requires Valid() && chunking && state == TX_DATA && |output| + RESERVE + len <= outputSize && 0 < len <= txLen
      modifies this`output, this`stream, this`part, this`chunkbuf, this`txLen
      ensures |output| + RESERVE <= outputSize && |part| + txLen < SSIZE && 0 < |part|
      ensures sent <= headers + stream && (!failed ==> headers + stream == sent + output)
      ensures stream == Wire(done) + Prefix(|part| + txLen) + part && old(stream) <= stream
      ensures accepted == Bodies(done) + part + chunkbuf
      ensures txLen == old(txLen) - len && |chunkbuf| == |old(chunkbuf)| - len
      ensures |output| == |old(output)| + len && |stream| == |old(stream)| + len
    {
      hide Prefix, Wire, Bodies, WellFormed;
      var data := chunkbuf[..len];
      DataCut(Bodies(done) + part, chunkbuf, len);
      Assoc(Bodies(done), part, data);
      Assoc(Wire(done) + Prefix(|part| + txLen), part, data);
      PutOutput(data);
      part := part + data;
      chunkbuf := chunkbuf[len..];
      txLen := txLen - len;
    }

    /** The current chunk is complete. */
    ghost method FinishChunk()
      requires |output| + RESERVE <= outputSize && |chunkbuf| <= chunkSize < SSIZE && chunking
      requires (!failed ==> headers + stream == sent + output) && forall i :: 0 <= i < |done| ==> WellFormed(done[i])
      requires accepted == Bodies(done) + part + chunkbuf && after == "" && lost == "" && 0 < |part| < SSIZE
      requires stream == Wire(done) + Prefix(|part|) + part
      modifies this`done, this`part
      ensures part == "" && stream == Wire(done) && accepted == Bodies(done) + part + chunkbuf
      ensures forall i :: 0 <= i < |done| ==> WellFormed(done[i])
    {
      Completed(done, part, stream, accepted, chunkbuf);
      hide Wire, Bodies, WellFormed, Coded, Prefix;
      done, part := done + [Coded(part)], "";
      assert Bodies(done) + "" == Bodies(done);
    }

    /** websFlush: more of the body is coded; once it all is and the body is declared complete, the
        trailer ends it; then the socket is offered all there is until it takes nothing.  Returns whether
        the output buffer was emptied without an error.  Then a body declared complete makes the state
        complete, even if the buffer is empty only because what is left in chunkbuf did not fit into it. */
    method Flush() returns (drained: bool)
      requires Valid()
      modifies this
      ensures Valid() && accepted == old(accepted) && old(stream) <= stream
      ensures finalized == old(finalized) && headers == old(headers) && flushes == old(flushes) + 1
      ensures narrow >= old(narrow) && blocked >= old(blocked)
      ensures chunking <==> old(chunking) && (chunkbuf != "" || !finalized)
      ensures old(chunking) ==> lost == "" && after == "" && |chunkbuf| <= |old(chunkbuf)|
      ensures !old(chunking) ==> lost == old(lost) && after == old(after) && done == old(done)
      ensures !old(chunking) ==> chunkbuf == old(chunkbuf) && stream == old(stream)
      ensures old(chunking) && chunkbuf == "" ==> old(AllFits())
      ensures old(chunking) && narrow == old(narrow) ==> (chunkbuf == "" <==> old(AllFits()))
      ensures old(chunking) && chunkbuf != "" && narrow == old(narrow) ==>
                !Reasonable(outputSize - |old(output)| - (|stream| - |old(stream)|))
      ensures old(chunking) && old(chunkbuf) != "" && !Reasonable(outputSize - |old(output)|) ==>
                chunkbuf == old(chunkbuf) && stream == old(stream)
      ensures drained ==> output == "" && failed == old(failed) && (complete <==> old(complete) || finalized)
      ensures !drained && output == "" ==> failed && complete
      ensures output != "" ==>
                !drained && failed == old(failed) && complete == old(complete) && blocked > old(blocked)
    {
      hide AllFits, Valid, Reasonable;
      Counted();
      CodeMore();
      drained := DrainOutput();
    }

    ghost method Counted()
      requires Valid()
      modifies this`flushes
      ensures Valid() && flushes == old(flushes) + 1
    {
      hide Prefix, Wire, Bodies, WellFormed;
      flushes := flushes + 1;
    }

    /** The first half of websFlush: coding, and the trailer. */
    method CodeMore()
      requires Valid()
      modifies this`narrow, this`output, this`stream, this`prefix, this`part, this`chunkbuf, this`txLen, this`done,
               this`state, this`chunking
      ensures Valid() && old(stream) <= stream && narrow >= old(narrow)
      ensures chunking <==> old(chunking) && (chunkbuf != "" || !finalized)
      ensures old(chunking) ==> lost == "" && after == "" && |chunkbuf| <= |old(chunkbuf)|
      ensures !old(chunking) ==> chunkbuf == old(chunkbuf) && stream == old(stream) && done == old(done)
      ensures old(chunking) && chunkbuf == "" ==> old(AllFits())
      ensures old(chunking) && narrow == old(narrow) ==> (chunkbuf == "" <==> old(AllFits()))
      ensures old(chunking) && chunkbuf != "" && narrow == old(narrow) ==>
                !Reasonable(outputSize - |old(output)| - (|stream| - |old(stream)|))
      ensures old(chunking) && old(chunkbuf) != "" && !Reasonable(outputSize - |old(output)|) ==>
                chunkbuf == old(chunkbuf) && stream == old(stream)
    {
      hide AllFits, Valid, Reasonable;
      if chunking {
        NothingAfter();
        var all := FlushChunkData();
        if all && finalized {
          PutTrailer();
        }
      }
    }

    lemma NothingAfter()
      requires Valid() && chunking
      ensures after == "" && lost == ""
    {
      hide Prefix, Wire, Bodies, WellFormed;
    }

    method PutTrailer()
      requires Valid() && chunking && chunkbuf == ""
      modifies this`output, this`stream, this`chunking
      ensures Valid() && !chunking && after == "" && lost == ""
      ensures old(stream) <= stream
    {
      hide Wire, Bodies, WellFormed;
      PutOutput(TRAILER);
      chunking := false;
      assert Bodies(done) + "" + "" == Bodies(done);
      assert Wire(done) + TRAILER + "" == Wire(done) + TRAILER;
    }

    /** The loop that offers the output buffer to the socket. */
    method DrainOutput() returns (drained: bool)
      requires Valid()
      modifies this`output, this`sent, this`failed, this`complete, this`blocked
      ensures Valid() && blocked >= old(blocked)
      ensures drained ==> output == "" && failed == old(failed) && (complete <==> old(complete) || finalized)
      ensures !drained && output == "" ==> failed && complete
      ensures output != "" ==>
                !drained && failed == old(failed) && complete == old(complete) && blocked > old(blocked)
    {
      hide Wire, Bodies, WellFormed, Prefix;
      while |output| > 0
        invariant Valid() && failed == old(failed) && complete == old(complete) && blocked == old(blocked)
        decreases |output|
      {
        var written := WriteSocket(|output|);
        if written < 0 {
          output := "";
          complete := true;
          return false;
        } else if written == 0 {
          break;
        }
        Take(written);
      }
      if |output| == 0 && finalized {
        complete := true;
      }
      return |output| == 0;
    }

    /** The socket has taken `n` bytes: bufAdjustStart. */
    method Take(n: nat)
      requires Valid() && 0 < n <= |output|
      modifies this`output, this`sent
      ensures Valid() && |output| == |old(output)| - n
    {
      hide Wire, Bodies, WellFormed;
      if !failed {
        DataCut(sent, output, n);
        sent := sent + output[..n];
      }
      output := output[n..];
    }

    /** websDone.  If not everything fits, the body stays unfinished whatever rooms are reported; if the
        output buffer is then emptied, the state is complete all the same. */
    method Done()
      requires Valid()
      modifies this
      ensures Valid() && finalized && accepted == old(accepted) && old(stream) <= stream && headers == old(headers)
      ensures old(finalized) ==> unchanged(this)
      ensures !old(finalized) ==> flushes == old(flushes) + 1 && narrow >= old(narrow) && blocked >= old(blocked)
      ensures !old(finalized) && old(chunking) ==> (chunking <==> chunkbuf != "")
      ensures !old(finalized) && old(chunking) && !old(AllFits()) ==> chunking
      ensures !old(finalized) && old(chunking) && old(AllFits()) && narrow == old(narrow) ==> !chunking
      ensures !old(finalized) && old(chunking) && old(chunkbuf) != "" && !Reasonable(outputSize - |old(output)|) ==>
                chunkbuf == old(chunkbuf) && stream == old(stream)
      ensures !old(finalized) && output == "" ==> complete
      ensures !old(finalized) && output != "" ==> complete == old(complete) && blocked > old(blocked)
      ensures failed && !old(failed) ==> output == ""
    {
      hide StartFits, RestFits, Prefix, Wire, Bodies, WellFormed, Reasonable;
      if finalized {
        return;
      }
      finalized := true;
      var drained := Flush();
    }

    /** websWriteBlock: the block goes to chunkbuf if chunking was on at the call, in as many steps
        as room demands.  Returns how much was taken: all of it unless the state is or becomes complete, or
        the buffer is full, and that only after a flush. */
    method WriteBlock(buf: string) returns (written: nat)
      requires Valid()
      modifies this
      ensures Valid() && written <= |buf| && old(stream) <= stream
      ensures finalized == old(finalized) && headers == old(headers)
      ensures written == |buf| || complete
              || (if old(chunking) then |chunkbuf| == chunkSize else |output| == outputSize)
      ensures old(complete) ==> written == 0 && unchanged(this)
      ensures written < |buf| && !complete ==> flushes > old(flushes)
      ensures old(chunking) ==> accepted + lost == old(accepted) + buf[..written]
      ensures old(chunking) && !finalized ==> chunking && lost == ""
      ensures !old(chunking) ==> !chunking && accepted == old(accepted) && lost == old(lost)
                                 && after == old(after) + buf[..written]
    {
      assert chunking ==> lost == "" && after == "";
      hide Valid, Free;
      var toChunks := chunking;
      written := 0;
      assert buf[..0] == "" && after + "" == after;
      assert accepted + "" == accepted;
      while written < |buf| && !complete
        invariant Valid() && written <= |buf| && old(stream) <= stream
        invariant finalized == old(finalized) && headers == old(headers) && flushes >= old(flushes)
        invariant old(complete) ==> written == 0 && unchanged(this)
        invariant (toChunks ==> chunking || finalized) && (chunking ==> lost == "")
        invariant toChunks ==> accepted + lost == old(accepted) + buf[..written]
        invariant !toChunks ==> !chunking && accepted == old(accepted) && lost == old(lost)
                                && after == old(after) + buf[..written]
        decreases |buf| - written
      {
        var n := WriteSome(buf[written..], toChunks);
        if n == 0 {
          NoneFree(toChunks);
          break;
        }
        TakeMore(old(accepted), buf, written, n);
        TakeMore(old(after), buf, written, n);
        written := written + n;
      }
    }

    /** One round of websWriteBlock's loop, which ends when it takes nothing; that is when the buffer is
        still full after a flush. */
    method WriteSome(buf: string, toChunks: bool) returns (thisWrite: nat)
      requires Valid() && buf != "" && (toChunks ==> chunking || finalized) && (!toChunks ==> !chunking)
      modifies this
      ensures Valid() && thisWrite <= |buf| && old(stream) <= stream
      ensures thisWrite == 0 ==> Free(toChunks) == 0
      ensures flushes >= old(flushes) && (thisWrite < |buf| ==> flushes > old(flushes))
      ensures finalized == old(finalized) && headers == old(headers)
      ensures (toChunks ==> chunking || finalized) && (chunking ==> lost == "")
      ensures toChunks ==> accepted + lost == old(accepted + lost) + buf[..thisWrite]
      ensures !toChunks ==> !chunking && accepted == old(accepted) && lost == old(lost)
                            && after == old(after) + buf[..thisWrite]
    {
      hide Valid, Free;
      var room := BufRoom(toChunks);
      if room < |buf| {
        FlushForRoom(toChunks);
        room := BufRoom(toChunks);
      }
      thisWrite := if room < |buf| then room else |buf|;
      PutBlock(buf[..thisWrite], toChunks);
    }

    lemma NoneFree(toChunks: bool)
      requires Valid() && Free(toChunks) == 0
      ensures if toChunks then |chunkbuf| == chunkSize else |output| == outputSize
    {
      hide Wire, Bodies, WellFormed, Prefix;
    }

    /** The flush in websWriteBlock. */
    method FlushForRoom(ghost toChunks: bool)
      requires Valid() && (toChunks ==> chunking || finalized) && (!toChunks ==> !chunking)
      modifies this
      ensures Valid() && old(stream) <= stream && (toChunks ==> chunking || finalized) && (!toChunks ==> !chunking)
      ensures finalized == old(finalized) && headers == old(headers)
      ensures accepted == old(accepted) && lost == old(lost) && after == old(after) && (chunking ==> lost == "")
      ensures flushes > old(flushes)
    {
      var drained := Flush();
    }

    /** bufPutBlk on the buffer chosen. */
    method PutBlock(block: string, toChunks: bool)
      requires Valid() && |block| <= Free(toChunks) && (toChunks ==> chunking || finalized) && (!toChunks ==> !chunking)
      modifies this`output, this`stream, this`chunkbuf, this`accepted, this`lost, this`after
      ensures Valid() && old(stream) <= stream && (chunking ==> lost == "")
      ensures Free(toChunks) == old(Free(toChunks)) - |block|
      ensures toChunks ==> accepted + lost == old(accepted + lost) + block
      ensures !toChunks ==> accepted == old(accepted) && lost == old(lost) && after == old(after) + block
    {
      hide Valid;
      if toChunks {
        PutChunkbuf(block);
        assert old(accepted) + (old(lost) + block) == old(accepted) + old(lost) + block;
      } else {
        PutAfter(block);
      }
    }

    /** bufPutBlk on chunkbuf. */
    method PutChunkbuf(block: string)
      requires Valid() && |chunkbuf| + |block| <= chunkSize
      modifies this`chunkbuf, this`accepted, this`lost
      ensures Valid() && chunkbuf == old(chunkbuf) + block
      ensures Free(true) == old(Free(true)) - |block|
      ensures chunking ==> accepted == old(accepted) + block && lost == old(lost) == ""
      ensures !chunking ==> accepted == old(accepted) && lost == old(lost) + block
    {
      hide Wire, Bodies, WellFormed, Prefix;
      ghost var coded, before := Bodies(done) + part, chunkbuf;
      Assoc(coded, before, block);
      chunkbuf := chunkbuf + block;
      if chunking {
        accepted := accepted + block;
        assert accepted == coded + chunkbuf;
      } else {
        lost := lost + block;
      }
    }

    /** bufPutBlk on the output buffer, when the body is over. */
    method PutAfter(block: string)
      requires Valid() && !chunking && |output| + |block| <= outputSize
      modifies this`output, this`stream, this`after
      ensures Valid() && stream == old(stream) + block && after == old(after) + block
      ensures Free(false) == old(Free(false)) - |block|
    {
      hide Wire, Bodies, WellFormed;
      PutOutput(block);
      after := after + block;
      assert Wire(done) + TRAILER + after == stream;
    }
  }

  lemma TakeMore(a: string, buf: string, written: nat, n: nat)
    requires written + n <= |buf|
    ensures a + buf[..written] + buf[written..][..n] == a + buf[..written + n]
  {
  }

  lemma DataCut(a: string, b: string, k: nat)
    requires k <= |b|
    ensures a + b == a + b[..k] + b[k..]
  {
  }

  // ---------------------------------------------------------------- what runs of both sides do

  /** Once websFlush has cleared WEBS_CHUNKING, the stream is a well-formed coded body, whose data is
      every byte accepted, and what came after it. */
  lemma CodedWhole(s: Sender)
    requires s.Valid() && !s.chunking
    ensures Stream(s.done, "0", "") && Bodies(s.done) == s.accepted
    ensures s.stream == StreamText(s.done, "0", "") + s.after
  {
    ZeroLine();
  }

  lemma ZeroLine()
    ensures SizeLine("0", "", 0) && LastText("0", "") == TRAILER
  {
    assert HexFrom("0", 0) == HexFrom("0"[1..], 0);
  }

  /** Before that it is part of one that codes a prefix of the bytes accepted, and not all of it. */
  lemma CodedPart(s: Sender) returns (cs: seq<Chunk>, rest: string)
    requires s.Valid() && s.chunking
    ensures Stream(cs, "0", "") && Bodies(cs) <= s.accepted
    ensures rest != "" && s.stream + rest == StreamText(cs, "0", "")
  {
    ZeroLine();
    if s.state == TX_START {
      cs, rest := s.done, TRAILER;
      assert Bodies(cs) <= Bodies(cs) + s.part + s.chunkbuf;
    } else {
      var left := s.chunkbuf[..s.txLen];
      var pending := if s.state == TX_HEADER then s.prefix else "";
      cs, rest := CodedChunk(s.done, s.part, left, s.stream, pending);
      assert s.accepted == Bodies(cs) + s.chunkbuf[s.txLen..];
    }
  }

  lemma CodedChunk(done: seq<Chunk>, part: string, left: string, stream: string, pending: string)
    returns (cs: seq<Chunk>, rest: string)
    requires left != "" && |part| + |left| < SSIZE && forall i :: 0 <= i < |done| ==> WellFormed(done[i])
    requires stream + pending == Wire(done) + Prefix(|part| + |left|) + part
    ensures Stream(cs, "0", "") && Bodies(cs) == Bodies(done) + part + left
    ensures rest != "" && stream + rest == StreamText(cs, "0", "")
  {
    ZeroLine();
    var body := part + left;
    PrefixIsLine(|body|);
    WireAppend(done, Coded(body));
    assert LineText(Coded(body).digits, Coded(body).ext) == Prefix(|body|);
    cs, rest := done + [Coded(body)], pending + left + TRAILER;
    hide Wire, LineText, LastText, SizeLine, Bodies, Prefix;
    assert Bodies(cs) == Bodies(done) + part + left;
    Four(stream, pending, left, TRAILER);
    Four(Wire(done), Prefix(|body|), part, left);
  }

  lemma Four(a: string, b: string, c: string, d: string)
    ensures a + (b + c + d) == a + b + c + d
    ensures a + (b + (c + d)) == a + b + c + d
  {
  }

  /** What it means that the output buffer was emptied, as it is when the state becomes complete without
      an error: the socket has taken all of the stream, and that holds a whole coded body exactly if
      coding is over, in which case it is the one of every byte accepted. */
  lemma Emptied(s: Sender)
    requires s.Valid() && s.output == "" && !s.failed
    ensures s.sent == s.headers + s.stream
    ensures !s.chunking ==> Stream(s.done, "0", "") && Bodies(s.done) == s.accepted
                            && s.stream == StreamText(s.done, "0", "") + s.after
    ensures s.chunking ==> forall cs, digits, ext :: Stream(cs, digits, ext) ==>
                             !(StreamText(cs, digits, ext) <= s.stream)
  {
    assert s.sent + s.output == s.sent;
    if s.chunking {
      forall cs, digits, ext | Stream(cs, digits, ext)
        ensures !(StreamText(cs, digits, ext) <= s.stream)
      {
        if StreamText(cs, digits, ext) <= s.stream {
          NotWhole(s, cs, digits, ext);
        }
      }
    } else {
      CodedWhole(s);
    }
  }

  lemma NotWhole(s: Sender, cs: seq<Chunk>, digits: string, ext: string)
    requires s.Valid() && s.chunking && Stream(cs, digits, ext)
    ensures !(StreamText(cs, digits, ext) <= s.stream)
  {
    var whole, rest := CodedPart(s);
    if StreamText(cs, digits, ext) <= s.stream {
      hide Classify, Walk, StreamText, Stream, Sender.Valid;
      var used := StreamText(cs, digits, ext);
      assert used + "" == used;
      WalkWhole(cs, digits, ext);
      PrefixOn(used, s.stream, rest);
      OnTrack(whole, "0", "", "", used, "");
      assert false;
    }
  }

  /** A body that no response of this size gets out: the headers leave no reasonable room, the body waits
      in chunkbuf and is declared complete.  If the socket takes the headers, the state is complete, and
      nothing of the body was sent. */
  method BodyStays(headers: string, body: string, outputSize: nat, chunkSize: nat) returns (s: Sender)
    requires |headers| + RESERVE <= outputSize && !Reasonable(outputSize - |headers|)
    requires body != "" && |body| <= chunkSize < SSIZE
    ensures s.Valid() && s.accepted == body && s.chunking && s.chunkbuf == body && s.stream == ""
    ensures s.blocked == 0 && !s.failed ==> s.complete && s.sent == headers
  {
    s := new Sender(headers, outputSize, chunkSize);
    s.PutChunkbuf(body);
    s.Done();
    if s.blocked == 0 && !s.failed {
      Emptied(s);
      assert s.headers + "" == s.headers;
    }
  }

  /** The whole-run theorem.  In every state that the two sides can reach, with the receiver having
      got any part of the stream in any pieces: it has delivered a prefix of the body accepted and
      refused nothing; it reports the end only when coding is over, and then it has delivered
      exactly the body; and when all of the coded body has arrived it does report the end, unless
      its last call returned because the input buffer was full. */
  lemma EndToEnd(s: Sender, r: Receiver)
    requires s.Valid() && r.Valid() && r.arrived <= s.stream
    ensures r.delivered <= s.accepted && !r.refused
    ensures r.eof ==> !s.chunking && r.delivered == s.accepted && r.rxbuf <= s.after
    ensures !s.chunking && |r.arrived| + |s.after| >= |s.stream| && r.Stopped(false) ==> r.eof
  {
    if s.chunking {
      var cs, rest := CodedPart(s);
      assert StreamText(cs, "0", "") + "" == StreamText(cs, "0", "");
      PrefixOn(r.arrived, s.stream, rest);
      DecodesStream(r, cs, "0", "", "");
      hide StreamText;
      PrefixOfPrefix(r.delivered, Bodies(cs), s.accepted);
      if r.eof {
        assert false;
      }
    } else {
      CodedWhole(s);
      DecodesStream(r, s.done, "0", "", s.after);
      if r.eof {
        PrefixTail(StreamText(s.done, "0", ""), r.rxbuf, s.after);
      }
    }
  }

  lemma PrefixOn(a: string, b: string, c: string)
    requires a <= b
    ensures a <= b + c
  {
  }

  lemma PrefixOfPrefix(a: string, b: string, c: string)
    requires a <= b <= c
    ensures a <= c
  {
  }

  lemma PrefixTail(a: string, b: string, c: string)
    requires a + b <= a + c
    ensures b <= c
  {
    assert forall i :: 0 <= i < |b| ==> b[i] == (a + b)[|a| + i] == (a + c)[|a| + i] == c[i];
  }

  /** What can happen in a run: the application writes, flushes or declares the body complete; the
      network hands over some more of what the socket took; the receiver filters or is read from. */
  datatype Event = Write(block: string) | Flush | Finish | Transfer(n: nat) | Filter | Read(n: nat)

  /** Any run at all. */
  method Run(events: seq<Event>, headers: string, outputSize: nat, chunkSize: nat, limit: nat)
    returns (s: Sender, r: Receiver)
    requires |headers| + RESERVE <= outputSize && chunkSize < SSIZE
    ensures s.Valid() && r.Valid() && r.arrived <= s.stream
    ensures r.delivered <= s.accepted && !r.refused
    ensures r.eof ==> !s.chunking && r.delivered == s.accepted && r.rxbuf <= s.after
    ensures !s.chunking && |r.arrived| + |s.after| >= |s.stream| && r.Stopped(false) ==> r.eof
  {
    s := new Sender(headers, outputSize, chunkSize);
    r := new Receiver(limit);
    var at := 0;
    for i := 0 to |events|
      invariant fresh(s) && fresh(r) && s.Valid() && r.Valid() && s.headers == headers
      invariant r.arrived <= s.stream && |r.arrived| == at
    {
      match events[i]
      case Transfer(n) => at := Pass(s, r, |headers|, at, n);
      case Filter => FilterStep(s, r);
      case Read(n) => r.ConsumeInput(if n < |r.input| then n else |r.input|);
      case _ => SenderStep(s, r, events[i]);
    }
    EndToEnd(s, r);
  }

  method SenderStep(s: Sender, r: Receiver, event: Event)
    requires s.Valid() && r.Valid() && r.arrived <= s.stream
    modifies s
    ensures s.Valid() && r.Valid() && r.arrived <= s.stream && s.headers == old(s.headers)
  {
    match event
    case Write(block) => var written := s.WriteBlock(block);
    case Flush => var drained := s.Flush();
    case Finish => s.Done();
    case _ =>
    PrefixOfPrefix(r.arrived, old(s.stream), s.stream);
  }

  method FilterStep(s: Sender, r: Receiver)
    requires s.Valid() && r.Valid() && r.arrived <= s.stream
    modifies r
    ensures s.Valid() && r.Valid() && r.arrived == old(r.arrived)
  {
    EndToEnd(s, r);
    if !r.eof {
      var added, full := r.FilterChunkData();
    }
  }

  /** The network hands over up to `n` of the bytes behind the first `at` of the stream. */
  method Pass(s: Sender, r: Receiver, start: nat, at: nat, n: nat) returns (next: nat)
    requires s.Valid() && r.Valid() && start == |s.headers| && r.arrived <= s.stream && |r.arrived| == at
    modifies r
    ensures s.Valid() && r.Valid() && r.arrived <= s.stream && |r.arrived| == next
  {
    EndToEnd(s, r);
    hide *;
    next := at;
    if start + at < |s.sent| {
      next := if start + at + n < |s.sent| then at + n else |s.sent| - start;
      Extends(s.headers, s.stream, s.sent, r.arrived, start + next);
      var bytes := s.sent[start + at..start + next];
      assert r.arrived + bytes <= s.stream && |bytes| == next - at;
      r.Receive(bytes);
    }
  }

  lemma Extends(headers: string, stream: string, sent: string, arrived: string, k: nat)
    requires arrived <= stream && sent <= headers + stream && |headers| + |arrived| <= k <= |sent|
    ensures arrived + sent[|headers| + |arrived|..k] <= stream
  {
    var x := arrived + sent[|headers| + |arrived|..k];
    assert forall i :: |arrived| <= i < |x| ==> x[i] == sent[|headers| + i] == (headers + stream)[|headers| + i];
  }
}

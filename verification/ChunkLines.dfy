/** Which bytes filterChunkData takes for a delimiter, by their characters: exactly a size line between two
    line ends, and for the size 0 one line end more. */
module ChunkLines {
  import opened Ascii
  import opened ChunkText

  const CRLF: string := [13 as char, 10 as char]

  /** What stands between the line ends: hex digits first, and no line feed. */
  predicate Line(line: string) {
    line != "" && HexDigit(line[0]) >= 0 && 10 as char !in line
  }

  function DelimiterText(line: string): string {
    CRLF + line + CRLF + if HexToI(line) == 0 then CRLF else ""
  }

  /** hextoi of hex digits in their places, up to the first other character, modulo 2^32; an x behind a
      single leading zero is passed over with it. */
  lemma HexToIExactly(digits: string, tail: string)
    requires (forall c :: c in digits ==> HexDigit(c) >= 0) && (tail == "" || HexDigit(tail[0]) < 0)
    ensures !(digits == "0" && tail != "" && tail[0] in {'x', 'X'}) ==>
              HexToI(digits + tail) == HexFrom(digits, 0) % 0x1_0000_0000
    ensures HexToI("0x" + digits + tail) == HexToI("0X" + digits + tail) == HexFrom(digits, 0) % 0x1_0000_0000
  {
    HexRunStopsAt(digits, tail, 0);
    Prefixed(digits, tail);
    if !(digits == "0" && tail != "" && tail[0] in {'x', 'X'}) {
      NotPrefixed(digits, tail);
    }
    hide HexRun, HexFrom, HexStart;
  }

  lemma Prefixed(digits: string, tail: string)
    ensures HexStart("0x" + digits + tail) == digits + tail && HexStart("0X" + digits + tail) == digits + tail
  {
    assert ("0x" + digits + tail)[2..] == digits + tail && ("0X" + digits + tail)[2..] == digits + tail;
  }

  lemma NotPrefixed(digits: string, tail: string)
    requires (forall c :: c in digits ==> HexDigit(c) >= 0) && (tail == "" || HexDigit(tail[0]) < 0)
    requires !(digits == "0" && tail != "" && tail[0] in {'x', 'X'})
    ensures HexStart(digits + tail) == digits + tail
  {
    var s := digits + tail;
    if |digits| >= 2 {
      assert s[1] == digits[1] && digits[1] in digits;
    } else if |digits| == 1 {
      assert s[0] == digits[0] && (|s| >= 2 ==> s[1] == tail[0]);
    } else {
      assert s == tail;
    }
  }

  /** Each hex digit weighs sixteen times the next. */
  lemma {:induction false} HexPlaces(digits: string, c: char, v: nat)
    requires (forall d :: d in digits ==> HexDigit(d) >= 0) && HexDigit(c) >= 0
    ensures (forall d :: d in digits + [c] ==> HexDigit(d) >= 0)
    ensures HexFrom(digits + [c], v) == 16 * HexFrom(digits, v) + HexDigit(c) && HexFrom("", v) == v
  {
    if digits == "" {
      assert "" + [c] == [c] && [c][1..] == "";
    } else {
      assert (digits + [c])[1..] == digits[1..] + [c];
      HexPlaces(digits[1..], c, v * 16 + HexDigit(digits[0]));
    }
  }

  lemma {:induction false} HexRunStopsAt(digits: string, t: string, v: nat)
    requires (forall c :: c in digits ==> HexDigit(c) >= 0) && (t == "" || HexDigit(t[0]) < 0)
    ensures HexRun(digits + t, v % UINT) == HexFrom(digits, v) % UINT
  {
    if digits == "" {
      assert digits + t == t;
    } else {
      assert (digits + t)[1..] == digits[1..] + t && (digits + t)[0] == digits[0];
      WrapStep(v, HexDigit(digits[0]));
      HexRunStopsAt(digits[1..], t, v * 16 + HexDigit(digits[0]));
    }
  }

  lemma {:induction false} HexRunAlone(s: string, t: string, v: nat)
    requires v < UINT && t != "" && HexDigit(t[0]) < 0
    ensures HexRun(s + t, v) == HexRun(s, v)
  {
    if s == "" {
      assert s + t == t;
    } else {
      assert (s + t)[1..] == s[1..] + t;
      HexRunAlone(s[1..], t, if HexDigit(s[0]) >= 0 then (v * 16 + HexDigit(s[0])) % UINT else 0);
    }
  }

  /** A line end does not add to the number before it. */
  lemma LineNumber(line: string, t: string)
    requires line != "" && t != "" && t[0] as int == 13
    ensures HexToI(line + t) == HexToI(line)
  {
    assert HexStart(line + t) == HexStart(line) + t by {
      if |line| == 1 {
        assert (line + t)[1] == t[0];
      } else {
        assert (line + t)[2..] == line[2..] + t;
      }
    }
    HexRunAlone(HexStart(line), t, 0);
  }

  lemma LinePlaces(line: string, t: string)
    requires Line(line)
    ensures var s := CRLF + line + CRLF + t;
            var cp := |line| + 3;
            && |s| >= 5 && NewLine(s, 2) == cp && cp < |s| && s[0] == '\r' && s[1] == '\n' && s[cp - 1] == '\r'
            && s[2] == line[0] && HexToI(s[2..]) == HexToI(line) && |s| == cp + 1 + |t|
            && (forall k :: 0 <= k < |t| ==> s[cp + 1 + k] == t[k])
  {
    hide HexToI, NewLine;
    var s := CRLF + line + CRLF + t;
    LineEnds(line, t);
    NewLineIs(s, 2, |line| + 3);
    LineNumber(line, CRLF + t);
  }

  lemma LineEnds(line: string, t: string)
    requires Line(line)
    ensures var s := CRLF + line + CRLF + t;
            && s[2..] == line + (CRLF + t) && forall i :: 2 <= i < |line| + 3 ==> s[i] as int != 10
  {
    var s := CRLF + line + CRLF + t;
    assert forall i :: 2 <= i < |line| + 2 ==> s[i] == line[i - 2] && s[i] in line;
  }

  /** What is made of a line that has arrived with its line end. */
  lemma LineClassified(line: string, t: string)
    requires Line(line)
    ensures var n := HexToI(line);
            Classify(CRLF + line + CRLF + t)
            == if n >= 0x8000_0000 then Bad
               else if n > 0 then Delimiter(|line| + 4, n)
               else if |t| < 2 then Short
               else if t[..2] == CRLF then Delimiter(|line| + 6, 0)
               else Bad
  {
    LinePlaces(line, t);
    hide NewLine, HexToI, Line;
    if |t| >= 2 {
      assert t[..2] == CRLF <==> t[0] as int == 13 && t[1] as int == 10;
    }
  }

  lemma Classified(s: string) returns (line: string, t: string)
    requires |s| >= 5 && NewLine(s, 2) < |s|
    requires s[0] == '\r' && s[1] == '\n' && s[NewLine(s, 2) - 1] == '\r' && HexDigit(s[2]) >= 0
    ensures Line(line) && s == CRLF + line + CRLF + t
  {
    var cp := NewLine(s, 2);
    assert cp >= 4;
    line, t := s[2..cp - 1], s[cp + 1..];
    assert forall c :: c in line ==> c as int != 10;
    assert s == s[..2] + line + s[cp - 1..cp + 1] + t;
    assert s[..2] == CRLF && s[cp - 1..cp + 1] == CRLF;
  }

  /** The unread bytes start with a delimiter exactly if they start with the text of one whose size is a
      positive 32-bit number or 0. */
  lemma DelimiterExactly(s: string, len: nat, size: nat)
    ensures Classify(s) == Delimiter(len, size)
       <==> exists line :: Line(line) && HexToI(line) == size < 0x8000_0000 && DelimiterText(line) <= s
                           && len == |DelimiterText(line)|
  {
    if Classify(s) == Delimiter(len, size) {
      var line, t := Classified(s);
      LineClassified(line, t);
      hide Classify, HexToI;
      Starts(line, t);
      assert Line(line) && DelimiterText(line) <= s;
    }
    forall line | Line(line) && HexToI(line) == size < 0x8000_0000 && DelimiterText(line) <= s
                  && len == |DelimiterText(line)|
      ensures Classify(s) == Delimiter(len, size)
    {
      hide Classify, HexToI;
      var t := Behind(line, s);
      LineClassified(line, t);
    }
  }

  lemma Starts(line: string, t: string)
    ensures HexToI(line) != 0 || (|t| >= 2 && t[..2] == CRLF) ==> DelimiterText(line) <= CRLF + line + CRLF + t
    ensures |DelimiterText(line)| == |line| + if HexToI(line) == 0 then 6 else 4
  {
    hide HexToI;
    if |t| >= 2 {
      assert t == t[..2] + t[2..];
    }
  }

  lemma Behind(line: string, s: string) returns (t: string)
    requires DelimiterText(line) <= s
    ensures s == CRLF + line + CRLF + t && (HexToI(line) == 0 ==> |t| >= 2 && t[..2] == CRLF)
    ensures |DelimiterText(line)| == |line| + if HexToI(line) == 0 then 6 else 4
  {
    hide HexToI;
    var d := CRLF + line + CRLF;
    t := s[|d|..];
    assert d <= DelimiterText(line);
    assert s[..|d|] == DelimiterText(line)[..|d|] == d;
    assert s == d + t;
    if HexToI(line) == 0 {
      assert DelimiterText(line)[|d|..] == CRLF;
      assert t[..2] == DelimiterText(line)[|d|..];
    }
  }

  /** More bytes are waited for exactly while there are fewer than five, or fewer than 80 without the end
      of a line, or the line end behind the size 0 is not whole. */
  lemma ShortExactly(s: string)
    ensures Classify(s) == Short
       <==> |s| < 5 || (10 as char !in s[2..] && |s| < 80)
            || exists line, t :: Line(line) && HexToI(line) == 0 && |t| < 2 && s == CRLF + line + CRLF + t
  {
    if |s| >= 5 {
      var cp := NewLine(s, 2);
      assert cp == |s| <==> 10 as char !in s[2..] by {
        assert cp < |s| ==> s[2..][cp - 2] in s[2..];
        assert forall c :: c in s[2..] ==> exists i :: 2 <= i < |s| && s[i] == c;
      }
      if Classify(s) == Short && cp < |s| {
        var line, t := Classified(s);
        LineClassified(line, t);
      }
      forall line, t | Line(line) && HexToI(line) == 0 && |t| < 2 && s == CRLF + line + CRLF + t
        ensures Classify(s) == Short
      {
        LineClassified(line, t);
      }
    }
  }
}

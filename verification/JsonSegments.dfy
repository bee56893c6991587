/** What cJSON_Minify keeps of any text, said without its loops: a text is a sequence of spaces, comments,
    literals and single characters, and exactly the literals and characters are left. */
module JsonSegments {
  import opened JsonText
  import opened JsonMinify
  import opened Wrappers

  /** Inside a literal, each backslash goes with the character behind it. */
  datatype Unit = One(c: char) | Two(c: char)

  datatype Segment =
    | Space(c: char)
    | Line(body: string)
    | Block(rest: string)
    | Literal(units: seq<Unit>)
    | Single(c: char)

  predicate ProperUnit(u: Unit) {
    u.One? ==> u.c as int != 34 && u.c as int != 92
  }

  function UnitText(u: Unit): string {
    match u
    case One(c) => [c]
    case Two(c) => [92 as char, c]
  }

  function UnitsText(us: seq<Unit>): string {
    if us == [] then "" else UnitText(us[0]) + UnitsText(us[1..])
  }

  function SegmentText(g: Segment): string {
    match g
    case Space(c) => [c]
    case Line(body) => "//" + body
    case Block(rest) => "/" + rest
    case Literal(us) => [34 as char] + UnitsText(us) + [34 as char]
    case Single(c) => [c]
  }

  /** The closing characters of a comment stand first at the end of the text. */
  predicate ClosesLast(s: string) {
    |s| >= 2 && s[|s| - 2..] == "*/" && forall i :: 0 <= i < |s| - 2 ==> !(s[i] == '*' && s[i + 1] == '/')
  }

  /** The segment stands where `next` follows it.  The spaces are tab, line feed, carriage return and space.
      A multi-line comment is `Block` of what stands behind its slash; the star that opens it may be the
      one that closes it. */
  predicate Proper(g: Segment, next: string) {
    match g
    case Space(c) => c as int in {9, 10, 13, 32}
    case Line(body) => 10 as char !in body && (next == "" || next[0] as int == 10)
    case Block(rest) => ClosesLast(rest) && rest[0] == '*'
    case Literal(us) => forall u :: u in us ==> ProperUnit(u)
    case Single(c) => c as int !in {9, 10, 13, 32, 34} && (c == '/' ==> next == "" || next[0] !in {'/', '*'})
  }

  function Text(gs: seq<Segment>): string {
    if gs == [] then "" else SegmentText(gs[0]) + Text(gs[1..])
  }

  predicate AllProper(gs: seq<Segment>) {
    gs == [] || (Proper(gs[0], Text(gs[1..])) && AllProper(gs[1..]))
  }

  function Kept(gs: seq<Segment>): string {
    if gs == [] then ""
    else (if gs[0].Literal? || gs[0].Single? then SegmentText(gs[0]) else "") + Kept(gs[1..])
  }

  // ---------------------------------------------------------------- one segment

  lemma Assoc(a: string, b: string, c: string)
    ensures a + b + c == a + (b + c)
  {
  }

  lemma LineTo(w: string, t: string)
    requires 10 as char !in w && (t == "" || t[0] as int == 10)
    ensures ToNewline(w + t) == t
  {
    if w == "" {
      assert w + t == t;
    } else {
      assert (w + t)[1..] == w[1..] + t;
      LineTo(w[1..], t);
    }
  }

  lemma {:induction false} CommentTo(u: string, t: string)
    requires ClosesLast(u)
    ensures ToCommentEnd(u + t) == "*/" + t
  {
    assert Peek(u + t, 1) == u[1];
    if |u| == 2 {
      assert u == "*/";
    } else {
      assert u[1..][|u| - 3..] == u[|u| - 2..];
      assert (u + t)[1..] == u[1..] + t;
      CommentTo(u[1..], t);
    }
  }

  lemma {:induction false} UnitsKept(us: seq<Unit>, t: string)
    requires forall u :: u in us ==> ProperUnit(u)
    ensures var b := UnitsText(us) + [34 as char]; Minify(b + t, true) == Pre(b, Minify(t, false))
  {
    var q := [34 as char];
    if us == [] {
      assert UnitsText(us) + q == q && (q + t)[..1] == q && (q + t)[1..] == t;
    } else {
      var x, b := UnitText(us[0]), UnitsText(us[1..]) + q;
      UnitsKept(us[1..], t);
      assert UnitsText(us) + q == x + b;
      assert ProperUnit(us[0]);
      Assoc(x, b, t);
      assert (x + (b + t))[..|x|] == x && (x + (b + t))[|x|..] == b + t;
      assert Minify(x + (b + t), true) == Pre(x, Minify(b + t, true));
      hide Minify, UnitsText;
      PrePre(x, b, Minify(t, false));
    }
  }

  lemma LiteralKept(us: seq<Unit>, t: string)
    requires Proper(Literal(us), t)
    ensures var x := SegmentText(Literal(us)); Minify(x + t, false) == Pre(x, Minify(t, false))
  {
    var q := [34 as char];
    var b := UnitsText(us) + q;
    UnitsKept(us, t);
    hide UnitsText;
    assert SegmentText(Literal(us)) == q + b by { Assoc(q, UnitsText(us), q); }
    Assoc(q, b, t);
    assert (q + (b + t))[..1] == q && (q + (b + t))[1..] == b + t;
    PrePre(q, b, Minify(t, false));
  }

  lemma BlockDropped(rest: string, t: string)
    requires Proper(Block(rest), t)
    ensures Minify(SegmentText(Block(rest)) + t, false) == Minify(t, false)
  {
    CommentTo(rest, t);
    Assoc("/", rest, t);
    hide ToCommentEnd, ClosesLast;
    assert ("/" + (rest + t))[1..] == rest + t && ("*/" + t)[2..] == t;
    assert (rest + t)[0] == '*';
  }

  lemma LineDropped(body: string, t: string)
    requires Proper(Line(body), t)
    ensures Minify(SegmentText(Line(body)) + t, false) == Minify(t, false)
  {
    var u := "/" + body;
    LineTo(u, t);
    assert SegmentText(Line(body)) + t == "/" + (u + t);
    hide ToNewline;
    assert ("/" + (u + t))[1..] == u + t;
    assert (u + t)[0] == '/';
  }

  lemma CharMinified(c: char, t: string)
    requires c as int != 34 && (c == '/' ==> t == "" || t[0] !in {'/', '*'})
    ensures Minify([c] + t, false)
         == if c as int in {9, 10, 13, 32} then Minify(t, false) else Pre([c], Minify(t, false))
  {
    var s := [c] + t;
    assert s[1..] == t && s[..1] == [c];
    assert Peek(s, 1) == Head(t);
  }

  /** What minifying does to one segment. */
  lemma SegmentMinified(g: Segment, t: string)
    requires Proper(g, t)
    ensures var x := SegmentText(g);
            Minify(x + t, false) == if g.Literal? || g.Single? then Pre(x, Minify(t, false)) else Minify(t, false)
  {
    hide Minify;
    match g
    case Space(c) => CharMinified(c, t);
    case Line(body) => LineDropped(body, t);
    case Block(rest) => BlockDropped(rest, t);
    case Literal(us) => LiteralKept(us, t);
    case Single(c) => CharMinified(c, t);
  }

  lemma {:induction false} SegmentsMinified(gs: seq<Segment>)
    requires AllProper(gs)
    ensures Minify(Text(gs), false) == Some(Kept(gs))
  {
    hide Minify, Proper, SegmentText;
    if gs == [] {
      MinifyNothing();
    } else {
      var x := SegmentText(gs[0]);
      SegmentMinified(gs[0], Text(gs[1..]));
      SegmentsMinified(gs[1..]);
      assert "" + Kept(gs[1..]) == Kept(gs[1..]);
    }
  }

  // ---------------------------------------------------------------- the segments of a text

  lemma {:induction false} LineFound(s: string) returns (w: string)
    ensures 10 as char !in w && w + ToNewline(s) == s
    ensures ToNewline(s) == "" || ToNewline(s)[0] as int == 10
  {
    if s == "" || s[0] == '\n' {
      w := "";
    } else {
      var rest := LineFound(s[1..]);
      w := [s[0]] + rest;
    }
  }

  lemma ClosesOne(s: string, u: string)
    requires ClosesLast(u) && s != "" && !(s[0] == '*' && u[0] == '/')
    ensures ClosesLast([s[0]] + u)
  {
    var v := [s[0]] + u;
    assert v[|v| - 2..] == u[|u| - 2..];
    assert forall i :: 0 < i < |v| ==> v[i] == u[i - 1];
  }

  lemma ClosesTwo(s: string)
    requires |s| >= 2 && s[0] == '*' && s[1] == '/'
    ensures ClosesLast(s[..2]) && ToCommentEnd(s) == s && s[..2] + s[2..] == s
  {
    assert s[..2][0..] == "*/";
  }

  lemma CommentOpen(s: string)
    requires ToCommentEnd(s) != []
    ensures s != "" && (s[0] == '*' && Peek(s, 1) == '/' ==> |s| >= 2 && s[1] == '/')
  {
  }

  lemma {:induction false} CommentFound(s: string) returns (u: string)
    requires ToCommentEnd(s) != []
    ensures ClosesLast(u) && u + ToCommentEnd(s)[2..] == s
  {
    hide ToCommentEnd, ClosesLast;
    CommentOpen(s);
    if s[0] == '*' && Peek(s, 1) == '/' {
      ClosesTwo(s);
      u := s[..2];
    } else {
      var t := s[1..];
      CommentStep(s, Peek(s, 1));
      var rest := CommentFound(t);
      ClosesSome(rest);
      assert rest[0] == t[0] == Peek(s, 1);
      ClosesOne(s, rest);
      u := [s[0]] + rest;
      Assoc([s[0]], rest, ToCommentEnd(t)[2..]);
      assert s == [s[0]] + t;
    }
  }

  lemma ClosesSome(u: string)
    requires ClosesLast(u)
    ensures |u| >= 2
  {
  }

  lemma {:induction false} LiteralFound(s: string) returns (us: seq<Unit>, t: string)
    requires Minify(s, true).Some?
    ensures (forall u :: u in us ==> ProperUnit(u)) && |t| < |s|
    ensures UnitsText(us) + [34 as char] + t == s && Minify(t, false).Some?
    decreases |s|
  {
    if s[0] == '"' {
      us, t := [], s[1..];
    } else {
      var n := if s[0] == '\\' then 2 else 1;
      var u := if s[0] == '\\' then Two(s[1]) else One(s[0]);
      var more, t' := LiteralFound(s[n..]);
      us, t := [u] + more, t';
      assert UnitText(u) == s[..n] && s[..n] + s[n..] == s;
      assert us[1..] == more && UnitsText(us) == s[..n] + UnitsText(more);
      hide UnitsText, Minify;
      var m, q := UnitsText(more), [34 as char];
      Assoc(s[..n], m, q);
      Assoc(s[..n], m + q, t);
    }
  }

  /** What stands behind the first segment is minified too. */
  lemma BehindSegment(s: string)
    requires s != "" && Minify(s, false).Some?
    ensures var rest := s[1..];
            && (s[0] == '"' ==> Minify(rest, true).Some?)
            && (s[0] == '/' && Peek(s, 1) == '/' ==> Minify(ToNewline(rest), false).Some?)
            && (s[0] == '/' && Peek(s, 1) == '*' ==>
                  ToCommentEnd(rest) != [] && Minify(ToCommentEnd(rest)[2..], false).Some?)
            && (s[0] != '"' && (s[0] == '/' ==> Peek(s, 1) !in {'/', '*'}) ==> Minify(rest, false).Some?)
  {
    OutsideLiteral(s, "");
    hide Minify, ToNewline, ToCommentEnd;
  }

  lemma LineSlash(s: string, w: string, t: string)
    requires s != "" && s[0] == '/' && Peek(s, 1) == '/' && w + t == s[1..]
    requires t == "" || t[0] as int == 10
    ensures w != "" && "//" + w[1..] + t == s
  {
    assert (w + t)[0] == '/';
    assert "//" + w[1..] == "/" + w;
    Assoc("/", w, t);
  }

  lemma LineSegment(s: string) returns (g: Segment)
    requires s != "" && s[0] == '/' && Peek(s, 1) == '/'
    ensures Proper(g, ToNewline(s[1..])) && SegmentText(g) + ToNewline(s[1..]) == s
    ensures |ToNewline(s[1..])| < |s|
  {
    hide ToNewline;
    var w := LineFound(s[1..]);
    LineSlash(s, w, ToNewline(s[1..]));
    g := Line(w[1..]);
  }

  lemma BlockSegment(s: string) returns (g: Segment)
    requires s != "" && s[0] == '/' && Peek(s, 1) == '*' && ToCommentEnd(s[1..]) != []
    ensures var t := ToCommentEnd(s[1..])[2..]; Proper(g, t) && SegmentText(g) + t == s && |t| < |s|
  {
    var u := CommentFound(s[1..]);
    hide ToCommentEnd;
    assert u[0] == '*';
    g := Block(u);
    Assoc("/", u, ToCommentEnd(s[1..])[2..]);
  }

  lemma LiteralSegment(s: string) returns (g: Segment, t: string)
    requires s != "" && s[0] == '"' && Minify(s[1..], true).Some?
    ensures Proper(g, t) && SegmentText(g) + t == s && Minify(t, false).Some? && |t| < |s|
  {
    var us, t' := LiteralFound(s[1..]);
    hide Minify, UnitsText;
    g, t := Literal(us), t';
    var q := [34 as char];
    Assoc(q, UnitsText(us), q);
    Assoc(q, UnitsText(us) + q, t);
    assert s == q + s[1..];
  }

  lemma CharSegment(s: string) returns (g: Segment)
    requires s != "" && s[0] != '"' && (s[0] == '/' ==> Peek(s, 1) !in {'/', '*'})
    ensures Proper(g, s[1..]) && SegmentText(g) + s[1..] == s
  {
    g := if s[0] in {' ', '\t', '\r', '\n'} then Space(s[0]) else Single(s[0]);
    assert s[0] == '/' && s[1..] != "" ==> s[1..][0] == Peek(s, 1);
  }

  /** The first segment of a text that is minified. */
  lemma SegmentFound(s: string) returns (g: Segment, t: string)
    requires s != "" && Minify(s, false).Some?
    ensures Proper(g, t) && SegmentText(g) + t == s && Minify(t, false).Some? && |t| < |s|
  {
    BehindSegment(s);
    hide *;
    if s[0] == '/' && Peek(s, 1) == '/' {
      g := LineSegment(s);
      t := ToNewline(s[1..]);
    } else if s[0] == '/' && Peek(s, 1) == '*' {
      g := BlockSegment(s);
      t := ToCommentEnd(s[1..])[2..];
    } else if s[0] == '"' {
      g, t := LiteralSegment(s);
    } else {
      g := CharSegment(s);
      t := s[1..];
    }
  }

  lemma {:induction false} SegmentsFound(s: string) returns (gs: seq<Segment>)
    requires Minify(s, false).Some?
    ensures AllProper(gs) && Text(gs) == s
    decreases |s|
  {
    if s == "" {
      gs := [];
    } else {
      var g, t := SegmentFound(s);
      var more := SegmentsFound(t);
      hide Minify, Proper, SegmentText;
      gs := [g] + more;
      assert gs[0] == g && gs[1..] == more;
    }
  }

  /** A text is minified to `m` exactly if it is a sequence of segments of which `m` is what is kept. */
  lemma MinifiesExactly(s: string, m: string)
    ensures Minify(s, false) == Some(m)
        <==> exists gs: seq<Segment> :: AllProper(gs) && Text(gs) == s && Kept(gs) == m
  {
    hide *;
    if Minify(s, false) == Some(m) {
      var gs := SegmentsFound(s);
      SegmentsMinified(gs);
    }
    forall gs: seq<Segment> | AllProper(gs) && Text(gs) == s && Kept(gs) == m
      ensures Minify(s, false) == Some(m)
    {
      SegmentsMinified(gs);
    }
  }
}

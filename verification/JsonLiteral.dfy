/** What parse_string makes of a well-formed literal, piece by piece (section 7 of RFC 8259), and
    that its UTF-8 output is the inverse of decoding (section 3 of RFC 3629). */
module JsonLiteral {
  import opened Ascii
  import opened JsonText

  /** One element of a literal: a raw byte, a two-character escape, a `\uXXXX` escape outside the
      surrogate range, or a surrogate pair.  The fields of the last two hold the hex digits.  Then what
      parse_string also takes: any other character behind a backslash, a `\u` escape without four hex
      digits, of a terminator or of a low surrogate, a high surrogate with something else behind it, and
      one before another `\u` escape that is not a low surrogate. */
  datatype Piece =
    | Raw(c: char)
    | Short(c: char)
    | Unit(h: string)
    | Pair(hi: string, lo: string)
    | Other(c: char)
    | Lost(h: string)
    | Lone(hi: string)
    | Broken(hi: string, lo: string)

  predicate HexOf(h: string, lo: int, hi: int) {
    |h| == 4 && FourHex(h) && lo <= Hex4(h) <= hi
  }

  predicate WellFormed(p: Piece) {
    match p
    case Raw(c) => c !in {'\0', '"', '\\'}
    case Short(c) => c in {'"', '\\', '/', 'b', 'f', 'n', 'r', 't'}
    case Unit(h) => HexOf(h, 1, 0xD7FF) || HexOf(h, 0xE000, 0xFFFF)
    case Pair(hi, lo) => HexOf(hi, 0xD800, 0xDBFF) && HexOf(lo, 0xDC00, 0xDFFF)
    case _ => false
  }

  predicate FourPlain(h: string) {
    |h| >= 4 && forall i :: 0 <= i < 4 ==> h[i] !in {'\0', '"', '\\'}
  }

  /** Where `t` follows, the piece is taken. */
  predicate Taken(p: Piece, t: string) {
    match p
    case Other(c) => c !in {'\0', 'b', 'f', 'n', 'r', 't', 'u'}
    case Lost(h) => |h| == 4 && FourPlain(h) && (!FourHex(h) || Hex4(h) == 0 || 0xDC00 <= Hex4(h) <= 0xDFFF)
    case Lone(hi) => HexOf(hi, 0xD800, 0xDBFF) && !(Head(t) == '\\' && Peek(t, 1) == 'u')
    case Broken(hi, lo) =>
      HexOf(hi, 0xD800, 0xDBFF) && |lo| == 4 && FourPlain(lo) && !(FourHex(lo) && 0xDC00 <= Hex4(lo) <= 0xDFFF)
    case _ => WellFormed(p)
  }

  /** How the piece is written. */
  function Source(p: Piece): string {
    match p
    case Raw(c) => [c]
    case Short(c) => ['\\', c]
    case Unit(h) => "\\u" + h
    case Pair(hi, lo) => "\\u" + hi + "\\u" + lo
    case Other(c) => ['\\', c]
    case Lost(h) => "\\u" + h
    case Lone(hi) => "\\u" + hi
    case Broken(hi, lo) => "\\u" + hi + "\\u" + lo
  }

  /** Every piece that is taken denotes something. */
  predicate Known(p: Piece) {
    p.Raw? || p.Short? || p.Unit? || p.Pair? ==> WellFormed(p)
  }

  /** The bytes the piece denotes; the escapes that the standard does not know lose their backslash, or
      count for nothing. */
  function Meaning(p: Piece): string
    requires Known(p)
  {
    match p
    case Raw(c) => [c]
    case Other(c) => [c]
    case Lost(_) => ""
    case Lone(_) => ""
    case Broken(_, _) => ""
    case Short('b') => "\U{08}"
    case Short('f') => "\U{0C}"
    case Short('n') => "\U{0A}"
    case Short('r') => "\U{0D}"
    case Short('t') => "\U{09}"
    case Short(c) => [c]
    case Unit(h) => Utf8(Hex4(h))
    case Pair(hi, lo) => Utf8(0x1_0000 + (Hex4(hi) - 0xD800) * 0x400 + (Hex4(lo) - 0xDC00))
  }

  function Written(ps: seq<Piece>): string {
    if ps == [] then "" else Source(ps[0]) + Written(ps[1..])
  }

  function Denoted(ps: seq<Piece>): string
    requires forall p :: p in ps ==> Known(p)
  {
    if ps == [] then "" else Meaning(ps[0]) + Denoted(ps[1..])
  }

  /** All the pieces are taken, where `r` follows them. */
  predicate AllTaken(ps: seq<Piece>, r: string) {
    ps == [] || (Taken(ps[0], Written(ps[1..]) + r) && AllTaken(ps[1..], r))
  }

  /** parse_hex4 of four hex digits in their places, which is as far as it reads; and of other text. */
  lemma Hex4Places(h: string, t: string)
    requires |h| == 4
    ensures FourHex(h) <==> forall c :: c in h ==> HexDigit(c) >= 0
    ensures Hex4(h + t)
         == if FourHex(h) then
              0x1000 * HexDigit(h[0]) + 0x100 * HexDigit(h[1]) + 0x10 * HexDigit(h[2]) + HexDigit(h[3])
            else 0
    ensures forall s: string :: |s| < 4 ==> Hex4(s) == 0
  {
    hide HexDigit;
    var s := h + t;
    assert s[0] == h[0] && s[1] == h[1] && s[2] == h[2] && s[3] == h[3];
  }

  lemma Hex4Prefix(h: string, t: string)
    requires |h| == 4 && FourHex(h)
    ensures FourHex(h + t) && Hex4(h + t) == Hex4(h)
  {
  }

  lemma PieceStep(p: Piece, t: string)
    requires Taken(p, t)
    ensures Unescape(Source(p) + t) == Prepend(Meaning(p), Unescape(t))
    ensures LiteralLength(Source(p) + t) >= |Meaning(p)| + LiteralLength(t)
  {
    hide Unescape, LiteralLength, Hex4, FourHex, FourPlain;
    match p
    case Raw(c) => RawStep(c, t);
    case Short(c) => ShortStep(c, t);
    case Unit(h) => UnitStep(h, t);
    case Pair(hi, lo) => PairStep(hi, lo, t);
    case Other(c) => OtherStep(c, t);
    case Lost(h) => LostStep(h, t);
    case Lone(hi) => LoneStep(hi, t);
    case Broken(hi, lo) => BrokenStep(hi, lo, t);
  }

  lemma OtherStep(c: char, t: string)
    requires Taken(Other(c), t)
    ensures Unescape(['\\', c] + t) == Prepend([c], Unescape(t))
    ensures LiteralLength(['\\', c] + t) == 1 + LiteralLength(t)
  {
    var s := ['\\', c] + t;
    assert s[1..][1..] == t && s[2..] == t;
    assert Escape(s[1..]) == ([c], 1);
    hide Escape, Unescape, LiteralLength;
    Step(s, [c], 1);
  }

  /** A `\u` escape that is taken for nothing. */
  lemma NothingStep(h: string, t: string)
    requires |h| == 4 && FourPlain(h) && Escape("u" + h + t) == ("", 5)
    ensures Unescape("\\u" + h + t) == Unescape(t) && LiteralLength("\\u" + h + t) >= LiteralLength(t)
  {
    hide Escape, Unescape, LiteralLength;
    var s := "\\u" + h + t;
    assert s[1..] == "u" + h + t && s[2..] == h + t && s[6..] == t && (h + t)[4..] == t;
    Step(s, "", 5);
    PlainPrefix(h, t);
    FourRun(h + t);
    PrependNothing(Unescape(t));
  }

  lemma PrependNothing(b: Body)
    ensures Prepend("", b) == b
  {
    if b.Body? {
      assert "" + b.out == b.out;
    }
  }

  lemma LostStep(h: string, t: string)
    requires Taken(Lost(h), t)
    ensures Unescape("\\u" + h + t) == Prepend("", Unescape(t))
    ensures LiteralLength("\\u" + h + t) >= LiteralLength(t)
  {
    PrependNothing(Unescape(t));
    Hex4Places(h, t);
    Hex4Places(h, "");
    assert h + "" == h;
    hide Unescape, LiteralLength, Hex4, FourHex;
    assert ("u" + h + t)[1..] == h + t;
    assert Escape("u" + h + t) == ("", 5);
    NothingStep(h, t);
  }

  lemma LoneStep(hi: string, t: string)
    requires Taken(Lone(hi), t)
    ensures Unescape("\\u" + hi + t) == Prepend("", Unescape(t))
    ensures LiteralLength("\\u" + hi + t) >= LiteralLength(t)
  {
    PrependNothing(Unescape(t));
    Hex4Prefix(hi, t);
    HexIsPlain(hi);
    hide Unescape, LiteralLength, Hex4, FourHex;
    var s := "u" + hi + t;
    assert s[1..] == hi + t && s[5..] == t;
    assert Peek(s, 5) == Head(t) && Peek(s, 6) == Peek(t, 1);
    assert Escape(s) == ("", 5);
    NothingStep(hi, t);
  }

  lemma HexIsPlain(h: string)
    requires FourHex(h)
    ensures FourPlain(h)
  {
  }

  lemma BrokenEscape(hi: string, lo: string, t: string)
    requires Taken(Broken(hi, lo), t)
    ensures Escape("u" + hi + ("\\u" + lo + t)) == ("", 11)
  {
    Hex4Prefix(hi, "\\u" + lo + t);
    Hex4Places(lo, t);
    Hex4Places(lo, "");
    assert lo + "" == lo;
    hide Hex4, FourHex, FourPlain;
    var u := "\\u" + lo + t;
    var s := "u" + hi + u;
    assert s[1..] == hi + u && s[5..] == u && u[2..] == lo + t;
    assert s[7..] == s[5..][2..];
    assert Peek(s, 5) == u[0] && Peek(s, 6) == u[1];
  }

  lemma BrokenStep(hi: string, lo: string, t: string)
    requires Taken(Broken(hi, lo), t)
    ensures Unescape("\\u" + hi + "\\u" + lo + t) == Prepend("", Unescape(t))
    ensures LiteralLength("\\u" + hi + "\\u" + lo + t) >= LiteralLength(t)
  {
    BrokenEscape(hi, lo, t);
    HexIsPlain(hi);
    hide Hex4, Unescape, LiteralLength, Escape, FourHex, FourPlain;
    var u := "\\u" + lo + t;
    var s := "\\u" + hi + "\\u" + lo + t;
    assert s[1..] == "u" + hi + u && s[2..] == hi + u && (hi + u)[4..] == u && s[12..] == t;
    Step(s, "", 11);
    PlainPrefix(hi, u);
    FourRun(hi + u);
    assert u[2..] == lo + t && (lo + t)[4..] == t;
    Step(u, Escape(u[1..]).0, Escape(u[1..]).1);
    PlainPrefix(lo, t);
    FourRun(lo + t);
  }

  lemma PlainPrefix(h: string, t: string)
    requires FourPlain(h)
    ensures FourPlain(h + t)
  {
  }

  lemma RawStep(c: char, t: string)
    requires WellFormed(Raw(c))
    ensures Unescape([c] + t) == Prepend([c], Unescape(t))
    ensures LiteralLength([c] + t) == 1 + LiteralLength(t)
  {
    assert ([c] + t)[1..] == t;
  }

  lemma ShortStep(c: char, t: string)
    requires WellFormed(Short(c))
    ensures Unescape(['\\', c] + t) == Prepend(Meaning(Short(c)), Unescape(t))
    ensures LiteralLength(['\\', c] + t) == 1 + LiteralLength(t)
  {
    var s := ['\\', c] + t;
    assert s[1..][1..] == t && s[2..] == t;
    assert Escape(s[1..]) == (Meaning(Short(c)), 1);
    hide Escape, Meaning, Unescape, LiteralLength;
    Step(s, Meaning(Short(c)), 1);
  }

  lemma UnitStep(h: string, t: string)
    requires WellFormed(Unit(h))
    ensures Unescape("\\u" + h + t) == Prepend(Meaning(Unit(h)), Unescape(t))
    ensures LiteralLength("\\u" + h + t) >= |Meaning(Unit(h))| + LiteralLength(t)
  {
    var s := "\\u" + h + t;
    Hex4Prefix(h, t);
    assert s[2..] == h + t && s[1..][1..] == h + t && s[6..] == t && (h + t)[4..] == t;
    hide Utf8, Hex4, Unescape, LiteralLength;
    assert Escape(s[1..]) == (Meaning(Unit(h)), 5);
    Step(s, Meaning(Unit(h)), 5);
    HexIsPlain(h + t);
    FourRun(h + t);
    UtfLength(Hex4(h));
  }

  lemma SurrogateEscape(s: string, hi: int, lo: int)
    requires |s| >= 11 && s[0] == 'u' && s[5] == '\\' && s[6] == 'u'
    requires Hex4(s[1..]) == hi && Hex4(s[7..]) == lo
    requires 0xD800 <= hi <= 0xDBFF && 0xDC00 <= lo <= 0xDFFF
    ensures Escape(s) == (Utf8(0x1_0000 + (hi - 0xD800) * 0x400 + (lo - 0xDC00)), 11)
  {
    hide Hex4, Utf8;
    assert Surrogates(hi, lo) == 0x1_0000 + (hi - 0xD800) * 0x400 + (lo - 0xDC00);
  }

  lemma PairEscape(hi: string, lo: string, t: string)
    requires WellFormed(Pair(hi, lo))
    ensures Escape("u" + hi + ("\\u" + lo + t)) == (Meaning(Pair(hi, lo)), 11)
  {
    hide Utf8, Hex4, FourHex, Escape;
    Hex4Prefix(hi, "\\u" + lo + t);
    Hex4Prefix(lo, t);
    var u := "\\u" + lo + t;
    var s := "u" + hi + u;
    assert s[1..] == hi + u && s[5..] == u && u[2..] == lo + t;
    assert s[7..] == s[5..][2..];
    SurrogateEscape(s, Hex4(hi), Hex4(lo));
  }

  lemma PairStep(hi: string, lo: string, t: string)
    requires WellFormed(Pair(hi, lo))
    ensures Unescape("\\u" + hi + "\\u" + lo + t) == Prepend(Meaning(Pair(hi, lo)), Unescape(t))
    ensures LiteralLength("\\u" + hi + "\\u" + lo + t) >= |Meaning(Pair(hi, lo))| + LiteralLength(t)
  {
    PairEscape(hi, lo, t);
    Hex4Prefix(hi, "\\u" + lo + t);
    Hex4Prefix(lo, t);
    hide Utf8, Hex4, Unescape, LiteralLength, Escape, FourHex;
    var u := "\\u" + lo + t;
    var s := "\\u" + hi + "\\u" + lo + t;
    assert s[1..] == "u" + hi + u && s[2..] == hi + u && (hi + u)[4..] == u && s[12..] == t;
    Step(s, Meaning(Pair(hi, lo)), 11);
    HexIsPlain(hi + u);
    FourRun(hi + u);
    assert u[2..] == lo + t && (lo + t)[4..] == t;
    Step(u, Escape(u[1..]).0, Escape(u[1..]).1);
    HexIsPlain(lo + t);
    FourRun(lo + t);
  }

  lemma Step(s: string, bytes: string, k: nat)
    requires |s| >= 2 && s[0] == '\\' && Escape(s[1..]) == (bytes, k)
    ensures 1 + k <= |s| ==> Unescape(s) == Prepend(bytes, Unescape(s[1 + k..]))
    ensures LiteralLength(s) == 1 + LiteralLength(s[2..])
  {
  }

  lemma FourRun(s: string)
    requires FourPlain(s)
    ensures LiteralLength(s) == 4 + LiteralLength(s[4..])
  {
    assert s[1..][1..] == s[2..] && s[2..][1..] == s[3..] && s[3..][1..] == s[4..];
    assert LiteralLength(s[3..]) == 1 + LiteralLength(s[4..]);
    assert LiteralLength(s[2..]) == 2 + LiteralLength(s[4..]);
    assert LiteralLength(s[1..]) == 3 + LiteralLength(s[4..]);
  }

  lemma UtfLength(u: int)
    requires 0 <= u < 0x1_0000
    ensures |Utf8(u)| <= 3
  {
  }

  lemma {:induction false} BodyMeaning(ps: seq<Piece>, r: string)
    requires AllTaken(ps, r) && Head(r) in {'"', '\0'}
    ensures forall p :: p in ps ==> Known(p)
    ensures Unescape(Written(ps) + r) == Body(Denoted(ps), r) && LiteralLength(Written(ps) + r) >= |Denoted(ps)|
  {
    hide Taken, WellFormed, Source, Meaning;
    if ps == [] {
      assert Written(ps) + r == r;
    } else {
      BodyMeaning(ps[1..], r);
      var t := Written(ps[1..]) + r;
      TakenDenotes(ps[0], t);
      assert Written(ps) + r == Source(ps[0]) + t;
      PieceStep(ps[0], t);
    }
  }

  lemma TakenDenotes(p: Piece, t: string)
    requires Taken(p, t)
    ensures Known(p)
  {
  }

  /** parse_string on any literal made of pieces that it takes: the result is the concatenation of what
      they denote, it fits the buffer, and the pointer ends behind the closing quote, or at the end of the
      text if there is none. */
  lemma TakenMeaning(ps: seq<Piece>, r: string)
    requires AllTaken(ps, r) && Head(r) in {'"', '\0'}
    ensures forall p :: p in ps ==> Known(p)
    ensures ParseString("\"" + Written(ps) + r) == Ok(Denoted(ps), if Head(r) == '"' then r[1..] else r)
  {
    hide Unescape, LiteralLength, Written, Denoted, AllTaken, ParseString, Known;
    BodyMeaning(ps, r);
    var s := "\"" + Written(ps) + r;
    assert s[1..] == Written(ps) + r;
    BodyRead(s, Denoted(ps), r);
  }

  lemma BodyRead(s: string, out: string, rest: string)
    requires Head(s) == '"' && Unescape(s[1..]) == Body(out, rest) && |out| <= LiteralLength(s[1..])
    ensures ParseString(s) == Ok(out, if Head(rest) == '"' then rest[1..] else rest)
  {
    hide Unescape, LiteralLength;
  }

  lemma {:induction false} WellFormedTaken(ps: seq<Piece>, r: string)
    requires forall p :: p in ps ==> WellFormed(p)
    ensures AllTaken(ps, r)
  {
    if ps != [] {
      assert WellFormed(ps[0]);
      hide WellFormed;
      WellFormedTaken(ps[1..], r);
      OneTaken(ps[0], Written(ps[1..]) + r);
    }
  }

  lemma OneTaken(p: Piece, t: string)
    requires WellFormed(p)
    ensures Taken(p, t)
  {
  }

  /** On a literal of well-formed pieces. */
  lemma LiteralMeaning(ps: seq<Piece>, r: string)
    requires forall p :: p in ps ==> WellFormed(p)
    ensures ParseString("\"" + Written(ps) + "\"" + r) == Ok(Denoted(ps), r)
  {
    hide WellFormed, Known, Written, Denoted, AllTaken, ParseString;
    var t := "\"" + r;
    WellFormedTaken(ps, t);
    TakenMeaning(ps, t);
    QuoteBehind("\"" + Written(ps), r);
  }

  lemma QuoteBehind(a: string, r: string)
    ensures a + "\"" + r == a + ("\"" + r) && Head("\"" + r) == '"' && ("\"" + r)[1..] == r
  {
  }

  // ---------------------------------------------------------------- UTF-8

  predicate Tail(c: char) {
    0x80 <= c as int < 0xC0
  }

  /** Decodes one scalar value; -1 when the bytes are not well-formed UTF-8. */
  function DecodeUtf8(s: string): (r: (int, nat)) {
    var b := Head(s) as int;
    if s == [] then (-1, 0)
    else if b < 0x80 then (b, 1)
    else if 0xC2 <= b < 0xE0 && Tail(Peek(s, 1)) then
      ((b - 0xC0) * 0x40 + (s[1] as int - 0x80), 2)
    else if 0xE0 <= b < 0xF0 && Tail(Peek(s, 1)) && Tail(Peek(s, 2)) then
      var u := ((b - 0xE0) * 0x40 + (s[1] as int - 0x80)) * 0x40 + (s[2] as int - 0x80);
      if u < 0x800 || 0xD800 <= u < 0xE000 then (-1, 0) else (u, 3)
    else if 0xF0 <= b < 0xF5 && Tail(Peek(s, 1)) && Tail(Peek(s, 2)) && Tail(Peek(s, 3)) then
      var u := (((b - 0xF0) * 0x40 + (s[1] as int - 0x80)) * 0x40 + (s[2] as int - 0x80)) * 0x40
               + (s[3] as int - 0x80);
      if u < 0x1_0000 || u >= 0x11_0000 then (-1, 0) else (u, 4)
    else (-1, 0)
  }

  /** The bytes parse_string writes for a scalar value decode to exactly that value. */
  lemma Utf8Decodes(u: int, r: string)
    requires 0 <= u < 0x11_0000 && !(0xD800 <= u < 0xE000)
    ensures DecodeUtf8(Utf8(u) + r) == (u, |Utf8(u)|)
  {
    var s := Utf8(u) + r;
    if u < 0x80 {
    } else if u < 0x800 {
      assert u / 0x40 * 0x40 + u % 0x40 == u;
    } else if u < 0x1_0000 {
      assert u / 0x1000 == u / 0x40 / 0x40;
    } else {
      assert u / 0x1000 == u / 0x40 / 0x40 && u / 0x4_0000 == u / 0x1000 / 0x40;
    }
  }
}

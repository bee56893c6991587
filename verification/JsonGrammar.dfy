/** The texts that the parser of cJSON.c accepts, written or not by one of its printers: a grammar with
    its own account of spaces, numbers and keywords, and the equivalence of parsing with it. */
module JsonGrammar {
  import opened Ascii
  import opened JsonText
  import opened JsonRoundTrip

  /** A text by its tokens and the spaces between them.  The text of a string with its quotes is given
      together with what it denotes, see section JsonLiteral. */
  datatype Syntax =
    | NullText
    | FalseText
    | TrueText
    | NumberText(minus: bool, zero: bool, digits: string)
    | StringText(raw: string, s: string)
    | ArrayText(space: string, elements: seq<Element>)
    | ObjectText(space: string, entries: seq<Entry>)

  datatype Element = Element(before: string, value: Syntax, after: string)

  datatype Entry = Entry(before: string, raw: string, key: string, colon: string, gap: string,
                         value: Syntax, after: string)

  /** Characters with codes from 1 to 32. */
  predicate Blank(w: string) {
    forall i :: 0 <= i < |w| ==> 1 <= w[i] as int <= 32
  }

  predicate Numeral(d: string) {
    (forall i :: 0 <= i < |d| ==> 48 <= d[i] as int <= 57) && (d != "" ==> d[0] as int != 48)
  }

  /** The number that decimal digits stand for, the last one weighing 1. */
  function Positional(d: string): int {
    if d == "" then 0 else 10 * Positional(d[..|d| - 1]) + (d[|d| - 1] as int - 48)
  }

  function Signed(minus: bool, digits: string): int {
    if minus then -Positional(digits) else Positional(digits)
  }

  /** A 32-bit C int. */
  predicate CInt(n: int) {
    -2147483648 <= n <= 2147483647
  }

  function NumberOf(minus: bool, zero: bool, digits: string): string {
    (if minus then "-" else "") + (if zero then "0" else "") + digits
  }

  function Text(c: Syntax): string
    decreases c, 1
  {
    match c
    case NullText => "null"
    case FalseText => "false"
    case TrueText => "true"
    case NumberText(minus, zero, digits) => NumberOf(minus, zero, digits)
    case StringText(raw, _) => raw
    case ArrayText(space, es) => "[" + (if es == [] then space else ElementsText(es)) + "]"
    case ObjectText(space, es) => "{" + (if es == [] then space else EntriesText(es)) + "}"
  }

  function ElementsText(es: seq<Element>): string
    decreases es, 0
  {
    if es == [] then ""
    else es[0].before + Text(es[0].value) + es[0].after + MoreElements(es[1..])
  }

  function MoreElements(es: seq<Element>): string
    decreases es, 1
  {
    if es == [] then "" else "," + ElementsText(es)
  }

  function EntryHead(e: Entry): string {
    e.before + e.raw + e.colon + ":" + e.gap
  }

  function EntriesText(es: seq<Entry>): string
    decreases es, 0
  {
    if es == [] then ""
    else EntryHead(es[0]) + Text(es[0].value) + es[0].after + MoreEntries(es[1..])
  }

  function MoreEntries(es: seq<Entry>): string
    decreases es, 1
  {
    if es == [] then "" else "," + EntriesText(es)
  }

  /** The tree that is meant. */
  function Value(c: Syntax): Json
    decreases c, 1
  {
    match c
    case NullText => Null
    case FalseText => False
    case TrueText => True
    case NumberText(minus, _, digits) => Number(Signed(minus, digits))
    case StringText(_, s) => Str(s)
    case ArrayText(_, es) => Array(Values(es))
    case ObjectText(_, es) => Object(Members(es))
  }

  function Values(es: seq<Element>): seq<Json>
    decreases es, 0
  {
    if es == [] then [] else [Value(es[0].value)] + Values(es[1..])
  }

  function Members(es: seq<Entry>): seq<Member>
    decreases es, 0
  {
    if es == [] then [] else [Member(es[0].key, Value(es[0].value))] + Members(es[1..])
  }

  /** A number ends where no more of it can be read, and nothing behind it makes it a fraction. */
  predicate NumberEnds(zero: bool, digits: string, r: string) {
    && (digits == "" ==> !('1' <= Head(r) <= '9') && (zero || Head(r) != '0'))
    && (digits != "" ==> !IsDigit(Head(r)))
    && !(Head(r) == '.' && IsDigit(Peek(r, 1))) && Head(r) != 'e' && Head(r) != 'E'
  }

  /** The text is well-formed where `r` follows it. */
  predicate Good(c: Syntax, r: string)
    decreases c, 1
  {
    match c
    case NullText => true
    case FalseText => true
    case TrueText => true
    case NumberText(minus, zero, digits) =>
      Numeral(digits) && (minus || zero || digits != "") && CInt(Signed(minus, digits))
      && NumberEnds(zero, digits, r)
    case StringText(raw, s) => raw != "" && raw[0] == '"' && ParseString(raw + r) == Ok(s, r)
    case ArrayText(space, es) => if es == [] then Blank(space) else GoodElements(es, "]" + r)
    case ObjectText(space, es) => if es == [] then Blank(space) else GoodEntries(es, "}" + r)
  }

  predicate GoodElements(es: seq<Element>, r: string)
    decreases es, 0
  {
    es == [] || (
      && Blank(es[0].before) && Blank(es[0].after)
      && Good(es[0].value, es[0].after + (MoreElements(es[1..]) + r))
      && GoodElements(es[1..], r)
    )
  }

  predicate GoodEntries(es: seq<Entry>, r: string)
    decreases es, 0
  {
    es == [] || (
      && Blank(es[0].before) && Blank(es[0].colon) && Blank(es[0].gap) && Blank(es[0].after)
      && es[0].raw != "" && es[0].raw[0] == '"'
      && ParseString(es[0].raw + KeyTail(es, r)) == Ok(es[0].key, KeyTail(es, r))
      && Good(es[0].value, es[0].after + (MoreEntries(es[1..]) + r))
      && GoodEntries(es[1..], r)
    )
  }

  /** What stands behind the first key. */
  function KeyTail(es: seq<Entry>, r: string): string
    requires es != []
  {
    es[0].colon + (":" + (es[0].gap + (Text(es[0].value) + (es[0].after + (MoreEntries(es[1..]) + r)))))
  }

  // ---------------------------------------------------------------- spaces and numbers

  lemma BlankIsSpace(w: string)
    ensures Blank(w) <==> AllSpace(w)
  {
  }

  lemma SkipBlank(w: string, s: string)
    requires Blank(w) && !IsSpace(Head(s))
    ensures Skip(w + s) == s
  {
    BlankIsSpace(w);
    SkipOver(w, s);
    SkipNone(s);
  }

  lemma {:induction false} DigitsPositional(d: string, r: string, n: int)
    requires forall i :: 0 <= i < |d| ==> 48 <= d[i] as int <= 57
    requires !IsDigit(Head(r))
    ensures Digits(d + r, n) == (Shifted(n, d), r)
  {
    if d == "" {
      assert d + r == r;
    } else {
      assert (d + r)[1..] == d[1..] + r;
      DigitsPositional(d[1..], r, n * 10 + (d[0] as int - 48));
      ShiftedFront(n, d);
    }
  }

  /** `n` with the digits written behind it. */
  function Shifted(n: int, d: string): int {
    if d == "" then n else 10 * Shifted(n, d[..|d| - 1]) + (d[|d| - 1] as int - 48)
  }

  lemma {:induction false} ShiftedFront(n: int, d: string)
    requires d != ""
    ensures Shifted(n, d) == Shifted(n * 10 + (d[0] as int - 48), d[1..])
  {
    if |d| == 1 {
      assert d[..0] == "" && d[1..] == "";
    } else {
      var e := d[..|d| - 1];
      ShiftedFront(n, e);
      assert d[1..][..|d| - 2] == e[1..];
    }
  }

  lemma {:induction false} ShiftedPositional(d: string)
    ensures Shifted(0, d) == Positional(d)
  {
    if d != "" {
      ShiftedPositional(d[..|d| - 1]);
    }
  }

  /** parse_number by its steps: the sign, one zero, the digits. */
  lemma NumberSteps(s: string, s1: string, s2: string, minus: bool, zero: bool, digits: string, n: int, r: string)
    requires if minus then s != "" && s[0] == '-' && s[1..] == s1 else s == s1 && Head(s) != '-'
    requires if zero then s1 != "" && s1[0] == '0' && s1[1..] == s2 else s1 == s2 && Head(s1) != '0'
    requires if '1' <= Head(s2) <= '9' then Digits(s2, 0) == (n, r) else n == 0 && s2 == r
    requires !(Head(r) == '.' && IsDigit(Peek(r, 1))) && Head(r) != 'e' && Head(r) != 'E'
    requires INT_MIN <= (if minus then -n else n) <= INT_MAX && (Head(s) == '-' || IsDigit(Head(s)))
    ensures ParseNumber(s) == Ok(Number(if minus then -n else n), r)
  {
    hide Digits;
  }

  lemma NumberReads(minus: bool, zero: bool, digits: string, r: string)
    requires Good(NumberText(minus, zero, digits), r)
    ensures var s := NumberOf(minus, zero, digits) + r;
            (Head(s) == '-' || IsDigit(Head(s))) && ParseNumber(s) == Ok(Number(Signed(minus, digits)), r)
  {
    var s2 := digits + r;
    var s1 := (if zero then "0" else "") + s2;
    var s := (if minus then "-" else "") + s1;
    assert NumberOf(minus, zero, digits) + r == s;
    assert minus ==> s[1..] == s1;
    assert zero ==> s1[1..] == s2;
    assert digits == "" ==> s2 == r;
    if digits != "" {
      DigitsPositional(digits, r, 0);
      ShiftedPositional(digits);
      assert '1' <= Head(s2) <= '9';
    }
    NumberSteps(s, s1, s2, minus, zero, digits, Positional(digits), r);
  }

  // ---------------------------------------------------------------- every text of the grammar parses

  lemma TextHead(c: Syntax, r: string)
    requires Good(c, r)
    ensures Text(c) != "" && !IsSpace(Text(c)[0]) && Text(c)[0] != ']'
  {
  }

  lemma {:induction false} ValueParses(c: Syntax, r: string)
    requires Good(c, r)
    ensures ParseValue(Text(c) + r) == Ok(Value(c), r)
    decreases c, 1
  {
    match c
    case NullText => KeywordParses(c, r);
    case FalseText => KeywordParses(c, r);
    case TrueText => KeywordParses(c, r);
    case NumberText(minus, zero, digits) =>
      NumberReads(minus, zero, digits, r);
      NumberIs(minus, zero, digits);
      hide *;
      Dispatch(NumberOf(minus, zero, digits) + r);
    case StringText(raw, s) =>
      StringIs(raw, s, r);
      hide *;
      Dispatch(raw + r);
    case ArrayText(space, es) => ArrayParses(space, es, r);
    case ObjectText(space, es) => ObjectParses(space, es, r);
  }

  lemma KeywordParses(c: Syntax, r: string)
    requires c.NullText? || c.FalseText? || c.TrueText?
    ensures ParseValue(Text(c) + r) == Ok(Value(c), r)
  {
    var s := Text(c) + r;
    if c.NullText? {
      assert StartsWith(s, "null") && s[4..] == r;
    } else if c.FalseText? {
      assert s[0] == 'f' && StartsWith(s, "false") && s[5..] == r;
    } else {
      assert s[0] == 't' && StartsWith(s, "true") && s[4..] == r;
    }
  }

  lemma NumberIs(minus: bool, zero: bool, digits: string)
    ensures Text(NumberText(minus, zero, digits)) == NumberOf(minus, zero, digits)
    ensures Value(NumberText(minus, zero, digits)) == Number(Signed(minus, digits))
  {
  }

  lemma StringIs(raw: string, s: string, r: string)
    requires Good(StringText(raw, s), r)
    ensures Text(StringText(raw, s)) == raw && Value(StringText(raw, s)) == Str(s)
    ensures Head(raw + r) == '"' && ParseString(raw + r) == Ok(s, r)
  {
  }

  lemma Assoc(a: string, b: string, c: string)
    ensures a + b + c == a + (b + c)
  {
  }

  lemma Behind(a: string, s: string)
    requires |a| == 1
    ensures (a + s)[0] == a[0] && (a + s)[1..] == s
  {
  }

  lemma ArrayIs(space: string, es: seq<Element>, r: string)
    requires Good(ArrayText(space, es), r)
    ensures es == [] ==> Blank(space)
    ensures es != [] ==> GoodElements(es, "]" + r)
    ensures Text(ArrayText(space, es)) == "[" + (if es == [] then space else ElementsText(es)) + "]"
    ensures Value(ArrayText(space, es)) == Array(Values(es))
    ensures es == [] ==> Values(es) == []
  {
  }

  lemma ItemsSkipped(s: string)
    ensures ParseItems(Skip(s)) == ParseItems(s)
  {
    hide ParseValue;
    SkipNone(Skip(s));
  }

  lemma {:induction false} ArrayParses(space: string, es: seq<Element>, r: string)
    requires Good(ArrayText(space, es), r)
    ensures ParseValue(Text(ArrayText(space, es)) + r) == Ok(Value(ArrayText(space, es)), r)
    decreases es, 1
  {
    ArrayIs(space, es, r);
    Brackets("[", if es == [] then space else ElementsText(es), "]", r);
    hide Text, Value, Values, ElementsText, Good, GoodElements, ParseValue, ParseItems, Skip, Blank;
    var body := if es == [] then space else ElementsText(es);
    var u := body + ("]" + r);
    if es == [] {
      SkipBlank(space, "]" + r);
    } else {
      ElementsParse(es, "]" + r);
      ItemsSkipped(u);
    }
    ArrayStep("[" + u, Skip(u));
  }

  lemma Brackets(a: string, body: string, b: string, r: string)
    requires |a| == 1 && |b| == 1
    ensures a + body + b + r == a + (body + (b + r)) && (a + (body + (b + r)))[1..] == body + (b + r)
    ensures (b + r)[1..] == r && Head(a + (body + (b + r))) == a[0] && Head(b + r) == b[0]
  {
  }

  lemma ElementsAre(es: seq<Element>, r: string)
    requires es != [] && GoodElements(es, r)
    ensures var e, more := es[0], MoreElements(es[1..]);
            && Blank(e.before) && Blank(e.after) && Good(e.value, e.after + (more + r))
            && GoodElements(es[1..], r)
            && ElementsText(es) == e.before + Text(e.value) + e.after + more
            && Values(es) == [Value(e.value)] + Values(es[1..])
            && more == (if |es| == 1 then "" else "," + ElementsText(es[1..]))
            && (|es| == 1 ==> Values(es) == [Value(e.value)])
  {
  }

  lemma SpacesAround(b: string, t: string, a: string, m: string, r: string)
    requires Blank(b) && Blank(a) && t != "" && !IsSpace(t[0]) && !IsSpace(Head(m + r))
    ensures b + t + a + m + r == b + (t + (a + (m + r)))
    ensures Skip(b + (t + (a + (m + r)))) == t + (a + (m + r)) && Skip(a + (m + r)) == m + r
  {
    Regroup(b, t, a, m);
    assert b + t + a + m + r == b + (t + (a + (m + r)));
    SkipBlank(b, t + (a + (m + r)));
    SkipBlank(a, m + r);
  }

  lemma {:induction false} ElementsParse(es: seq<Element>, r: string)
    requires es != [] && GoodElements(es, r) && Head(r) == ']'
    ensures ParseItems(ElementsText(es) + r) == Ok(Values(es), r)
    ensures Head(Skip(ElementsText(es) + r)) != ']'
    decreases es, 0
  {
    var e, more := es[0], MoreElements(es[1..]);
    ElementsAre(es, r);
    var s := ElementsText(es) + r;
    var t := e.after + (more + r);
    TextHead(e.value, t);
    hide Text, Value, Values, ElementsText, MoreElements, Good, GoodElements, ParseValue, ParseItems, Skip, Blank;
    if |es| == 1 {
      assert more + r == r;
    } else {
      Assoc(",", ElementsText(es[1..]), r);
      Behind(",", ElementsText(es[1..]) + r);
      ElementsParse(es[1..], r);
    }
    SpacesAround(e.before, Text(e.value), e.after, more, r);
    ValueParses(e.value, t);
    ItemsStep(s, Value(e.value), t);
  }

  lemma ObjectIs(space: string, es: seq<Entry>, r: string)
    requires Good(ObjectText(space, es), r)
    ensures es == [] ==> Blank(space)
    ensures es != [] ==> GoodEntries(es, "}" + r)
    ensures Text(ObjectText(space, es)) == "{" + (if es == [] then space else EntriesText(es)) + "}"
    ensures Value(ObjectText(space, es)) == Object(Members(es))
    ensures es == [] ==> Members(es) == []
  {
  }

  lemma {:induction false} ObjectParses(space: string, es: seq<Entry>, r: string)
    requires Good(ObjectText(space, es), r)
    ensures ParseValue(Text(ObjectText(space, es)) + r) == Ok(Value(ObjectText(space, es)), r)
    decreases es, 1
  {
    ObjectIs(space, es, r);
    Brackets("{", if es == [] then space else EntriesText(es), "}", r);
    hide Text, Value, Members, EntriesText, Good, GoodEntries, ParseValue, ParseMembers, Skip, Blank;
    var body := if es == [] then space else EntriesText(es);
    var u := body + ("}" + r);
    if es == [] {
      SkipBlank(space, "}" + r);
    } else {
      EntriesParse(es, "}" + r);
      MembersSkip("", u);
    }
    ObjectStep("{" + u);
  }

  lemma EntriesAre(es: seq<Entry>, r: string)
    requires es != [] && GoodEntries(es, r)
    ensures var e, more := es[0], MoreEntries(es[1..]);
            && Blank(e.before) && Blank(e.colon) && Blank(e.gap) && Blank(e.after) && e.raw != "" && e.raw[0] == '"'
            && ParseString(e.raw + KeyTail(es, r)) == Ok(e.key, KeyTail(es, r))
            && Good(e.value, e.after + (more + r))
            && GoodEntries(es[1..], r)
            && Members(es) == [Member(e.key, Value(e.value))] + Members(es[1..])
            && more == (if |es| == 1 then "" else "," + EntriesText(es[1..]))
            && (|es| == 1 ==> Members(es) == [Member(e.key, Value(e.value))])
  {
  }

  lemma EntriesSplit(es: seq<Entry>, r: string)
    requires es != []
    ensures EntriesText(es) + r == es[0].before + (es[0].raw + KeyTail(es, r))
  {
    var e, more := es[0], MoreEntries(es[1..]);
    var v := Text(e.value);
    hide Text, MoreEntries;
    assert EntriesText(es) == e.before + e.raw + e.colon + ":" + e.gap + v + e.after + more;
    hide EntriesText;
    SevenParts(e.before, e.raw, e.colon, e.gap, v, e.after, more, r);
  }

  lemma SevenParts(b: string, k: string, c: string, g: string, v: string, a: string, m: string, r: string)
    ensures b + k + c + ":" + g + v + a + m + r == b + (k + (c + (":" + (g + (v + (a + (m + r)))))))
  {
    Regroup(b + k + c + ":" + g + v, a, m, r);
    Assoc(b + k + c + ":" + g, v, a + (m + r));
    Assoc(b + k + c + ":", g, v + (a + (m + r)));
    Assoc(b + k + c, ":", g + (v + (a + (m + r))));
    Assoc(b + k, c, ":" + (g + (v + (a + (m + r)))));
    Assoc(b, k, c + (":" + (g + (v + (a + (m + r))))));
  }

  /** ParseMember with spaces on both sides of the colon. */
  lemma SpacedMember(s: string, key: string, t: string)
    requires ParseString(Skip(s)) == Ok(key, t) && Head(Skip(t)) == ':'
    ensures var r := ParseValue(Skip(Skip(t)[1..]));
            r.Ok? ==> ParseMember(s) == Ok(Member(key, r.value), Skip(r.rest))
  {
  }

  lemma KeyBlanks(es: seq<Entry>, r: string)
    requires es != [] && Blank(es[0].colon) && Blank(es[0].gap)
    requires Text(es[0].value) != "" && !IsSpace(Text(es[0].value)[0])
    ensures var v := Text(es[0].value) + (es[0].after + (MoreEntries(es[1..]) + r));
            var u := Skip(KeyTail(es, r));
            Head(u) == ':' && Skip(u[1..]) == v
  {
    var v := Text(es[0].value) + (es[0].after + (MoreEntries(es[1..]) + r));
    assert KeyTail(es, r) == es[0].colon + (":" + (es[0].gap + v));
    hide Text, MoreEntries, KeyTail, Blank;
    SkipBlank(es[0].colon, ":" + (es[0].gap + v));
    Behind(":", es[0].gap + v);
    SkipBlank(es[0].gap, v);
  }

  lemma {:induction false} EntriesParse(es: seq<Entry>, r: string)
    requires es != [] && GoodEntries(es, r) && Head(r) == '}'
    ensures ParseMembers(EntriesText(es) + r) == Ok(Members(es), r)
    ensures Head(Skip(EntriesText(es) + r)) == '"'
    decreases es, 0
  {
    var e, more := es[0], MoreEntries(es[1..]);
    EntriesAre(es, r);
    EntriesSplit(es, r);
    var s := EntriesText(es) + r;
    var v := Text(e.value);
    var t := e.after + (more + r);
    TextHead(e.value, t);
    hide Text, Value, Members, EntriesText, MoreEntries, KeyTail, Good, GoodEntries, Skip, Blank;
    hide ParseValue, ParseMember, ParseMembers, ParseString;
    if |es| == 1 {
      assert more + r == r;
    } else {
      Assoc(",", EntriesText(es[1..]), r);
      Behind(",", EntriesText(es[1..]) + r);
      EntriesParse(es[1..], r);
    }
    SkipBlank(e.before, e.raw + KeyTail(es, r));
    KeyBlanks(es, r);
    ValueParses(e.value, t);
    SkipBlank(e.after, more + r);
    SpacedMember(s, e.key, KeyTail(es, r));
    MembersStep(s, Member(e.key, Value(e.value)), more + r);
  }

  // ---------------------------------------------------------------- nothing else parses

  lemma {:induction false} Blanks(s: string) returns (w: string)
    ensures Blank(w) && w + Skip(s) == s
  {
    if IsSpace(Head(s)) {
      var rest := Blanks(s[1..]);
      w := [s[0]] + rest;
    } else {
      w := "";
    }
  }

  lemma {:induction false} UnescapeSuffix(s: string) returns (k: nat)
    requires Unescape(s).Body?
    ensures k <= |s| && s[k..] == Unescape(s).rest
  {
    hide Escape;
    if Head(s) == '"' || Head(s) == '\0' {
      k := 0;
    } else if s[0] != '\\' {
      var m := UnescapeSuffix(s[1..]);
      k := m + 1;
    } else {
      var n := Escape(s[1..]).1;
      var m := UnescapeSuffix(s[1 + n..]);
      k := m + 1 + n;
    }
  }

  /** The literal that was read. */
  lemma StringFound(s: string) returns (raw: string)
    requires ParseString(s).Ok?
    ensures raw != "" && raw[0] == '"' && raw + ParseString(s).rest == s
  {
    var k := UnescapeSuffix(s[1..]);
    var n := k + 1 + if Head(s[1 + k..]) == '"' then 1 else 0;
    assert s[1..][k..] == s[1 + k..];
    hide Unescape, LiteralLength;
    assert ParseString(s).rest == s[n..];
    raw := s[..n];
  }

  lemma {:induction false} DigitsFound(s: string, n: int) returns (d: string)
    ensures forall i :: 0 <= i < |d| ==> 48 <= d[i] as int <= 57
    ensures d + Digits(s, n).1 == s && Digits(s, n).0 == Shifted(n, d) && !IsDigit(Head(Digits(s, n).1))
  {
    if IsDigit(Head(s)) {
      var m := n * 10 + (s[0] as int - '0' as int);
      var rest := DigitsFound(s[1..], m);
      d := [s[0]] + rest;
      assert d[1..] == rest;
      ShiftedFront(n, d);
    } else {
      d := "";
    }
  }

  lemma DigitsOpened(s: string) returns (d: string)
    ensures Numeral(d) && (d == "" <==> !('1' <= Head(s) <= '9'))
    ensures d + (if '1' <= Head(s) <= '9' then Digits(s, 0).1 else s) == s
    ensures '1' <= Head(s) <= '9' ==> Digits(s, 0).0 == Positional(d) && !IsDigit(Head(Digits(s, 0).1))
  {
    if '1' <= Head(s) <= '9' {
      d := DigitsFound(s, 0);
      ShiftedPositional(d);
      assert d == "" ==> s == Digits(s, 0).1;
      assert s[0] == d[0];
    } else {
      d := "";
    }
  }

  /** What stands behind the sign and one zero. */
  function AfterZero(s: string): string {
    var s1 := if Head(s) == '-' then s[1..] else s;
    if Head(s1) == '0' then s1[1..] else s1
  }

  lemma NumberStop(s: string)
    requires (Head(s) == '-' || IsDigit(Head(s))) && ParseNumber(s).Ok?
    ensures var s2 := AfterZero(s);
            var (n, r) := if '1' <= Head(s2) <= '9' then Digits(s2, 0) else (0, s2);
            var v := if Head(s) == '-' then -n else n;
            && ParseNumber(s) == Ok(Number(v), r) && INT_MIN <= v <= INT_MAX
            && !(Head(r) == '.' && IsDigit(Peek(r, 1))) && Head(r) != 'e' && Head(r) != 'E'
  {
    hide Digits;
  }

  lemma ZeroParts(s: string) returns (minus: bool, zero: bool)
    requires Head(s) == '-' || IsDigit(Head(s))
    ensures var s2 := AfterZero(s);
            && minus == (Head(s) == '-') && (!zero ==> Head(s2) != '0' && (minus || s2 == s))
            && s == (if minus then "-" else "") + ((if zero then "0" else "") + s2)
  {
    minus := Head(s) == '-';
    var s1 := if minus then s[1..] else s;
    zero := Head(s1) == '0';
    var s2 := if zero then s1[1..] else s1;
    assert s1 == (if zero then "0" else "") + s2;
    assert s == (if minus then "-" else "") + s1;
  }

  lemma NumberFound(s: string) returns (minus: bool, zero: bool, digits: string)
    requires (Head(s) == '-' || IsDigit(Head(s))) && ParseNumber(s).Ok?
    ensures var p := ParseNumber(s);
            && Good(NumberText(minus, zero, digits), p.rest) && NumberOf(minus, zero, digits) + p.rest == s
            && p.value == Number(Signed(minus, digits))
  {
    PositionalNothing();
    hide AfterZero, ParseNumber, Digits, Positional, Shifted, Numeral, NumberOf;
    minus, zero := ZeroParts(s);
    NumberStop(s);
    var s2, p := AfterZero(s), ParseNumber(s);
    digits := DigitsOpened(s2);
    NumberParts(minus, zero, digits, p.rest);
    assert p.value == Number(Signed(minus, digits));
    assert digits + p.rest == s2;
    assert NumberEnds(zero, digits, p.rest) by {
      assert digits == "" ==> p.rest == s2;
    }
  }

  lemma NumberParts(minus: bool, zero: bool, digits: string, r: string)
    ensures NumberOf(minus, zero, digits) + r
         == (if minus then "-" else "") + ((if zero then "0" else "") + (digits + r))
  {
  }

  lemma PositionalNothing()
    ensures Positional("") == 0
  {
  }

  /** Every value that is read stands there as a text of the grammar. */
  lemma {:induction false} ValueFound(s: string) returns (c: Syntax)
    requires ParseValue(s).Ok?
    ensures var p := ParseValue(s); Good(c, p.rest) && Text(c) + p.rest == s && Value(c) == p.value
    decreases |s|, 1
  {
    Branches(s);
    hide ParseValue, ParseArray, ParseObject, ParseString, ParseNumber;
    if StartsWith(s, "null") {
      c := NullText;
    } else if StartsWith(s, "false") {
      c := FalseText;
    } else if StartsWith(s, "true") {
      c := TrueText;
    } else if Head(s) == '"' {
      var raw := StringFound(s);
      c := StringText(raw, ParseString(s).value);
    } else if Head(s) == '-' || IsDigit(Head(s)) {
      var minus, zero, digits := NumberFound(s);
      NumberIs(minus, zero, digits);
      c := NumberText(minus, zero, digits);
    } else if Head(s) == '[' {
      c := ArrayFound(s);
    } else {
      c := ObjectFound(s);
    }
  }

  lemma Branches(s: string)
    requires ParseValue(s).Ok?
    ensures if StartsWith(s, "null") then ParseValue(s) == Ok(Null, s[4..])
            else if StartsWith(s, "false") then ParseValue(s) == Ok(False, s[5..])
            else if StartsWith(s, "true") then ParseValue(s) == Ok(True, s[4..])
            else if Head(s) == '"' then
              ParseString(s).Ok? && ParseValue(s) == Ok(Str(ParseString(s).value), ParseString(s).rest)
            else if Head(s) == '-' || IsDigit(Head(s)) then ParseValue(s) == ParseNumber(s)
            else if Head(s) == '[' then ParseValue(s) == ParseArray(s)
            else Head(s) == '{' && ParseValue(s) == ParseObject(s)
  {
    hide ParseString, ParseNumber, ParseArray, ParseObject;
  }

  lemma ArrayParts(s: string)
    requires Head(s) == '[' && ParseArray(s).Ok?
    ensures var t, p := Skip(s[1..]), ParseArray(s);
            if Head(t) == ']' then p.value == Array([]) && t == "]" + p.rest
            else ParseItems(s[1..]).Ok? && p.value == Array(ParseItems(s[1..]).value)
                 && ParseItems(s[1..]).rest == "]" + p.rest
  {
    ItemsSkipped(s[1..]);
    hide ParseItems, Skip;
  }

  lemma ArrayMade(space: string, es: seq<Element>, r: string)
    ensures Text(ArrayText(space, es)) + r == "[" + ((if es == [] then space else ElementsText(es)) + ("]" + r))
    ensures Good(ArrayText(space, es), r) == (if es == [] then Blank(space) else GoodElements(es, "]" + r))
    ensures Value(ArrayText(space, es)) == Array(Values(es)) && Values([]) == []
  {
    hide ElementsText, GoodElements, Blank;
    Brackets("[", if es == [] then space else ElementsText(es), "]", r);
  }

  lemma {:induction false} ArrayFound(s: string) returns (c: Syntax)
    requires Head(s) == '[' && ParseArray(s).Ok?
    ensures var p := ParseArray(s); Good(c, p.rest) && Text(c) + p.rest == s && Value(c) == p.value
    decreases |s|, 0
  {
    hide *;
    Opened(s, '[');
    var u, r := s[1..], ParseArray(s).rest;
    ArrayParts(s);
    if Head(Skip(u)) == ']' {
      var w := Blanks(u);
      ArrayMade(w, [], r);
      c := ArrayText(w, []);
    } else {
      var es := ItemsFound(u);
      ArrayMade("", es, r);
      c := ArrayText("", es);
    }
  }

  lemma ItemsParts(s: string)
    requires ParseItems(s).Ok?
    ensures ParseValue(Skip(s)).Ok?
    ensures var p := ParseValue(Skip(s));
            var t := Skip(p.rest);
            if Head(t) != ',' then ParseItems(s) == Ok([p.value], t)
            else ParseItems(t[1..]).Ok?
                 && ParseItems(s) == Ok([p.value] + ParseItems(t[1..]).value, ParseItems(t[1..]).rest)
  {
    hide ParseValue, Skip;
  }

  lemma Front<T>(x: T, xs: seq<T>)
    ensures ([x] + xs)[0] == x && ([x] + xs)[1..] == xs
  {
  }

  lemma MoreElementsText(es: seq<Element>, r: string)
    ensures MoreElements(es) + r == if es == [] then r else "," + (ElementsText(es) + r)
  {
    hide ElementsText;
    if es != [] {
      Assoc(",", ElementsText(es), r);
    }
  }

  lemma ElementsFront(es: seq<Element>, r: string)
    requires es != []
    ensures ElementsText(es) == es[0].before + Text(es[0].value) + es[0].after + MoreElements(es[1..])
    ensures Values(es) == [Value(es[0].value)] + Values(es[1..])
    ensures GoodElements(es, r)
            == (Blank(es[0].before) && Blank(es[0].after)
                && Good(es[0].value, es[0].after + (MoreElements(es[1..]) + r)) && GoodElements(es[1..], r))
  {
    hide Text, Value, MoreElements, Blank, Good;
  }

  /** One element in front of others; `t` is the text behind it. */
  lemma ElementsJoined(es: seq<Element>, t: string, r: string)
    requires es != [] && Blank(es[0].before) && Blank(es[0].after) && Good(es[0].value, es[0].after + t)
    requires GoodElements(es[1..], r) && t == if es[1..] == [] then r else "," + (ElementsText(es[1..]) + r)
    ensures ElementsText(es) + r == es[0].before + (Text(es[0].value) + (es[0].after + t))
    ensures Values(es) == [Value(es[0].value)] + Values(es[1..])
    ensures GoodElements(es, r)
  {
    hide *;
    MoreElementsText(es[1..], r);
    ElementsFront(es, r);
    Spaced(es[0].before, Text(es[0].value), es[0].after, MoreElements(es[1..]), r);
  }

  lemma Opened(t: string, c: char)
    requires Head(t) == c && c != '\0'
    ensures t != "" && t == [c] + t[1..]
  {
  }

  lemma {:induction false} ItemsFound(s: string) returns (es: seq<Element>)
    requires ParseItems(s).Ok?
    ensures var p := ParseItems(s);
            es != [] && GoodElements(es, p.rest) && ElementsText(es) + p.rest == s && Values(es) == p.value
    decreases |s|, 2
  {
    NoElements(ParseItems(s).rest);
    hide *;
    ItemsParts(s);
    var b := Blanks(s);
    var c := ValueFound(Skip(s));
    var rest := ParseValue(Skip(s)).rest;
    var a := Blanks(rest);
    var t, r := Skip(rest), ParseItems(s).rest;
    var more: seq<Element> := [];
    if Head(t) == ',' {
      Opened(t, ',');
      more := ItemsFound(t[1..]);
    }
    es := [Element(b, c, a)] + more;
    Front(Element(b, c, a), more);
    ElementsJoined(es, t, r);
  }

  lemma NoElements(r: string)
    ensures GoodElements([], r) && Values([]) == []
  {
  }

  lemma Spaced(b: string, t: string, a: string, m: string, r: string)
    ensures b + t + a + m + r == b + (t + (a + (m + r)))
  {
  }

  lemma ObjectParts(s: string)
    requires Head(s) == '{' && ParseObject(s).Ok?
    ensures var t, p := Skip(s[1..]), ParseObject(s);
            if Head(t) == '}' then p.value == Object([]) && t == "}" + p.rest
            else ParseMembers(s[1..]).Ok? && p.value == Object(ParseMembers(s[1..]).value)
                 && ParseMembers(s[1..]).rest == "}" + p.rest
  {
    MembersSkip("", s[1..]);
    hide ParseMembers, Skip;
  }

  lemma ObjectMade(space: string, es: seq<Entry>, r: string)
    ensures Text(ObjectText(space, es)) + r == "{" + ((if es == [] then space else EntriesText(es)) + ("}" + r))
    ensures Good(ObjectText(space, es), r) == (if es == [] then Blank(space) else GoodEntries(es, "}" + r))
    ensures Value(ObjectText(space, es)) == Object(Members(es)) && Members([]) == []
  {
    hide EntriesText, GoodEntries, Blank;
    Brackets("{", if es == [] then space else EntriesText(es), "}", r);
  }

  lemma {:induction false} ObjectFound(s: string) returns (c: Syntax)
    requires Head(s) == '{' && ParseObject(s).Ok?
    ensures var p := ParseObject(s); Good(c, p.rest) && Text(c) + p.rest == s && Value(c) == p.value
    decreases |s|, 0
  {
    hide *;
    Opened(s, '{');
    var u, r := s[1..], ParseObject(s).rest;
    ObjectParts(s);
    if Head(Skip(u)) == '}' {
      var w := Blanks(u);
      ObjectMade(w, [], r);
      c := ObjectText(w, []);
    } else {
      var es := MembersFound(u);
      ObjectMade("", es, r);
      c := ObjectText("", es);
    }
  }

  lemma MemberParts(s: string)
    requires ParseMember(s).Ok?
    ensures ParseString(Skip(s)).Ok?
    ensures var t := Skip(ParseString(Skip(s)).rest);
            && Head(t) == ':' && ParseValue(Skip(t[1..])).Ok?
            && ParseMember(s) == Ok(Member(ParseString(Skip(s)).value, ParseValue(Skip(t[1..])).value),
                                    Skip(ParseValue(Skip(t[1..])).rest))
  {
    hide ParseString, ParseValue, Skip;
  }

  /** One member with everything that stands around it. */
  lemma {:induction false} MemberFound(s: string) returns (e: Entry)
    requires ParseMember(s).Ok?
    ensures var p := ParseMember(s);
            && Blank(e.before) && Blank(e.colon) && Blank(e.gap) && Blank(e.after) && e.raw != "" && e.raw[0] == '"'
            && Member(e.key, Value(e.value)) == p.value && Good(e.value, e.after + p.rest)
            && var u := e.colon + (":" + (e.gap + (Text(e.value) + (e.after + p.rest))));
               ParseString(e.raw + u) == Ok(e.key, u) && e.before + (e.raw + u) == s
    decreases |s|, 2
  {
    hide *;
    MemberParts(s);
    var key, rest := ParseString(Skip(s)).value, ParseString(Skip(s)).rest;
    var t := Skip(rest);
    Opened(t, ':');
    var last := ParseValue(Skip(t[1..])).rest;
    var b := Blanks(s);
    var raw := StringFound(Skip(s));
    var colon := Blanks(rest);
    var gap := Blanks(t[1..]);
    var c := ValueFound(Skip(t[1..]));
    var a := Blanks(last);
    e := Entry(b, raw, key, colon, gap, c, a);
  }

  lemma MoreEntriesText(es: seq<Entry>, r: string)
    ensures MoreEntries(es) + r == if es == [] then r else "," + (EntriesText(es) + r)
  {
    hide EntriesText;
    if es != [] {
      Assoc(",", EntriesText(es), r);
    }
  }

  lemma EntriesFront(es: seq<Entry>, r: string)
    requires es != []
    ensures Members(es) == [Member(es[0].key, Value(es[0].value))] + Members(es[1..])
    ensures GoodEntries(es, r)
            == (Blank(es[0].before) && Blank(es[0].colon) && Blank(es[0].gap) && Blank(es[0].after)
                && es[0].raw != "" && es[0].raw[0] == '"'
                && ParseString(es[0].raw + KeyTail(es, r)) == Ok(es[0].key, KeyTail(es, r))
                && Good(es[0].value, es[0].after + (MoreEntries(es[1..]) + r)) && GoodEntries(es[1..], r))
  {
    hide Text, Value, MoreEntries, Blank, Good, KeyTail, ParseString;
  }

  /** One entry in front of others; `t` is the text behind it. */
  lemma EntriesJoined(es: seq<Entry>, t: string, r: string)
    requires es != [] && Blank(es[0].before) && Blank(es[0].colon) && Blank(es[0].gap) && Blank(es[0].after)
    requires es[0].raw != "" && es[0].raw[0] == '"'
    requires Good(es[0].value, es[0].after + t) && GoodEntries(es[1..], r)
    requires var u := es[0].colon + (":" + (es[0].gap + (Text(es[0].value) + (es[0].after + t))));
             ParseString(es[0].raw + u) == Ok(es[0].key, u)
    requires t == if es[1..] == [] then r else "," + (EntriesText(es[1..]) + r)
    ensures EntriesText(es) + r
         == es[0].before + (es[0].raw + (es[0].colon + (":" + (es[0].gap + (Text(es[0].value) + (es[0].after + t))))))
    ensures Members(es) == [Member(es[0].key, Value(es[0].value))] + Members(es[1..])
    ensures GoodEntries(es, r)
  {
    hide EntriesText, MoreEntries, Text, Value, Members, Good, GoodEntries, Blank, ParseString;
    MoreEntriesText(es[1..], r);
    EntriesSplit(es, r);
    EntriesFront(es, r);
  }

  lemma {:induction false} MembersFound(s: string) returns (es: seq<Entry>)
    requires ParseMembers(s).Ok?
    ensures var p := ParseMembers(s);
            es != [] && GoodEntries(es, p.rest) && EntriesText(es) + p.rest == s && Members(es) == p.value
    decreases |s|, 3
  {
    NoEntries(ParseMembers(s).rest);
    hide *;
    MembersParts(s);
    var e := MemberFound(s);
    var t, r := ParseMember(s).rest, ParseMembers(s).rest;
    var more: seq<Entry> := [];
    if Head(t) == ',' {
      Opened(t, ',');
      more := MembersFound(t[1..]);
    }
    es := [e] + more;
    Front(e, more);
    EntriesJoined(es, t, r);
  }

  lemma MembersParts(s: string)
    requires ParseMembers(s).Ok?
    ensures ParseMember(s).Ok?
    ensures var p := ParseMember(s);
            var t := p.rest;
            if Head(t) != ',' then ParseMembers(s) == Ok([p.value], t)
            else ParseMembers(t[1..]).Ok?
                 && ParseMembers(s) == Ok([p.value] + ParseMembers(t[1..]).value, ParseMembers(t[1..]).rest)
  {
    hide ParseMember;
  }

  lemma NoEntries(r: string)
    ensures GoodEntries([], r) && Members([]) == []
  {
  }

  /** What parse_value accepts, what it makes of it and where it stops: exactly the texts of the
      grammar. */
  lemma ParsesExactly(s: string, v: Json, r: string)
    ensures ParseValue(s) == Ok(v, r) <==> exists c: Syntax :: Good(c, r) && Text(c) + r == s && Value(c) == v
  {
    hide *;
    if ParseValue(s) == Ok(v, r) {
      var c := ValueFound(s);
    }
    forall c | Good(c, r) && Text(c) + r == s && Value(c) == v
      ensures ParseValue(s) == Ok(v, r)
    {
      ValueParses(c, r);
    }
  }

  /** The shape of an accepted text: leading spaces, a text of the grammar, `r`; where the whole text
      must be used up, spaces may stand before `r`, which is nothing or a terminator. */
  ghost predicate Accepted(text: string, requireNull: bool, v: Json, r: string) {
    exists before: string, c: Syntax, after: string :: Framed(text, requireNull, v, r, before, c, after)
  }

  predicate Framed(text: string, requireNull: bool, v: Json, r: string, before: string, c: Syntax, after: string) {
    && Blank(before) && Blank(after) && text == before + (Text(c) + (after + r)) && Good(c, after + r)
    && Value(c) == v && if requireNull then r == "" || r[0] as int == 0 else after == ""
  }

  /** What cJSON_ParseWithOpts accepts, what it makes of it and where it stops. */
  lemma AcceptsExactly(text: string, requireNull: bool, v: Json, r: string)
    ensures Parse(text, requireNull) == Ok(v, r) <==> Accepted(text, requireNull, v, r)
  {
    hide ParseValue, Skip, Text, Good, Value, Blank;
    if Parse(text, requireNull) == Ok(v, r) {
      var before := Blanks(text);
      var c := ValueFound(Skip(text));
      var rest := ParseValue(Skip(text)).rest;
      var after := Blanks(rest);
      if !requireNull {
        after := "";
        BlankNothing();
        assert "" + r == r;
      }
      assert Framed(text, requireNull, v, r, before, c, after);
    }
    forall before, c, after | Framed(text, requireNull, v, r, before, c, after)
      ensures Parse(text, requireNull) == Ok(v, r)
    {
      TextHead(c, after + r);
      SkipBlank(before, Text(c) + (after + r));
      ValueParses(c, after + r);
      assert "" + r == r;
      if requireNull {
        SkipBlank(after, r);
      }
    }
  }

  lemma BlankNothing()
    ensures Blank("")
  {
  }
}

/** Texts of RFC 8259 as the parser and the printers of cJSON.c see them: every such text is parsed as
    what it means, whatever spaces it has, and every printed text is one. */
module JsonStandard {
  import opened Ascii
  import opened JsonText
  import opened JsonRoundTrip
  import opened JsonGrammar
  import JsonLiteral

  /** A literal made of the pieces of section 7 of RFC 8259, and what they denote. */
  ghost predicate Literal(raw: string, s: string) {
    exists ps: seq<JsonLiteral.Piece> ::
      && (forall p :: p in ps ==> JsonLiteral.WellFormed(p))
      && raw == "\"" + JsonLiteral.Written(ps) + "\"" && s == JsonLiteral.Denoted(ps)
  }

  /** A text of RFC 8259 whose numbers are C ints without fraction and exponent. */
  ghost predicate Standard(c: Syntax) {
    match c
    case NullText => true
    case FalseText => true
    case TrueText => true
    case NumberText(minus, zero, digits) =>
      Numeral(digits) && (zero <==> digits == "") && CInt(Signed(minus, digits))
    case StringText(raw, s) => Literal(raw, s)
    case ArrayText(space, es) =>
      Blank(space) && forall i :: 0 <= i < |es| ==> StandardElement(es[i])
    case ObjectText(space, es) =>
      Blank(space) && forall i :: 0 <= i < |es| ==> StandardEntry(es[i])
  }

  ghost predicate StandardElement(e: Element) {
    Blank(e.before) && Blank(e.after) && Standard(e.value)
  }

  ghost predicate StandardEntry(e: Entry) {
    && Blank(e.before) && Blank(e.colon) && Blank(e.gap) && Blank(e.after)
    && Literal(e.raw, e.key) && Standard(e.value)
  }

  lemma LiteralReads(raw: string, s: string, r: string)
    requires Literal(raw, s)
    ensures raw != "" && raw[0] == '"' && ParseString(raw + r) == Ok(s, r)
  {
    hide ParseString;
    var ps: seq<JsonLiteral.Piece> :|
      && (forall p :: p in ps ==> JsonLiteral.WellFormed(p))
      && raw == "\"" + JsonLiteral.Written(ps) + "\"" && s == JsonLiteral.Denoted(ps);
    JsonLiteral.LiteralMeaning(ps, r);
  }

  lemma {:induction false} StandardGood(c: Syntax, r: string)
    requires Standard(c) && Stop(r)
    ensures Good(c, r)
    decreases c, 1
  {
    match c
    case NullText =>
    case FalseText =>
    case TrueText =>
    case NumberText(minus, zero, digits) =>
    case StringText(raw, s) => LiteralReads(raw, s, r);
    case ArrayText(space, es) =>
      if es != [] {
        StandardElements(es, "]" + r);
      }
    case ObjectText(space, es) =>
      if es != [] {
        StandardEntries(es, "}" + r);
      }
  }

  lemma StopBehind(w: string, m: string, r: string)
    requires Blank(w) && (m != "" ==> m[0] == ',') && Head(r) in {']', '}'}
    ensures Stop(w + (m + r))
  {
  }

  lemma {:induction false} StandardElements(es: seq<Element>, r: string)
    requires (forall i :: 0 <= i < |es| ==> StandardElement(es[i])) && Head(r) in {']', '}'}
    ensures GoodElements(es, r)
    decreases es, 0
  {
    if es != [] {
      var m := MoreElements(es[1..]);
      assert m != "" ==> m[0] == ',';
      assert StandardElement(es[0]);
      StandardElements(es[1..], r);
      hide Good, Standard;
      StopBehind(es[0].after, m, r);
      StandardGood(es[0].value, es[0].after + (m + r));
    }
  }

  lemma {:induction false} StandardEntries(es: seq<Entry>, r: string)
    requires (forall i :: 0 <= i < |es| ==> StandardEntry(es[i])) && Head(r) in {']', '}'}
    ensures GoodEntries(es, r)
    decreases es, 0
  {
    if es != [] {
      var m := MoreEntries(es[1..]);
      assert m != "" ==> m[0] == ',';
      assert StandardEntry(es[0]);
      StandardEntries(es[1..], r);
      LiteralReads(es[0].raw, es[0].key, KeyTail(es, r));
      hide Good, Standard;
      StopBehind(es[0].after, m, r);
      StandardGood(es[0].value, es[0].after + (m + r));
    }
  }

  /** A standard text with any runs of the characters 1 to 32 between, before and behind its tokens
      is parsed, as what it means. */
  lemma StandardParses(before: string, c: Syntax, after: string, requireNull: bool)
    requires Blank(before) && Standard(c) && Blank(after)
    ensures Parse(before + Text(c) + after, requireNull) == Ok(Value(c), if requireNull then "" else after)
  {
    assert Stop(after);
    StandardGood(c, after);
    TextHead(c, after);
    hide Text, Good, Standard, Skip, ParseValue, Blank, Stop;
    Assoc(before, Text(c), after);
    SkipBlank(before, Text(c) + after);
    ValueParses(c, after);
    assert after + "" == after;
    SkipBlank(after, "");
  }

  // ---------------------------------------------------------------- printed texts are standard

  /** The piece that print_string_ptr writes for a character. */
  lemma PieceFor(c: char) returns (p: JsonLiteral.Piece)
    requires 0 < c as int < 256
    ensures JsonLiteral.WellFormed(p) && JsonLiteral.Source(p) == EscapeChar(c) && JsonLiteral.Meaning(p) == [c]
  {
    if !NeedsEscape(c) {
      p := JsonLiteral.Raw(c);
    } else if |EscapeChar(c)| == 2 {
      p := JsonLiteral.Short(EscapeChar(c)[1]);
    } else {
      var h := EscapeChar(c)[2..];
      assert EscapeChar(c) == "\\u" + h && |h| == 4;
      HexByte(c);
      assert h[0] == '0' && h[1] == '0' && h[2] == HEX[c as int / 16] && h[3] == HEX[c as int % 16];
      assert FourHex(h) && Hex4(h) == c as int;
      p := JsonLiteral.Unit(h);
    }
  }

  lemma {:induction false} PiecesFor(x: string) returns (ps: seq<JsonLiteral.Piece>)
    requires CString(x)
    ensures forall p :: p in ps ==> JsonLiteral.WellFormed(p)
    ensures JsonLiteral.Written(ps) == Escaped(x) && JsonLiteral.Denoted(ps) == x
  {
    if x == "" {
      ps := [];
    } else {
      var more := PiecesFor(x[1..]);
      var p := PieceFor(x[0]);
      hide EscapeChar, JsonLiteral.WellFormed, JsonLiteral.Source, JsonLiteral.Meaning;
      ps := [p] + more;
      assert ps[0] == p && ps[1..] == more;
      assert [x[0]] + x[1..] == x;
    }
  }

  lemma PrintedLiteral(x: string)
    requires CString(x)
    ensures Literal(PrintString(x), x)
  {
    hide Escaped;
    var ps := PiecesFor(x);
  }

  lemma {:induction false} DecimalNumeral(n: nat)
    requires n > 0
    ensures Numeral(Decimal(n)) && Positional(Decimal(n)) == n
  {
    if n >= 10 {
      DecimalNumeral(n / 10);
      var d := Decimal(n);
      assert d[..|d| - 1] == Decimal(n / 10);
    } else {
      PositionalNothing();
      assert Decimal(n)[..0] == "";
    }
  }

  lemma NumberStandard(minus: bool, zero: bool, digits: string)
    requires Numeral(digits) && (zero <==> digits == "") && CInt(Signed(minus, digits))
    ensures Standard(NumberText(minus, zero, digits))
  {
  }

  lemma PrintedNumber(n: int) returns (c: Syntax)
    requires INT_MIN <= n <= INT_MAX
    ensures Standard(c) && Text(c) == PrintNumber(n) && Value(c) == Number(n)
  {
    var m := if n < 0 then -n else n;
    var d := if n == 0 then "" else Decimal(m);
    PositionalNothing();
    if n == 0 {
      assert Decimal(0) == "0";
    } else {
      DecimalNumeral(m);
    }
    hide Decimal, Positional, Numeral, Standard, Text, Value;
    NumberStandard(n < 0, n == 0, d);
    NumberIs(n < 0, n == 0, d);
    c := NumberText(n < 0, n == 0, d);
  }

  /** What is printed is a standard text for the value, in either format. */
  lemma {:induction false} PrintedStandard(v: Json, depth: nat, fmt: bool) returns (c: Syntax)
    requires Printable(v)
    ensures Standard(c) && Text(c) == Print(v, depth, fmt) && Value(c) == v
    decreases v, 2
  {
    hide Literal, PrintString, EntriesText, ElementsText, PrintItems, PrintMembers, NumberOf, Positional;
    match v
    case Null => c := NullText;
    case False => c := FalseText;
    case True => c := TrueText;
    case Number(n) => c := PrintedNumber(n);
    case Str(s) =>
      PrintedLiteral(s);
      c := StringText(PrintString(s), s);
    case Array(items) => c := PrintedArray(v, depth, fmt);
    case Object(members) => c := PrintedObject(v, depth, fmt);
  }

  lemma {:induction false} PrintedArray(v: Json, depth: nat, fmt: bool) returns (c: Syntax)
    requires v.Array? && Printable(v)
    ensures Standard(c) && Text(c) == Print(v, depth, fmt) && Value(c) == v
    decreases v, 1
  {
    var items, p := v.items, PrintItems(v.items, depth + 1, fmt);
    assert Print(v, depth, fmt) == "[" + p + "]" && (items == [] ==> p == "");
    hide Print, PrintItems;
    if items == [] {
      c := ArrayText("", []);
    } else {
      var es := PrintedItems(items, depth + 1, fmt, "");
      hide StandardElement, Printable, ElementsText, Values;
      assert "" + p == p;
      c := ArrayText("", es);
    }
  }

  lemma {:induction false} PrintedItems(items: seq<Json>, depth: nat, fmt: bool, before: string)
    returns (es: seq<Element>)
    requires items != [] && Blank(before) && forall i :: 0 <= i < |items| ==> Printable(items[i])
    ensures es != [] && forall i :: 0 <= i < |es| ==> StandardElement(es[i])
    ensures ElementsText(es) == before + PrintItems(items, depth, fmt) && Values(es) == items
    decreases items, 1
  {
    var p, q := Print(items[0], depth, fmt), PrintItems(items[1..], depth, fmt);
    var c := PrintedStandard(items[0], depth, fmt);
    var e := Element(before, c, "");
    var w := if fmt then " " else "";
    assert PrintItems(items, depth, fmt) == p + Comma(|items| > 1, fmt) + q;
    assert |items| == 1 ==> q == "";
    assert |items| > 1 ==> Comma(true, fmt) == "," + w;
    var more: seq<Element> := [];
    if |items| > 1 {
      more := PrintedItems(items[1..], depth, fmt, w);
    }
    es := [e] + more;
    Front(e, more);
    NoElements("");
    ElementsFront(es, "");
    MoreElementsAlone(more);
    assert StandardElement(e);
    assert [items[0]] + items[1..] == items;
    hide Print, PrintItems, Standard, StandardElement, ElementsText, MoreElements, Text, Value, Values, Printable;
    FourParts(before, p, w, q);
  }

  lemma MoreElementsAlone(es: seq<Element>)
    ensures MoreElements(es) == if es == [] then "" else "," + ElementsText(es)
  {
  }

  lemma FourParts(b: string, p: string, w: string, q: string)
    ensures b + p + "" + ("," + (w + q)) == b + (p + ("," + w) + q)
    ensures b + p + "" + "" == b + (p + "" + "")
  {
  }

  lemma ObjectPrinted(ms: seq<Member>, depth: nat, fmt: bool) returns (before: string, tail: string)
    ensures Blank(before) && Blank(tail)
    ensures ms == [] ==> Print(Object(ms), depth, fmt) == "{" + before + "}"
    ensures ms != [] ==>
              Print(Object(ms), depth, fmt) == "{" + (before + PrintMembers(ms, depth + 1, fmt) + tail) + "}"
  {
    var p := PrintMembers(ms, depth + 1, fmt);
    tail := if fmt then Tabs(depth) else "";
    if ms == [] {
      before := if fmt then "\n" + Tabs(if depth > 0 then depth - 1 else 0) else "";
    } else {
      before := if fmt then "\n" else "";
      assert Print(Object(ms), depth, fmt) == "{" + before + p + tail + "}";
      hide PrintMembers, Print, Tabs;
      assert "{" + (before + p + tail) + "}" == "{" + before + p + tail + "}";
    }
  }

  lemma {:induction false} PrintedObject(v: Json, depth: nat, fmt: bool) returns (c: Syntax)
    requires v.Object? && Printable(v)
    ensures Standard(c) && Text(c) == Print(v, depth, fmt) && Value(c) == v
    decreases v, 1
  {
    var ms := v.members;
    var before, tail := ObjectPrinted(ms, depth, fmt);
    hide Print, PrintMembers, Blank;
    if ms == [] {
      c := ObjectText(before, []);
    } else {
      var es := PrintedMembers(ms, depth + 1, fmt, before, tail);
      assert Blank("") by {
        BlankNothing();
      }
      hide StandardEntry, Printable, EntriesText, Members;
      c := ObjectText("", es);
    }
  }

  lemma MemberPrinted(m: Member, depth: nat, fmt: bool, before: string) returns (tabs: string, gap: string)
    requires Blank(before)
    ensures Blank(before + tabs) && Blank(gap)
    ensures before + tabs + PrintString(m.key) + "" + ":" + gap + Print(m.value, depth, fmt)
         == before + PrintMember(m, depth, fmt)
  {
    tabs, gap := if fmt then Tabs(depth) else "", if fmt then "\t" else "";
    var k, p, colon := PrintString(m.key), Print(m.value, depth, fmt), ":" + gap;
    assert PrintMember(m, depth, fmt) == tabs + k + colon + p;
    assert Blank(tabs);
    hide Print, PrintMember, PrintString, Tabs;
    assert before + tabs + k + "" == before + tabs + k;
    assert before + tabs + k + ":" + gap + p == before + (tabs + k + colon + p);
  }

  /** The entry for one member, between `before` and `after`. */
  lemma {:induction false} PrintedMember(m: Member, depth: nat, fmt: bool, before: string, after: string)
    returns (e: Entry)
    requires CString(m.key) && Printable(m.value) && Blank(before) && Blank(after)
    ensures StandardEntry(e) && Member(e.key, Value(e.value)) == m && e.after == after
    ensures EntryHead(e) + Text(e.value) == before + PrintMember(m, depth, fmt)
    decreases m, 3
  {
    hide Standard, Print, PrintMember, PrintString, Literal, Tabs, Text, Value, Printable, Blank;
    var c := PrintedStandard(m.value, depth, fmt);
    var tabs, gap := MemberPrinted(m, depth, fmt, before);
    BlankNothing();
    e := Entry(before + tabs, PrintString(m.key), m.key, "", gap, c, after);
    PrintedLiteral(m.key);
  }

  lemma {:induction false} PrintedMembers(ms: seq<Member>, depth: nat, fmt: bool, before: string, tail: string)
    returns (es: seq<Entry>)
    requires ms != [] && Blank(before) && Blank(tail)
    requires forall i :: 0 <= i < |ms| ==> CString(ms[i].key) && Printable(ms[i].value)
    ensures es != [] && forall i :: 0 <= i < |es| ==> StandardEntry(es[i])
    ensures EntriesText(es) == before + PrintMembers(ms, depth, fmt) + tail && Members(es) == ms
    decreases ms, 1
  {
    hide Print, PrintMember, PrintMembers, Text, Value, Printable, CString, StandardEntry;
    hide EntriesText, MoreEntries, EntryHead, Members;
    var p, q := PrintMember(ms[0], depth, fmt), PrintMembers(ms[1..], depth, fmt);
    var w := if fmt then "\n" else "";
    MembersText(ms, depth, fmt);
    var e := PrintedMember(ms[0], depth, fmt, before, if |ms| == 1 then w + tail else "");
    var more: seq<Entry> := [];
    if |ms| > 1 {
      more := PrintedMembers(ms[1..], depth, fmt, w, tail);
    }
    es := [e] + more;
    Front(e, more);
    NoEntries("");
    EntriesFront(es, "");
    EntriesHead(es);
    MoreEntriesAlone(more);
    assert [ms[0]] + ms[1..] == ms;
    FiveParts(before, p, w, q, tail);
  }

  lemma MoreEntriesAlone(es: seq<Entry>)
    ensures MoreEntries(es) == if es == [] then "" else "," + EntriesText(es)
  {
  }

  lemma EntriesHead(es: seq<Entry>)
    requires es != []
    ensures EntriesText(es) == EntryHead(es[0]) + Text(es[0].value) + es[0].after + MoreEntries(es[1..])
  {
  }

  lemma FiveParts(b: string, p: string, w: string, q: string, tail: string)
    ensures b + p + "" + ("," + (w + q + tail)) == b + (p + ("," + w) + q) + tail
    ensures b + p + (w + tail) + "" == b + (p + w) + tail
  {
  }

  /** cJSON_Print and cJSON_PrintUnformatted write standard texts, which mean what was printed. */
  lemma PrintStandard(v: Json, fmt: bool)
    requires Printable(v)
    ensures exists c: Syntax :: Standard(c) && Text(c) == Print(v, 0, fmt) && Value(c) == v
  {
    hide *;
    var c := PrintedStandard(v, 0, fmt);
  }
}

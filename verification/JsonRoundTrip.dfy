/** Parsing undoes printing: for every printable tree, at every depth, in both formats. */
module JsonRoundTrip {
  import opened Ascii
  import opened JsonText

  /** What may follow a printed number. */
  predicate Stop(r: string) {
    !IsDigit(Head(r)) && Head(r) !in {'.', 'e', 'E'}
  }

  predicate AllSpace(w: string) {
    forall i :: 0 <= i < |w| ==> IsSpace(w[i])
  }

  lemma {:induction false} SkipOver(w: string, s: string)
    requires AllSpace(w)
    ensures Skip(w + s) == Skip(s)
  {
    if w == [] {
      assert w + s == s;
    } else {
      assert (w + s)[1..] == w[1..] + s;
      SkipOver(w[1..], s);
    }
  }

  lemma SkipNone(s: string)
    requires !IsSpace(Head(s))
    ensures Skip(s) == s
  {
  }

  lemma Regroup(a: string, b: string, c: string, d: string)
    ensures a + b + c + d == a + (b + (c + d))
  {
  }

  // ---------------------------------------------------------------- strings

  /** One escape step of the body scan. */
  lemma EscapeStep(s: string, bytes: string, k: nat)
    requires |s| >= 1 && s[0] == '\\' && Escape(s[1..]) == (bytes, k) && 1 + k <= |s|
    ensures Unescape(s) == Prepend(bytes, Unescape(s[1 + k..]))
    ensures |s| >= 2 ==> LiteralLength(s) == 1 + LiteralLength(s[2..])
  {
  }

  lemma UnescapeChar(c: char, t: string)
    requires 0 < c as int < 256
    ensures Unescape(EscapeChar(c) + t) == Prepend([c], Unescape(t))
    ensures LiteralLength(EscapeChar(c) + t) >= 1 + LiteralLength(t)
  {
    hide Unescape, LiteralLength;
    var s := EscapeChar(c) + t;
    if !NeedsEscape(c) {
      PlainStep(c, t);
    } else if |EscapeChar(c)| == 2 {
      assert s[2..] == t;
      assert Escape(s[1..]) == ([c], 1);
      EscapeStep(s, [c], 1);
    } else {
      assert s[6..] == t && s[2..] == EscapeChar(c)[2..] + t;
      assert s[1..][1..] == s[2..] && s[2..][4..] == t;
      ControlEscape(c, s[1..]);
      EscapeStep(s, [c], 5);
      FourPlainChars(s[2..], t);
    }
  }

  lemma PlainStep(c: char, t: string)
    requires !NeedsEscape(c)
    ensures Unescape([c] + t) == Prepend([c], Unescape(t))
    ensures LiteralLength([c] + t) == 1 + LiteralLength(t)
  {
    assert ([c] + t)[1..] == t;
  }

  lemma ControlEscape(c: char, s: string)
    requires '\0' < c < ' ' && |EscapeChar(c)| == 6
    requires |s| >= 5 && s[0] == 'u' && s[1..5] == EscapeChar(c)[2..]
    ensures Escape(s) == ([c], 5) && FourHex(s[1..])
  {
    HexByte(c);
    var h := s[1..];
    assert h[0] == s[1..5][0] && h[1] == s[1..5][1] && h[2] == s[1..5][2] && h[3] == s[1..5][3];
    assert Hex4(h) == c as int;
  }

  lemma HexByte(c: char)
    requires c < ' '
    ensures HexDigit(HEX[c as int / 16]) * 16 + HexDigit(HEX[c as int % 16]) == c as int
    ensures HexDigit(HEX[c as int / 16]) >= 0 && HexDigit(HEX[c as int % 16]) >= 0
  {
    assert forall d :: 0 <= d < 16 ==> HexDigit(HEX[d]) == d;
  }

  lemma FourPlainChars(s: string, t: string)
    requires FourHex(s) && s[4..] == t
    ensures LiteralLength(s) == 4 + LiteralLength(t)
  {
    assert s[1..][1..] == s[2..] && s[2..][1..] == s[3..] && s[3..][1..] == s[4..];
    assert LiteralLength(s[3..]) == 1 + LiteralLength(t);
    assert LiteralLength(s[2..]) == 2 + LiteralLength(t);
    assert LiteralLength(s[1..]) == 3 + LiteralLength(t);
  }

  lemma {:induction false} UnescapeEscaped(x: string, r: string)
    requires CString(x)
    ensures Unescape(Escaped(x) + "\"" + r) == Body(x, "\"" + r)
    ensures LiteralLength(Escaped(x) + "\"" + r) >= |x|
  {
    hide Unescape, LiteralLength, Escaped, EscapeChar;
    if x == [] {
      EscapedNothing(r);
    } else {
      var t := Escaped(x[1..]) + "\"" + r;
      EscapedFirst(x, r);
      UnescapeEscaped(x[1..], r);
      UnescapeChar(x[0], t);
      assert [x[0]] + x[1..] == x;
    }
  }

  lemma EscapedNothing(r: string)
    ensures Unescape(Escaped("") + "\"" + r) == Body("", "\"" + r) && LiteralLength(Escaped("") + "\"" + r) >= 0
  {
    assert Escaped("") + "\"" + r == "\"" + r;
  }

  lemma EscapedFirst(x: string, r: string)
    requires x != ""
    ensures Escaped(x) + "\"" + r == EscapeChar(x[0]) + (Escaped(x[1..]) + "\"" + r)
  {
    var e, q := EscapeChar(x[0]), Escaped(x[1..]);
    assert Escaped(x) == e + q;
    hide Escaped, EscapeChar;
    assert e + q + "\"" + r == e + (q + "\"" + r);
  }

  /** parse_string undoes print_string_ptr, within the buffer it allocates. */
  lemma StringRoundTrip(x: string, r: string)
    requires CString(x)
    ensures ParseString(PrintString(x) + r) == Ok(x, r)
  {
    var s := PrintString(x) + r;
    assert s[1..] == Escaped(x) + "\"" + r;
    UnescapeEscaped(x, r);
    assert ("\"" + r)[1..] == r;
  }

  // ---------------------------------------------------------------- numbers

  lemma {:induction false} DigitsOfDecimal(n: nat, r: string)
    ensures IsDigit(Decimal(n)[0])
    ensures n > 0 ==> Decimal(n)[0] != '0'
    ensures Digits(Decimal(n) + r, 0) == Digits(r, n)
  {
    var last := [('0' as int + n % 10) as char];
    assert (last + r)[1..] == r;
    if n >= 10 {
      DigitsOfDecimal(n / 10, last + r);
      assert Decimal(n) + r == Decimal(n / 10) + (last + r);
      assert Digits(last + r, n / 10) == Digits(r, n / 10 * 10 + n % 10);
    }
  }

  lemma NumberRoundTrip(n: int, r: string)
    requires INT_MIN <= n <= INT_MAX && Stop(r)
    ensures Head(PrintNumber(n) + r) == '-' || IsDigit(Head(PrintNumber(n) + r))
    ensures ParseNumber(PrintNumber(n) + r) == Ok(Number(n), r)
  {
    var m := if n < 0 then -n else n;
    DigitsOfDecimal(m, r);
    assert m == 0 ==> Decimal(m) == "0";
    var s, s1 := PrintNumber(n) + r, Decimal(m) + r;
    assert n < 0 ==> s == "-" + s1 && s[1..] == s1;
    assert m == 0 ==> s1[1..] == r;
    hide Digits, Decimal, PrintNumber;
    NumberParsed(s, s1, n, r);
  }

  lemma NumberParsed(s: string, s1: string, n: int, r: string)
    requires INT_MIN <= n <= INT_MAX && Stop(r) && s1 != "" && IsDigit(s1[0])
    requires if n < 0 then s != "" && s[0] == '-' && s[1..] == s1 else s == s1
    requires if n == 0 then s1[0] == '0' && s1[1..] == r
             else s1[0] != '0' && Digits(s1, 0) == (if n < 0 then -n else n, r)
    ensures ParseNumber(s) == Ok(Number(n), r)
  {
    hide Digits;
  }

  // ---------------------------------------------------------------- values

  /** Printed text starts with a character that is neither space nor a closing bracket. */
  lemma PrintHead(v: Json, depth: nat, fmt: bool)
    ensures var p := Print(v, depth, fmt);
            |p| > 0 && !IsSpace(p[0]) && p[0] != ']'
  {
    if v.Number? && v.n >= 0 {
      DigitsOfDecimal(v.n, "");
    }
  }

  /** parse_value picks its branch by the first character; no keyword starts like the others. */
  lemma Dispatch(s: string)
    ensures Head(s) == '[' ==> ParseValue(s) == ParseArray(s)
    ensures Head(s) == '{' ==> ParseValue(s) == ParseObject(s)
    ensures Head(s) == '-' || IsDigit(Head(s)) ==> ParseValue(s) == ParseNumber(s)
    ensures Head(s) == '"' && ParseString(s).Ok? ==>
              ParseValue(s) == Ok(Str(ParseString(s).value), ParseString(s).rest)
  {
  }

  lemma {:induction false} ValueRoundTrip(v: Json, depth: nat, fmt: bool, r: string)
    requires Printable(v) && Stop(r)
    ensures ParseValue(Print(v, depth, fmt) + r) == Ok(v, r)
    decreases v, 2
  {
    assert v.Number? ==> INT_MIN <= v.n <= INT_MAX && Print(v, depth, fmt) == PrintNumber(v.n);
    assert v.Str? ==> CString(v.s) && Print(v, depth, fmt) == PrintString(v.s);
    hide ParseValue, Print, Printable;
    match v
    case Null => KeywordRoundTrip(v, depth, fmt, r);
    case False => KeywordRoundTrip(v, depth, fmt, r);
    case True => KeywordRoundTrip(v, depth, fmt, r);
    case Number(n) =>
      NumberRoundTrip(n, r);
      Dispatch(PrintNumber(n) + r);
    case Str(x) =>
      StringRoundTrip(x, r);
      Dispatch(PrintString(x) + r);
    case Array(items) => ArrayRoundTrip(v, depth, fmt, r);
    case Object(members) => ObjectRoundTrip(v, depth, fmt, r);
  }

  lemma KeywordRoundTrip(v: Json, depth: nat, fmt: bool, r: string)
    requires v.Null? || v.False? || v.True?
    ensures ParseValue(Print(v, depth, fmt) + r) == Ok(v, r)
  {
    var s := Print(v, depth, fmt) + r;
    if v.Null? {
      assert StartsWith(s, "null") && s[4..] == r;
    } else if v.False? {
      assert s[0] == 'f' && StartsWith(s, "false") && s[5..] == r;
    } else {
      assert s[0] == 't' && StartsWith(s, "true") && s[4..] == r;
    }
  }

  /** One round of the array loop. */
  lemma ItemsStep(s: string, v: Json, t: string)
    requires ParseValue(Skip(s)) == Ok(v, t)
    ensures Head(Skip(t)) != ',' ==> ParseItems(s) == Ok([v], Skip(t))
    ensures Head(Skip(t)) == ',' && ParseItems(Skip(t)[1..]).Ok? ==>
              var next := ParseItems(Skip(t)[1..]);
              ParseItems(s) == Ok([v] + next.value, next.rest)
  {
  }

  lemma ArrayStep(s: string, t: string)
    requires Head(s) == '[' && Skip(s[1..]) == t
    ensures Head(t) == ']' ==> ParseValue(s) == Ok(Array([]), t[1..])
    ensures Head(t) != ']' && ParseItems(t).Ok? && Head(ParseItems(t).rest) == ']' ==>
              ParseValue(s) == Ok(Array(ParseItems(t).value), ParseItems(t).rest[1..])
  {
    Dispatch(s);
  }

  lemma {:induction false} ArrayRoundTrip(v: Json, depth: nat, fmt: bool, r: string)
    requires v.Array? && Printable(v)
    ensures ParseValue(Print(v, depth, fmt) + r) == Ok(v, r)
    decreases v, 1
  {
    var items, p := v.items, PrintItems(v.items, depth + 1, fmt);
    assert Print(v, depth, fmt) == "[" + p + "]";
    assert items == [] ==> p == "";
    hide Print, PrintItems, ParseValue, ParseItems;
    var s := Print(v, depth, fmt) + r;
    assert s[1..] == p + ("]" + r) && ("]" + r)[1..] == r;
    if items == [] {
      assert p + ("]" + r) == "]" + r;
    } else {
      ItemsRoundTrip(items, depth + 1, fmt, "]" + r);
    }
    ArrayStep(s, p + ("]" + r));
  }

  lemma {:induction false} ItemsRoundTrip(items: seq<Json>, depth: nat, fmt: bool, r: string)
    requires items != [] && forall i :: 0 <= i < |items| ==> Printable(items[i])
    requires Head(r) == ']'
    ensures var p := PrintItems(items, depth, fmt);
            |p| > 0 && !IsSpace(p[0]) && p[0] != ']' && ParseItems(p + r) == Ok(items, r)
    decreases items, 1
  {
    var p, c, q := Print(items[0], depth, fmt), Comma(|items| > 1, fmt), PrintItems(items[1..], depth, fmt);
    assert PrintItems(items, depth, fmt) == p + c + q;
    assert |items| == 1 ==> c == "" && q == "" && [items[0]] == items;
    assert |items| > 1 ==> c[0] == ',' && AllSpace(c[1..]);
    PrintHead(items[0], depth, fmt);
    hide Print, PrintItems, ParseValue, ParseItems, Printable, Skip, AllSpace, Comma;
    if |items| == 1 {
      assert p + c + q == p;
      ValueRoundTrip(items[0], depth, fmt, r);
      SkipNone(p + r);
      SkipNone(r);
      ItemsStep(p + r, items[0], r);
    } else {
      ValueRoundTrip(items[0], depth, fmt, c + (q + r));
      ItemsRoundTrip(items[1..], depth, fmt, r);
      ItemsMore(p, c, q, r, items[0], items[1..]);
      assert [items[0]] + items[1..] == items;
    }
  }

  lemma ItemsMore(p: string, c: string, q: string, r: string, v: Json, vs: seq<Json>)
    requires ParseValue(p + (c + (q + r))) == Ok(v, c + (q + r)) && ParseItems(q + r) == Ok(vs, r)
    requires p != "" && !IsSpace(p[0]) && c != "" && c[0] == ',' && AllSpace(c[1..])
    ensures ParseItems(p + c + q + r) == Ok([v] + vs, r)
  {
    hide ParseValue, ParseItems, Skip, AllSpace;
    var t := c + (q + r);
    Regroup(p, c, q, r);
    TailOf(c, q + r);
    ItemsSkip(c[1..], q + r);
    SkipNone(p + t);
    SkipNone(t);
    ItemsStep(p + t, v, t);
  }

  lemma TailOf(c: string, s: string)
    requires c != ""
    ensures (c + s)[0] == c[0] && (c + s)[1..] == c[1..] + s
  {
  }

  lemma ItemsSkip(w: string, s: string)
    requires AllSpace(w)
    ensures ParseItems(w + s) == ParseItems(s)
  {
    hide ParseValue;
    SkipOver(w, s);
  }

  lemma ObjectStep(s: string)
    requires Head(s) == '{'
    ensures var t := Skip(s[1..]);
            && (Head(t) == '}' ==> ParseValue(s) == Ok(Object([]), t[1..]))
            && (Head(t) != '}' && ParseMembers(t).Ok? && Head(ParseMembers(t).rest) == '}' ==>
                  ParseValue(s) == Ok(Object(ParseMembers(t).value), ParseMembers(t).rest[1..]))
  {
    Dispatch(s);
  }

  lemma {:induction false} ObjectRoundTrip(v: Json, depth: nat, fmt: bool, r: string)
    requires v.Object? && Printable(v)
    ensures ParseValue(Print(v, depth, fmt) + r) == Ok(v, r)
    decreases v, 1
  {
    var ms := v.members;
    var p := PrintMembers(ms, depth + 1, fmt);
    var w := if fmt then "\n" else "";
    var w' := if !fmt then "" else if ms != [] then Tabs(depth) else Tabs(if depth > 0 then depth - 1 else 0);
    assert ms == [] ==> p == "";
    assert Print(v, depth, fmt) == "{" + w + p + w' + "}" by {
      if ms == [] {
        assert p == "" && "{" + w + p + w' == "{" + (w + w');
      } else {
        assert "{" + w + p + w' + "}" == "{" + w + p + (w' + "}");
      }
    }
    SkipOver(w', "}" + r);
    SkipNone("}" + r);
    hide Print, PrintMembers, ParseValue, ParseMembers, Printable, Skip, Tabs;
    var t := p + (w' + ("}" + r));
    if ms == [] {
      assert t == w' + ("}" + r);
    } else {
      MembersRoundTrip(ms, depth + 1, fmt, w' + ("}" + r));
    }
    MembersSkip(w, t);
    assert ("{" + (w + t))[1..] == w + t && ("}" + r)[1..] == r;
    ObjectStep("{" + (w + t));
    Regroup("{" + w + p, w', "}", r);
    Regroup("{", w, p, w' + ("}" + r));
  }

  lemma MemberStep(s: string, key: string, t: string)
    requires ParseString(Skip(s)) == Ok(key, t) && Head(t) == ':'
    ensures var r := ParseValue(Skip(t[1..]));
            r.Ok? ==> ParseMember(s) == Ok(Member(key, r.value), Skip(r.rest))
  {
  }

  lemma {:induction false} MemberRoundTrip(m: Member, depth: nat, fmt: bool, r: string)
    requires CString(m.key) && Printable(m.value) && Stop(r)
    ensures var s := PrintMember(m, depth, fmt) + r;
            Head(Skip(s)) == '"' && ParseMember(s) == Ok(m, Skip(r))
    decreases m, 3
  {
    var w := if fmt then Tabs(depth) else "";
    var colon := if fmt then ":\t" else ":";
    var k, p := PrintString(m.key), Print(m.value, depth, fmt);
    assert PrintMember(m, depth, fmt) == w + k + colon + p;
    assert k[0] == '"' && colon[0] == ':' && AllSpace(w) && AllSpace(colon[1..]);
    PrintHead(m.value, depth, fmt);
    hide Print, PrintMember, PrintString, ParseValue, ParseMember, ParseString, Printable, Skip, AllSpace, CString;
    var t := colon + (p + r);
    Regroup(w, k, colon, p);
    Regroup(w, k, colon, p + r);
    assert w + k + colon + p + r == w + k + colon + (p + r);
    SkipOver(w, k + t);
    SkipNone(k + t);
    StringRoundTrip(m.key, t);
    TailOf(colon, p + r);
    SkipOver(colon[1..], p + r);
    SkipNone(p + r);
    ValueRoundTrip(m.value, depth, fmt, r);
    MemberStep(w + (k + t), m.key, t);
  }

  /** One round of the object loop. */
  lemma MembersStep(s: string, m: Member, t: string)
    requires ParseMember(s) == Ok(m, t)
    ensures Head(t) != ',' ==> ParseMembers(s) == Ok([m], t)
    ensures Head(t) == ',' && ParseMembers(t[1..]).Ok? ==>
              ParseMembers(s) == Ok([m] + ParseMembers(t[1..]).value, ParseMembers(t[1..]).rest)
  {
  }

  /** The members of a non-empty object; `tail` is what closes it. */
  lemma {:induction false} MembersRoundTrip(ms: seq<Member>, depth: nat, fmt: bool, tail: string)
    requires ms != []
    requires forall i :: 0 <= i < |ms| ==> CString(ms[i].key) && Printable(ms[i].value)
    requires Stop(tail) && Head(Skip(tail)) == '}'
    ensures var s := PrintMembers(ms, depth, fmt) + tail;
            Head(Skip(s)) == '"' && ParseMembers(s) == Ok(ms, Skip(tail))
    decreases ms, 1
  {
    hide PrintMember, PrintMembers, ParseMember, ParseMembers, Printable, Skip, CString, AllSpace;
    var p, q := PrintMember(ms[0], depth, fmt), PrintMembers(ms[1..], depth, fmt);
    var w := if fmt then "\n" else "";
    MembersText(ms, depth, fmt);
    assert [ms[0]] + ms[1..] == ms;
    if |ms| == 1 {
      assert p + w + tail == p + (w + tail) && [ms[0]] == ms;
      StopAfter(w, tail);
      MemberRoundTrip(ms[0], depth, fmt, w + tail);
      SkipOver(w, tail);
      MembersStep(p + (w + tail), ms[0], Skip(tail));
    } else {
      MemberRoundTrip(ms[0], depth, fmt, "," + (w + (q + tail)));
      MembersRoundTrip(ms[1..], depth, fmt, tail);
      MembersMore(p, w, q, tail, ms[0], ms[1..]);
    }
  }

  lemma MembersText(ms: seq<Member>, depth: nat, fmt: bool)
    requires ms != []
    ensures var p, w := PrintMember(ms[0], depth, fmt), if fmt then "\n" else "";
            && AllSpace(w)
            && PrintMembers(ms, depth, fmt)
            == if |ms| == 1 then p + w else p + ("," + w) + PrintMembers(ms[1..], depth, fmt)
  {
    hide PrintMember;
    var p, w := PrintMember(ms[0], depth, fmt), if fmt then "\n" else "";
    if |ms| == 1 {
      assert PrintMembers(ms[1..], depth, fmt) == "" && MemberEnd(false, fmt) == w;
    }
  }

  lemma StopAfter(w: string, tail: string)
    requires AllSpace(w) && Stop(tail)
    ensures Stop(w + tail)
  {
  }

  lemma MembersMore(p: string, w: string, q: string, tail: string, m: Member, ms: seq<Member>)
    requires ParseMember(p + ("," + (w + (q + tail)))) == Ok(m, Skip("," + (w + (q + tail))))
    requires ParseMembers(q + tail) == Ok(ms, Skip(tail)) && AllSpace(w)
    ensures ParseMembers(p + ("," + w) + q + tail) == Ok([m] + ms, Skip(tail))
    ensures p + ("," + w) + q + tail == p + ("," + (w + (q + tail)))
  {
    hide ParseMember, ParseMembers, Skip, AllSpace;
    var t := "," + (w + (q + tail));
    Regroup(p, "," + w, q, tail);
    Regroup("", ",", w, q + tail);
    assert "," + w + (q + tail) == t;
    TailOf(",", w + (q + tail));
    MembersSkip(w, q + tail);
    SkipNone(t);
    MembersStep(p + t, m, t);
  }

  lemma MembersSkip(w: string, s: string)
    requires AllSpace(w)
    ensures Skip(w + s) == Skip(s) && ParseMembers(w + s) == ParseMembers(s)
    ensures ParseMembers(Skip(s)) == ParseMembers(s)
  {
    hide ParseValue, ParseString;
    SkipOver(w, s);
  }

  /** cJSON_Parse undoes cJSON_Print and cJSON_PrintUnformatted, and consumes the whole text. */
  lemma RoundTrip(v: Json, fmt: bool, requireNull: bool)
    requires Printable(v)
    ensures Parse(Print(v, 0, fmt), requireNull) == Ok(v, "")
  {
    PrintHead(v, 0, fmt);
    hide Print, ParseValue, Printable;
    assert Print(v, 0, fmt) + "" == Print(v, 0, fmt);
    ValueRoundTrip(v, 0, fmt, "");
  }
}

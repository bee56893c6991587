/** How cJSON_Print and cJSON_PrintUnformatted lay a tree out: brackets, separators, tabs and escapes,
    by their characters. */
module JsonLayout {
  import opened Ascii
  import opened JsonText
  import opened Powers

  /** The parts with the separator between each two of them. */
  function Separated(parts: seq<string>, sep: string): string {
    if parts == [] then "" else if |parts| == 1 then parts[0] else parts[0] + sep + Separated(parts[1..], sep)
  }

  /** print_string_ptr: five control characters have letters of their own, the quote and the backslash get a
      backslash, the other characters below 32 their two hex digits in lower case. */
  lemma EscapeTable(c: char)
    ensures var n := c as int;
            EscapeChar(c)
            == if n == 34 then [92 as char, 34 as char]
               else if n == 92 then [92 as char, 92 as char]
               else if n == 8 then [92 as char, 'b']
               else if n == 9 then [92 as char, 't']
               else if n == 10 then [92 as char, 'n']
               else if n == 12 then [92 as char, 'f']
               else if n == 13 then [92 as char, 'r']
               else if n < 32 then
                 [92 as char, 'u', '0', '0', if n < 16 then '0' else '1',
                  (if n % 16 < 10 then 48 + n % 16 else 97 + (n % 16 - 10)) as char]
               else [c]
  {
    assert forall d :: 0 <= d < 16 ==> HEX[d] as int == if d < 10 then 48 + d else 97 + (d - 10);
  }

  lemma {:induction false} EscapedConcat(s: string, t: string)
    ensures Escaped(s + t) == Escaped(s) + Escaped(t)
  {
    hide EscapeChar;
    if s == "" {
      assert s + t == t;
    } else {
      assert (s + t)[1..] == s[1..] + t;
      EscapedConcat(s[1..], t);
    }
  }

  lemma EscapedOne(c: char)
    ensures Escaped([c]) == EscapeChar(c)
  {
    hide EscapeChar;
    assert [c][1..] == "";
  }

  /** The text of a string: a quote, each character's form in order, and a quote. */
  lemma StringLayout(s: string, c: char, t: string)
    ensures PrintString(s + [c] + t) == [34 as char] + (Escaped(s) + EscapeChar(c) + Escaped(t)) + [34 as char]
    ensures PrintString("") == [34 as char] + [34 as char]
  {
    assert Escaped("") == "";
    hide Escaped, EscapeChar;
    assert "\"" == [34 as char];
    EscapedConcat(s + [c], t);
    EscapedConcat(s, [c]);
    EscapedOne(c);
    assert "\"" + "" + "\"" == "\"" + "\"";
  }

  lemma {:induction false} ItemsLayout(items: seq<Json>, depth: nat, fmt: bool)
    ensures PrintItems(items, depth, fmt)
         == Separated(seq(|items|, i requires 0 <= i < |items| => Print(items[i], depth, fmt)),
                      if fmt then ", " else ",")
  {
    if items != [] {
      var parts := seq(|items|, i requires 0 <= i < |items| => Print(items[i], depth, fmt));
      var rest := seq(|items| - 1, i requires 0 <= i < |items| - 1 => Print(items[1..][i], depth, fmt));
      ItemsLayout(items[1..], depth, fmt);
      hide Print;
      assert parts[1..] == rest;
    }
  }

  /** An array: its items, each one level deeper, with a comma between them and in formatted text a space
      behind each comma. */
  lemma ArrayLayout(items: seq<Json>, depth: nat, fmt: bool)
    ensures Print(Array(items), depth, fmt)
         == "[" + Separated(seq(|items|, i requires 0 <= i < |items| => Print(items[i], depth + 1, fmt)),
                            if fmt then ", " else ",") + "]"
  {
    ItemsLayout(items, depth + 1, fmt);
  }

  /** A member: in formatted text its tabs and a tab behind the colon. */
  lemma MemberLayout(m: Member, depth: nat)
    ensures PrintMember(m, depth, true)
         == seq(depth, _ => 9 as char) + PrintString(m.key) + ":" + [9 as char] + Print(m.value, depth, true)
    ensures PrintMember(m, depth, false) == PrintString(m.key) + ":" + Print(m.value, depth, false)
  {
    hide Print, PrintString;
    var k, p, w := PrintString(m.key), Print(m.value, depth, true), Tabs(depth);
    assert w == seq(depth, _ => 9 as char);
    hide Tabs;
    assert PrintMember(m, depth, true) == w + k + ":\t" + p;
    assert w + k + ":" + [9 as char] == w + k + ":\t";
    assert "" + PrintString(m.key) == PrintString(m.key);
  }

  lemma {:induction false} MembersLayout(ms: seq<Member>, depth: nat, fmt: bool)
    requires ms != []
    ensures PrintMembers(ms, depth, fmt)
         == Separated(seq(|ms|, i requires 0 <= i < |ms| => PrintMember(ms[i], depth, fmt)),
                      if fmt then ",\n" else ",") + if fmt then "\n" else ""
  {
    var parts := seq(|ms|, i requires 0 <= i < |ms| => PrintMember(ms[i], depth, fmt));
    var sep, end := if fmt then ",\n" else ",", if fmt then "\n" else "";
    assert parts[0] == PrintMember(ms[0], depth, fmt);
    assert PrintMembers(ms, depth, fmt)
        == parts[0] + MemberEnd(|ms| > 1, fmt) + PrintMembers(ms[1..], depth, fmt);
    if |ms| == 1 {
      assert PrintMembers(ms[1..], depth, fmt) == "";
      assert Separated(parts, sep) == parts[0] && MemberEnd(false, fmt) == end;
    } else {
      var rest := seq(|ms| - 1, i requires 0 <= i < |ms| - 1 => PrintMember(ms[1..][i], depth, fmt));
      MembersLayout(ms[1..], depth, fmt);
      hide PrintMember, PrintMembers;
      assert parts[1..] == rest;
      assert Separated(parts, sep) == parts[0] + sep + Separated(rest, sep);
      assert MemberEnd(true, fmt) == sep;
      hide Separated;
      assert parts[0] + sep + (Separated(rest, sep) + end) == parts[0] + sep + Separated(rest, sep) + end;
    }
  }

  /** An object: in formatted text each member stands on a line of its own, one tab deeper than the
      closing brace; an empty object closes on the next line, one tab less deep. */
  lemma ObjectLayout(ms: seq<Member>, depth: nat)
    ensures Print(Object(ms), depth, true)
         == if ms == [] then "{" + [10 as char] + seq(if depth > 0 then depth - 1 else 0, _ => 9 as char) + "}"
            else "{" + [10 as char]
                 + Separated(seq(|ms|, i requires 0 <= i < |ms| => PrintMember(ms[i], depth + 1, true)),
                             "," + [10 as char])
                 + [10 as char] + seq(depth, _ => 9 as char) + "}"
    ensures Print(Object(ms), depth, false)
         == "{" + Separated(seq(|ms|, i requires 0 <= i < |ms| => PrintMember(ms[i], depth + 1, false)), ",") + "}"
  {
    if ms == [] {
      EmptyObject(depth);
    } else {
      MembersLayout(ms, depth + 1, true);
      MembersLayout(ms, depth + 1, false);
      ObjectAround(ms, depth,
                   Separated(seq(|ms|, i requires 0 <= i < |ms| => PrintMember(ms[i], depth + 1, true)), ",\n"),
                   Separated(seq(|ms|, i requires 0 <= i < |ms| => PrintMember(ms[i], depth + 1, false)), ","));
    }
    hide *;
    assert "," + [10 as char] == ",\n";
  }

  lemma EmptyObject(depth: nat)
    ensures var d := if depth > 0 then depth - 1 else 0;
            Print(Object([]), depth, true) == "{" + [10 as char] + seq(d, _ => 9 as char) + "}"
    ensures Print(Object([]), depth, false) == "{" + Separated([], ",") + "}"
  {
    var d := if depth > 0 then depth - 1 else 0;
    TabsAre(d);
    hide Tabs;
    assert "{" + ("\n" + Tabs(d)) + "}" == "{" + [10 as char] + Tabs(d) + "}";
    assert "{" + "" + "}" == "{" + Separated([], ",") + "}";
  }

  lemma TabsAre(n: nat)
    ensures Tabs(n) == seq(n, _ => 9 as char)
  {
  }

  lemma ObjectAround(ms: seq<Member>, depth: nat, s: string, u: string)
    requires ms != []
    requires PrintMembers(ms, depth + 1, true) == s + "\n" && PrintMembers(ms, depth + 1, false) == u + ""
    ensures Print(Object(ms), depth, true)
         == "{" + [10 as char] + s + [10 as char] + seq(depth, _ => 9 as char) + "}"
    ensures Print(Object(ms), depth, false) == "{" + u + "}"
  {
    TabsAre(depth);
    var w := Tabs(depth);
    assert Print(Object(ms), depth, true) == "{" + "\n" + (s + "\n") + w + "}";
    assert Print(Object(ms), depth, false) == "{" + "" + (u + "") + "" + "}";
    hide *;
    assert "{" + "\n" + (s + "\n") == "{" + [10 as char] + s + [10 as char];
    assert "{" + "" + (u + "") + "" == "{" + u;
  }

  /** A printed number has the decimal digits of its value, the last one weighing 1, and no leading
      zero. */
  lemma {:induction false} DecimalPlaces(n: nat, k: nat)
    ensures var d := Decimal(n);
            && (k < |d| ==> d[|d| - 1 - k] as int == 48 + n / Ten(k) % 10)
            && (n > 0 ==> d[0] as int != 48) && (n == 0 ==> d == "0")
  {
    var d := Decimal(n);
    if n >= 10 {
      if k == 0 {
        DecimalPlaces(n / 10, 0);
      } else {
        DecimalPlaces(n / 10, k - 1);
        DivTen(n, Ten(k - 1));
      }
    } else if k < |d| {
      assert Ten(0) == 1;
    }
  }

  function Ten(k: nat): (t: nat)
    ensures t > 0
  {
    if k == 0 then 1 else 10 * Ten(k - 1)
  }

  lemma DivTen(n: nat, t: nat)
    requires t > 0
    ensures n / 10 / t == n / (10 * t)
  {
    var m := n / 10;
    var q := m / t;
    assert m == t * q + m % t;
    assert 10 * (t * q) == 10 * t * q;
    DivIs(n, 10 * t, q, 10 * (m % t) + n % 10);
  }
}

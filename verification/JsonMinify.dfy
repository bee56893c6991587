/** cJSON_Minify: the in-place rewrite, and that it turns formatted text into unformatted text. */
module JsonMinify {
  import opened Ascii
  import opened JsonText
  import opened Wrappers

  function Pre(p: string, m: Option<string>): Option<string> {
    match m
    case None => None
    case Some(s) => Some(p + s)
  }

  function ToNewline(s: string): (r: string)
    ensures |r| <= |s|
  {
    if s == [] || s[0] == '\n' then s else ToNewline(s[1..])
  }

  function ToCommentEnd(s: string): (r: string)
    ensures |r| <= |s|
    ensures r == [] || (|r| >= 2 && r[0] == '*' && r[1] == '/')
  {
    if s == [] || (s[0] == '*' && Peek(s, 1) == '/') then s else ToCommentEnd(s[1..])
  }

  /** The minified form of the text; `inLiteral` when the pointer is inside a string literal,
      which is copied as it stands, each escape as a pair.  `None` when a comment or a literal is
      left open and the pointers pass the terminator. */
  function Minify(s: string, inLiteral: bool): (m: Option<string>)
    decreases |s|
  {
    if s == [] then if inLiteral then None else Some("")
    else if inLiteral then
      if s[0] == '"' then Pre(s[..1], Minify(s[1..], false))
      else if s[0] != '\\' then Pre(s[..1], Minify(s[1..], true))
      else if |s| < 2 then None
      else Pre(s[..2], Minify(s[2..], true))
    else if s[0] in {' ', '\t', '\r', '\n'} then Minify(s[1..], false)
    else if s[0] == '/' && Peek(s, 1) == '/' then Minify(ToNewline(s[1..]), false)
    else if s[0] == '/' && Peek(s, 1) == '*' then
      var e := ToCommentEnd(s[1..]);
      if e == [] then None else Minify(e[2..], false)
    else Pre(s[..1], Minify(s[1..], s[0] == '"'))
  }

  // ---------------------------------------------------------------- printed text

  predicate White(w: string) {
    forall i :: 0 <= i < |w| ==> w[i] in {' ', '\t', '\n'}
  }

  predicate Plain(p: string) {
    forall i :: 0 <= i < |p| ==> p[i] !in {' ', '\t', '\r', '\n', '/', '"'}
  }

  lemma PrePre(a: string, b: string, m: Option<string>)
    ensures Pre(a, Pre(b, m)) == Pre(a + b, m)
    ensures Pre("", m) == m
  {
    if m.Some? {
      assert a + (b + m.value) == a + b + m.value && "" + m.value == m.value;
    }
  }

  lemma {:induction false} MinifyWhite(w: string, r: string)
    requires White(w)
    ensures Minify(w + r, false) == Minify(r, false)
  {
    if w == [] {
      assert w + r == r;
    } else {
      assert (w + r)[1..] == w[1..] + r;
      MinifyWhite(w[1..], r);
    }
  }

  lemma {:induction false} MinifyPlain(p: string, r: string)
    requires Plain(p)
    ensures Minify(p + r, false) == Pre(p, Minify(r, false))
  {
    if p == [] {
      assert p + r == r;
      PrePre("", "", Minify(r, false));
    } else {
      assert (p + r)[1..] == p[1..] + r && (p + r)[..1] == p[..1] && p[..1] + p[1..] == p;
      MinifyPlain(p[1..], r);
      PrePre(p[..1], p[1..], Minify(r, false));
    }
  }

  lemma LiteralStep(c: char, r: string)
    ensures Minify(EscapeChar(c) + r, true) == Pre(EscapeChar(c), Minify(r, true))
  {
    var e := EscapeChar(c);
    var s := e + r;
    if !NeedsEscape(c) {
      assert s[1..] == r && s[..1] == e;
    } else {
      assert s[..2] == e[..2] && s[2..] == e[2..] + r && e[..2] + e[2..] == e;
      if |e| == 2 {
        assert s[2..] == r && e[..2] == e;
      } else {
        assert forall d :: 0 <= d < 16 ==> HexDigit(HEX[d]) == d;
        InLiteral(e[2..], r);
        PrePre(e[..2], e[2..], Minify(r, true));
      }
    }
  }

  lemma {:induction false} InLiteral(p: string, r: string)
    requires forall i :: 0 <= i < |p| ==> HexDigit(p[i]) >= 0
    ensures Minify(p + r, true) == Pre(p, Minify(r, true))
  {
    if p == [] {
      assert p + r == r;
      PrePre("", "", Minify(r, true));
    } else {
      assert (p + r)[1..] == p[1..] + r && (p + r)[..1] == p[..1] && p[..1] + p[1..] == p;
      InLiteral(p[1..], r);
      PrePre(p[..1], p[1..], Minify(r, true));
    }
  }

  lemma {:induction false} MinifyBody(x: string, r: string)
    ensures Minify(Escaped(x) + "\"" + r, true) == Pre(Escaped(x) + "\"", Minify(r, false))
  {
    if x == [] {
      assert Escaped(x) + "\"" + r == "\"" + r && ("\"" + r)[1..] == r && ("\"" + r)[..1] == "\"";
      assert Escaped(x) + "\"" == "\"";
    } else {
      var e, t := EscapeChar(x[0]), Escaped(x[1..]) + "\"";
      assert Escaped(x) + "\"" + r == e + (t + r) && Escaped(x) + "\"" == e + t;
      LiteralStep(x[0], t + r);
      MinifyBody(x[1..], r);
      PrePre(e, t, Minify(r, false));
    }
  }

  lemma MinifyString(x: string, r: string)
    ensures Minify(PrintString(x) + r, false) == Pre(PrintString(x), Minify(r, false))
  {
    hide Escaped;
    var s := PrintString(x) + r;
    assert s[1..] == Escaped(x) + "\"" + r && s[..1] == "\"";
    MinifyBody(x, r);
    PrePre("\"", Escaped(x) + "\"", Minify(r, false));
    assert "\"" + (Escaped(x) + "\"") == PrintString(x);
  }

  lemma {:induction false} DecimalPlain(n: nat)
    ensures Plain(Decimal(n))
  {
    if n >= 10 {
      DecimalPlain(n / 10);
    }
  }

  /** Minifying text `f` before any `r` gives `u` before the minified `r`. */
  ghost predicate Becomes(f: string, u: string) {
    forall r :: Minify(f + r, false) == Pre(u, Minify(r, false))
  }

  lemma BecomesConcat(f: string, u: string, f': string, u': string)
    requires Becomes(f, u) && Becomes(f', u')
    ensures Becomes(f + f', u + u')
  {
    hide Minify;
    forall r
      ensures Minify(f + f' + r, false) == Pre(u + u', Minify(r, false))
    {
      assert f + f' + r == f + (f' + r);
      PrePre(u, u', Minify(r, false));
    }
  }

  lemma WhiteVanishes(w: string)
    requires White(w)
    ensures Becomes(w, "")
  {
    forall r
      ensures Minify(w + r, false) == Pre("", Minify(r, false))
    {
      MinifyWhite(w, r);
      PrePre("", "", Minify(r, false));
    }
  }

  lemma PlainStays(p: string)
    requires Plain(p)
    ensures Becomes(p, p)
  {
    forall r
      ensures Minify(p + r, false) == Pre(p, Minify(r, false))
    {
      MinifyPlain(p, r);
    }
  }

  lemma StringStays(x: string)
    ensures Becomes(PrintString(x), PrintString(x))
  {
    forall r
      ensures Minify(PrintString(x) + r, false) == Pre(PrintString(x), Minify(r, false))
    {
      MinifyString(x, r);
    }
  }

  lemma {:induction false} MinifyValue(v: Json, depth: nat)
    ensures Becomes(Print(v, depth, true), Print(v, depth, false))
    decreases v, 2
  {
    match v
    case Null => PlainStays("null");
    case False => PlainStays("false");
    case True => PlainStays("true");
    case Number(n) => DecimalPlain(if n < 0 then -n else n); PlainStays(PrintNumber(n));
    case Str(s) => StringStays(s);
    case Array(items) =>
      hide Minify, Becomes;
      PlainStays("[");
      PlainStays("]");
      MinifyItems(items, depth + 1);
      var f, u := PrintItems(items, depth + 1, true), PrintItems(items, depth + 1, false);
      BecomesConcat("[", "[", f, u);
      BecomesConcat("[" + f, "[" + u, "]", "]");
    case Object(members) => MinifyObject(members, depth);
  }

  lemma {:induction false} MinifyItems(items: seq<Json>, depth: nat)
    ensures Becomes(PrintItems(items, depth, true), PrintItems(items, depth, false))
    decreases items, 1
  {
    if items == [] {
      PlainStays("");
    } else {
      var f, u := Print(items[0], depth, true), Print(items[0], depth, false);
      var f', u' := PrintItems(items[1..], depth, true), PrintItems(items[1..], depth, false);
      var more := |items| > 1;
      assert PrintItems(items, depth, true) == f + Comma(more, true) + f';
      assert PrintItems(items, depth, false) == u + Comma(more, false) + u';
      hide Minify, Becomes, Print, PrintItems;
      MinifyValue(items[0], depth);
      MinifyItems(items[1..], depth);
      MinifyComma(more);
      BecomesConcat(f, u, Comma(more, true), Comma(more, false));
      BecomesConcat(f + Comma(more, true), u + Comma(more, false), f', u');
    }
  }

  lemma MinifyComma(more: bool)
    ensures Becomes(Comma(more, true), Comma(more, false))
    ensures Becomes(MemberEnd(more, true), MemberEnd(more, false))
  {
    hide Minify, Becomes;
    var c := if more then "," else "";
    PlainStays(c);
    WhiteVanishes("\n");
    BecomesConcat(c, c, "\n", "");
    PlainStays("");
    PlainStays(",");
    WhiteVanishes(" ");
    BecomesConcat(",", ",", " ", "");
    assert c + "" == c && "," + " " == ", " && "," + "" == ",";
    assert MemberEnd(more, true) == c + "\n" && MemberEnd(more, false) == c + "";
  }

  lemma {:induction false} MinifyMember(m: Member, depth: nat)
    ensures Becomes(PrintMember(m, depth, true), PrintMember(m, depth, false))
    decreases m, 3
  {
    var k, f, u := PrintString(m.key), Print(m.value, depth, true), Print(m.value, depth, false);
    assert PrintMember(m, depth, true) == Tabs(depth) + k + ":\t" + f;
    assert PrintMember(m, depth, false) == k + ":" + u by { assert "" + k == k; }
    hide Minify, Becomes, Print, PrintMember, PrintString;
    WhiteVanishes(Tabs(depth));
    StringStays(m.key);
    BecomesConcat(Tabs(depth), "", k, k);
    assert "" + k == k;
    PlainStays(":");
    WhiteVanishes("\t");
    BecomesConcat(":", ":", "\t", "");
    assert ":" + "\t" == ":\t" && ":" + "" == ":";
    BecomesConcat(Tabs(depth) + k, k, ":\t", ":");
    MinifyValue(m.value, depth);
    BecomesConcat(Tabs(depth) + k + ":\t", k + ":", f, u);
  }

  lemma {:induction false} MinifyMembers(ms: seq<Member>, depth: nat)
    ensures Becomes(PrintMembers(ms, depth, true), PrintMembers(ms, depth, false))
    decreases ms, 1
  {
    if ms == [] {
      PlainStays("");
    } else {
      var f, u := PrintMember(ms[0], depth, true), PrintMember(ms[0], depth, false);
      var e, e' := MemberEnd(|ms| > 1, true), MemberEnd(|ms| > 1, false);
      var f', u' := PrintMembers(ms[1..], depth, true), PrintMembers(ms[1..], depth, false);
      assert PrintMembers(ms, depth, true) == f + e + f';
      assert PrintMembers(ms, depth, false) == u + e' + u';
      hide Minify, Becomes, PrintMember, PrintMembers, MemberEnd;
      MinifyMember(ms[0], depth);
      MinifyComma(|ms| > 1);
      MinifyMembers(ms[1..], depth);
      BecomesConcat(f, u, e, e');
      BecomesConcat(f + e, u + e', f', u');
    }
  }

  lemma {:induction false} MinifyObject(ms: seq<Member>, depth: nat)
    ensures Becomes(Print(Object(ms), depth, true), Print(Object(ms), depth, false))
    decreases ms, 2
  {
    var f, u := PrintMembers(ms, depth + 1, true), PrintMembers(ms, depth + 1, false);
    var w := if ms != [] then Tabs(depth) else Tabs(if depth > 0 then depth - 1 else 0);
    assert ms == [] ==> f == "" && u == "";
    assert Print(Object(ms), depth, true) == "{" + "\n" + f + w + "}" by {
      if ms == [] {
        assert "{" + "\n" + f + w == "{" + ("\n" + w);
      }
    }
    assert Print(Object(ms), depth, false) == "{" + "" + u + "" + "}" by {
      if ms == [] {
        assert "{" + "" + u + "" == "{" + "";
      }
    }
    hide Minify, Becomes, Print, PrintMembers, Tabs;
    PlainStays("{");
    PlainStays("}");
    WhiteVanishes("\n");
    WhiteVanishes(w);
    MinifyMembers(ms, depth + 1);
    BecomesConcat("{", "{", "\n", "");
    BecomesConcat("{" + "\n", "{" + "", f, u);
    BecomesConcat("{" + "\n" + f, "{" + "" + u, w, "");
    BecomesConcat("{" + "\n" + f + w, "{" + "" + u + "", "}", "}");
  }

  /** Minifying the formatted print of any tree gives its unformatted print. */
  lemma MinifyFormatted(v: Json, depth: nat)
    ensures Minify(Print(v, depth, true), false) == Some(Print(v, depth, false))
  {
    MinifyValue(v, depth);
    var f, u := Print(v, depth, true), Print(v, depth, false);
    hide Print;
    assert f + "" == f && u + "" == u;
    assert Minify(f + "", false) == Pre(u, Minify("", false));
  }

  // ---------------------------------------------------------------- in place

  /** The double-slash loop: from a comment's start to its newline or the terminator. */
  method SkipLine(a: array<char>, n: nat, start: nat) returns (json: nat)
    requires start < n < a.Length && a[n] == '\0' && (forall i :: start <= i < n ==> a[i] != '\0')
    requires a[start] == '/'
    ensures start < json <= n && ToNewline(a[start + 1..n]) == a[json..n]
  {
    json := start;
    while a[json] != '\0' && a[json] != '\n'
      invariant start <= json <= n
      invariant ToNewline(a[start..n]) == ToNewline(a[json..n])
      decreases n - json
    {
      assert a[json..n][1..] == a[json + 1..n];
      json := json + 1;
    }
    assert json < n ==> a[json] == a[start..n][json - start];
    assert a[start..n][1..] == a[start + 1..n];
  }

  /** The multi-line comment loop and the step over the closing characters. */
  method SkipComment(a: array<char>, n: nat, start: nat) returns (json: nat)
    requires start < n < a.Length && a[n] == '\0' && (forall i :: start <= i < n ==> a[i] != '\0')
    requires a[start] == '/'
    requires ToCommentEnd(a[start + 1..n]) != []
    ensures start + 2 < json <= n && ToCommentEnd(a[start + 1..n])[2..] == a[json..n]
  {
    hide ToCommentEnd;
    ghost var s := a[start..n];
    assert s[0..] == s && s[1..] == a[start + 1..n];
    CommentStep(s, a[start + 1]);
    json := start;
    while a[json] != '\0' && !(a[json] == '*' && a[json + 1] == '/')
      invariant start <= json < n
      invariant ToCommentEnd(s[json - start..]) == ToCommentEnd(s[1..])
      decreases n - json
    {
      CommentStep(s[json - start..], a[json + 1]);
      assert s[json - start..][1..] == s[json + 1 - start..];
      json := json + 1;
    }
    ghost var r := s[json - start..];
    assert r[0] == a[json] && (json + 1 < n ==> r[1] == a[json + 1]);
    CommentStart(r);
    assert r[2..] == a[json + 2..n];
    json := json + 2;
  }

  lemma CommentStep(s: string, next: char)
    requires s != [] && (if |s| > 1 then next == s[1] else next == '\0')
    requires !(s[0] == '*' && next == '/')
    ensures ToCommentEnd(s) == ToCommentEnd(s[1..])
    ensures |s| == 1 ==> ToCommentEnd(s) == []
  {
  }

  lemma CommentStart(s: string)
    ensures |s| >= 2 && s[0] == '*' && s[1] == '/' ==> ToCommentEnd(s) == s
  {
  }

  /** The branches of the string loop, before output `out`. */
  lemma InsideLiteral(s: string, out: string)
    requires Minify(s, true).Some?
    ensures s != []
    ensures s[0] == '"' ==> Pre(out, Minify(s, true)) == Pre(out + s[..1], Minify(s[1..], false))
    ensures s[0] != '"' && s[0] != '\\' ==>
              Minify(s[1..], true).Some? && Pre(out, Minify(s, true)) == Pre(out + s[..1], Minify(s[1..], true))
    ensures s[0] == '\\' ==> |s| >= 2 && Minify(s[2..], true).Some?
    ensures s[0] == '\\' ==> Pre(out, Minify(s, true)) == Pre(out + s[..2], Minify(s[2..], true))
  {
    PrePre(out, s[..1], Minify(s[1..], s[0] != '"'));
    if |s| >= 2 {
      PrePre(out, s[..2], Minify(s[2..], true));
    }
  }

  /** Copies one character down and moves both positions on; the output began at `from` and the
      text ends at `n`. */
  method CopyChar(a: array<char>, ghost from: nat, into: nat, json: nat, ghost n: nat)
    returns (into': nat, json': nat)
    requires from <= into <= json < n <= a.Length
    modifies a
    ensures into' == into + 1 && json' == json + 1
    ensures a[from..into'] == old(a[from..into]) + old(a[json..n])[..1]
    ensures a[json'..n] == old(a[json..n])[1..]
    ensures forall i :: 0 <= i < from || json < i < a.Length ==> a[i] == old(a[i])
  {
    ghost var c, before, rest := a[json], a[from..into], a[json..n];
    assert rest[..1] == [c] && rest[1..] == a[json + 1..n];
    a[into] := a[json];
    into', json' := into + 1, json + 1;
    assert a[from..into] == before;
    assert a[from..into'] == before + [c];
  }

  /** The string loop: copies a literal from its opening to its closing quote. */
  method CopyLiteral(a: array<char>, n: nat, into: nat, start: nat) returns (to: nat, json: nat)
    requires into <= start < n < a.Length && a[n] == '\0' && (forall i :: start <= i < n ==> a[i] != '\0')
    requires a[start] == '"' && Minify(a[start + 1..n], true).Some?
    modifies a
    ensures into < to <= json <= n && start < json
    ensures forall i :: 0 <= i < into || json <= i < a.Length ==> a[i] == old(a[i])
    ensures Minify(old(a[start..n]), false) == Pre(a[into..to], Minify(a[json..n], false))
  {
    to, json := into, start;
    ghost var s := a[start..n];
    assert s[1..] == a[start + 1..n];
    assert Minify(s, false) == Pre(s[..1], Minify(s[1..], true));
    hide Minify;
    to, json := CopyChar(a, into, to, json, n);
    assert s[..1] == a[into..to];
    while a[json] != '\0' && a[json] != '"'
      invariant into < to <= json <= n && start < json
      invariant forall i :: 0 <= i < into || json <= i < a.Length ==> a[i] == old(a[i])
      invariant Minify(a[json..n], true).Some?
      invariant Minify(s, false) == Pre(a[into..to], Minify(a[json..n], true))
      decreases n - json
    {
      ghost var r, out := a[json..n], a[into..to];
      InsideLiteral(r, out);
      if a[json] == '\\' {
        to, json := CopyChar(a, into, to, json, n);
        to, json := CopyChar(a, into, to, json, n);
        assert out + r[..1] + r[1..][..1] == out + r[..2] && r[1..][1..] == r[2..];
      } else {
        to, json := CopyChar(a, into, to, json, n);
      }
    }
    ghost var r, out := a[json..n], a[into..to];
    InsideLiteral(r, out);
    assert json < n && a[json] == '"';
    to, json := CopyChar(a, into, to, json, n);
  }

  lemma MinifyNothing()
    ensures Minify("", false) == Some("")
  {
  }

  lemma NoTerminator(text: string, i: nat, s: string)
    requires '\0' !in text && i <= |text| && s == text[i..]
    ensures '\0' !in s
  {
  }

  /** The branches of the main loop, before output `out`. */
  lemma OutsideLiteral(s: string, out: string)
    requires s != [] && Minify(s, false).Some?
    ensures s[0] in {' ', '\t', '\r', '\n'} ==> Minify(s, false) == Minify(s[1..], false)
    ensures s[0] == '/' && Peek(s, 1) == '/' ==> Minify(s, false) == Minify(ToNewline(s[1..]), false)
    ensures s[0] == '/' && Peek(s, 1) == '*' ==>
              ToCommentEnd(s[1..]) != [] && Minify(s, false) == Minify(ToCommentEnd(s[1..])[2..], false)
    ensures s[0] == '"' ==> Minify(s[1..], true).Some?
    ensures s[0] !in {' ', '\t', '\r', '\n', '"'} && (s[0] == '/' ==> Peek(s, 1) !in {'/', '*'}) ==>
              Pre(out, Minify(s, false)) == Pre(out + s[..1], Minify(s[1..], false))
  {
    PrePre(out, s[..1], Minify(s[1..], false));
  }

  /** cJSON_Minify on the NUL-terminated text in `a`: the write position never passes the read
      position, and the text left is the minified text, terminated again. */
  method MinifyInPlace(a: array<char>, n: nat)
    requires n < a.Length && a[n] == '\0' && '\0' !in a[..n]
    requires Minify(a[..n], false).Some?
    modifies a
    ensures var m := Minify(old(a[..n]), false).value;
            |m| <= n && a[..|m|] == m && a[|m|] == '\0'
    ensures a[n + 1..] == old(a[n + 1..])
  {
    hide Minify;
    ghost var text := a[..n];
    var into, json := 0, 0;
    PrePre("", "", Minify(text, false));
    assert a[0..n] == text && a[..0] == "";
    while a[json] != '\0'
      invariant 0 <= into <= json <= n
      invariant forall i :: json <= i < a.Length ==> a[i] == old(a[i])
      invariant Minify(a[json..n], false).Some?
      invariant Minify(text, false) == Pre(a[..into], Minify(a[json..n], false))
      decreases n - json
    {
      ghost var s, out := a[json..n], a[..into];
      NoTerminator(text, json, s);
      assert json + 1 < n ==> Peek(s, 1) == a[json + 1];
      assert s[1..] == a[json + 1..n];
      OutsideLiteral(s, out);
      if a[json] == ' ' || a[json] == '\t' || a[json] == '\r' || a[json] == '\n' {
        json := json + 1;
      } else if a[json] == '/' && a[json + 1] == '/' {
        json := SkipLine(a, n, json);
      } else if a[json] == '/' && a[json + 1] == '*' {
        json := SkipComment(a, n, json);
      } else if a[json] == '"' {
        ghost var from := into;
        into, json := CopyLiteral(a, n, into, json);
        PrePre(out, a[from..into], Minify(a[json..n], false));
        assert a[..into] == out + a[from..into];
      } else {
        into, json := CopyChar(a, 0, into, json, n);
        assert a[..into] == a[0..into];
      }
    }
    assert json == n;
    assert a[json..n] == "";
    ghost var out := a[..into];
    assert out + "" == out;
    MinifyNothing();
    a[into] := '\0';
    assert a[..into] == out;
  }
}

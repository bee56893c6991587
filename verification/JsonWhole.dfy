/** What the parts of cJSON.c do together: whichever printer, format and buffer size, a tree of nodes
    comes back from its text as a new tree for the same value. */
module JsonWhole {
  import opened JsonText
  import opened JsonTree
  import opened JsonBuffer
  import JsonBuffered
  import JsonMinify
  import JsonPrinter
  import JsonRoundTrip
  import opened JsonGrammar
  import JsonStandard

  /** cJSON_Print or cJSON_PrintUnformatted, and then parsing. */
  method PrintParse(item: CJson, fmt: bool, requireNull: bool, ghost v: Json) returns (copy: CJson?)
    requires item.Is(v) && Printable(v)
    ensures copy != null && fresh(copy) && fresh(copy.kin.foot) && copy.Is(v)
  {
    hide CJson.Is, Print, Printable, JsonText.Parse;
    var out := JsonPrinter.PrintValue(item, 0, fmt, v);
    ghost var s := Print(v, 0, fmt);
    var n := StrLen(out, 0, s);
    JsonRoundTrip.RoundTrip(v, fmt, requireNull);
    assert out[..n] == out[0..0 + n] == s;
    copy := JsonTree.Parse(out[..n], requireNull);
  }

  /** cJSON_PrintBuffered, and then parsing. */
  method PrintBufferedParse(item: CJson, prebuffer: nat, fmt: bool, requireNull: bool, ghost v: Json)
    returns (copy: CJson?)
    requires item.Is(v) && Printable(v) && prebuffer > 0
    requires |Print(v, 0, fmt)| + JsonBuffered.SLACK <= JsonBuffered.MAX_BUFFER
    ensures copy != null && fresh(copy) && fresh(copy.kin.foot) && copy.Is(v)
  {
    hide CJson.Is, Print, Printable, JsonText.Parse;
    var p, out := JsonBuffered.PrintBuffered(item, prebuffer, fmt, v);
    ghost var s := Print(v, 0, fmt);
    var n := StrLen(p.buffer, out, s);
    JsonRoundTrip.RoundTrip(v, fmt, requireNull);
    copy := JsonTree.Parse(p.buffer[out..out + n], requireNull);
  }

  /** cJSON_Print, cJSON_Minify on the same block, and then parsing: the block holds what
      cJSON_PrintUnformatted gives. */
  method PrintMinifyParse(item: CJson, requireNull: bool, ghost v: Json) returns (out: array<char>, copy: CJson?)
    requires item.Is(v) && Printable(v)
    ensures fresh(out) && TextAt(out, 0, Print(v, 0, false))
    ensures copy != null && fresh(copy) && fresh(copy.kin.foot) && copy.Is(v)
  {
    hide CJson.Is, Print, Printable, JsonText.Parse, JsonMinify.Minify;
    out := JsonPrinter.PrintValue(item, 0, true, v);
    ghost var f, s := Print(v, 0, true), Print(v, 0, false);
    var n := StrLen(out, 0, f);
    assert out[..n] == out[0..0 + n] == f;
    JsonMinify.MinifyFormatted(v, 0);
    JsonPrinter.PrintNoNul(v, 0, false);
    JsonMinify.MinifyInPlace(out, n);
    assert out[0..0 + |s|] == out[..|s|] == s;
    var k := StrLen(out, 0, s);
    JsonRoundTrip.RoundTrip(v, false, requireNull);
    copy := JsonTree.Parse(out[..k], requireNull);
  }

  /** Parsing any standard text, with any spaces in front of and behind it, gives a tree for what the text
      means. */
  method ParseStandard(text: string, requireNull: bool, ghost before: string, ghost c: Syntax, ghost after: string)
    returns (node: CJson?)
    requires Blank(before) && JsonStandard.Standard(c) && Blank(after) && text == before + Text(c) + after
    ensures node != null && fresh(node) && fresh(node.kin.foot) && node.Is(Value(c))
  {
    hide *;
    JsonStandard.StandardParses(before, c, after, requireNull);
    node := JsonTree.Parse(text, requireNull);
  }
}

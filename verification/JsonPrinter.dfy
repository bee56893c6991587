/** cJSON.c printing into a block of its own: each printer adds up the size of what it prints,
    allocates that much and then fills it.  The text is the one that `Print` defines. */
module JsonPrinter {
  import opened Ascii
  import opened JsonText
  import opened JsonTree
  import opened JsonList
  import opened JsonBuffer

  // ---------------------------------------------------------------- no terminator inside

  lemma {:induction false} EscapedNoNul(s: string)
    ensures '\0' !in Escaped(s)
  {
    if s != [] {
      EscapedNoNul(s[1..]);
      EscapeNoNul(s[0]);
      hide EscapeChar;
    }
  }

  lemma EscapeNoNul(c: char)
    ensures '\0' !in EscapeChar(c)
  {
    if c < ' ' {
      assert HEX[c as int / 16] != '\0' && HEX[c as int % 16] != '\0';
    }
  }

  lemma {:induction false} DecimalNoNul(n: nat)
    ensures '\0' !in Decimal(n)
  {
    if n >= 10 {
      DecimalNoNul(n / 10);
    }
  }

  lemma NumberNoNul(n: int)
    ensures '\0' !in PrintNumber(n)
  {
    DecimalNoNul(if n < 0 then -n else n);
  }

  lemma StringNoNul(s: string)
    ensures '\0' !in PrintString(s)
  {
    EscapedNoNul(s);
  }

  lemma TabsNoNul(n: nat)
    ensures '\0' !in Tabs(n)
  {
  }

  lemma {:induction false} PrintNoNul(v: Json, depth: nat, fmt: bool)
    ensures '\0' !in Print(v, depth, fmt)
    decreases v, 2
  {
    hide PrintItems, PrintMembers, PrintNumber, PrintString, Tabs;
    TabsNoNul(depth);
    match v
    case Null =>
    case False =>
    case True =>
    case Number(n) => NumberNoNul(n);
    case Str(s) => StringNoNul(s);
    case Array(items) => ItemsNoNul(items, depth + 1, fmt);
    case Object(members) => MembersNoNul(members, depth + 1, fmt);
  }

  lemma {:induction false} ItemsNoNul(items: seq<Json>, depth: nat, fmt: bool)
    ensures '\0' !in PrintItems(items, depth, fmt)
    decreases items, 1
  {
    if items != [] {
      PrintNoNul(items[0], depth, fmt);
      ItemsNoNul(items[1..], depth, fmt);
    }
  }

  lemma {:induction false} MemberNoNul(m: Member, depth: nat, fmt: bool)
    ensures '\0' !in PrintMember(m, depth, fmt) && '\0' !in PrintString(m.key)
    decreases m, 3
  {
    EscapedNoNul(m.key);
    PrintNoNul(m.value, depth, fmt);
  }

  lemma {:induction false} MembersNoNul(ms: seq<Member>, depth: nat, fmt: bool)
    ensures '\0' !in PrintMembers(ms, depth, fmt)
    decreases ms, 1
  {
    if ms != [] {
      MemberNoNul(ms[0], depth, fmt);
      MembersNoNul(ms[1..], depth, fmt);
    }
  }

  // ---------------------------------------------------------------- print_string_ptr

  lemma {:induction false} EscapedPlain(s: string)
    requires forall i :: 0 <= i < |s| ==> !NeedsEscape(s[i])
    ensures Escaped(s) == s
  {
    if s != [] {
      EscapedPlain(s[1..]);
      assert [s[0]] + s[1..] == s;
    }
  }

  /** The first pass: whether anything needs escaping, and the length of the escaped text. */
  method MeasureString(str: string) returns (flag: bool, len: nat)
    requires CString(str)
    ensures len == |Escaped(str)|
    ensures !flag ==> Escaped(str) == str
  {
    flag := false;
    for i := 0 to |str|
      invariant !flag ==> forall k :: 0 <= k < i ==> !NeedsEscape(str[k])
    {
      flag := flag || ('\0' < str[i] < ' ') || str[i] == '"' || str[i] == '\\';
    }
    if !flag {
      EscapedPlain(str);
      return flag, |str|;
    }
    len := 0;
    var ptr := str;
    while ptr != []
      invariant len + |Escaped(ptr)| == |Escaped(str)|
      decreases |ptr|
    {
      var token := ptr[0];
      len := len + 1;
      if token in "\"\\\U{08}\U{0C}\n\r\t" {
        len := len + 1;
      } else if token < ' ' {
        len := len + 5;
      }
      ptr := ptr[1..];
    }
  }

  lemma EscapedNext(done: string, ptr: string, whole: string)
    requires ptr != [] && done + Escaped(ptr) == whole
    ensures done + EscapeChar(ptr[0]) + Escaped(ptr[1..]) == whole
    ensures |done| + |EscapeChar(ptr[0])| + |Escaped(ptr[1..])| == |whole|
  {
    var e, r := EscapeChar(ptr[0]), Escaped(ptr[1..]);
    assert Escaped(ptr) == e + r;
    hide Escaped, EscapeChar;
    assert done + (e + r) == done + e + r;
  }

  /** The escape of one character, written at `at`. */
  method WriteEscape(out: array<char>, at: nat, token: char) returns (next: nat)
    requires NeedsEscape(token) && token != '\0' && at + |EscapeChar(token)| < out.Length
    modifies out
    ensures next == at + |EscapeChar(token)| && out[at..next] == EscapeChar(token)
    ensures forall i :: 0 <= i < at || next < i < out.Length ==> out[i] == old(out[i])
  {
    match token
    case '\\' => next := WriteShort(out, at, '\\');
    case '"' => next := WriteShort(out, at, '"');
    case '\U{08}' => next := WriteShort(out, at, 'b');
    case '\U{0C}' => next := WriteShort(out, at, 'f');
    case '\n' => next := WriteShort(out, at, 'n');
    case '\r' => next := WriteShort(out, at, 'r');
    case '\t' => next := WriteShort(out, at, 't');
    case _ => next := WriteHex(out, at, token);
  }

  /** The backslash and a letter. */
  method WriteShort(out: array<char>, at: nat, letter: char) returns (next: nat)
    requires at + 2 < out.Length
    modifies out
    ensures next == at + 2 && out[at..next] == ['\\', letter]
    ensures forall i :: 0 <= i < at || next < i < out.Length ==> out[i] == old(out[i])
  {
    out[at] := '\\';
    out[at + 1] := letter;
    next := at + 2;
  }

  /** The backslash, and sprintf of "u%04x". */
  method WriteHex(out: array<char>, at: nat, token: char) returns (next: nat)
    requires token < ' ' && at + 6 < out.Length
    modifies out
    ensures next == at + 6
    ensures out[at..next] == "\\u00" + [HEX[token as int / 16], HEX[token as int % 16]]
    ensures forall i :: 0 <= i < at || next < i < out.Length ==> out[i] == old(out[i])
  {
    out[at] := '\\';
    var hex := ['u', '0', '0', HEX[token as int / 16], HEX[token as int % 16]];
    StrCpy(out, at + 1, hex);
    next := at + 6;
    assert out[at..next] == [out[at]] + out[at + 1..at + 1 + |hex|];
  }

  /** The copying loop of the second pass. */
  method WriteEscaped(out: array<char>, at: nat, str: string) returns (ptr2: nat)
    requires CString(str) && at + |Escaped(str)| < out.Length
    modifies out
    ensures ptr2 == at + |Escaped(str)| && out[at..ptr2] == Escaped(str)
    ensures forall i :: 0 <= i < at ==> out[i] == old(out[i])
  {
    hide EscapeChar, Escaped;
    ptr2 := at;
    var ptr := str;
    assert out[at..ptr2] == "";
    assert out[at..ptr2] + Escaped(ptr) == Escaped(str);
    while ptr != []
      invariant CString(ptr) && at <= ptr2 <= out.Length
      invariant out[at..ptr2] + Escaped(ptr) == Escaped(str)
      invariant forall i :: 0 <= i < at ==> out[i] == old(out[i])
      decreases |ptr|
    {
      ghost var done, start := out[at..ptr2], ptr2;
      EscapedNext(done, ptr, Escaped(str));
      ptr2 := WriteChar(out, ptr2, ptr[0]);
      assert out[at..ptr2] == done + out[start..ptr2];
      ptr := ptr[1..];
    }
    EscapedEmpty();
    assert out[at..ptr2] + "" == out[at..ptr2];
  }

  lemma EscapedEmpty()
    ensures Escaped("") == ""
  {
  }

  /** One character, escaped if need be. */
  method WriteChar(out: array<char>, at: nat, c: char) returns (next: nat)
    requires c != '\0' && at + |EscapeChar(c)| < out.Length
    modifies out
    ensures next == at + |EscapeChar(c)| && out[at..next] == EscapeChar(c)
    ensures forall i :: 0 <= i < at ==> out[i] == old(out[i])
  {
    if c > '\U{1F}' && c != '"' && c != '\\' {
      out[at] := c;
      next := at + 1;
    } else {
      next := WriteEscape(out, at, c);
    }
  }

  /** The second pass, into room for the quotes, the text and the terminator. */
  method WriteString(out: array<char>, at: nat, flag: bool, len: nat, str: string)
    requires CString(str) && len == |Escaped(str)| && (!flag ==> Escaped(str) == str)
    requires at + len + 3 <= out.Length
    modifies out
    ensures TextAt(out, at, PrintString(str))
    ensures forall i :: 0 <= i < at ==> out[i] == old(out[i])
  {
    EscapedNoNul(str);
    hide Escaped;
    out[at] := '"';
    var ptr2 := at + 1;
    if !flag {
      StrCpy(out, ptr2, str);
      ptr2 := ptr2 + len;
    } else {
      ptr2 := WriteEscaped(out, ptr2, str);
    }
    out[ptr2] := '"';
    out[ptr2 + 1] := '\0';
    assert out[at..ptr2 + 1] == [out[at]] + out[at + 1..ptr2] + [out[ptr2]];
  }

  method PrintStringPtr(str: string) returns (out: array<char>)
    requires CString(str)
    ensures fresh(out) && TextAt(out, 0, PrintString(str))
  {
    var flag, len := MeasureString(str);
    out := new char[len + 3];
    WriteString(out, 0, flag, len, str);
  }

  // ---------------------------------------------------------------- print_number

  lemma {:induction false} DecimalLength(n: nat, k: nat)
    requires k > 0 && n < Ten(k)
    ensures |Decimal(n)| <= k
  {
    if n >= 10 {
      DecimalLength(n / 10, k - 1);
    }
  }

  function Ten(k: nat): nat {
    if k == 0 then 1 else 10 * Ten(k - 1)
  }

  /** `%d` of an int takes at most 11 characters, so 21 are plenty. */
  lemma NumberLength(n: int)
    requires INT_MIN <= n <= INT_MAX
    ensures |PrintNumber(n)| <= 11 && '\0' !in PrintNumber(n)
    ensures n == 0 ==> PrintNumber(n) == "0"
  {
    var m := if n < 0 then -n else n;
    assert Ten(4) == 10000 && Ten(8) == 10000 * Ten(4) && Ten(10) == 100 * Ten(8);
    DecimalLength(m, 10);
    DecimalNoNul(m);
  }

  method PrintNumberItem(n: int) returns (out: array<char>)
    requires INT_MIN <= n <= INT_MAX
    ensures fresh(out) && TextAt(out, 0, PrintNumber(n))
  {
    NumberLength(n);
    if n == 0 {
      out := new char[2];
      StrCpy(out, 0, "0");
    } else {
      out := new char[21];
      StrCpy(out, 0, PrintNumber(n));
    }
  }

  // ---------------------------------------------------------------- sizing and filling

  /** print_value without a buffer: a new block holding the printed text, terminated. */
  method PrintValue(item: CJson, depth: nat, fmt: bool, ghost v: Json) returns (out: array<char>)
    requires item.Is(v) && Printable(v)
    ensures fresh(out) && TextAt(out, 0, Print(v, depth, fmt))
    decreases v, 2
  {
    KindIs(item, v);
    hide CJson.Is, CJson.Holds, CJson.Family, Chain;
    match item.kind
    case KNull => out := StrDup("null");
    case KFalse => out := StrDup("false");
    case KTrue => out := StrDup("true");
    case KNumber => out := PrintNumberItem(item.valueint);
    case KString => out := PrintStringPtr(item.valuestring);
    case KArray => out := PrintArray(item, depth, fmt, v);
    case KObject => out := PrintObject(item, depth, fmt, v);
  }

  /** What a node's kind says of the value it represents. */
  lemma KindIs(item: CJson, v: Json)
    requires item.Is(v)
    ensures match item.kind
            case KNull => v == Null
            case KFalse => v == False
            case KTrue => v == True
            case KNumber => v == Number(item.valueint)
            case KString => v == Str(item.valuestring)
            case KArray => v.Array? && Parent(item, v) && Chain(item.child, item.kin.kids)
            case KObject => v.Object? && Parent(item, v) && Chain(item.child, item.kin.kids)
  {
    assert item.Holds(v);
  }

  method StrDup(s: string) returns (out: array<char>)
    requires '\0' !in s
    ensures fresh(out) && TextAt(out, 0, s)
  {
    out := new char[|s| + 1];
    StrCpy(out, 0, s);
  }

  /** The blocks hold the texts. */
  ghost predicate Entries(es: seq<array<char>>, ts: seq<string>)
    reads es
  {
    |es| == |ts| && forall i :: 0 <= i < |es| ==> TextAt(es[i], 0, ts[i])
  }

  /** What the first pass of print_array adds up. */
  function ArraySize(ts: seq<string>, fmt: bool): nat {
    if ts == [] then 0 else |ts[0]| + 2 + (if fmt then 1 else 0) + ArraySize(ts[1..], fmt)
  }

  function Texts(items: seq<Json>, depth: nat, fmt: bool): (ts: seq<string>)
    ensures |ts| == |items|
  {
    if items == [] then [] else [Print(items[0], depth, fmt)] + Texts(items[1..], depth, fmt)
  }

  /** The entries with their separators. */
  function Joined(ts: seq<string>, fmt: bool): string {
    if ts == [] then "" else ts[0] + Comma(|ts| > 1, fmt) + Joined(ts[1..], fmt)
  }

  lemma {:induction false} JoinedItems(items: seq<Json>, depth: nat, fmt: bool)
    ensures Joined(Texts(items, depth, fmt), fmt) == PrintItems(items, depth, fmt)
  {
    if items != [] {
      JoinedItems(items[1..], depth, fmt);
      assert Texts(items, depth, fmt)[1..] == Texts(items[1..], depth, fmt);
    }
  }

  /** The size allowed for each entry covers the entry and its separator. */
  lemma {:induction false} SizeCovers(ts: seq<string>, fmt: bool)
    ensures |Joined(ts, fmt)| <= ArraySize(ts, fmt)
  {
    if ts != [] {
      SizeCovers(ts[1..], fmt);
    }
  }

  method PrintArray(item: CJson, depth: nat, fmt: bool, ghost v: Json) returns (out: array<char>)
    requires Parent(item, v) && Chain(item.child, item.kin.kids) && v.Array? && Printable(v)
    ensures fresh(out) && TextAt(out, 0, Print(v, depth, fmt))
    decreases v, 1
  {
    hide CJson.Is, CJson.Holds, CJson.Family, Chain;
    ghost var below := item.Kids() + item.kin.deep;
    var numentries := GetArraySize(item, v);
    assert (forall c :: c in below ==> !fresh(c)) && Parent(item, v);
    if numentries == 0 {
      out := new char[3];
      StrCpy(out, 0, "[]");
      assert v.items == [] && Print(v, depth, fmt) == "[]";
      return;
    }
    var entries, len := CollectItems(item, depth + 1, fmt, v);
    ghost var ts := Texts(v.items, depth + 1, fmt);
    SizeCovers(ts, fmt);
    JoinedItems(v.items, depth + 1, fmt);
    PrintNoNul(v, depth, fmt);
    assert Print(v, depth, fmt) == "[" + Joined(ts, fmt) + "]";
    hide Print, Joined, ArraySize, Texts;
    out := new char[5 + len];
    FillArray(out, entries, ts, fmt);
  }

  /** The second pass. */
  method FillArray(out: array<char>, entries: seq<array<char>>, ghost ts: seq<string>, fmt: bool)
    requires Entries(entries, ts) && out !in entries && |Joined(ts, fmt)| + 3 <= out.Length && '\0' !in Joined(ts, fmt)
    modifies out
    ensures TextAt(out, 0, "[" + Joined(ts, fmt) + "]")
  {
    hide Joined, Entries;
    var ptr := PutChar(out, 0, '[');
    ptr := JoinEntries(out, ptr, entries, ts, fmt);
    ptr := PutChar(out, ptr, ']');
    out[ptr] := '\0';
    assert out[0..ptr] == out[..ptr] == "[" + Joined(ts, fmt) + "]";
  }

  /** The first pass: every entry printed on its own and its length added. */
  method CollectItems(item: CJson, depth: nat, fmt: bool, ghost v: Json) returns (entries: seq<array<char>>, len: nat)
    requires Parent(item, v) && Chain(item.child, item.kin.kids) && v.Array? && Printable(v)
    ensures fresh(entries) && Entries(entries, Texts(v.items, depth, fmt))
    ensures len == ArraySize(Texts(v.items, depth, fmt), fmt)
    decreases v, 0
  {
    hide CJson.Is, CJson.Holds, CJson.Family, Print, Texts, ArraySize, Entries, TextAt;
    ghost var below := item.Kids() + item.kin.deep;
    entries, len := [], 0;
    ghost var ts, ks, i := Texts(v.items, depth, fmt), item.kin.kids, 0;
    NoEntries();
    assert ts[0..] == ts && ts[..0] == [];
    var child := item.child;
    while child != null
      invariant 0 <= i <= |ks| == |v.items| && item.kin.kids == ks && Chain(item.child, ks)
      invariant item.Kids() + item.kin.deep == below && (forall c :: c in below ==> !fresh(c)) && Parent(item, v)
      invariant child == (if i < |ks| then ks[i] else null)
      invariant fresh(entries) && Entries(entries, ts[..i])
      invariant len + ArraySize(ts[i..], fmt) == ArraySize(ts, fmt)
      decreases |ks| - i
    {
      KidIs(item, v, i);
      TextsAt(v.items, depth, fmt, i);
      ArraySizeStep(ts, i, fmt);
      var ret := PrintValue(child, depth, fmt, v.items[i]);
      var n := StrLen(ret, 0, ts[i]);
      EntriesAdd(entries, ts, i, ret);
      entries := entries + [ret];
      len := len + n + 2 + (if fmt then 1 else 0);
      child := child.next;
      i := i + 1;
    }
    ArraySizeNone(fmt);
    assert ts[..|ts|] == ts && ts[|ts|..] == [];
  }

  lemma NoEntries()
    ensures Entries([], [])
  {
  }

  lemma EntriesAdd(es: seq<array<char>>, ts: seq<string>, i: nat, e: array<char>)
    requires i < |ts| && Entries(es, ts[..i]) && TextAt(e, 0, ts[i])
    ensures Entries(es + [e], ts[..i + 1])
  {
    assert ts[..i + 1] == ts[..i] + [ts[i]];
    hide TextAt;
  }

  lemma {:induction false} TextsAt(items: seq<Json>, depth: nat, fmt: bool, i: nat)
    requires i < |items|
    ensures Texts(items, depth, fmt)[i] == Print(items[i], depth, fmt)
  {
    hide Print;
    if i > 0 {
      TextsAt(items[1..], depth, fmt, i - 1);
    }
  }

  lemma ArraySizeStep(ts: seq<string>, i: nat, fmt: bool)
    requires i < |ts|
    ensures ArraySize(ts[i..], fmt) == |ts[i]| + 2 + (if fmt then 1 else 0) + ArraySize(ts[i + 1..], fmt)
  {
    assert ts[i..][1..] == ts[i + 1..];
  }

  lemma ArraySizeNone(fmt: bool)
    ensures ArraySize([], fmt) == 0
  {
  }

  /** The second pass: the entries copied one after the other, with separators. */
  method JoinEntries(out: array<char>, at: nat, entries: seq<array<char>>, ghost ts: seq<string>, fmt: bool)
    returns (ptr: nat)
    requires Entries(entries, ts) && out !in entries
    requires at + |Joined(ts, fmt)| < out.Length
    modifies out
    ensures ptr == at + |Joined(ts, fmt)| && out[..ptr] == old(out[..at]) + Joined(ts, fmt)
  {
    hide Joined;
    ptr := at;
    ghost var whole := out[..at] + Joined(ts, fmt);
    assert ts[0..] == ts;
    for i := 0 to |entries|
      invariant ptr <= out.Length && Entries(entries, ts)
      invariant out[..ptr] + Joined(ts[i..], fmt) == whole
    {
      JoinedNext(out[..ptr], ts[i..], fmt, whole);
      assert ts[i..][1..] == ts[i + 1..];
      ptr := PutText(out, ptr, entries[i], ts[i]);
      ptr := PutSeparator(out, ptr, i + 1 < |entries|, fmt);
    }
    JoinedEmpty(fmt);
    assert ts[|ts|..] == [];
    assert out[..ptr] + "" == out[..ptr];
  }

  method PutSeparator(out: array<char>, at: nat, more: bool, fmt: bool) returns (next: nat)
    requires at + |Comma(more, fmt)| < out.Length
    modifies out
    ensures next == at + |Comma(more, fmt)| && out[..next] == old(out[..at]) + Comma(more, fmt)
  {
    next := at;
    if more {
      next := PutChar(out, next, ',');
      if fmt {
        next := PutChar(out, next, ' ');
      }
      out[next] := '\0';
    }
  }

  lemma JoinedEmpty(fmt: bool)
    ensures Joined([], fmt) == ""
  {
  }

  lemma JoinedNext(done: string, ts: seq<string>, fmt: bool, whole: string)
    requires ts != [] && done + Joined(ts, fmt) == whole
    ensures var c := Comma(|ts| > 1, fmt);
            && done + ts[0] + c + Joined(ts[1..], fmt) == whole
            && |done| + |ts[0]| + |c| + |Joined(ts[1..], fmt)| == |whole|
  {
    var c, r := Comma(|ts| > 1, fmt), Joined(ts[1..], fmt);
    assert Joined(ts, fmt) == ts[0] + c + r;
    hide Joined, Comma;
    assert done + (ts[0] + c + r) == done + ts[0] + c + r;
  }

  /** What the first pass of print_object adds up. */
  function ObjectSize(ms: seq<Member>, depth: nat, fmt: bool): nat {
    if ms == [] then 0
    else |Print(ms[0].value, depth, fmt)| + |PrintString(ms[0].key)| + 2 + (if fmt then 2 + depth else 0)
         + ObjectSize(ms[1..], depth, fmt)
  }

  lemma {:induction false} ObjectSizeCovers(ms: seq<Member>, depth: nat, fmt: bool)
    ensures |PrintMembers(ms, depth, fmt)| <= ObjectSize(ms, depth, fmt)
  {
    if ms != [] {
      ObjectSizeCovers(ms[1..], depth, fmt);
    }
  }

  /** The blocks hold the members' names and values. */
  ghost predicate MemberEntries(names: seq<array<char>>, entries: seq<array<char>>, ms: seq<Member>,
                                depth: nat, fmt: bool)
    reads names, entries
  {
    && |names| == |entries| == |ms|
    && forall i :: 0 <= i < |ms| ==>
         && TextAt(names[i], 0, PrintString(ms[i].key))
         && TextAt(entries[i], 0, Print(ms[i].value, depth, fmt))
  }

  method PrintObject(item: CJson, depth: nat, fmt: bool, ghost v: Json) returns (out: array<char>)
    requires Parent(item, v) && Chain(item.child, item.kin.kids) && v.Object? && Printable(v)
    ensures fresh(out) && TextAt(out, 0, Print(v, depth, fmt))
    decreases v, 1
  {
    hide CJson.Is, CJson.Holds, CJson.Family, Chain, Print, PrintMembers, Tabs, ObjectSize, MemberEntries, Entries;
    hide Printable, TextAt;
    ghost var below := item.Kids() + item.kin.deep;
    var numentries := GetArraySize(item, v);
    assert (forall c :: c in below ==> !fresh(c)) && Parent(item, v);
    assert v == Object(v.members);
    if numentries == 0 {
      out := new char[if fmt then depth + 4 else 3];
      assert v.members == [];
      var end := EmptyObject(out, 0, depth, fmt);
      return;
    }
    var names, entries, len := CollectMembers(item, depth + 1, fmt, v);
    ObjectSizeCovers(v.members, depth + 1, fmt);
    out := new char[7 + len + (if fmt then depth + 1 else 0)];
    FillObject(out, names, entries, v.members, depth, fmt);
  }

  /** The second pass. */
  method FillObject(out: array<char>, names: seq<array<char>>, entries: seq<array<char>>, ghost ms: seq<Member>,
                    depth: nat, fmt: bool)
    requires ms != [] && MemberEntries(names, entries, ms, depth + 1, fmt) && out !in names && out !in entries
    requires |PrintMembers(ms, depth + 1, fmt)| + 7 + (if fmt then depth + 1 else 0) <= out.Length
    modifies out
    ensures TextAt(out, 0, Print(Object(ms), depth, fmt))
  {
    hide Print, PrintMembers, Tabs, MemberEntries, Opening, Closing, TextAt;
    PrintNoNul(Object(ms), depth, fmt);
    ObjectText(ms, depth, fmt);
    ghost var body := PrintMembers(ms, depth + 1, fmt);
    var start := OpenObject(out, 0, fmt);
    assert out[..start] == Opening(fmt);
    var ptr := JoinMembers(out, names, entries, ms, start, depth + 1, fmt);
    assert out[..ptr] == Opening(fmt) + body;
    ptr := CloseObject(out, ptr, depth, fmt);
    FromStart(out, ptr, Print(Object(ms), depth, fmt));
  }

  lemma FromStart(out: array<char>, n: nat, s: string)
    requires n < out.Length && out[..n] == s && out[n] == '\0' && '\0' !in s
    ensures TextAt(out, 0, s)
  {
    assert out[0..n] == out[..n];
  }

  /** The brace, and the line end after it. */
  method OpenObject(out: array<char>, at: nat, fmt: bool) returns (next: nat)
    requires at + 3 <= out.Length
    modifies out
    ensures next == at + |Opening(fmt)| && out[..next] == old(out[..at]) + Opening(fmt) && out[next] == '\0'
  {
    next := PutChar(out, at, '{');
    if fmt {
      next := PutChar(out, next, '\n');
    }
    out[next] := '\0';
  }

  function Opening(fmt: bool): (o: string)
    ensures |o| == if fmt then 2 else 1
  {
    if fmt then "{\n" else "{"
  }

  function Closing(depth: nat, fmt: bool): (c: string)
    ensures |c| == (if fmt then depth else 0) + 1
  {
    (if fmt then Tabs(depth) else "") + "}"
  }

  /** The tabs, the brace and the terminator. */
  method CloseObject(out: array<char>, at: nat, depth: nat, fmt: bool) returns (next: nat)
    requires at + (if fmt then depth else 0) + 2 <= out.Length
    modifies out
    ensures next == at + |Closing(depth, fmt)| && next < out.Length
    ensures out[..next] == old(out[..at]) + Closing(depth, fmt) && out[next] == '\0'
  {
    hide Tabs;
    next := at;
    if fmt {
      next := WriteTabs(out, next, depth);
    }
    next := PutChar(out, next, '}');
    out[next] := '\0';
  }

  lemma ObjectText(members: seq<Member>, depth: nat, fmt: bool)
    requires members != []
    ensures Print(Object(members), depth, fmt)
         == Opening(fmt) + PrintMembers(members, depth + 1, fmt) + Closing(depth, fmt)
  {
    hide PrintMembers;
    assert Print(Object(members), depth, fmt)
        == "{" + (if fmt then "\n" else "") + PrintMembers(members, depth + 1, fmt)
           + (if fmt then Tabs(depth) else "") + "}";
  }

  /** The empty object: one tab fewer than the depth, but never fewer than none. */
  method EmptyObject(out: array<char>, at: nat, depth: nat, fmt: bool) returns (end: nat)
    requires at + (if fmt then depth + 4 else 3) <= out.Length
    modifies out
    ensures TextAt(out, at, Print(Object([]), depth, fmt)) && end == at + |Print(Object([]), depth, fmt)|
    ensures out[..at] == old(out[..at])
  {
    hide Print, Tabs, Opening, Closing;
    PrintNoNul(Object([]), depth, fmt);
    var d := if depth > 0 then depth - 1 else 0;
    EmptyText(depth, fmt);
    end := OpenObject(out, at, fmt);
    end := CloseObject(out, end, d, fmt);
    assert out[at..end] == out[..end][at..];
  }

  lemma EmptyText(depth: nat, fmt: bool)
    ensures Print(Object([]), depth, fmt) == Opening(fmt) + Closing(if depth > 0 then depth - 1 else 0, fmt)
  {
  }

  method WriteTabs(out: array<char>, at: nat, n: nat) returns (next: nat)
    requires at + n <= out.Length
    modifies out
    ensures next == at + n && out[..next] == old(out[..at]) + Tabs(n)
  {
    for j := 0 to n
      invariant out[..at + j] == old(out[..at]) + Tabs(j)
    {
      out[at + j] := '\t';
    }
    next := at + n;
  }

  method PutChar(out: array<char>, at: nat, c: char) returns (next: nat)
    requires at < out.Length
    modifies out
    ensures next == at + 1 && out[..next] == old(out[..at]) + [c]
  {
    out[at] := c;
    next := at + 1;
  }

  /** A copy of the text at the start of `src`. */
  method PutText(out: array<char>, at: nat, src: array<char>, ghost s: string) returns (next: nat)
    requires TextAt(src, 0, s) && src != out && at + |s| <= out.Length
    modifies out
    ensures next == at + |s| && out[..next] == old(out[..at]) + s
  {
    var tmplen := StrLen(src, 0, s);
    MemCpy(out, at, src, tmplen);
    next := at + tmplen;
    assert src[..tmplen] == src[0..0 + tmplen];
    assert out[..next] == out[..at] + out[at..next];
  }

  /** The first pass: every name and value printed on its own and their lengths added. */
  method CollectMembers(item: CJson, depth: nat, fmt: bool, ghost v: Json)
    returns (names: seq<array<char>>, entries: seq<array<char>>, len: nat)
    requires Parent(item, v) && Chain(item.child, item.kin.kids) && v.Object? && Printable(v)
    ensures fresh(names) && fresh(entries) && MemberEntries(names, entries, v.members, depth, fmt)
    ensures len == ObjectSize(v.members, depth, fmt)
    decreases v, 0
  {
    hide CJson.Is, CJson.Holds, CJson.Family, Print, PrintString, ObjectSize, MemberEntries, TextAt;
    ghost var below := item.Kids() + item.kin.deep;
    names, entries, len := [], [], 0;
    ghost var ms, ks, i := v.members, item.kin.kids, 0;
    NoMemberEntries(depth, fmt);
    assert ms[0..] == ms && ms[..0] == [];
    var child := item.child;
    while child != null
      invariant 0 <= i <= |ks| == |ms| && item.kin.kids == ks && Chain(item.child, ks)
      invariant item.Kids() + item.kin.deep == below && (forall c :: c in below ==> !fresh(c)) && Parent(item, v)
      invariant child == (if i < |ks| then ks[i] else null)
      invariant fresh(names) && fresh(entries) && MemberEntries(names, entries, ms[..i], depth, fmt)
      invariant len + ObjectSize(ms[i..], depth, fmt) == ObjectSize(ms, depth, fmt)
      decreases |ks| - i
    {
      ObjectSizeStep(ms, i, depth, fmt);
      KidIs(item, v, i);
      var str, ret, n := PrintParts(child, depth, fmt, ms[i]);
      MemberEntriesAdd(names, entries, ms, i, str, ret, depth, fmt);
      names, entries := names + [str], entries + [ret];
      len := len + n + 2 + (if fmt then 2 + depth else 0);
      child := child.next;
      i := i + 1;
    }
    ObjectSizeNone(depth, fmt);
    assert ms[..|ms|] == ms && ms[|ms|..] == [];
  }

  lemma NoMemberEntries(depth: nat, fmt: bool)
    ensures MemberEntries([], [], [], depth, fmt)
  {
  }

  lemma MemberEntriesAdd(names: seq<array<char>>, entries: seq<array<char>>, ms: seq<Member>, i: nat,
                         str: array<char>, ret: array<char>, depth: nat, fmt: bool)
    requires i < |ms| && MemberEntries(names, entries, ms[..i], depth, fmt)
    requires TextAt(str, 0, PrintString(ms[i].key)) && TextAt(ret, 0, Print(ms[i].value, depth, fmt))
    ensures MemberEntries(names + [str], entries + [ret], ms[..i + 1], depth, fmt)
  {
    assert ms[..i + 1] == ms[..i] + [ms[i]];
    hide TextAt, Print, PrintString;
  }

  lemma ObjectSizeStep(ms: seq<Member>, i: nat, depth: nat, fmt: bool)
    requires i < |ms|
    ensures ObjectSize(ms[i..], depth, fmt)
         == |Print(ms[i].value, depth, fmt)| + |PrintString(ms[i].key)| + 2 + (if fmt then 2 + depth else 0)
            + ObjectSize(ms[i + 1..], depth, fmt)
  {
    hide Print, PrintString;
    assert ms[i..][1..] == ms[i + 1..];
  }

  lemma ObjectSizeNone(depth: nat, fmt: bool)
    ensures ObjectSize([], depth, fmt) == 0
  {
  }

  /** One member's name and value, each printed on its own, and their lengths. */
  method PrintParts(child: CJson, depth: nat, fmt: bool, ghost m: Member)
    returns (str: array<char>, ret: array<char>, len: nat)
    requires child.Is(m.value) && child.name == m.key && CString(m.key) && Printable(m.value)
    ensures fresh(str) && fresh(ret) && len == |Print(m.value, depth, fmt)| + |PrintString(m.key)|
    ensures TextAt(str, 0, PrintString(m.key)) && TextAt(ret, 0, Print(m.value, depth, fmt))
    decreases m, 3
  {
    hide CJson.Is, CJson.Holds, CJson.Family, Chain, Print, PrintString;
    ghost var below := child.Kids() + child.kin.deep;
    str := PrintStringPtr(child.name);
    assert (forall c :: c in below ==> !fresh(c)) && child.Is(m.value);
    ret := PrintValue(child, depth, fmt, m.value);
    var n := StrLen(ret, 0, Print(m.value, depth, fmt));
    var k := StrLen(str, 0, PrintString(m.key));
    len := n + k;
  }

  /** The members copied one after the other. */
  method JoinMembers(out: array<char>, names: seq<array<char>>, entries: seq<array<char>>, ghost ms: seq<Member>,
                     start: nat, depth: nat, fmt: bool) returns (ptr: nat)
    requires MemberEntries(names, entries, ms, depth, fmt) && out !in names && out !in entries
    requires start + |PrintMembers(ms, depth, fmt)| < out.Length
    modifies out
    ensures ptr == start + |PrintMembers(ms, depth, fmt)|
    ensures out[..ptr] == old(out[..start]) + PrintMembers(ms, depth, fmt)
  {
    hide PrintMembers, PrintMember, MemberEnd;
    ptr := start;
    ghost var whole := out[..start] + PrintMembers(ms, depth, fmt);
    assert ms[0..] == ms;
    for i := 0 to |names|
      invariant start <= ptr <= out.Length && MemberEntries(names, entries, ms, depth, fmt)
      invariant out[..ptr] + PrintMembers(ms[i..], depth, fmt) == whole
    {
      MembersNext(out[..ptr], ms[i..], depth, fmt, whole);
      assert ms[i..][1..] == ms[i + 1..];
      ptr := JoinMember(out, names[i], entries[i], ptr, i + 1 < |names|, ms[i], depth, fmt);
    }
    MembersEmpty(depth, fmt);
    assert ms[|ms|..] == [];
    assert out[..ptr] + "" == out[..ptr];
  }

  lemma MembersEmpty(depth: nat, fmt: bool)
    ensures PrintMembers([], depth, fmt) == ""
  {
  }

  lemma MembersNext(done: string, ms: seq<Member>, depth: nat, fmt: bool, whole: string)
    requires ms != [] && done + PrintMembers(ms, depth, fmt) == whole
    ensures var m := PrintMember(ms[0], depth, fmt) + MemberEnd(|ms| > 1, fmt);
            && done + m + PrintMembers(ms[1..], depth, fmt) == whole
            && |done| + |m| + |PrintMembers(ms[1..], depth, fmt)| == |whole|
  {
    var m, r := PrintMember(ms[0], depth, fmt) + MemberEnd(|ms| > 1, fmt), PrintMembers(ms[1..], depth, fmt);
    assert PrintMembers(ms, depth, fmt) == m + r;
    hide PrintMember, PrintMembers, MemberEnd;
    assert done + (m + r) == done + m + r;
  }

  function Colon(fmt: bool): string {
    if fmt then ":\t" else ":"
  }

  lemma MemberText(m: Member, depth: nat, fmt: bool)
    ensures PrintMember(m, depth, fmt)
         == (if fmt then Tabs(depth) else "") + PrintString(m.key) + Colon(fmt) + Print(m.value, depth, fmt)
  {
  }

  /** One member: tabs, name, colon, value, and what ends it. */
  method JoinMember(out: array<char>, name: array<char>, entry: array<char>, at: nat, more: bool, ghost m: Member,
                    depth: nat, fmt: bool) returns (ptr: nat)
    requires TextAt(name, 0, PrintString(m.key)) && TextAt(entry, 0, Print(m.value, depth, fmt))
    requires out != name && out != entry
    requires at + |PrintMember(m, depth, fmt) + MemberEnd(more, fmt)| < out.Length
    modifies out
    ensures ptr == at + |PrintMember(m, depth, fmt) + MemberEnd(more, fmt)|
    ensures out[..ptr] == old(out[..at]) + (PrintMember(m, depth, fmt) + MemberEnd(more, fmt))
  {
    hide PrintString, Print, PrintMember, Tabs, MemberEnd, Colon, TextAt;
    ghost var k, p := PrintString(m.key), Print(m.value, depth, fmt);
    MemberText(m, depth, fmt);
    ptr := at;
    if fmt {
      ptr := WriteTabs(out, ptr, depth);
    }
    ptr := PutText(out, ptr, name, k);
    ptr := PutColon(out, ptr, fmt);
    ptr := PutText(out, ptr, entry, p);
    ptr := PutEnd(out, ptr, more, fmt);
    out[ptr] := '\0';
  }

  method PutColon(out: array<char>, at: nat, fmt: bool) returns (next: nat)
    requires at + |Colon(fmt)| <= out.Length
    modifies out
    ensures next == at + |Colon(fmt)| && out[..next] == old(out[..at]) + Colon(fmt)
  {
    next := PutChar(out, at, ':');
    if fmt {
      next := PutChar(out, next, '\t');
    }
  }

  /** What ends a member. */
  method PutEnd(out: array<char>, at: nat, more: bool, fmt: bool) returns (next: nat)
    requires at + |MemberEnd(more, fmt)| <= out.Length
    modifies out
    ensures next == at + |MemberEnd(more, fmt)| && out[..next] == old(out[..at]) + MemberEnd(more, fmt)
  {
    next := at;
    if more {
      next := PutChar(out, next, ',');
    }
    if fmt {
      next := PutChar(out, next, '\n');
    }
  }
}

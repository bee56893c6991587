/** cJSON.c printing into a growable buffer: whatever the buffer's first size and however often it
    grows, the text is the one that `Print` defines, which the other printer produces too. */
module JsonBuffered {
  import opened Ascii
  import opened JsonText
  import opened JsonTree
  import opened JsonList
  import opened JsonBuffer
  import opened JsonPrinter

  /** The most that a printer asks for beyond what it prints. */
  const SLACK := 32

  const MAX_BUFFER := 0x4000_0000

  lemma Halves(a: array<char>, i: nat, j: nat)
    requires i <= j <= a.Length
    ensures a[..j] == a[..i] + a[i..j]
  {
  }

  /** A leaf's text, written where the offset is. */
  method PutLeaf(p: PrintBuffer, needed: nat, s: string) returns (out: nat)
    requires p.Valid() && '\0' !in s && |s| < needed && p.offset + needed <= MAX_BUFFER
    modifies p`buffer, p.buffer
    ensures p.Valid() && (p.buffer == old(p.buffer) || fresh(p.buffer))
    ensures out == p.offset && out + |s| < p.buffer.Length
    ensures p.buffer[..out + |s|] == old(p.buffer[..p.offset]) + s && p.buffer[out + |s|] == '\0'
  {
    ghost var before := p.buffer[..p.offset];
    out := p.Ensure(needed);
    assert p.buffer[..out] == before;
    StrCpy(p.buffer, out, s);
    assert p.buffer[..out] == before;
    Halves(p.buffer, out, out + |s|);
  }

  /** print_string_ptr with a buffer. */
  method PutString(p: PrintBuffer, str: string) returns (out: nat)
    requires p.Valid() && CString(str) && p.offset + |PrintString(str)| + SLACK <= MAX_BUFFER
    modifies p`buffer, p.buffer
    ensures p.Valid() && (p.buffer == old(p.buffer) || fresh(p.buffer))
    ensures out == p.offset && out + |PrintString(str)| < p.buffer.Length
    ensures p.buffer[..out + |PrintString(str)|] == old(p.buffer[..p.offset]) + PrintString(str)
    ensures p.buffer[out + |PrintString(str)|] == '\0'
  {
    var flag, len := MeasureString(str);
    assert |PrintString(str)| == len + 2;
    hide PrintString, Escaped;
    out := p.Ensure(len + 3);
    WriteAfter(p.buffer, out, flag, len, str);
  }

  /** The string, with what stands before it kept. */
  method WriteAfter(buffer: array<char>, at: nat, flag: bool, len: nat, str: string)
    requires CString(str) && len == |Escaped(str)| && (!flag ==> Escaped(str) == str)
    requires at + len + 3 <= buffer.Length
    modifies buffer
    ensures at + |PrintString(str)| < buffer.Length && buffer[at + |PrintString(str)|] == '\0'
    ensures buffer[..at + |PrintString(str)|] == old(buffer[..at]) + PrintString(str)
  {
    ghost var s := PrintString(str);
    hide PrintString, Escaped;
    WriteString(buffer, at, flag, len, str);
    assert buffer[..at] == old(buffer[..at]);
    Halves(buffer, at, at + |s|);
  }

  /** print_number with a buffer. */
  method PutNumber(p: PrintBuffer, n: int) returns (out: nat)
    requires p.Valid() && INT_MIN <= n <= INT_MAX && p.offset + SLACK <= MAX_BUFFER
    modifies p`buffer, p.buffer
    ensures p.Valid() && (p.buffer == old(p.buffer) || fresh(p.buffer))
    ensures out == p.offset && out + |PrintNumber(n)| < p.buffer.Length
    ensures p.buffer[..out + |PrintNumber(n)|] == old(p.buffer[..p.offset]) + PrintNumber(n)
    ensures p.buffer[out + |PrintNumber(n)|] == '\0'
  {
    NumberLength(n);
    hide PrintNumber;
    if n == 0 {
      out := PutLeaf(p, 2, "0");
    } else {
      out := PutLeaf(p, 21, PrintNumber(n));
    }
  }

  /** `s` and a terminator, with the offset moved past `s`. */
  method PutPiece(p: PrintBuffer, s: string)
    requires p.Valid() && '\0' !in s && p.offset + |s| < MAX_BUFFER
    modifies p, p.buffer
    ensures p.Valid() && (p.buffer == old(p.buffer) || fresh(p.buffer))
    ensures p.offset == old(p.offset) + |s|
    ensures p.buffer[..p.offset] == old(p.buffer[..p.offset]) + s
  {
    var ptr := PutLeaf(p, |s| + 1, s);
    p.offset := p.offset + |s|;
  }

  /** The bracket that opens an array, and no terminator. */
  method PutBracket(p: PrintBuffer)
    requires p.Valid() && p.offset < MAX_BUFFER
    modifies p, p.buffer
    ensures p.Valid() && (p.buffer == old(p.buffer) || fresh(p.buffer))
    ensures p.offset == old(p.offset) + 1
    ensures p.buffer[..p.offset] == old(p.buffer[..p.offset]) + "["
  {
    var ptr := p.Ensure(1);
    assert p.buffer[..ptr] == old(p.buffer[..p.offset]);
    p.buffer[ptr] := '[';
    p.offset := p.offset + 1;
  }

  /** `depth` tabs and no terminator. */
  method PutTabs(p: PrintBuffer, depth: nat)
    requires p.Valid() && p.offset + depth <= MAX_BUFFER
    modifies p, p.buffer
    ensures p.Valid() && (p.buffer == old(p.buffer) || fresh(p.buffer))
    ensures p.offset == old(p.offset) + depth
    ensures p.buffer[..p.offset] == old(p.buffer[..p.offset]) + Tabs(depth)
  {
    var ptr := p.Ensure(depth);
    label Room:
    assert p.buffer[..ptr] == old(p.buffer[..p.offset]);
    var next := WriteTabs(p.buffer, ptr, depth);
    p.offset := next;
  }

  /** print_value with a buffer: the text is written at the offset, terminated, and what stands
      before the offset is kept; the offset may have moved, but not past the text. */
  method PutValue(p: PrintBuffer, item: CJson, depth: nat, fmt: bool, ghost v: Json) returns (out: nat)
    requires item.Is(v) && p.Valid() && Printable(v) && p.offset + |Print(v, depth, fmt)| + SLACK <= MAX_BUFFER
    modifies p, p.buffer
    ensures p.Valid() && (p.buffer == old(p.buffer) || fresh(p.buffer))
    ensures var end := old(p.offset) + |Print(v, depth, fmt)|;
            && old(p.offset) <= p.offset <= end < p.buffer.Length
            && p.buffer[..end] == old(p.buffer[..p.offset]) + Print(v, depth, fmt) && p.buffer[end] == '\0'
    ensures old(p.offset) == 0 && depth == 0 ==> out == 0
    decreases v, 6
  {
    hide CJson.Is, CJson.Holds, CJson.Family, Chain, Parent, Print, Printable, PrintString, PrintNumber;
    KindIs(item, v);
    LeafText(v, depth, fmt);
    match item.kind
    case KNull => out := PutLeaf(p, 5, "null");
    case KFalse => out := PutLeaf(p, 6, "false");
    case KTrue => out := PutLeaf(p, 5, "true");
    case KNumber => out := PutNumber(p, item.valueint);
    case KString => out := PutString(p, item.valuestring);
    case KArray => out := PutArray(p, item, depth, fmt, v);
    case KObject => out := PutObject(p, item, depth, fmt, v);
  }

  lemma LeafText(v: Json, depth: nat, fmt: bool)
    requires Printable(v)
    ensures match v
            case Null => Print(v, depth, fmt) == "null"
            case False => Print(v, depth, fmt) == "false"
            case True => Print(v, depth, fmt) == "true"
            case Number(n) => Print(v, depth, fmt) == PrintNumber(n) && INT_MIN <= n <= INT_MAX
            case Str(s) => Print(v, depth, fmt) == PrintString(s) && CString(s)
            case _ => true
  {
  }

  /** print_value and then update: the offset ends up behind the text. */
  method PutChild(p: PrintBuffer, item: CJson, depth: nat, fmt: bool, ghost v: Json)
    requires item.Is(v) && p.Valid() && Printable(v) && p.offset + |Print(v, depth, fmt)| + SLACK <= MAX_BUFFER
    modifies p, p.buffer
    ensures p.Valid() && (p.buffer == old(p.buffer) || fresh(p.buffer))
    ensures p.offset == old(p.offset) + |Print(v, depth, fmt)|
    ensures p.buffer[..p.offset] == old(p.buffer[..p.offset]) + Print(v, depth, fmt)
    decreases v, 7
  {
    hide Print, CJson.Is, Printable;
    PrintNoNul(v, depth, fmt);
    ghost var o, s := p.offset, Print(v, depth, fmt);
    var out := PutValue(p, item, depth, fmt, v);
    ghost var rest := s[p.offset - o..];
    assert p.buffer[p.offset..p.offset + |rest|] == p.buffer[..o + |s|][p.offset..] == rest;
    p.offset := p.Update(rest);
  }

  /** print_array with a buffer. */
  method PutArray(p: PrintBuffer, item: CJson, depth: nat, fmt: bool, ghost v: Json) returns (out: nat)
    requires Parent(item, v) && Chain(item.child, item.kin.kids) && v.Array? && Printable(v)
    requires p.Valid() && p.offset + |Print(v, depth, fmt)| + SLACK <= MAX_BUFFER
    modifies p, p.buffer
    ensures p.Valid() && (p.buffer == old(p.buffer) || fresh(p.buffer))
    ensures var end := old(p.offset) + |Print(v, depth, fmt)|;
            && old(p.offset) <= p.offset <= end < p.buffer.Length && p.buffer[end] == '\0'
            && p.buffer[..end] == old(p.buffer[..p.offset]) + Print(v, depth, fmt)
    ensures out == old(p.offset)
    decreases v, 5
  {
    hide Print, Printable, CJson.Is, CJson.Holds, CJson.Family, Chain;
    ghost var below := item.Kids() + item.kin.deep;
    var numentries := GetArraySize(item, v);
    if numentries == 0 {
      assert v == Array([]);
      EmptyArrayText(depth, fmt);
      out := PutLeaf(p, 3, "[]");
      return;
    }
    assert (forall c :: c in below ==> !fresh(c)) && Parent(item, v);
    out := p.offset;
    PutFullArray(p, item, depth, fmt, v);
  }

  lemma EmptyArrayText(depth: nat, fmt: bool)
    ensures Print(Array([]), depth, fmt) == "[]"
  {
  }

  method PutFullArray(p: PrintBuffer, item: CJson, depth: nat, fmt: bool, ghost v: Json)
    requires Parent(item, v) && Chain(item.child, item.kin.kids) && v.Array? && Printable(v)
    requires p.Valid() && p.offset + |Print(v, depth, fmt)| + SLACK <= MAX_BUFFER
    modifies p, p.buffer
    ensures p.Valid() && (p.buffer == old(p.buffer) || fresh(p.buffer))
    ensures var end := old(p.offset) + |Print(v, depth, fmt)|;
            && old(p.offset) <= p.offset <= end < p.buffer.Length && p.buffer[end] == '\0'
            && p.buffer[..end] == old(p.buffer[..p.offset]) + Print(v, depth, fmt)
    decreases v, 4
  {
    hide Print, PrintItems, Printable, CJson.Is, CJson.Holds, CJson.Family, Chain, Parent;
    ghost var before, most := p.buffer[..p.offset], "[" + PrintItems(v.items, depth + 1, fmt);
    ArrayText(v, depth, fmt);
    PutOpenItems(p, item, depth, fmt, v);
    assert p.buffer[..p.offset] == before + most;
    var ptr := PutLeaf(p, 2, "]");
    Regrouped(before, most, "]");
  }

  lemma ArrayText(v: Json, depth: nat, fmt: bool)
    requires v.Array?
    ensures Print(v, depth, fmt) == "[" + PrintItems(v.items, depth + 1, fmt) + "]"
  {
  }

  lemma Regrouped(a: string, b: string, c: string)
    ensures a + b + c == a + (b + c)
  {
  }

  method PutOpenItems(p: PrintBuffer, item: CJson, depth: nat, fmt: bool, ghost v: Json)
    requires Parent(item, v) && Chain(item.child, item.kin.kids) && v.Array? && Printable(v)
    requires p.Valid() && p.offset + 1 + |PrintItems(v.items, depth + 1, fmt)| + SLACK <= MAX_BUFFER
    modifies p, p.buffer
    ensures p.Valid() && (p.buffer == old(p.buffer) || fresh(p.buffer))
    ensures p.offset == old(p.offset) + |"[" + PrintItems(v.items, depth + 1, fmt)|
    ensures p.buffer[..p.offset] == old(p.buffer[..p.offset]) + ("[" + PrintItems(v.items, depth + 1, fmt))
    decreases v, 3
  {
    hide PrintItems, Printable, CJson.Is, CJson.Holds, CJson.Family, Chain;
    ghost var below := item.Kids() + item.kin.deep;
    PutBracket(p);
    assert (forall c :: c in below ==> !fresh(c)) && Parent(item, v);
    PutItems(p, item, depth + 1, fmt, v);
  }

  lemma ItemsEmpty(depth: nat, fmt: bool)
    ensures PrintItems([], depth, fmt) == ""
  {
  }

  lemma ItemsNext(done: string, items: seq<Json>, depth: nat, fmt: bool, whole: string)
    requires items != [] && done + PrintItems(items, depth, fmt) == whole
    ensures var t, c := Print(items[0], depth, fmt), Comma(|items| > 1, fmt);
            && done + t + c + PrintItems(items[1..], depth, fmt) == whole
            && |done| + |t| + |c| + |PrintItems(items[1..], depth, fmt)| == |whole|
  {
    var t, c, r := Print(items[0], depth, fmt), Comma(|items| > 1, fmt), PrintItems(items[1..], depth, fmt);
    assert PrintItems(items, depth, fmt) == t + c + r;
    hide Print, PrintItems, Comma;
    assert done + (t + c + r) == done + t + c + r;
  }

  /** The children of an array, each followed by a separator if another follows. */
  method PutItems(p: PrintBuffer, item: CJson, depth: nat, fmt: bool, ghost v: Json)
    requires Parent(item, v) && Chain(item.child, item.kin.kids) && v.Array? && Printable(v)
    requires p.Valid() && p.offset + |PrintItems(v.items, depth, fmt)| + SLACK <= MAX_BUFFER
    modifies p, p.buffer
    ensures p.Valid() && (p.buffer == old(p.buffer) || fresh(p.buffer))
    ensures p.offset == old(p.offset) + |PrintItems(v.items, depth, fmt)|
    ensures p.buffer[..p.offset] == old(p.buffer[..p.offset]) + PrintItems(v.items, depth, fmt)
    decreases v, 2
  {
    hide Print, PrintItems, Comma, CJson.Is, CJson.Holds, CJson.Family;
    ghost var below := item.Kids() + item.kin.deep;
    ghost var whole := p.buffer[..p.offset] + PrintItems(v.items, depth, fmt);
    ghost var items, ks, i := v.items, item.kin.kids, 0;
    assert items[0..] == items;
    var child := item.child;
    while child != null
      invariant 0 <= i <= |ks| == |items| && item.kin.kids == ks && Chain(item.child, ks)
      invariant child == (if i < |ks| then ks[i] else null)
      invariant item.Kids() + item.kin.deep == below && (forall c :: c in below ==> !fresh(c)) && Parent(item, v)
      invariant p.Valid() && (p.buffer == old(p.buffer) || fresh(p.buffer))
      invariant p.buffer[..p.offset] + PrintItems(items[i..], depth, fmt) == whole
      decreases |ks| - i
    {
      KidIs(item, v, i);
      ItemsNext(p.buffer[..p.offset], items[i..], depth, fmt, whole);
      assert items[i..][1..] == items[i + 1..];
      PutChild(p, child, depth, fmt, items[i]);
      PutComma(p, child.next != null, fmt);
      child := child.next;
      i := i + 1;
    }
    ItemsEmpty(depth, fmt);
    assert items[|items|..] == [];
    assert p.buffer[..p.offset] + "" == p.buffer[..p.offset];
  }

  /** The separator, if there is another child. */
  method PutComma(p: PrintBuffer, more: bool, fmt: bool)
    requires p.Valid() && p.offset + |Comma(more, fmt)| < MAX_BUFFER
    modifies p, p.buffer
    ensures p.Valid() && (p.buffer == old(p.buffer) || fresh(p.buffer))
    ensures p.offset == old(p.offset) + |Comma(more, fmt)|
    ensures p.buffer[..p.offset] == old(p.buffer[..p.offset]) + Comma(more, fmt)
  {
    if more {
      PutPiece(p, if fmt then ", " else ",");
    }
  }

  /** print_object with a buffer.  In a formatted object the loop that writes the last tabs reuses
      the variable holding the start, so the position returned is the start only at depth 0. */
  method PutObject(p: PrintBuffer, item: CJson, depth: nat, fmt: bool, ghost v: Json) returns (out: nat)
    requires Parent(item, v) && Chain(item.child, item.kin.kids) && v.Object? && Printable(v)
    requires p.Valid() && p.offset + |Print(v, depth, fmt)| + SLACK <= MAX_BUFFER
    modifies p, p.buffer
    ensures p.Valid() && (p.buffer == old(p.buffer) || fresh(p.buffer))
    ensures var end := old(p.offset) + |Print(v, depth, fmt)|;
            && old(p.offset) <= p.offset <= end < p.buffer.Length && p.buffer[end] == '\0'
            && p.buffer[..end] == old(p.buffer[..p.offset]) + Print(v, depth, fmt)
    ensures out == if v.members != [] && fmt then depth else old(p.offset)
    decreases v, 5
  {
    hide Print, Printable, CJson.Is, CJson.Holds, CJson.Family, Chain;
    ghost var below := item.Kids() + item.kin.deep;
    var numentries := GetArraySize(item, v);
    if numentries == 0 {
      assert v == Object([]);
      out := PutEmptyObject(p, depth, fmt);
      return;
    }
    assert (forall c :: c in below ==> !fresh(c)) && Parent(item, v);
    out := PutFullObject(p, item, depth, fmt, v);
  }

  method PutFullObject(p: PrintBuffer, item: CJson, depth: nat, fmt: bool, ghost v: Json) returns (out: nat)
    requires Parent(item, v) && Chain(item.child, item.kin.kids) && v.Object? && v.members != [] && Printable(v)
    requires p.Valid() && p.offset + |Print(v, depth, fmt)| + SLACK <= MAX_BUFFER
    modifies p, p.buffer
    ensures p.Valid() && (p.buffer == old(p.buffer) || fresh(p.buffer))
    ensures var end := old(p.offset) + |Print(v, depth, fmt)|;
            && old(p.offset) <= p.offset <= end < p.buffer.Length && p.buffer[end] == '\0'
            && p.buffer[..end] == old(p.buffer[..p.offset]) + Print(v, depth, fmt)
    ensures out == if fmt then depth else old(p.offset)
    decreases v, 4
  {
    hide Print, PrintMembers, Printable, Opening, Closing, CJson.Is, CJson.Holds, CJson.Family, Chain, Parent;
    ObjectText(v.members, depth, fmt);
    assert v == Object(v.members);
    ghost var before, most := p.buffer[..p.offset], Opening(fmt) + PrintMembers(v.members, depth + 1, fmt);
    var i := p.offset;
    PutOpenMembers(p, item, depth, fmt, v);
    assert p.buffer[..p.offset] == before + most;
    var ptr := PutClosing(p, depth, fmt);
    Regrouped(before, most, Closing(depth, fmt));
    if fmt {
      i := depth;
    }
    out := i;
  }

  method PutOpenMembers(p: PrintBuffer, item: CJson, depth: nat, fmt: bool, ghost v: Json)
    requires Parent(item, v) && Chain(item.child, item.kin.kids) && v.Object? && Printable(v)
    requires p.Valid() && p.offset + |Opening(fmt)| + |PrintMembers(v.members, depth + 1, fmt)| + SLACK <= MAX_BUFFER
    modifies p, p.buffer
    ensures p.Valid() && (p.buffer == old(p.buffer) || fresh(p.buffer))
    ensures p.offset == old(p.offset) + |Opening(fmt) + PrintMembers(v.members, depth + 1, fmt)|
    ensures p.buffer[..p.offset] == old(p.buffer[..p.offset]) + (Opening(fmt) + PrintMembers(v.members, depth + 1, fmt))
    decreases v, 3
  {
    OpeningNoNul(fmt);
    hide PrintMembers, Opening, Printable, CJson.Is, CJson.Holds, CJson.Family, Chain;
    ghost var below := item.Kids() + item.kin.deep;
    PutPiece(p, Opening(fmt));
    assert (forall c :: c in below ==> !fresh(c)) && Parent(item, v);
    PutMembers(p, item, depth + 1, fmt, v);
  }

  lemma OpeningNoNul(fmt: bool)
    ensures '\0' !in Opening(fmt)
  {
  }

  method PutEmptyObject(p: PrintBuffer, depth: nat, fmt: bool) returns (out: nat)
    requires p.Valid() && p.offset + |Print(Object([]), depth, fmt)| + SLACK <= MAX_BUFFER
    modifies p`buffer, p.buffer
    ensures p.Valid() && (p.buffer == old(p.buffer) || fresh(p.buffer))
    ensures var end := p.offset + |Print(Object([]), depth, fmt)|;
            && end < p.buffer.Length && p.buffer[end] == '\0'
            && p.buffer[..end] == old(p.buffer[..p.offset]) + Print(Object([]), depth, fmt)
    ensures out == p.offset
  {
    hide Print;
    EmptyText(depth, fmt);
    ghost var before := p.buffer[..p.offset];
    out := p.Ensure(if fmt then depth + 4 else 3);
    assert p.buffer[..out] == before;
    var end := EmptyObject(p.buffer, out, depth, fmt);
    Halves(p.buffer, out, end);
  }

  /** The tabs, the brace and the terminator, without moving the offset. */
  method PutClosing(p: PrintBuffer, depth: nat, fmt: bool) returns (ptr: nat)
    requires p.Valid() && p.offset + (if fmt then depth else 0) + 2 <= MAX_BUFFER
    modifies p`buffer, p.buffer
    ensures p.Valid() && (p.buffer == old(p.buffer) || fresh(p.buffer))
    ensures var end := p.offset + |Closing(depth, fmt)|;
            && end < p.buffer.Length && p.buffer[end] == '\0'
            && p.buffer[..end] == old(p.buffer[..p.offset]) + Closing(depth, fmt)
  {
    hide Closing;
    ptr := p.Ensure(if fmt then depth + 2 else 2);
    assert p.buffer[..ptr] == old(p.buffer[..p.offset]);
    ptr := CloseObject(p.buffer, ptr, depth, fmt);
  }

  /** The members of an object. */
  method PutMembers(p: PrintBuffer, item: CJson, depth: nat, fmt: bool, ghost v: Json)
    requires Parent(item, v) && Chain(item.child, item.kin.kids) && v.Object? && Printable(v)
    requires p.Valid() && p.offset + |PrintMembers(v.members, depth, fmt)| + SLACK <= MAX_BUFFER
    modifies p, p.buffer
    ensures p.Valid() && (p.buffer == old(p.buffer) || fresh(p.buffer))
    ensures p.offset == old(p.offset) + |PrintMembers(v.members, depth, fmt)|
    ensures p.buffer[..p.offset] == old(p.buffer[..p.offset]) + PrintMembers(v.members, depth, fmt)
    decreases v, 2
  {
    hide PrintMember, PrintMembers, MemberEnd, CJson.Is, CJson.Holds, CJson.Family;
    ghost var below := item.Kids() + item.kin.deep;
    ghost var whole := p.buffer[..p.offset] + PrintMembers(v.members, depth, fmt);
    ghost var ms, ks, i := v.members, item.kin.kids, 0;
    assert ms[0..] == ms;
    var child := item.child;
    while child != null
      invariant 0 <= i <= |ks| == |ms| && item.kin.kids == ks && Chain(item.child, ks)
      invariant child == (if i < |ks| then ks[i] else null)
      invariant item.Kids() + item.kin.deep == below && (forall c :: c in below ==> !fresh(c)) && Parent(item, v)
      invariant p.Valid() && (p.buffer == old(p.buffer) || fresh(p.buffer))
      invariant p.buffer[..p.offset] + PrintMembers(ms[i..], depth, fmt) == whole
      decreases |ks| - i
    {
      KidIs(item, v, i);
      MembersNext(p.buffer[..p.offset], ms[i..], depth, fmt, whole);
      assert ms[i..][1..] == ms[i + 1..];
      PutMember(p, child, child.next != null, depth, fmt, ms[i]);
      child := child.next;
      i := i + 1;
    }
    MembersEmpty(depth, fmt);
    assert ms[|ms|..] == [];
    assert p.buffer[..p.offset] + "" == p.buffer[..p.offset];
  }

  /** One member: tabs, name, colon, value, and what ends it. */
  method PutMember(p: PrintBuffer, child: CJson, more: bool, depth: nat, fmt: bool, ghost m: Member)
    requires child.Is(m.value) && child.name == m.key && p.Valid() && CString(m.key) && Printable(m.value)
    requires p.offset + |PrintMember(m, depth, fmt) + MemberEnd(more, fmt)| + SLACK <= MAX_BUFFER
    modifies p, p.buffer
    ensures p.Valid() && (p.buffer == old(p.buffer) || fresh(p.buffer))
    ensures p.offset == old(p.offset) + |PrintMember(m, depth, fmt) + MemberEnd(more, fmt)|
    ensures p.buffer[..p.offset] == old(p.buffer[..p.offset]) + (PrintMember(m, depth, fmt) + MemberEnd(more, fmt))
    decreases m.value, 8
  {
    hide PrintString, Print, PrintMember, Tabs, MemberEnd, Colon, CJson.Is, CJson.Holds, CJson.Family, Chain;
    hide Printable;
    MemberText(m, depth, fmt);
    EndNoNul(more, fmt);
    ghost var below := child.Kids() + child.kin.deep;
    ghost var before, k := p.buffer[..p.offset], KeyText(m.key, depth, fmt);
    PutKey(p, child.name, depth, fmt);
    assert (forall c :: c in below ==> !fresh(c)) && child.Is(m.value);
    PutChild(p, child, depth, fmt, m.value);
    PutPiece(p, MemberEnd(more, fmt));
    JoinFour(before, k, Print(m.value, depth, fmt), MemberEnd(more, fmt));
  }

  lemma JoinFour(a: string, b: string, c: string, d: string)
    ensures a + b + c + d == a + (b + c + d)
  {
  }

  /** A member up to its value. */
  function KeyText(key: string, depth: nat, fmt: bool): string {
    (if fmt then Tabs(depth) else "") + PrintString(key) + Colon(fmt)
  }

  method PutKey(p: PrintBuffer, key: string, depth: nat, fmt: bool)
    requires p.Valid() && CString(key) && p.offset + |KeyText(key, depth, fmt)| + SLACK <= MAX_BUFFER
    modifies p, p.buffer
    ensures p.Valid() && (p.buffer == old(p.buffer) || fresh(p.buffer))
    ensures p.offset == old(p.offset) + |KeyText(key, depth, fmt)|
    ensures p.buffer[..p.offset] == old(p.buffer[..p.offset]) + KeyText(key, depth, fmt)
  {
    hide PrintString, Tabs, Colon;
    ghost var before := p.buffer[..p.offset];
    if fmt {
      PutTabs(p, depth);
    }
    PutName(p, key);
    PutColonTo(p, fmt);
    JoinFour(before, if fmt then Tabs(depth) else "", PrintString(key), Colon(fmt));
    assert before + "" == before;
  }

  lemma EndNoNul(more: bool, fmt: bool)
    ensures '\0' !in MemberEnd(more, fmt)
  {
  }

  /** print_string_ptr and then update. */
  method PutName(p: PrintBuffer, key: string)
    requires p.Valid() && CString(key) && p.offset + |PrintString(key)| + SLACK <= MAX_BUFFER
    modifies p, p.buffer
    ensures p.Valid() && (p.buffer == old(p.buffer) || fresh(p.buffer))
    ensures p.offset == old(p.offset) + |PrintString(key)|
    ensures p.buffer[..p.offset] == old(p.buffer[..p.offset]) + PrintString(key)
  {
    EscapedNoNul(key);
    assert '\0' !in PrintString(key);
    ghost var s := PrintString(key);
    hide PrintString;
    var out := PutString(p, key);
    assert p.buffer[out..out + |s|] == p.buffer[..out + |s|][out..] == s;
    p.offset := p.Update(s);
  }

  /** The colon, without a terminator. */
  method PutColonTo(p: PrintBuffer, fmt: bool)
    requires p.Valid() && p.offset + |Colon(fmt)| <= MAX_BUFFER
    modifies p, p.buffer
    ensures p.Valid() && (p.buffer == old(p.buffer) || fresh(p.buffer))
    ensures p.offset == old(p.offset) + |Colon(fmt)|
    ensures p.buffer[..p.offset] == old(p.buffer[..p.offset]) + Colon(fmt)
  {
    hide Colon;
    var ptr := p.Ensure(ColonLength(fmt));
    assert p.buffer[..ptr] == old(p.buffer[..p.offset]);
    p.offset := PutColon(p.buffer, ptr, fmt);
  }

  function ColonLength(fmt: bool): (n: nat)
    ensures n == |Colon(fmt)|
  {
    if fmt then 2 else 1
  }

  /** cJSON_PrintBuffered: the returned position, in the buffer as it is at the end, is where the
      printed text starts, for every size of the first buffer. */
  method PrintBuffered(item: CJson, prebuffer: nat, fmt: bool, ghost v: Json) returns (p: PrintBuffer, out: nat)
    requires item.Is(v) && Printable(v) && prebuffer > 0 && |Print(v, 0, fmt)| + SLACK <= MAX_BUFFER
    ensures fresh(p) && TextAt(p.buffer, out, Print(v, 0, fmt))
  {
    PrintNoNul(v, 0, fmt);
    hide Print, Printable, CJson.Is, CJson.Holds, CJson.Family, Chain;
    ghost var below := item.Kids() + item.kin.deep;
    p := new PrintBuffer(prebuffer);
    assert (forall c :: c in below ==> !fresh(c)) && item.Is(v);
    out := PutValue(p, item, 0, fmt, v);
    assert p.buffer[0..|Print(v, 0, fmt)|] == p.buffer[..|Print(v, 0, fmt)|];
  }
}

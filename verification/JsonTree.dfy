/** The cJSON node, and the parser that builds trees of linked nodes in place. */
module JsonTree {
  import opened Ascii
  import opened JsonText

  datatype Kind = KFalse | KTrue | KNull | KNumber | KString | KArray | KObject

  /** A node's descent: its children, what is below each of them, every node below it, and those
      below the children. */
  datatype Kin = Kin(kids: seq<CJson>, feet: seq<set<CJson>>, foot: set<CJson>, deep: set<CJson>) {
    ghost function Brood(): set<CJson> {
      set c | c in kids
    }

    /** The subtrees are disjoint from one another and from `self`. */
    ghost predicate Valid(self: CJson) {
      && |feet| == |kids|
      && self !in foot
      && foot == Brood() + deep && Brood() !! deep
      && (forall i :: 0 <= i < |feet| ==> feet[i] <= deep)
      && (forall i, j :: 0 <= i < j < |kids| ==> kids[i] != kids[j])
      && (forall i, j :: 0 <= i < j < |feet| ==> feet[i] !! feet[j])
    }

    ghost function Append(n: CJson): Kin
      reads n
    {
      Kin(kids + [n], feet + [n.kin.foot], foot + {n} + n.kin.foot, deep + n.kin.foot)
    }

    lemma AppendValid(self: CJson, n: CJson)
      requires Valid(self) && n != self && self !in n.kin.foot && n !in n.kin.foot
      requires n !in foot && foot !! n.kin.foot
      ensures Append(n).Valid(self)
    {
      assert Append(n).Brood() == Brood() + {n};
    }
  }

  /** The cJSON struct.  A null `char *` is the empty string.  `kids` is the child list as a
      sequence, `foot` every node below this one and `deep` those below the children. */
  class CJson {
    var next: CJson?
    var prev: CJson?
    var child: CJson?
    var kind: Kind
    var valuestring: string
    var valueint: int
    var name: string
    ghost var kin: Kin

    /** cJSON_New_Item: zeroed memory. */
    constructor ()
      ensures next == null && prev == null && Blank() && name == ""
    {
      next, prev, child := null, null, null;
      kind, valuestring, valueint, name := KFalse, "", 0, "";
      kin := Kin([], [], {}, {});
    }

    ghost predicate Blank()
      reads this
    {
      child == null && kin == Kin([], [], {}, {})
    }

    ghost function Kids(): set<CJson>
      reads this`kin
    {
      kin.Brood()
    }

    /** The ghost descent is right about the children. */
    ghost predicate Family()
      reads this`kin, Kids()`kin
    {
      && kin.Valid(this)
      && forall i :: 0 <= i < |kin.kids| ==>
           && kin.kids[i].kin.foot == kin.feet[i]
           && kin.kids[i].Kids() <= kin.feet[i] && kin.kids[i].kin.deep <= kin.feet[i]
    }

    /** The node's own fields and its children represent `v`, however the children are linked. */
    ghost predicate Holds(v: Json)
      reads this`kind, this`valuestring, this`valueint, this`kin
      reads Kids()`kind, Kids()`child, Kids()`valuestring, Kids()`valueint, Kids()`name, Kids()`kin
      reads kin.deep
      decreases v, 0
    {
      && Family()
      && match v
         case Null => kind == KNull && kin.kids == []
         case False => kind == KFalse && kin.kids == []
         case True => kind == KTrue && kin.kids == []
         case Number(n) => kind == KNumber && valueint == n && kin.kids == []
         case Str(s) => kind == KString && valuestring == s && kin.kids == []
         case Array(items) =>
           kind == KArray && |kin.kids| == |items|
           && forall i :: 0 <= i < |items| ==> kin.kids[i].Is(items[i])
         case Object(members) =>
           kind == KObject && |kin.kids| == |members|
           && forall i :: 0 <= i < |members| ==> kin.kids[i].name == members[i].key && kin.kids[i].Is(members[i].value)
    }

    /** The subtree at this node represents `v`, its child lists being well-formed chains; where
        the node itself hangs is not part of it. */
    ghost predicate Is(v: Json)
      reads this`kind, this`child, this`valuestring, this`valueint, this`kin
      reads Kids(), kin.deep
      decreases v, 1
    {
      Holds(v) && Chain(child, kin.kids)
    }
  }

  /** `cs` is the doubly linked list from `head`: next and prev are mutually inverse, with null
      at both ends. */
  ghost predicate Chain(head: CJson?, cs: seq<CJson>)
    reads (set c | c in cs)`next, (set c | c in cs)`prev
  {
    && head == (if cs == [] then null else cs[0])
    && forall i {:trigger cs[i].next} {:trigger cs[i].prev} :: 0 <= i < |cs| ==>
         && cs[i].prev == (if i == 0 then null else cs[i - 1])
         && cs[i].next == (if i + 1 == |cs| then null else cs[i + 1])
  }

  // ---------------------------------------------------------------- parents and children

  function Count(v: Json): nat
    requires v.Array? || v.Object?
  {
    if v.Array? then |v.items| else |v.members|
  }

  /** The child at an index, as the tree it represents. */
  function At(v: Json, i: nat): Json
    requires (v.Array? || v.Object?) && i < Count(v)
  {
    if v.Array? then v.items[i] else v.members[i].value
  }

  ghost predicate Distinct(ks: seq<CJson>) {
    forall j, k :: 0 <= j < k < |ks| ==> ks[j] != ks[k]
  }

  /** The children represent `v`'s, one by one. */
  ghost predicate Represent(ks: seq<CJson>, v: Json)
    requires v.Array? || v.Object?
    reads ks, set k, c | k in ks && c in k.Kids() :: c, set k, c | k in ks && c in k.kin.deep :: c
  {
    && |ks| == Count(v)
    && forall j :: 0 <= j < |ks| ==> ks[j].Is(At(v, j)) && (v.Object? ==> ks[j].name == v.members[j].key)
  }

  /** The recorded descent of each child is its own. */
  ghost predicate Recorded(ks: seq<CJson>, feet: seq<set<CJson>>)
    requires |ks| == |feet|
    reads (set c | c in ks)`kin
  {
    forall i :: 0 <= i < |ks| ==>
      ks[i].kin.foot == feet[i] && ks[i].Kids() <= feet[i] && ks[i].kin.deep <= feet[i]
  }

  lemma FamilyIff(p: CJson)
    ensures p.Family() <==> p.kin.Valid(p) && Recorded(p.kin.kids, p.kin.feet)
  {
  }

  lemma HoldsIff(p: CJson, v: Json)
    requires v.Array? || v.Object?
    ensures p.Holds(v) <==>
      p.Family() && p.kind == (if v.Array? then KArray else KObject) && Represent(p.kin.kids, v)
  {
  }

  /** Neither the children nor what is below them is `p`: what they represent is not changed by
      changing `p`. */
  ghost predicate Clear(ks: seq<CJson>, p: CJson)
    reads (set c | c in ks)`kin
  {
    forall c <- ks :: c != p && p !in c.Kids() && p !in c.kin.deep
  }

  lemma ClearWith(ks: seq<CJson>, n: CJson, p: CJson, all: seq<CJson>)
    requires Clear(ks, p) && n != p && p !in n.Kids() && p !in n.kin.deep
    requires forall c <- all :: c == n || c in ks
    ensures Clear(all, p)
  {
  }

  lemma IsIff(p: CJson, v: Json)
    ensures p.Is(v) <==> p.Holds(v) && Chain(p.child, p.kin.kids)
  {
  }

  lemma EmptyIs(item: CJson, v: Json)
    requires item.Blank() && ((v == Array([]) && item.kind == KArray) || (v == Object([]) && item.kind == KObject))
    ensures item.Is(v) && item.kin.kids == []
  {
  }

  /** What is below a node that holds something: its children, each once, and what is below them. */
  lemma HoldsFacts(n: CJson, w: Json)
    requires n.Holds(w)
    ensures n.Kids() + n.kin.deep == n.kin.foot && n.Kids() !! n.kin.deep && n !in n.kin.foot && Distinct(n.kin.kids)
    ensures Clear(n.kin.kids, n) && |n.kin.feet| == |n.kin.kids|
    ensures w.Array? || w.Object? ==> |n.kin.kids| == Count(w)
  {
  }

  lemma NodeFacts(n: CJson, w: Json)
    requires n.Is(w)
    ensures n.Holds(w) && Chain(n.child, n.kin.kids)
    ensures n.Kids() + n.kin.deep == n.kin.foot && n.Kids() !! n.kin.deep && n !in n.kin.foot && Distinct(n.kin.kids)
    ensures Clear(n.kin.kids, n) && |n.kin.feet| == |n.kin.kids|
    ensures w.Array? || w.Object? ==> |n.kin.kids| == Count(w)
  {
    HoldsFacts(n, w);
  }

  // ---------------------------------------------------------------- parse_string

  /** parse_string's first loop. */
  method CountLiteral(s: string) returns (len: nat)
    ensures len == LiteralLength(s)
  {
    var ptr := s;
    len := 0;
    while Head(ptr) != '"' && Head(ptr) != '\0'
      invariant len + LiteralLength(ptr) == LiteralLength(s)
      decreases |ptr|
    {
      len := len + 1;
      var c := ptr[0];
      ptr := ptr[1..];
      if c == '\\' {
        ptr := if ptr == [] then [] else ptr[1..];
      }
    }
  }

  const FIRST_BYTE_MARK := [0x00, 0x00, 0xC0, 0xE0, 0xF0]

  lemma SixBits(u: int)
    requires 0 <= u
    ensures u / 0x40 / 0x40 == u / 0x1000 && u / 0x1000 / 0x40 == u / 0x4_0000
  {
  }

  /** The cases of the fall-through switch above the last: bytes written from the last one back.
      `(uc | 0x80) & 0xBF` stored in a char keeps the low six bits under the mark 10. */
  method WriteTail(out: array<char>, at: nat, u: int, len: nat) returns (uc: int)
    requires 0 <= u < 0x11_0000 && 1 <= len <= 4 && at + len <= out.Length
    modifies out
    ensures uc == if len == 4 then u / 0x4_0000 else if len == 3 then u / 0x1000 else if len == 2 then u / 0x40 else u
    ensures len >= 2 ==> out[at + len - 1] == (0x80 + u % 0x40) as char
    ensures len >= 3 ==> out[at + len - 2] == (0x80 + u / 0x40 % 0x40) as char
    ensures len == 4 ==> out[at + len - 3] == (0x80 + u / 0x1000 % 0x40) as char
    ensures forall i :: 0 <= i <= at || at + len <= i < out.Length ==> out[i] == old(out[i])
  {
    SixBits(u);
    uc := u;
    var ptr2 := at + len;
    if len >= 4 {
      ptr2 := ptr2 - 1;
      out[ptr2] := (0x80 + uc % 0x40) as char;
      uc := uc / 0x40;
    }
    if len >= 3 {
      ptr2 := ptr2 - 1;
      out[ptr2] := (0x80 + uc % 0x40) as char;
      uc := uc / 0x40;
    }
    if len >= 2 {
      ptr2 := ptr2 - 1;
      out[ptr2] := (0x80 + uc % 0x40) as char;
      uc := uc / 0x40;
    }
  }

  /** The length of the UTF-8 form, and the switch: `len` bytes written from the last one back to the
      first. */
  method WriteUtf8(out: array<char>, at: nat, u: int) returns (next: nat)
    requires 0 <= u < 0x11_0000
    requires at + |Utf8(u)| <= out.Length
    modifies out
    ensures next == at + |Utf8(u)| && out[at..next] == Utf8(u)
    ensures forall i :: 0 <= i < at || next <= i < out.Length ==> out[i] == old(out[i])
  {
    var len := 4;
    if u < 0x80 { len := 1; } else if u < 0x800 { len := 2; } else if u < 0x1_0000 { len := 3; }
    var uc := WriteTail(out, at, u, len);
    out[at] := (uc + FIRST_BYTE_MARK[len]) as char;
    next := at + len;
    assert forall k :: 0 <= k < len ==> out[at + k] == Utf8(u)[k];
    assert out[at..next] == Utf8(u);
  }

  /** A parse outcome without its value, which is left in the node. */
  function End<T>(r: Outcome<T>): Outcome<()> {
    match r
    case Ok(_, rest) => Ok((), rest)
    case Fail => Fail
    case Unmodelled => Unmodelled
  }

  /** One `\u` escape, from the `u`: `len` is the buffer's size, `k` how far the pointer moves. */
  method Transcode(out: array<char>, len: nat, at: nat, ptr: string) returns (fits: bool, next: nat, k: nat)
    requires at <= len < out.Length
    modifies out
    ensures k == UnicodeEscape(ptr).1
    ensures fits <==> at + |UnicodeEscape(ptr).0| <= len
    ensures fits ==> at <= next <= len && out[..next] == old(out[..at]) + UnicodeEscape(ptr).0
  {
    hide Utf8, Hex4;
    fits, next, k := true, at, 5;
    var uc := Hex4(if |ptr| > 0 then ptr[1..] else []);
    if (0xDC00 <= uc <= 0xDFFF) || uc == 0 {
      return;
    }
    if 0xD800 <= uc <= 0xDBFF {
      if Peek(ptr, 5) != '\\' || Peek(ptr, 6) != 'u' {
        return;
      }
      var uc2 := Hex4(ptr[7..]);
      k := 11;
      if uc2 < 0xDC00 || uc2 > 0xDFFF {
        return;
      }
      uc := Surrogates(uc, uc2);
    }
    fits := at + |Utf8(uc)| <= len;
    if fits {
      next := WriteUtf8(out, at, uc);
      assert out[..next] == out[..at] + out[at..next];
    }
  }

  /** One backslash escape, from the character after the backslash. */
  method WriteEscape(out: array<char>, len: nat, at: nat, ptr: string) returns (fits: bool, next: nat, k: nat)
    requires at <= len < out.Length
    modifies out
    ensures k == Escape(ptr).1
    ensures fits <==> at + |Escape(ptr).0| <= len
    ensures fits ==> at <= next <= len && out[..next] == old(out[..at]) + Escape(ptr).0
  {
    if Head(ptr) == 'u' {
      fits, next, k := Transcode(out, len, at, ptr);
    } else {
      fits, next, k := at < len, at + 1, 1;
      if fits {
        out[at] := match Head(ptr)
          case 'b' => '\U{08}'
          case 'f' => '\U{0C}'
          case 'n' => '\n'
          case 'r' => '\r'
          case 't' => '\t'
          case c => c;
        assert out[..next] == out[..at] + [out[at]];
      }
    }
  }

  /** The scan loop's step, after output `out`. */
  lemma ScanStep(ptr: string, out: string)
    requires Head(ptr) != '"' && Head(ptr) != '\0'
    ensures ptr[0] != '\\' ==> Prepend(out, Unescape(ptr)) == Prepend(out + [ptr[0]], Unescape(ptr[1..]))
    ensures ptr[0] == '\\' ==>
              var (bytes, k) := Escape(ptr[1..]);
              if 1 + k > |ptr| then Unescape(ptr) == Overrun
              else Prepend(out, Unescape(ptr)) == Prepend(out + bytes, Unescape(ptr[1 + k..]))
  {
    if ptr[0] != '\\' {
      PrependTwice(out, [ptr[0]], Unescape(ptr[1..]));
    } else {
      var (bytes, k) := Escape(ptr[1..]);
      if 1 + k <= |ptr| {
        PrependTwice(out, bytes, Unescape(ptr[1 + k..]));
      }
    }
  }

  lemma PrependTwice(a: string, b: string, r: Body)
    ensures Prepend(a, Prepend(b, r)) == Prepend(a + b, r)
    ensures Prepend("", r) == r
  {
    if r.Body? {
      assert a + (b + r.out) == a + b + r.out && "" + r.out == r.out;
    }
  }

  /** What has been written is all of the text, or the text is longer than the buffer. */
  lemma TooLong(a: string, r: Body, len: nat)
    requires |a| > len
    ensures Prepend(a, r).Overrun? || |Prepend(a, r).out| > len
  {
  }

  /** parse_string's second loop; `fits` is false where the C code would write behind the buffer or
      read behind the terminator. */
  method Fill(out: array<char>, len: nat, s: string) returns (fits: bool, ptr2: nat, ptr: string)
    requires out.Length == len + 1
    modifies out
    ensures fits ==> ptr2 <= len && Unescape(s) == Body(out[..ptr2], ptr)
    ensures !fits ==> Unescape(s).Overrun? || |Unescape(s).out| > len
  {
    hide Unescape, Escape;
    fits, ptr2, ptr := true, 0, s;
    PrependTwice("", "", Unescape(ptr));
    assert out[..0] == "";
    while Head(ptr) != '"' && Head(ptr) != '\0'
      invariant 0 <= ptr2 <= len && fits
      invariant Unescape(s) == Prepend(out[..ptr2], Unescape(ptr))
      decreases |ptr|
    {
      ghost var done := out[..ptr2];
      ScanStep(ptr, done);
      if ptr[0] != '\\' {
        if ptr2 >= len {
          TooLong(done + [ptr[0]], Unescape(ptr[1..]), len);
          fits := false;
          return;
        }
        out[ptr2] := ptr[0];
        ptr2 := ptr2 + 1;
        assert out[..ptr2] == done + [ptr[0]];
        ptr := ptr[1..];
      } else {
        ghost var bytes := Escape(ptr[1..]).0;
        var next, k;
        fits, next, k := WriteEscape(out, len, ptr2, ptr[1..]);
        if 1 + k > |ptr| {
          fits := false;
          return;
        }
        if !fits {
          TooLong(done + bytes, Unescape(ptr[1 + k..]), len);
          return;
        }
        ptr2, ptr := next, ptr[1 + k..];
      }
    }
    AtEnd(ptr);
  }

  method ParseString(item: CJson, s: string) returns (r: Outcome<()>)
    modifies item`kind, item`valuestring
    ensures r == End(JsonText.ParseString(s))
    ensures r.Ok? ==> item.kind == KString && item.valuestring == JsonText.ParseString(s).value
  {
    hide Unescape, LiteralLength;
    if Head(s) != '"' {
      return Fail;
    }
    var len := CountLiteral(s[1..]);
    var out := new char[len + 1];
    var fits, ptr2, ptr := Fill(out, len, s[1..]);
    if !fits {
      return Unmodelled;
    }
    out[ptr2] := '\0';
    if Head(ptr) == '"' {
      ptr := ptr[1..];
    }
    item.valuestring := out[..ptr2];
    item.kind := KString;
    r := Ok((), ptr);
  }

  lemma AtEnd(ptr: string)
    requires Head(ptr) == '"' || Head(ptr) == '\0'
    ensures forall out :: Prepend(out, Unescape(ptr)) == Body(out, ptr)
  {
    forall out
      ensures Prepend(out, Unescape(ptr)) == Body(out, ptr)
    {
      assert out + "" == out;
    }
  }

  // ---------------------------------------------------------------- parse_number

  method ParseNumber(item: CJson, num: string) returns (r: Outcome<()>)
    requires Head(num) == '-' || IsDigit(Head(num))
    modifies item`kind, item`valueint
    ensures r == End(JsonText.ParseNumber(num))
    ensures r.Ok? ==> item.kind == KNumber && Number(item.valueint) == JsonText.ParseNumber(num).value
  {
    var s, n, sign := num, 0, 1;
    if Head(s) == '-' {
      sign, s := -1, s[1..];
    }
    if Head(s) == '0' {
      s := s[1..];
    }
    if '1' <= Head(s) <= '9' {
      ghost var s2 := s;
      while IsDigit(Head(s))
        invariant Digits(s2, 0) == Digits(s, n)
        decreases |s|
      {
        n, s := n * 10 + (s[0] as int - '0' as int), s[1..];
      }
    }
    if (Head(s) == '.' && IsDigit(Peek(s, 1))) || Head(s) == 'e' || Head(s) == 'E' {
      return Unmodelled;
    }
    if !(INT_MIN <= sign * n <= INT_MAX) {
      return Unmodelled;
    }
    item.valueint := sign * n;
    item.kind := KNumber;
    r := Ok((), s);
  }

  // ---------------------------------------------------------------- parse_value

  method SkipSpace(s: string) returns (r: string)
    ensures r == Skip(s)
  {
    r := s;
    while IsSpace(Head(r))
      invariant Skip(r) == Skip(s)
      decreases |r|
    {
      r := r[1..];
    }
  }

  /** What remains of a comma-separated list, from the skipped text after the values `vs`. */
  ghost function ItemsLeft(vs: seq<Json>, t: string): Outcome<seq<Json>> {
    if Head(t) != ',' then Ok(vs, t)
    else
      match ParseItems(t[1..])
      case Ok(ws, rest) => Ok(vs + ws, rest)
      case Fail => Fail
      case Unmodelled => Unmodelled
  }

  lemma ItemsLeftStep(vs: seq<Json>, t: string)
    requires Head(t) == ','
    ensures var r := JsonText.ParseValue(Skip(t[1..]));
            && (r.Ok? ==> ItemsLeft(vs, t) == ItemsLeft(vs + [r.value], Skip(r.rest)))
            && (r.Fail? ==> ItemsLeft(vs, t) == Fail)
            && (r.Unmodelled? ==> ItemsLeft(vs, t) == Unmodelled)
  {
    var r := JsonText.ParseValue(Skip(t[1..]));
    if r.Ok? && Head(Skip(r.rest)) == ',' {
      var next := ParseItems(Skip(r.rest)[1..]);
      if next.Ok? {
        assert vs + ([r.value] + next.value) == vs + [r.value] + next.value;
      }
    }
  }

  lemma ItemsLeftStart(t: string)
    ensures var r := JsonText.ParseValue(Skip(t));
            && (r.Ok? ==> ParseItems(t) == ItemsLeft([r.value], Skip(r.rest)))
            && (r.Fail? ==> ParseItems(t) == Fail)
            && (r.Unmodelled? ==> ParseItems(t) == Unmodelled)
  {
  }

  /** `v` with one more child of the given name. */
  function Extend(v: Json, key: string, w: Json): Json
    requires v.Array? || v.Object?
  {
    match v
    case Array(items) => Array(items + [w])
    case Object(members) => Object(members + [Member(key, w)])
  }

  /** suffix_object: hangs `n` after the last child. */
  method SuffixObject(item: CJson, last: CJson, n: CJson, ghost v: Json)
    requires item.Is(v) && item.kin.kids != [] && last == item.kin.kids[|item.kin.kids| - 1]
    requires n.next == null && n != item && n !in item.kin.foot
    modifies last`next, n`prev
    ensures item.Holds(v) && Chain(item.child, item.kin.kids + [n])
  {
    hide CJson.Is, CJson.Holds, CJson.Family;
    ghost var ks := item.kin.kids;
    NodeFacts(item, v);
    assert n !in ks && last in ks;
    last.next := n;
    n.prev := last;
    assert Chain(item.child, ks + [n]);
  }

  /** Allocates a node and links it after the last child. */
  method LinkNew(item: CJson, last: CJson, ghost v: Json) returns (n: CJson)
    requires item.Is(v) && item.kin.kids != [] && last == item.kin.kids[|item.kin.kids| - 1]
    modifies last`next
    ensures fresh(n) && n.Blank() && n.name == "" && n !in item.Kids() + item.kin.deep + item.kin.foot
    ensures item.Holds(v) && Chain(item.child, item.kin.kids + [n])
  {
    n := new CJson();
    SuffixObject(item, last, n, v);
  }

  /** Takes the last linked node into the ghost list of children. */
  ghost method Adopt(item: CJson, n: CJson, v: Json, w: Json)
    requires v.Array? || v.Object?
    requires item.Holds(v) && n.Is(w) && n !in n.kin.foot && Chain(item.child, item.kin.kids + [n])
    requires n != item && item !in n.kin.foot && n !in item.kin.foot && item.kin.foot !! n.kin.foot
    modifies item`kin
    ensures item.kin == old(item.kin.Append(n))
    ensures item.Is(Extend(v, n.name, w))
  {
    hide CJson.Is, CJson.Holds, CJson.Family, Chain, Represent, Recorded, Kin.Valid;
    NodeFacts(n, w);
    HoldsFacts(item, v);
    HoldsIff(item, v);
    FamilyIff(item);
    ghost var k := item.kin;
    k.AppendValid(item, n);
    AppendKids(k, n, v, w);
    ClearWith(k.kids, n, item, k.kids + [n]);
    item.kin := k.Append(n);
    FamilyIff(item);
    HoldsIff(item, Extend(v, n.name, w));
    IsIff(item, Extend(v, n.name, w));
  }

  lemma AppendKids(k: Kin, n: CJson, v: Json, w: Json)
    requires (v.Array? || v.Object?) && |k.kids| == |k.feet| && Recorded(k.kids, k.feet) && Represent(k.kids, v)
    requires n.Is(w) && n.Kids() <= n.kin.foot && n.kin.deep <= n.kin.foot
    ensures Recorded(k.kids + [n], k.feet + [n.kin.foot])
    ensures Represent(k.kids + [n], Extend(v, n.name, w))
  {
    var ks, v' := k.kids + [n], Extend(v, n.name, w);
    hide CJson.Is;
    forall j | 0 <= j < |ks|
      ensures ks[j].Is(At(v', j)) && (v.Object? ==> ks[j].name == v'.members[j].key)
    {
      if j < |k.kids| {
        assert ks[j] == k.kids[j] && At(v', j) == At(v, j);
      }
    }
  }

  method ParseValue(item: CJson, s: string) returns (r: Outcome<()>)
    requires item.Blank()
    modifies item`kind, item`child, item`valuestring, item`valueint, item`kin
    ensures r == End(JsonText.ParseValue(s))
    ensures r.Ok? ==> item.Is(JsonText.ParseValue(s).value) && fresh(item.kin.foot)
    decreases |s|, 1
  {
    if StartsWith(s, "null") {
      item.kind := KNull;
      return Ok((), s[4..]);
    }
    if StartsWith(s, "false") {
      item.kind := KFalse;
      return Ok((), s[5..]);
    }
    if StartsWith(s, "true") {
      item.kind := KTrue;
      item.valueint := 1;
      return Ok((), s[4..]);
    }
    if Head(s) == '"' {
      r := ParseString(item, s);
      return;
    }
    if Head(s) == '-' || IsDigit(Head(s)) {
      r := ParseNumber(item, s);
      return;
    }
    if Head(s) == '[' {
      r := ParseArray(item, s);
      return;
    }
    if Head(s) == '{' {
      r := ParseObject(item, s);
      return;
    }
    return Fail;
  }

  /** One round of the array loop, at the pointer after the comma. */
  method NextItem(item: CJson, last: CJson, s: string, ghost vs: seq<Json>) returns (child: CJson, e: Outcome<()>)
    requires item.Is(Array(vs)) && item.kin.kids != [] && last == item.kin.kids[|item.kin.kids| - 1]
    modifies last`next, item`kin
    ensures e == End(JsonText.ParseValue(s))
    ensures e.Ok? ==> item.Is(Array(vs + [JsonText.ParseValue(s).value]))
    ensures e.Ok? ==> fresh(item.kin.foot - old(item.kin.foot)) && fresh(child)
    ensures e.Ok? ==> item.kin.kids == old(item.kin.kids) + [child]
    decreases |s|, 2
  {
    hide CJson.Is, CJson.Holds, CJson.Family, Chain, JsonText.ParseValue;
    child := LinkNew(item, last, Array(vs));
    e := ParseValue(child, s);
    if e.Ok? {
      Adopt(item, child, Array(vs), JsonText.ParseValue(s).value);
    }
  }

  /** A new node as the only child of an empty array or object. */
  method LinkFirst(item: CJson, ghost v: Json) returns (child: CJson)
    requires (v == Array([]) || v == Object([])) && item.Is(v)
    modifies item`child
    ensures fresh(child) && child.Blank() && child.name == ""
    ensures item.Holds(v) && Chain(item.child, item.kin.kids + [child])
  {
    child := new CJson();
    item.child := child;
    assert item.kin.kids + [child] == [child];
  }

  /** The first element, into a node linked as the only child. */
  method FirstItem(item: CJson, s: string) returns (child: CJson, e: Outcome<()>)
    requires item.Is(Array([]))
    modifies item`child, item`kin
    ensures e == End(JsonText.ParseValue(s))
    ensures e.Ok? ==> item.Is(Array([JsonText.ParseValue(s).value])) && item.kin.kids == [child]
    ensures e.Ok? ==> fresh(item.kin.foot - old(item.kin.foot)) && fresh(child)
    decreases |s|, 2
  {
    hide CJson.Is, CJson.Holds, CJson.Family, Chain, JsonText.ParseValue;
    NodeFacts(item, Array([]));
    child := LinkFirst(item, Array([]));
    e := ParseValue(child, s);
    if e.Ok? {
      ghost var v := JsonText.ParseValue(s).value;
      Adopt(item, child, Array([]), v);
      assert Extend(Array([]), child.name, v) == Array([v]);
    }
  }

  /** parse_array's returns before the loop. */
  lemma ArrayBegins(s: string)
    requires Head(s) == '['
    ensures var t := Skip(s[1..]);
            var r := JsonText.ParseArray(s);
            && |t| < |s|
            && (Head(t) == ']' ==> r == Ok(Array([]), t[1..]))
            && (Head(t) != ']' && ParseItems(t).Fail? ==> r == Fail)
            && (Head(t) != ']' && ParseItems(t).Unmodelled? ==> r == Unmodelled)
  {
  }

  /** parse_array's returns after the loop. */
  lemma ArrayEnds(s: string, vs: seq<Json>, value: string)
    requires Head(s) == '[' && Head(Skip(s[1..])) != ']'
    requires ParseItems(Skip(s[1..])) == ItemsLeft(vs, value) && Head(value) != ','
    ensures JsonText.ParseArray(s) == if Head(value) == ']' then Ok(Array(vs), value[1..]) else Fail
  {
  }

  method ParseArray(item: CJson, s: string) returns (r: Outcome<()>)
    requires item.Blank() && Head(s) == '['
    modifies item`kind, item`child, item`kin
    ensures r == End(JsonText.ParseArray(s))
    ensures r.Ok? ==> item.Is(JsonText.ParseArray(s).value) && fresh(item.kin.foot)
    decreases |s|, 0
  {
    hide CJson.Is, CJson.Holds, CJson.Family, Chain, JsonText.ParseArray, JsonText.ParseValue;
    hide ParseItems, ItemsLeft, Skip;
    ArrayBegins(s);
    item.kind := KArray;
    EmptyIs(item, Array([]));
    var value := Skip(s[1..]);
    if Head(value) == ']' {
      return Ok((), value[1..]);
    }
    ghost var t := value;
    var child, e := FirstItem(item, Skip(value));
    ItemsLeftStart(t);
    if !e.Ok? {
      return e;
    }
    ghost var vs := [JsonText.ParseValue(Skip(t)).value];
    value := Skip(e.rest);
    while Head(value) == ','
      invariant |value| < |s|
      invariant ParseItems(t) == ItemsLeft(vs, value)
      invariant item.Is(Array(vs)) && fresh(item.kin.foot)
      invariant item.kin.kids != [] && child == item.kin.kids[|item.kin.kids| - 1] && fresh(child)
      decreases |value|
    {
      ItemsLeftStep(vs, value);
      child, e := NextItem(item, child, Skip(value[1..]), vs);
      if !e.Ok? {
        return e;
      }
      vs := vs + [JsonText.ParseValue(Skip(value[1..])).value];
      value := Skip(e.rest);
    }
    ArrayEnds(s, vs, value);
    r := if Head(value) == ']' then Ok((), value[1..]) else Fail;
  }

  // ---------------------------------------------------------------- parse_object

  /** What remains of an object's members, from the skipped text after the members `ms`. */
  ghost function MembersLeft(ms: seq<Member>, t: string): Outcome<seq<Member>> {
    if Head(t) != ',' then Ok(ms, t)
    else
      match ParseMembers(t[1..])
      case Ok(ws, rest) => Ok(ms + ws, rest)
      case Fail => Fail
      case Unmodelled => Unmodelled
  }

  lemma MembersLeftStep(ms: seq<Member>, t: string)
    requires Head(t) == ','
    ensures var r := JsonText.ParseMember(t[1..]);
            && (r.Ok? ==> MembersLeft(ms, t) == MembersLeft(ms + [r.value], r.rest))
            && (r.Fail? ==> MembersLeft(ms, t) == Fail)
            && (r.Unmodelled? ==> MembersLeft(ms, t) == Unmodelled)
  {
    var r := JsonText.ParseMember(t[1..]);
    if r.Ok? && Head(r.rest) == ',' {
      var next := ParseMembers(r.rest[1..]);
      if next.Ok? {
        assert ms + ([r.value] + next.value) == ms + [r.value] + next.value;
      }
    }
  }

  lemma MembersLeftStart(t: string)
    ensures var r := JsonText.ParseMember(t);
            && (r.Ok? ==> ParseMembers(t) == MembersLeft([r.value], r.rest))
            && (r.Fail? ==> ParseMembers(t) == Fail)
            && (r.Unmodelled? ==> ParseMembers(t) == Unmodelled)
  {
  }

  /** A member's key, colon and value: the key is parsed as the node's string, then moved. */
  method ParseMember(child: CJson, s: string) returns (r: Outcome<()>)
    requires child.Blank()
    modifies child`kind, child`child, child`valuestring, child`valueint, child`name, child`kin
    ensures r == End(JsonText.ParseMember(s))
    ensures r.Ok? ==> child.Is(JsonText.ParseMember(s).value.value) && fresh(child.kin.foot)
    ensures r.Ok? ==> child.name == JsonText.ParseMember(s).value.key
    decreases |s|, 2
  {
    var k := ParseString(child, Skip(s));
    if !k.Ok? {
      return k;
    }
    var value := Skip(k.rest);
    child.name := child.valuestring;
    child.valuestring := "";
    if Head(value) != ':' {
      return Fail;
    }
    var e := ParseValue(child, Skip(value[1..]));
    if !e.Ok? {
      return e;
    }
    r := Ok((), Skip(e.rest));
  }

  /** The first member, into a node linked as the only child. */
  method FirstMember(item: CJson, s: string) returns (child: CJson, e: Outcome<()>)
    requires item.Is(Object([]))
    modifies item`child, item`kin
    ensures e == End(JsonText.ParseMember(s))
    ensures e.Ok? ==> item.Is(Object([JsonText.ParseMember(s).value])) && item.kin.kids == [child]
    ensures e.Ok? ==> fresh(item.kin.foot - old(item.kin.foot)) && fresh(child)
    decreases |s|, 3
  {
    hide CJson.Is, CJson.Holds, CJson.Family, Chain, JsonText.ParseMember;
    NodeFacts(item, Object([]));
    child := LinkFirst(item, Object([]));
    e := ParseMember(child, s);
    if e.Ok? {
      ghost var m := JsonText.ParseMember(s).value;
      Adopt(item, child, Object([]), m.value);
      assert Extend(Object([]), child.name, m.value) == Object([m]);
    }
  }

  /** One round of the object loop, at the pointer after the comma. */
  method NextMember(item: CJson, last: CJson, s: string, ghost ms: seq<Member>) returns (child: CJson, e: Outcome<()>)
    requires item.Is(Object(ms)) && item.kin.kids != [] && last == item.kin.kids[|item.kin.kids| - 1]
    modifies last`next, item`kin
    ensures e == End(JsonText.ParseMember(s))
    ensures e.Ok? ==> item.Is(Object(ms + [JsonText.ParseMember(s).value]))
    ensures e.Ok? ==> fresh(item.kin.foot - old(item.kin.foot)) && fresh(child)
    ensures e.Ok? ==> item.kin.kids == old(item.kin.kids) + [child]
    decreases |s|, 3
  {
    hide CJson.Is, CJson.Holds, CJson.Family, Chain, JsonText.ParseMember;
    child := LinkNew(item, last, Object(ms));
    e := ParseMember(child, s);
    if e.Ok? {
      ghost var m := JsonText.ParseMember(s).value;
      Adopt(item, child, Object(ms), m.value);
      assert Extend(Object(ms), child.name, m.value) == Object(ms + [m]);
    }
  }

  /** parse_object's returns before the loop. */
  lemma ObjectBegins(s: string)
    requires Head(s) == '{'
    ensures var t := Skip(s[1..]);
            var r := JsonText.ParseObject(s);
            && |t| < |s|
            && (Head(t) == '}' ==> r == Ok(Object([]), t[1..]))
            && (Head(t) != '}' && ParseMembers(t).Fail? ==> r == Fail)
            && (Head(t) != '}' && ParseMembers(t).Unmodelled? ==> r == Unmodelled)
  {
  }

  /** parse_object's returns after the loop. */
  lemma ObjectEnds(s: string, ms: seq<Member>, value: string)
    requires Head(s) == '{' && Head(Skip(s[1..])) != '}'
    requires ParseMembers(Skip(s[1..])) == MembersLeft(ms, value) && Head(value) != ','
    ensures JsonText.ParseObject(s) == if Head(value) == '}' then Ok(Object(ms), value[1..]) else Fail
  {
  }

  method ParseObject(item: CJson, s: string) returns (r: Outcome<()>)
    requires item.Blank() && Head(s) == '{'
    modifies item`kind, item`child, item`kin
    ensures r == End(JsonText.ParseObject(s))
    ensures r.Ok? ==> item.Is(JsonText.ParseObject(s).value) && fresh(item.kin.foot)
    decreases |s|, 0
  {
    hide CJson.Is, CJson.Holds, CJson.Family, Chain, JsonText.ParseObject, JsonText.ParseMember, ParseMembers,
      MembersLeft, Skip;
    ObjectBegins(s);
    item.kind := KObject;
    EmptyIs(item, Object([]));
    var value := Skip(s[1..]);
    if Head(value) == '}' {
      return Ok((), value[1..]);
    }
    ghost var t := value;
    var child, e := FirstMember(item, value);
    MembersLeftStart(t);
    if !e.Ok? {
      return e;
    }
    ghost var ms;
    e, ms := MoreMembers(item, child, e.rest, [JsonText.ParseMember(t).value]);
    if !e.Ok? {
      return e;
    }
    ObjectEnds(s, ms, e.rest);
    r := if Head(e.rest) == '}' then Ok((), e.rest[1..]) else Fail;
  }

  /** The object loop, from behind the first member on. */
  method MoreMembers(item: CJson, first: CJson, s: string, ghost ms: seq<Member>)
    returns (r: Outcome<()>, ghost all: seq<Member>)
    requires item.Is(Object(ms)) && item.kin.kids == [first]
    modifies first`next, item`kin
    ensures r.Ok? ==> item.Is(Object(all)) && fresh(item.kin.foot - old(item.kin.foot))
    ensures r.Ok? ==> MembersLeft(ms, s) == MembersLeft(all, r.rest) && Head(r.rest) != ','
    ensures !r.Ok? ==> MembersLeft(ms, s) == if r.Fail? then Fail else Unmodelled
    decreases |s|, 4
  {
    hide CJson.Is, CJson.Holds, CJson.Family, Chain, JsonText.ParseMember, ParseMembers, MembersLeft;
    var child, value := first, s;
    all := ms;
    while Head(value) == ','
      invariant |value| <= |s| && MembersLeft(ms, s) == MembersLeft(all, value)
      invariant item.Is(Object(all)) && fresh(item.kin.foot - old(item.kin.foot))
      invariant item.kin.kids != [] && child == item.kin.kids[|item.kin.kids| - 1] && (child == first || fresh(child))
      decreases |value|
    {
      MembersLeftStep(all, value);
      var e;
      child, e := NextMember(item, child, value[1..], all);
      if !e.Ok? {
        return e, all;
      }
      all := all + [JsonText.ParseMember(value[1..]).value];
      value := e.rest;
    }
    r := Ok((), value);
  }

  /** cJSON_ParseWithOpts. */
  method Parse(text: string, requireNull: bool) returns (item: CJson?)
    ensures (item != null) == JsonText.Parse(text, requireNull).Ok?
    ensures item != null ==> fresh(item) && fresh(item.kin.foot) && item.next == null && item.prev == null
    ensures item != null ==> item.Is(JsonText.Parse(text, requireNull).value)
  {
    item := new CJson();
    var end := ParseValue(item, Skip(text));
    if !end.Ok? {
      return null;
    }
    if requireNull {
      if Head(Skip(end.rest)) != '\0' {
        return null;
      }
    }
  }
}

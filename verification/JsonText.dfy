/** The JSON dialect of cJSON.c: the value trees it builds, the texts its printers define and
    the texts its parser accepts.  A `const char *` into NUL-terminated text is the string from
    the pointer to the terminator, so advancing the pointer drops a prefix. */
module JsonText {
  import opened Ascii

  datatype Member = Member(key: string, value: Json)

  datatype Json =
    | Null
    | False
    | True
    | Number(n: int)
    | Str(s: string)
    | Array(items: seq<Json>)
    | Object(members: seq<Member>)

  /** What a parsing step does.  `Unmodelled` is where the model stops: the C code would touch
      memory outside its buffers, or the number is not a C `int`. */
  datatype Outcome<+T> = Ok(value: T, rest: string) | Fail | Unmodelled {
    predicate IsFailure() {
      !Ok?
    }

    function PropagateFailure<U>(): Outcome<U>
      requires !Ok?
    {
      if Fail? then Fail else Unmodelled
    }

    function Extract(): (T, string)
      requires Ok?
    {
      (value, rest)
    }
  }

  const INT_MIN := -0x8000_0000
  const INT_MAX := 0x7fff_ffff

  /** The trees whose numbers are C ints and whose strings are NUL-free. */
  predicate Printable(v: Json) {
    match v
    case Null => true
    case False => true
    case True => true
    case Number(n) => INT_MIN <= n <= INT_MAX
    case Str(s) => CString(s)
    case Array(items) => forall i :: 0 <= i < |items| ==> Printable(items[i])
    case Object(members) =>
      forall i :: 0 <= i < |members| ==> CString(members[i].key) && Printable(members[i].value)
  }

  // ---------------------------------------------------------------- reading through a pointer

  /** `*p`: the terminator once the text is used up. */
  function Head(s: string): char {
    if s == [] then '\0' else s[0]
  }

  /** `p[k]`. */
  function Peek(s: string, k: nat): char {
    if k < |s| then s[k] else '\0'
  }

  predicate IsSpace(c: char) {
    '\0' < c <= ' '
  }

  function Skip(s: string): (r: string)
    ensures |r| <= |s|
    ensures !IsSpace(Head(r))
  {
    if IsSpace(Head(s)) then Skip(s[1..]) else s
  }

  // ---------------------------------------------------------------- string literals

  predicate FourHex(s: string) {
    |s| >= 4 && forall i :: 0 <= i < 4 ==> HexDigit(s[i]) >= 0
  }

  /** parse_hex4: 0 unless four hex digits follow. */
  function Hex4(s: string): (h: int)
    ensures 0 <= h < 0x1_0000
  {
    if FourHex(s) then
      ((HexDigit(s[0]) * 16 + HexDigit(s[1])) * 16 + HexDigit(s[2])) * 16 + HexDigit(s[3])
    else 0
  }

  /** The UTF-8 form of a scalar value, section 3 of RFC 3629. */
  function Utf8(u: int): (bytes: string)
    requires 0 <= u < 0x11_0000
    ensures 1 <= |bytes| <= 4
  {
    if u < 0x80 then [u as char]
    else if u < 0x800 then [(0xC0 + u / 0x40) as char, (0x80 + u % 0x40) as char]
    else if u < 0x1_0000 then
      [(0xE0 + u / 0x1000) as char, (0x80 + u / 0x40 % 0x40) as char, (0x80 + u % 0x40) as char]
    else
      [(0xF0 + u / 0x4_0000) as char, (0x80 + u / 0x1000 % 0x40) as char,
       (0x80 + u / 0x40 % 0x40) as char, (0x80 + u % 0x40) as char]
  }

  /** The scalar value of a surrogate pair. */
  function Surrogates(hi: int, lo: int): (u: int)
    requires 0xD800 <= hi <= 0xDBFF && 0xDC00 <= lo <= 0xDFFF
    ensures 0x1_0000 <= u < 0x11_0000
  {
    0x1_0000 + hi % 0x400 * 0x400 + lo % 0x400
  }

  /** A `\u` escape, read from the `u`: the bytes it contributes and how far the pointer moves. */
  function UnicodeEscape(s: string): (r: (string, nat))
    ensures r.1 == 5 || r.1 == 11
    ensures |r.0| <= r.1 - 1
  {
    var uc := Hex4(if |s| > 0 then s[1..] else []);
    if 0xDC00 <= uc <= 0xDFFF || uc == 0 then ("", 5)
    else if 0xD800 <= uc <= 0xDBFF then
      if Peek(s, 5) != '\\' || Peek(s, 6) != 'u' then ("", 5)
      else
        var uc2 := Hex4(s[7..]);
        if uc2 < 0xDC00 || uc2 > 0xDFFF then ("", 11) else (Utf8(Surrogates(uc, uc2)), 11)
    else (Utf8(uc), 5)
  }

  /** What one escape contributes, read from the character after the backslash. */
  function Escape(s: string): (r: (string, nat))
    ensures r.1 >= 1
  {
    match Head(s)
    case 'b' => ("\U{08}", 1)
    case 'f' => ("\U{0C}", 1)
    case 'n' => ("\n", 1)
    case 'r' => ("\r", 1)
    case 't' => ("\t", 1)
    case 'u' => UnicodeEscape(s)
    case c => ([c], 1)
  }

  /** The bytes of a literal's body up to the closing quote (or the terminator), and the pointer
      there; `Overrun` when an escape is cut short and the pointer passes the terminator. */
  datatype Body = Body(out: string, rest: string) | Overrun

  function Prepend(bytes: string, b: Body): Body {
    match b
    case Body(out, rest) => Body(bytes + out, rest)
    case Overrun => Overrun
  }

  function Unescape(s: string): (b: Body)
    ensures b.Body? ==> |b.rest| <= |s|
  {
    if Head(s) == '"' || Head(s) == '\0' then Body("", s)
    else if s[0] != '\\' then Prepend([s[0]], Unescape(s[1..]))
    else
      var (bytes, k) := Escape(s[1..]);
      if 1 + k > |s| then Overrun else Prepend(bytes, Unescape(s[1 + k..]))
  }

  /** parse_string's first pass: the count its buffer is sized by, one per step, an escape
      stepping over two characters. */
  function LiteralLength(s: string): nat
    decreases |s|
  {
    if Head(s) == '"' || Head(s) == '\0' then 0
    else if s[0] != '\\' then 1 + LiteralLength(s[1..])
    else 1 + LiteralLength(if |s| >= 2 then s[2..] else [])
  }

  function ParseString(s: string): (r: Outcome<string>)
    ensures r.Ok? ==> |r.rest| < |s|
  {
    if Head(s) != '"' then Fail
    else
      match Unescape(s[1..])
      case Overrun => Unmodelled
      case Body(out, rest) =>
        if |out| > LiteralLength(s[1..]) then Unmodelled
        else Ok(out, if Head(rest) == '"' then rest[1..] else rest)
  }

  // ---------------------------------------------------------------- numbers

  function Digits(s: string, n: int): (r: (int, string))
    ensures |r.1| <= |s|
  {
    if IsDigit(Head(s)) then Digits(s[1..], n * 10 + (s[0] as int - '0' as int)) else (n, s)
  }

  function ParseNumber(s: string): (r: Outcome<Json>)
    requires Head(s) == '-' || IsDigit(Head(s))
    ensures r.Ok? ==> |r.rest| < |s|
  {
    var s1 := if Head(s) == '-' then s[1..] else s;
    var s2 := if Head(s1) == '0' then s1[1..] else s1;
    var (n, s3) := if '1' <= Head(s2) <= '9' then Digits(s2, 0) else (0, s2);
    var v := if Head(s) == '-' then -n else n;
    if (Head(s3) == '.' && IsDigit(Peek(s3, 1))) || Head(s3) == 'e' || Head(s3) == 'E' then Unmodelled
    else if INT_MIN <= v <= INT_MAX then Ok(Number(v), s3)
    else Unmodelled
  }

  // ---------------------------------------------------------------- values

  predicate StartsWith(s: string, p: string) {
    p <= s
  }

  function ParseValue(s: string): (r: Outcome<Json>)
    ensures r.Ok? ==> |r.rest| < |s|
    decreases |s|, 1
  {
    if StartsWith(s, "null") then Ok(Null, s[4..])
    else if StartsWith(s, "false") then Ok(False, s[5..])
    else if StartsWith(s, "true") then Ok(True, s[4..])
    else if Head(s) == '"' then
      var (str, rest) :- ParseString(s);
      Ok(Str(str), rest)
    else if Head(s) == '-' || IsDigit(Head(s)) then ParseNumber(s)
    else if Head(s) == '[' then ParseArray(s)
    else if Head(s) == '{' then ParseObject(s)
    else Fail
  }

  function ParseArray(s: string): (r: Outcome<Json>)
    requires Head(s) == '['
    ensures r.Ok? ==> |r.rest| < |s|
    decreases |s|, 0
  {
    var t := Skip(s[1..]);
    if Head(t) == ']' then Ok(Array([]), t[1..])
    else
      var (items, rest) :- ParseItems(t);
      if Head(rest) == ']' then Ok(Array(items), rest[1..]) else Fail
  }

  function ParseObject(s: string): (r: Outcome<Json>)
    requires Head(s) == '{'
    ensures r.Ok? ==> |r.rest| < |s|
    decreases |s|, 0
  {
    var t := Skip(s[1..]);
    if Head(t) == '}' then Ok(Object([]), t[1..])
    else
      var (members, rest) :- ParseMembers(t);
      if Head(rest) == '}' then Ok(Object(members), rest[1..]) else Fail
  }

  /** One value and, after each comma, another; stops at whatever follows. */
  function ParseItems(s: string): (r: Outcome<seq<Json>>)
    ensures r.Ok? ==> |r.rest| < |s|
    decreases |s|, 2
  {
    var (v, rest) :- ParseValue(Skip(s));
    var t := Skip(rest);
    if Head(t) != ',' then Ok([v], t)
    else
      var (vs, last) :- ParseItems(t[1..]);
      Ok([v] + vs, last)
  }

  function ParseMember(s: string): (r: Outcome<Member>)
    ensures r.Ok? ==> |r.rest| < |s|
    decreases |s|, 2
  {
    var (key, rest) :- ParseString(Skip(s));
    var t := Skip(rest);
    if Head(t) != ':' then Fail
    else
      var (v, last) :- ParseValue(Skip(t[1..]));
      Ok(Member(key, v), Skip(last))
  }

  function ParseMembers(s: string): (r: Outcome<seq<Member>>)
    ensures r.Ok? ==> |r.rest| < |s|
    decreases |s|, 3
  {
    var (m, t) :- ParseMember(s);
    if Head(t) != ',' then Ok([m], t)
    else
      var (ms, last) :- ParseMembers(t[1..]);
      Ok([m] + ms, last)
  }

  /** cJSON_ParseWithOpts; cJSON_Parse is the form that does not require the terminator. */
  function Parse(text: string, requireNull: bool): (r: Outcome<Json>) {
    var (v, rest) :- ParseValue(Skip(text));
    if !requireNull then Ok(v, rest)
    else if Head(Skip(rest)) == '\0' then Ok(v, Skip(rest))
    else Fail
  }

  // ---------------------------------------------------------------- printing

  predicate NeedsEscape(c: char) {
    c < ' ' || c == '"' || c == '\\'
  }

  function EscapeChar(c: char): (e: string)
    ensures 1 <= |e| <= 6
  {
    if !NeedsEscape(c) then [c]
    else
      match c
      case '\\' => "\\\\"
      case '"' => "\\\""
      case '\U{08}' => "\\b"
      case '\U{0C}' => "\\f"
      case '\n' => "\\n"
      case '\r' => "\\r"
      case '\t' => "\\t"
      case _ => "\\u00" + [HEX[c as int / 16], HEX[c as int % 16]]
  }

  function Escaped(s: string): string {
    if s == [] then "" else EscapeChar(s[0]) + Escaped(s[1..])
  }

  function PrintString(s: string): string {
    "\"" + Escaped(s) + "\""
  }

  function PrintNumber(n: int): string {
    if n < 0 then "-" + Decimal(-n) else Decimal(n)
  }

  function Tabs(n: nat): (t: string)
    ensures |t| == n
    ensures forall i :: 0 <= i < n ==> t[i] == '\t'
  {
    seq(n, _ => '\t')
  }

  function Print(v: Json, depth: nat, fmt: bool): string
    decreases v, 2
  {
    match v
    case Null => "null"
    case False => "false"
    case True => "true"
    case Number(n) => PrintNumber(n)
    case Str(s) => PrintString(s)
    case Array(items) => "[" + PrintItems(items, depth + 1, fmt) + "]"
    case Object(members) =>
      if members == [] then "{" + (if fmt then "\n" + Tabs(if depth > 0 then depth - 1 else 0) else "") + "}"
      else
        "{" + (if fmt then "\n" else "") + PrintMembers(members, depth + 1, fmt)
        + (if fmt then Tabs(depth) else "") + "}"
  }

  function Comma(more: bool, fmt: bool): string {
    if !more then "" else if fmt then ", " else ","
  }

  function PrintItems(items: seq<Json>, depth: nat, fmt: bool): string
    decreases items, 1
  {
    if items == [] then ""
    else Print(items[0], depth, fmt) + Comma(|items| > 1, fmt) + PrintItems(items[1..], depth, fmt)
  }

  function PrintMember(m: Member, depth: nat, fmt: bool): string
    decreases m, 3
  {
    (if fmt then Tabs(depth) else "") + PrintString(m.key) + (if fmt then ":\t" else ":")
    + Print(m.value, depth, fmt)
  }

  function MemberEnd(more: bool, fmt: bool): string {
    (if more then "," else "") + (if fmt then "\n" else "")
  }

  function PrintMembers(members: seq<Member>, depth: nat, fmt: bool): string
    decreases members, 1
  {
    if members == [] then ""
    else PrintMember(members[0], depth, fmt) + MemberEnd(|members| > 1, fmt)
         + PrintMembers(members[1..], depth, fmt)
  }
}

/** The key-value file of config_operation.c: lines read one by one, rewritten into a second file
    that replaces the first if the key was found.  Keys are recognised by comparing as many
    characters as the key has, so a key also matches the lines of longer keys. */
module IniFile {
  import opened Wrappers

  // ---------------------------------------------------------------- lines

  /** strncmp(p, l, strlen(p)) == 0. */
  predicate Starts(l: string, p: string) {
    p <= l
  }

  function TitleText(title: string): string {
    "[" + title + "]"
  }

  /** strchr(l, '='), or the length. */
  function Equal(l: string): (k: nat)
    ensures k <= |l| && '=' !in l[..k] && (k < |l| ==> l[k] == '=')
    ensures k < |l| <==> '=' in l
  {
    if l == "" || l[0] == '=' then 0
    else
      var k := 1 + Equal(l[1..]);
      assert l == [l[0]] + l[1..] && l[..k] == [l[0]] + l[1..][..k - 1];
      k
  }

  predicate IsTitle(l: string, title: string) {
    Starts(l, TitleText(title))
  }

  predicate IsHeading(l: string) {
    l != "" && l[0] == '['
  }

  predicate IsComment(l: string) {
    Starts(l, "//") || (l != "" && l[0] == '#')
  }

  /** A line that the key matches. */
  predicate Matches(l: string, key: string) {
    '=' in l && Starts(l, key)
  }

  function DropSpaces(s: string): string {
    if s != "" && s[0] == ' ' then DropSpaces(s[1..]) else s
  }

  function Front(l: string): string {
    if l == "" then "" else l[..|l| - 1]
  }

  /** The value on a line: behind the '=', without the line end and leading spaces. */
  function Value(l: string): string {
    var k := Equal(l);
    if k + 1 <= |Front(l)| then DropSpaces(Front(l)[k + 1..]) else ""
  }

  function Rewritten(l: string, val: string): string
    requires '=' in l
  {
    l[..Equal(l) + 1] + " " + val + "\n"
  }

  function NewLine(key: string, val: string): string {
    key + " = " + val + "\n"
  }

  // ---------------------------------------------------------------- what the functions do

  /** get_ini_key_string: `inside` tells whether the section has been entered and not left. */
  function Get(ls: seq<string>, inside: bool, title: string, key: string): Option<string> {
    if ls == [] then None
    else if IsComment(ls[0]) then Get(ls[1..], inside, title, key)
    else if '=' in ls[0] && inside then
      if Starts(ls[0], key) then Some(Value(ls[0])) else Get(ls[1..], inside, title, key)
    else Get(ls[1..], IsTitle(ls[0], title) || (inside && !IsHeading(ls[0])), title, key)
  }

  /** set_ini_key_string: the lines written, and whether the key was found.  The section is never
      left again. */
  function Set(ls: seq<string>, inside: bool, title: string, key: string, val: string): (seq<string>, bool) {
    if ls == [] then ([], false)
    else if '=' in ls[0] && inside && Starts(ls[0], key) then ([Rewritten(ls[0], val)] + ls[1..], true)
    else
      var entered := IsTitle(ls[0], title) && !('=' in ls[0] && inside);
      var (rest, found) := Set(ls[1..], inside || entered, title, key, val);
      ([ls[0]] + rest, found)
  }

  /** append_ini_key_string's three states: before the section, in it, behind it. */
  datatype Where = Before | In | Behind

  function Append(ls: seq<string>, at: Where, title: string, key: string, val: string): (seq<string>, bool) {
    if ls == [] then (if at == In then ([NewLine(key, val)], true) else ([], at == Behind))
    else if IsTitle(ls[0], title) then Push(ls[0], Append(ls[1..], In, title, key, val))
    else if IsHeading(ls[0]) && at == In then
      Push(NewLine(key, val), Push(ls[0], Append(ls[1..], Behind, title, key, val)))
    else if '=' in ls[0] && at == In && Starts(ls[0], key) then ([], false)
    else Push(ls[0], Append(ls[1..], at, title, key, val))
  }

  function Push(l: string, r: (seq<string>, bool)): (seq<string>, bool) {
    ([l] + r.0, r.1)
  }

  /** delete_ini_key_string. */
  function Delete(ls: seq<string>, at: Where, title: string, key: string): (seq<string>, bool) {
    if ls == [] then ([], at == Behind)
    else if IsTitle(ls[0], title) then Push(ls[0], Delete(ls[1..], In, title, key))
    else if '=' in ls[0] && at == In && Starts(ls[0], key) then Delete(ls[1..], Behind, title, key)
    else Push(ls[0], Delete(ls[1..], at, title, key))
  }

  // ---------------------------------------------------------------- the hypotheses

  predicate NoTitle(ls: seq<string>, title: string) {
    forall i :: 0 <= i < |ls| ==> !IsTitle(ls[i], title)
  }

  /** The title heads one section at most. */
  predicate TitleOnce(ls: seq<string>, title: string) {
    forall i, j :: 0 <= i < j < |ls| ==> !(IsTitle(ls[i], title) && IsTitle(ls[j], title))
  }

  predicate Incomparable(a: string, b: string) {
    !(a <= b) && !(b <= a)
  }

  /** A key that cannot be taken for a heading or a comment, and is not cut by the '='. */
  predicate PlainKey(key: string) {
    key != "" && key[0] != '[' && key[0] != '#' && Incomparable(key, "//") && '=' !in key
  }

  predicate PlainValue(val: string) {
    '\n' !in val && (val == "" || val[0] != ' ')
  }

  // ---------------------------------------------------------------- set, then get

  lemma EqualOf(a: string, b: string)
    requires '=' !in a
    ensures Equal(a + "=" + b) == |a| && '=' in a + "=" + b
  {
    var l := a + "=" + b;
    assert l[|a|] == '=';
    assert forall i :: 0 <= i < |a| ==> l[i] == a[i] && a[i] in a;
    var k := Equal(l);
    assert forall i :: 0 <= i < k ==> l[i] == l[..k][i] && l[..k][i] in l[..k];
  }

  /** A line made of what stands before the '=' and a value has that value. */
  lemma ValueOf(a: string, val: string)
    requires '=' !in a
    ensures var n := a + "=" + (" " + val + "\n");
            '=' in n && Equal(n) == |a| && n[..|a|] == a && (PlainValue(val) ==> Value(n) == val)
  {
    var n := a + "=" + (" " + val + "\n");
    EqualOf(a, " " + val + "\n");
    assert Front(n)[|a| + 1..] == " " + val && (" " + val)[1..] == val;
    assert DropSpaces(" " + val) == DropSpaces(val);
  }

  /** A rewritten line keeps everything that decides what it is, and has the new value. */
  lemma RewrittenLine(l: string, key: string, val: string)
    requires Matches(l, key) && PlainKey(key)
    ensures Matches(Rewritten(l, val), key) && IsComment(Rewritten(l, val)) == IsComment(l) == false
    ensures !IsHeading(l) && !IsHeading(Rewritten(l, val))
    ensures PlainValue(val) ==> Value(Rewritten(l, val)) == val
    ensures forall k :: Incomparable(k, key) ==> !Starts(l, k) && !Starts(Rewritten(l, val), k)
  {
    var a := l[..Equal(l)];
    var n := Rewritten(l, val);
    assert n == a + "=" + (" " + val + "\n");
    ValueOf(a, val);
    KeyBeforeEqual(l, key);
    hide Value, Equal, DropSpaces, Front, Rewritten;
    assert n[0] == a[0] == l[0] == key[0];
    assert Starts(n, key) by {
      assert forall i :: 0 <= i < |key| ==> n[i] == a[i] == key[i];
    }
    PlainLine(l, key);
    PlainLine(n, key);
  }

  /** A line that begins with a plain key is no comment and no heading, and begins with no key that is
      incomparable with it. */
  lemma PlainLine(l: string, key: string)
    requires Starts(l, key) && PlainKey(key)
    ensures !IsComment(l) && !IsHeading(l)
    ensures forall k :: Incomparable(k, key) ==> !Starts(l, k)
  {
    assert l[0] == key[0];
    forall k | Starts(l, k)
      ensures !Incomparable(k, key)
    {
      PrefixesCompare(l, k, key);
    }
  }

  lemma PrefixesCompare(l: string, a: string, b: string)
    requires a <= l && b <= l
    ensures a <= b || b <= a
  {
    if |a| <= |b| {
      assert a == l[..|a|] == b[..|a|];
    } else {
      assert b == l[..|b|] == a[..|b|];
    }
  }

  lemma KeyBeforeEqual(l: string, key: string)
    requires Matches(l, key) && '=' !in key
    ensures |key| <= Equal(l) && key == l[..Equal(l)][..|key|]
  {
    assert forall i :: 0 <= i < |key| ==> key[i] == l[i] && key[i] in key;
  }

  lemma {:induction false} GetOutside(ls: seq<string>, title: string, key: string)
    requires NoTitle(ls, title)
    ensures Get(ls, false, title, key) == None
  {
    if ls != [] {
      GetOutside(ls[1..], title, key);
    }
  }

  lemma {:induction false} SetNoTitle(ls: seq<string>, title: string, key: string, val: string)
    requires NoTitle(ls, title) && PlainKey(key)
    ensures NoTitle(Set(ls, true, title, key, val).0, title)
  {
    if ls != [] {
      if Matches(ls[0], key) {
        RewrittenLine(ls[0], key, val);
      } else {
        SetNoTitle(ls[1..], title, key, val);
      }
    }
  }

  /** In the section, and with no second heading for it: what is read after a write. */
  lemma {:induction false} SetGetInside(ls: seq<string>, title: string, key: string, val: string)
    requires NoTitle(ls, title) && PlainKey(key) && PlainValue(val)
    ensures Get(Set(ls, true, title, key, val).0, true, title, key)
         == if Get(ls, true, title, key).Some? then Some(val) else None
    ensures Get(ls, true, title, key).Some? ==> Set(ls, true, title, key, val).1
  {
    if ls != [] {
      var l, rest := ls[0], ls[1..];
      if Matches(l, key) {
        RewrittenLine(l, key, val);
      } else {
        SetGetInside(rest, title, key, val);
        if IsHeading(l) && !('=' in l) && !IsComment(l) {
          SetNoTitle(rest, title, key, val);
          GetOutside(rest, title, key);
          GetOutside(Set(rest, true, title, key, val).0, title, key);
        }
      }
    }
  }

  /** Where the title heads one section, the key is plain and the value has no line end or leading
      space: a write followed by a read gives the value exactly if there was one to read before. */
  lemma {:induction false} SetGet(ls: seq<string>, title: string, key: string, val: string)
    requires TitleOnce(ls, title) && PlainKey(key) && PlainValue(val)
    ensures var (after, found) := Set(ls, false, title, key, val);
            && (Get(after, false, title, key) == Some(val) <==> Get(ls, false, title, key).Some?)
            && (Get(ls, false, title, key).Some? ==> found)
  {
    if ls != [] {
      var l, rest := ls[0], ls[1..];
      if IsTitle(l, title) {
        assert NoTitle(rest, title) by {
          assert forall i :: 0 <= i < |rest| ==> rest[i] == ls[i + 1];
        }
        assert l[0] == '[' && !IsComment(l);
        SetGetInside(rest, title, key, val);
      } else {
        assert TitleOnce(rest, title) by {
          assert forall i :: 0 <= i < |rest| ==> rest[i] == ls[i + 1];
        }
        SetGet(rest, title, key, val);
      }
    }
  }

  /** Writing a plain key changes no other: neither in its section nor in any other is a key that is
      prefix-incomparable with it read differently afterwards. */
  lemma {:induction false} SetKeepsOthers(ls: seq<string>, inside: bool, title: string, key: string, val: string,
                                          within: bool, title': string, key': string)
    requires PlainKey(key) && Incomparable(key', key)
    ensures Get(Set(ls, inside, title, key, val).0, within, title', key') == Get(ls, within, title', key')
  {
    if ls != [] {
      var l := ls[0];
      if inside && Matches(l, key) {
        RewrittenLine(l, key, val);
        assert !IsTitle(l, title') && !IsTitle(Rewritten(l, val), title');
      } else {
        forall w: bool {
          SetKeepsOthers(ls[1..], inside || IsTitle(l, title), title, key, val, w, title', key');
        }
      }
    }
  }

  lemma TitleIsNoComment(l: string, title: string)
    requires IsTitle(l, title)
    ensures !IsComment(l) && IsHeading(l)
  {
    assert l[0] == TitleText(title)[0] == '[';
    assert "//"[0] == '/';
  }

  lemma StartsShorter(l: string, p: string, q: string)
    requires Starts(l, p) && q <= p
    ensures Starts(l, q)
  {
    assert forall i :: 0 <= i < |q| ==> q[i] == p[i] == l[i];
  }

  /** A line that both keys match is rewritten for the one and read for the other. */
  lemma SetTakesLine(l0: string, l1: string, rest: seq<string>, title: string, key: string, key': string, val: string)
    requires IsTitle(l0, title) && Matches(l1, key) && Matches(l1, key')
    requires PlainKey(key) && PlainKey(key') && PlainValue(val)
    ensures var ls := [l0, l1] + rest;
            var (after, found) := Set(ls, false, title, key, val);
            && found && Get(ls, false, title, key') == Some(Value(l1))
            && Get(after, false, title, key') == Some(val)
  {
    var ls := [l0, l1] + rest;
    RewrittenLine(l1, key, val);
    RewrittenLine(l1, key', val);
    TitleIsNoComment(l0, title);
    assert ls[1..] == [l1] + rest && ls[1..][1..] == rest;
    var n := Rewritten(l1, val);
    assert Set(ls[1..], true, title, key, val) == ([n] + rest, true);
    var after := [l0] + ([n] + rest);
    assert Set(ls, false, title, key, val) == (after, true);
    assert after[1..] == [n] + rest;
  }

  /** No write to `key`, in any file, changes what is read for `other`. */
  ghost predicate SetLeaves(key: string, other: string) {
    forall ls, title, val, title' ::
      Get(Set(ls, false, title, key, val).0, false, title', other) == Get(ls, false, title', other)
  }

  /** Two plain keys leave each other alone in every file exactly if neither is a prefix of the other. */
  lemma SetLeavesOthers(key: string, other: string)
    requires PlainKey(key) && PlainKey(other)
    ensures SetLeaves(key, other) <==> Incomparable(other, key)
  {
    if Incomparable(other, key) {
      forall ls, title, val, title'
        ensures Get(Set(ls, false, title, key, val).0, false, title', other) == Get(ls, false, title', other)
      {
        SetKeepsOthers(ls, false, title, key, val, false, title', other);
      }
    } else {
      var l := LineOfBoth(key, other);
      SetTakesLine("[]", l, [], "", key, other, "x");
      var ls := ["[]", l] + [];
      assert Get(Set(ls, false, "", key, "x").0, false, "", other) != Get(ls, false, "", other);
    }
  }

  /** A line with no value that two comparable keys match. */
  lemma LineOfBoth(key: string, other: string) returns (l: string)
    requires PlainKey(key) && PlainKey(other) && !Incomparable(other, key)
    ensures Matches(l, key) && Matches(l, other) && Value(l) == ""
  {
    var longer := if key <= other then other else key;
    l := longer + "=" + "\n";
    EqualOf(longer, "\n");
    assert Starts(l, longer);
    StartsShorter(l, longer, key);
    StartsShorter(l, longer, other);
  }

  /** No heading holds an '='; reading and writing would not take it for one. */
  predicate CleanHeadings(ls: seq<string>) {
    forall i :: 0 <= i < |ls| && IsHeading(ls[i]) ==> '=' !in ls[i]
  }

  /** The line that a write rewrites: the first behind the title that the key matches. */
  function Hit(ls: seq<string>, inside: bool, title: string, key: string): (k: nat)
    ensures k <= |ls|
  {
    if ls == [] || (inside && Matches(ls[0], key)) then 0
    else 1 + Hit(ls[1..], inside || IsTitle(ls[0], title), title, key)
  }

  /** For every file: a write rewrites that line and no other, or there is none. */
  lemma {:induction false} SetHit(ls: seq<string>, inside: bool, title: string, key: string, val: string)
    ensures var k := Hit(ls, inside, title, key);
            && (k < |ls| ==> Matches(ls[k], key))
            && Set(ls, inside, title, key, val)
            == if k < |ls| then (ls[k := Rewritten(ls[k], val)], true) else (ls, false)
  {
    if ls != [] && inside && Matches(ls[0], key) {
      assert [Rewritten(ls[0], val)] + ls[1..] == ls[0 := Rewritten(ls[0], val)];
    } else if ls != [] {
      var now := inside || IsTitle(ls[0], title);
      SetHit(ls[1..], now, title, key, val);
      var k := Hit(ls[1..], now, title, key);
      assert [ls[0]] + ls[1..] == ls;
      if k < |ls[1..]| {
        assert [ls[0]] + ls[1..][k := Rewritten(ls[k + 1], val)] == ls[k + 1 := Rewritten(ls[k + 1], val)];
      }
    }
  }

  /** The line `k` stands behind a line with the title. */
  ghost predicate BehindTitle(ls: seq<string>, title: string, k: int) {
    exists t :: 0 <= t < k && t < |ls| && IsTitle(ls[t], title)
  }

  /** And between them is a heading: it belongs to another section. */
  ghost predicate InOther(ls: seq<string>, title: string, k: int) {
    exists t, h :: 0 <= t < h < k && h < |ls| && IsTitle(ls[t], title) && IsHeading(ls[h])
  }

  /** It is the first that the key matches and that stands behind a line with the title. */
  lemma {:induction false} HitIsFirst(ls: seq<string>, inside: bool, title: string, key: string)
    ensures var k := Hit(ls, inside, title, key);
            && (k < |ls| ==> Matches(ls[k], key) && (inside || BehindTitle(ls, title, k)))
            && forall m :: 0 <= m < k && Matches(ls[m], key) ==> !inside && !BehindTitle(ls, title, m)
  {
    if ls != [] && !(inside && Matches(ls[0], key)) {
      var rest, k := ls[1..], Hit(ls, inside, title, key);
      HitIsFirst(rest, inside || IsTitle(ls[0], title), title, key);
      forall m | 0 < m <= |ls|
        ensures BehindTitle(ls, title, m) <==> IsTitle(ls[0], title) || BehindTitle(rest, title, m - 1)
      {
        BehindShift(ls, title, m);
      }
      forall m | 0 <= m < k && Matches(ls[m], key)
        ensures !inside && !BehindTitle(ls, title, m)
      {
        if m > 0 {
          assert ls[m] == rest[m - 1];
        }
      }
    }
  }

  lemma BehindShift(ls: seq<string>, title: string, m: nat)
    requires 0 < m <= |ls|
    ensures BehindTitle(ls, title, m) <==> IsTitle(ls[0], title) || BehindTitle(ls[1..], title, m - 1)
  {
    var rest := ls[1..];
    if BehindTitle(ls, title, m) {
      var t :| 0 <= t < m && t < |ls| && IsTitle(ls[t], title);
      assert t == 0 || IsTitle(rest[t - 1], title);
    }
    if BehindTitle(rest, title, m - 1) {
      var t :| 0 <= t < m - 1 && t < |rest| && IsTitle(rest[t], title);
      assert IsTitle(ls[t + 1], title);
    }
  }

  /** Reading from inside the section: the first line the key matches, unless a heading comes first. */
  lemma {:induction false} GetInside(ls: seq<string>, title: string, key: string)
    requires NoTitle(ls, title) && PlainKey(key) && CleanHeadings(ls)
    ensures var k := Hit(ls, true, title, key);
            Get(ls, true, title, key) == if k < |ls| && NoHeading(ls[..k]) then Some(Value(ls[k])) else None
  {
    if ls != [] {
      var l, rest := ls[0], ls[1..];
      var k := Hit(ls, true, title, key);
      if Matches(l, key) {
        RewrittenLine(l, key, "");
      } else {
        var n := Hit(rest, true, title, key);
        assert k == n + 1;
        GetInside(rest, title, key);
        NoHeadingStep(ls, n);
        if IsHeading(l) {
          assert '=' !in l && !IsComment(l);
          GetOutside(rest, title, key);
        }
      }
    }
  }

  lemma NoHeadingStep(ls: seq<string>, n: nat)
    requires n < |ls|
    ensures NoHeading(ls[..n + 1]) <==> !IsHeading(ls[0]) && NoHeading(ls[1..][..n])
  {
    assert ls[..n + 1] == [ls[0]] + ls[1..][..n];
  }

  predicate NoHeading(ls: seq<string>) {
    forall i :: 0 <= i < |ls| ==> !IsHeading(ls[i])
  }

  /** Behind the line `t` with the title. */
  lemma {:induction false} FromTitle(ls: seq<string>, title: string, key: string, t: nat)
    requires TitleOnce(ls, title) && t < |ls| && IsTitle(ls[t], title)
    ensures Hit(ls, false, title, key) == t + 1 + Hit(ls[t + 1..], true, title, key)
    ensures Get(ls, false, title, key) == Get(ls[t + 1..], true, title, key)
    ensures NoTitle(ls[t + 1..], title)
  {
    var rest := ls[1..];
    if t == 0 {
      TitleIsNoComment(ls[0], title);
    } else {
      assert !IsTitle(ls[0], title) && rest[t - 1] == ls[t] && rest[t..] == ls[t + 1..];
      FromTitle(rest, title, key, t - 1);
    }
  }

  lemma {:induction false} HitNone(ls: seq<string>, title: string, key: string)
    requires NoTitle(ls, title)
    ensures Hit(ls, false, title, key) == |ls|
  {
    if ls != [] {
      HitNone(ls[1..], title, key);
    }
  }

  lemma TitleOrNone(ls: seq<string>, title: string) returns (t: int)
    ensures -1 <= t < |ls| && (t == -1 ==> NoTitle(ls, title)) && (t >= 0 ==> IsTitle(ls[t], title))
  {
    if i :| 0 <= i < |ls| && IsTitle(ls[i], title) {
      t := i;
    } else {
      t := -1;
    }
  }

  /** The section lacks the key, but some line behind its title matches it. */
  ghost predicate Reaches(ls: seq<string>, title: string, key: string) {
    && Get(ls, false, title, key) == None
    && exists m :: 0 <= m < |ls| && Matches(ls[m], key) && BehindTitle(ls, title, m)
  }

  /** A write is to a line of another section exactly if the titled section lacks the key and some line
      behind the title matches it. */
  lemma SetReachesOther(ls: seq<string>, title: string, key: string)
    requires TitleOnce(ls, title) && PlainKey(key) && CleanHeadings(ls)
    ensures var k := Hit(ls, false, title, key);
            k < |ls| && InOther(ls, title, k) <==> Reaches(ls, title, key)
    ensures Get(ls, false, title, key).Some? || Reaches(ls, title, key) <==> Hit(ls, false, title, key) < |ls|
  {
    var k := Hit(ls, false, title, key);
    HitIsFirst(ls, false, title, key);
    var t := TitleOrNone(ls, title);
    if t < 0 {
      HitNone(ls, title, key);
      GetOutside(ls, title, key);
    } else {
      var rest, n := ls[t + 1..], k - (t + 1);
      hide Hit, Get, Value, Starts, NoHeading, CleanHeadings, TitleOnce;
      FromTitle(ls, title, key, t);
      CleanDrop(ls, t + 1);
      GetInside(rest, title, key);
      if k < |ls| {
        OtherByHeading(ls, title, t, k);
        DropTake(ls, t + 1, k);
      }
    }
  }

  lemma OtherByHeading(ls: seq<string>, title: string, t: nat, k: nat)
    requires TitleOnce(ls, title) && t < k < |ls| && IsTitle(ls[t], title)
    ensures InOther(ls, title, k) <==> !NoHeading(ls[t + 1..k])
  {
    var between := ls[t + 1..k];
    if InOther(ls, title, k) {
      var t', h :| 0 <= t' < h < k && h < |ls| && IsTitle(ls[t'], title) && IsHeading(ls[h]);
      assert t' == t && between[h - t - 1] == ls[h];
    }
    if !NoHeading(between) {
      var i :| 0 <= i < |between| && IsHeading(between[i]);
      assert ls[t + 1 + i] == between[i];
    }
  }

  /** Whoever reads the section in which the rewritten line stands finds the old value there before and
      the new one afterwards. */
  lemma SetReadThere(ls: seq<string>, title: string, key: string, val: string, h: nat, title': string)
    requires PlainKey(key) && PlainValue(val) && CleanHeadings(ls) && TitleOnce(ls, title')
    requires var k := Hit(ls, false, title, key);
             h < k < |ls| && NoHeading(ls[h + 1..k]) && IsTitle(ls[h], title') && BehindTitle(ls, title, h + 1)
    ensures var k, after := Hit(ls, false, title, key), Set(ls, false, title, key, val).0;
            && Get(ls, false, title', key) == Some(Value(ls[k]))
            && Get(after, false, title', key) == Some(val)
  {
    var k := Hit(ls, false, title, key);
    HitIsFirst(ls, false, title, key);
    SetHit(ls, false, title, key, val);
    hide Hit, Set, Get, Value;
    forall m | h < m < k
      ensures !Matches(ls[m], key)
    {
      BehindLater(ls, title, h + 1, m);
    }
    GetThere(ls, title', key, h, k);
    GetRewritten(ls, title', key, val, h, k);
  }

  lemma GetRewritten(ls: seq<string>, title: string, key: string, val: string, h: nat, k: nat)
    requires TitleOnce(ls, title) && PlainKey(key) && PlainValue(val) && CleanHeadings(ls)
    requires h < k < |ls| && IsTitle(ls[h], title) && NoHeading(ls[h + 1..k]) && Matches(ls[k], key)
    requires forall m :: h < m < k ==> !Matches(ls[m], key)
    ensures Get(ls[k := Rewritten(ls[k], val)], false, title, key) == Some(val)
  {
    var n := Rewritten(ls[k], val);
    var after := ls[k := n];
    RewrittenLine(ls[k], key, val);
    assert !IsTitle(n, title) && !IsHeading(n);
    hide Rewritten, Value, Get, IsTitle, IsHeading;
    assert after[h + 1..k] == ls[h + 1..k];
    GetThere(after, title, key, h, k);
  }

  lemma BehindLater(ls: seq<string>, title: string, k: nat, m: nat)
    requires k <= m && BehindTitle(ls, title, k)
    ensures BehindTitle(ls, title, m)
  {
    var t :| 0 <= t < k && t < |ls| && IsTitle(ls[t], title);
    assert t < m;
  }

  lemma GetThere(ls: seq<string>, title: string, key: string, h: nat, k: nat)
    requires TitleOnce(ls, title) && PlainKey(key) && CleanHeadings(ls)
    requires h < k < |ls| && IsTitle(ls[h], title) && NoHeading(ls[h + 1..k]) && Matches(ls[k], key)
    requires forall m :: h < m < k ==> !Matches(ls[m], key)
    ensures Get(ls, false, title, key) == Some(Value(ls[k]))
  {
    hide Hit, Get, Value, Matches, NoHeading, CleanHeadings, TitleOnce, IsTitle, PlainKey;
    CleanDrop(ls, h + 1);
    FromTitle(ls, title, key, h);
    HitThere(ls, title, key, h, k);
    DropTake(ls, h + 1, k);
    GetAt(ls[h + 1..], title, key, k - (h + 1));
  }

  lemma GetAt(ls: seq<string>, title: string, key: string, n: nat)
    requires NoTitle(ls, title) && PlainKey(key) && CleanHeadings(ls)
    requires n < |ls| && Hit(ls, true, title, key) == n && NoHeading(ls[..n])
    ensures Get(ls, true, title, key) == Some(Value(ls[n]))
  {
    hide Hit, Get, Value, NoHeading, CleanHeadings, PlainKey;
    GetInside(ls, title, key);
  }

  lemma DropTake(ls: seq<string>, i: nat, k: nat)
    requires i <= k < |ls|
    ensures ls[i..][..k - i] == ls[i..k] && ls[i..][k - i] == ls[k]
  {
  }

  lemma CleanDrop(ls: seq<string>, h: nat)
    requires h <= |ls| && CleanHeadings(ls)
    ensures CleanHeadings(ls[h..])
  {
    assert forall i :: 0 <= i < |ls[h..]| ==> ls[h..][i] == ls[h + i];
  }

  lemma HitThere(ls: seq<string>, title: string, key: string, h: nat, k: nat)
    requires h < k < |ls| && Matches(ls[k], key) && forall m :: h < m < k ==> !Matches(ls[m], key)
    ensures Hit(ls[h + 1..], true, title, key) == k - (h + 1)
  {
    var rest, n := ls[h + 1..], k - (h + 1);
    HitIsFirst(rest, true, title, key);
    hide Hit, Matches, BehindTitle;
    var m := Hit(rest, true, title, key);
    assert rest[n] == ls[k];
    assert forall i :: 0 <= i < |rest| ==> rest[i] == ls[h + 1 + i];
  }

  function Bracketed(l: string): string {
    if l == "" || l[0] == ']' then "" else [l[0]] + Bracketed(l[1..])
  }

  /** A line's heading is what stands before the first bracket that closes. */
  lemma {:induction false} BracketedOf(title: string, rest: string)
    requires ']' !in title
    ensures Bracketed(title + "]" + rest) == title
  {
    var l := title + "]" + rest;
    if title != "" {
      assert l[1..] == title[1..] + "]" + rest;
      BracketedOf(title[1..], rest);
    }
  }

  lemma TitleIs(l: string, title: string)
    requires ']' !in title && IsTitle(l, title)
    ensures Bracketed(l[1..]) == title
  {
    var rest := l[|TitleText(title)|..];
    assert l == TitleText(title) + rest;
    assert l[1..] == title + "]" + rest;
    BracketedOf(title, rest);
  }

  /** Where a write reaches no other section, nothing is read differently in another, not even a key of
      the same name. */
  lemma SetKeepsSections(ls: seq<string>, title: string, key: string, val: string, title': string, key': string)
    requires TitleOnce(ls, title) && PlainKey(key) && CleanHeadings(ls) && !Reaches(ls, title, key)
    requires ']' !in title && ']' !in title' && title != title'
    ensures Get(Set(ls, false, title, key, val).0, false, title', key') == Get(ls, false, title', key')
  {
    SetReachesOther(ls, title, key);
    if Get(ls, false, title, key).Some? {
      SetOwnKeeps(ls, title, key, val, false, title', key');
    } else {
      SetHit(ls, false, title, key, val);
    }
  }

  lemma {:induction false} SetOwnKeeps(ls: seq<string>, title: string, key: string, val: string,
                                       within: bool, title': string, key': string)
    requires TitleOnce(ls, title) && PlainKey(key) && CleanHeadings(ls) && Get(ls, false, title, key).Some?
    requires ']' !in title && ']' !in title' && title != title'
    ensures Get(Set(ls, false, title, key, val).0, within, title', key') == Get(ls, within, title', key')
  {
    var l, rest := ls[0], ls[1..];
    assert forall i :: 0 <= i < |rest| ==> rest[i] == ls[i + 1];
    if IsTitle(l, title) {
      TitleIs(l, title);
      assert !IsTitle(l, title') by {
        if IsTitle(l, title') {
          TitleIs(l, title');
        }
      }
      assert NoTitle(rest, title) && IsHeading(l) && '=' !in l && !IsComment(l);
      SetInnerKeeps(rest, title, key, val, title', key');
    } else {
      forall w: bool {
        SetOwnKeeps(rest, title, key, val, w, title', key');
      }
    }
  }

  lemma {:induction false} SetInnerKeeps(ls: seq<string>, title: string, key: string, val: string,
                                         title': string, key': string)
    requires NoTitle(ls, title) && PlainKey(key) && CleanHeadings(ls) && Get(ls, true, title, key).Some?
    ensures Get(Set(ls, true, title, key, val).0, false, title', key') == Get(ls, false, title', key')
  {
    var l, rest := ls[0], ls[1..];
    if Matches(l, key) {
      RewrittenLine(l, key, val);
    } else if IsHeading(l) {
      assert ls[0] == l && !IsComment(l);
      GetOutside(rest, title, key);
    } else {
      SetInnerKeeps(rest, title, key, val, title', key');
    }
  }

  /** Every heading has its bracket closed, and no two have the same title. */
  ghost predicate Titled(ls: seq<string>) {
    forall i :: 0 <= i < |ls| && IsHeading(ls[i]) ==> ']' in ls[i] && TitleOnce(ls, Bracketed(ls[i][1..]))
  }

  lemma LastHeading(ls: seq<string>, title: string, k: nat) returns (t: nat, h: nat)
    requires k <= |ls| && InOther(ls, title, k)
    ensures t < h < k && IsTitle(ls[t], title) && IsHeading(ls[h]) && NoHeading(ls[h + 1..k])
  {
    ghost var g: int;
    t, g :| 0 <= t < g < k && g < |ls| && IsTitle(ls[t], title) && IsHeading(ls[g]);
    h := k - 1;
    while !IsHeading(ls[h])
      invariant g <= h < k && NoHeading(ls[h + 1..k])
      decreases h
    {
      assert ls[h..k] == [ls[h]] + ls[h + 1..k];
      h := h - 1;
    }
  }

  lemma {:induction false} BracketedBefore(s: string)
    requires ']' in s
    ensures ']' !in Bracketed(s) && Bracketed(s) + "]" <= s
  {
    if s[0] != ']' {
      BracketedBefore(s[1..]);
      assert s == [s[0]] + s[1..] && Bracketed(s) + "]" == [s[0]] + (Bracketed(s[1..]) + "]");
    }
  }

  lemma BracketedIsTitle(l: string)
    requires IsHeading(l) && ']' in l
    ensures IsTitle(l, Bracketed(l[1..])) && ']' !in Bracketed(l[1..])
  {
    var s := l[1..];
    assert l == "[" + s;
    BracketedBefore(s);
    assert TitleText(Bracketed(s)) == "[" + (Bracketed(s) + "]");
  }

  /** A line that differs only behind its '=' and has the same value is read the same. */
  lemma {:induction false} SameLineKept(ls: seq<string>, k: nat, n: string, inside: bool, title: string, key: string)
    requires k < |ls| && '=' !in key && '=' in ls[k] && '=' in n && Value(n) == Value(ls[k])
    requires n[..Equal(n)] == ls[k][..Equal(ls[k])] && n[0] == ls[k][0]
    requires !IsComment(n) && !IsComment(ls[k]) && !IsHeading(n)
    ensures Get(ls[k := n], inside, title, key) == Get(ls, inside, title, key)
  {
    var now := ls[k := n];
    if k == 0 {
      assert now[1..] == ls[1..];
      StartsByFront(n, key);
      StartsByFront(ls[0], key);
    } else {
      assert now[1..] == ls[1..][k - 1 := n];
      forall w: bool {
        SameLineKept(ls[1..], k - 1, n, w, title, key);
      }
    }
  }

  lemma StartsByFront(l: string, key: string)
    requires '=' in l && '=' !in key
    ensures Starts(l, key) <==> key <= l[..Equal(l)]
  {
    if Starts(l, key) {
      KeyBeforeEqual(l, key);
    }
  }

  /** A write leaves all other sections as they read. */
  ghost predicate OthersKept(ls: seq<string>, title: string, key: string, val: string) {
    forall title', key' :: ']' !in title' && title' != title && '=' !in key' ==>
      Get(Set(ls, false, title, key, val).0, false, title', key') == Get(ls, false, title', key')
  }

  /** In a file with proper headings: a write leaves all other sections as they read exactly unless the
      titled section lacks the key and the first line behind its title that matches has another value. */
  lemma OthersKeptUnless(ls: seq<string>, title: string, key: string, val: string)
    requires TitleOnce(ls, title) && Titled(ls) && CleanHeadings(ls) && ']' !in title
    requires PlainKey(key) && PlainValue(val)
    ensures var k := Hit(ls, false, title, key);
            OthersKept(ls, title, key, val) <==> !(Reaches(ls, title, key) && k < |ls| && Value(ls[k]) != val)
  {
    var k := Hit(ls, false, title, key);
    SetReachesOther(ls, title, key);
    if !Reaches(ls, title, key) {
      forall title', key' | ']' !in title' && title' != title && '=' !in key'
        ensures Get(Set(ls, false, title, key, val).0, false, title', key') == Get(ls, false, title', key')
      {
        SetKeepsSections(ls, title, key, val, title', key');
      }
    } else {
      SetHit(ls, false, title, key, val);
      if Value(ls[k]) == val {
        SameValueKept(ls, title, key, val, k);
      } else {
        OtherChanged(ls, title, key, val);
      }
    }
  }

  lemma RewrittenFront(l: string, val: string)
    requires '=' in l
    ensures '=' in Rewritten(l, val) && Rewritten(l, val)[..Equal(Rewritten(l, val))] == l[..Equal(l)]
  {
    var a, b := l[..Equal(l)], " " + val + "\n";
    assert Rewritten(l, val) == a + "=" + b;
    EqualOf(a, b);
  }

  /** Writing the value a line has, whatever other keys without an '=' are read. */
  lemma SameValueKept(ls: seq<string>, title: string, key: string, val: string, k: nat)
    requires k < |ls| && Matches(ls[k], key) && PlainKey(key) && PlainValue(val) && Value(ls[k]) == val
    ensures forall title', key' :: '=' !in key' ==>
              Get(ls[k := Rewritten(ls[k], val)], false, title', key') == Get(ls, false, title', key')
  {
    var n := Rewritten(ls[k], val);
    RewrittenLine(ls[k], key, val);
    RewrittenFront(ls[k], val);
    assert n[0] == key[0] == ls[k][0];
    hide *;
    forall title', key' | '=' !in key'
      ensures Get(ls[k := n], false, title', key') == Get(ls, false, title', key')
    {
      SameLineKept(ls, k, n, false, title', key');
    }
  }

  lemma OtherChanged(ls: seq<string>, title: string, key: string, val: string)
    requires TitleOnce(ls, title) && Titled(ls) && CleanHeadings(ls) && ']' !in title
    requires PlainKey(key) && PlainValue(val)
    requires var k := Hit(ls, false, title, key);
             k < |ls| && InOther(ls, title, k) && '=' in ls[k] && Value(ls[k]) != val
    ensures !OthersKept(ls, title, key, val)
  {
    var k := Hit(ls, false, title, key);
    var t, h := LastHeading(ls, title, k);
    var title' := Bracketed(ls[h][1..]);
    BracketedIsTitle(ls[h]);
    assert TitleOnce(ls, title');
    assert title' != title;
    assert BehindTitle(ls, title, h + 1) by {
      assert t < h + 1;
    }
    SetReadThere(ls, title, key, val, h, title');
    assert '=' !in key;
  }

  // ---------------------------------------------------------------- append and delete

  lemma AppendedLine(key: string, val: string)
    requires PlainKey(key)
    ensures Matches(NewLine(key, val), key) && !IsComment(NewLine(key, val)) && !IsHeading(NewLine(key, val))
    ensures PlainValue(val) ==> Value(NewLine(key, val)) == val
    ensures forall k :: Incomparable(k, key) ==> !Starts(NewLine(key, val), k)
  {
    var l := NewLine(key, val);
    assert l == key + " " + "=" + (" " + val + "\n");
    ValueOf(key + " ", val);
    assert l == key + (" = " + val + "\n");
    hide Value, Equal, DropSpaces, Front, NewLine;
    PlainLine(l, key);
  }

  lemma {:induction false} BehindKeeps(ls: seq<string>, title: string, key: string, val: string)
    requires NoTitle(ls, title)
    ensures Append(ls, Behind, title, key, val) == (ls, true)
    ensures Delete(ls, Behind, title, key) == (ls, true)
  {
    if ls != [] {
      BehindKeeps(ls[1..], title, key, val);
      assert [ls[0]] + ls[1..] == ls;
    }
  }

  lemma {:induction false} AppendDeleteIn(ls: seq<string>, title: string, key: string, val: string)
    requires NoTitle(ls, title) && PlainKey(key) && Append(ls, In, title, key, val).1
    ensures Delete(Append(ls, In, title, key, val).0, In, title, key) == (ls, true)
  {
    AppendedLine(key, val);
    var n := NewLine(key, val);
    assert !IsTitle(n, title);
    if ls == [] {
      assert Append(ls, In, title, key, val).0 == [n];
      assert Delete([], Behind, title, key) == ([], true);
    } else if IsHeading(ls[0]) {
      BehindKeeps(ls[1..], title, key, val);
      BehindKeeps(ls, title, key, val);
      assert Append(ls, In, title, key, val).0 == [n] + ls;
    } else {
      AppendDeleteIn(ls[1..], title, key, val);
      assert [ls[0]] + ls[1..] == ls;
    }
  }

  /** Deleting a key that has just been appended gives the original lines back. */
  lemma {:induction false} AppendDelete(ls: seq<string>, title: string, key: string, val: string)
    requires TitleOnce(ls, title) && PlainKey(key) && Append(ls, Before, title, key, val).1
    ensures Delete(Append(ls, Before, title, key, val).0, Before, title, key) == (ls, true)
  {
    if ls != [] {
      var rest := ls[1..];
      assert forall i :: 0 <= i < |rest| ==> rest[i] == ls[i + 1];
      assert [ls[0]] + rest == ls;
      if IsTitle(ls[0], title) {
        assert NoTitle(rest, title);
        AppendDeleteIn(rest, title, key, val);
      } else {
        AppendDelete(rest, title, key, val);
      }
    }
  }

  lemma {:induction false} AppendGetIn(ls: seq<string>, title: string, key: string, val: string)
    requires NoTitle(ls, title) && PlainKey(key) && PlainValue(val) && Append(ls, In, title, key, val).1
    ensures Get(Append(ls, In, title, key, val).0, true, title, key) == Some(val)
    ensures Get(ls, true, title, key) == None || exists i :: 0 <= i < |ls| && IsHeading(ls[i]) && '=' in ls[i]
  {
    AppendedLine(key, val);
    if ls != [] && !IsHeading(ls[0]) {
      AppendGetIn(ls[1..], title, key, val);
      if i :| 0 <= i < |ls[1..]| && IsHeading(ls[1..][i]) && '=' in ls[1..][i] {
        assert ls[i + 1] == ls[1..][i];
      }
    } else if ls != [] {
      if '=' !in ls[0] {
        assert !IsComment(ls[0]);
        assert NoTitle(ls[1..], title);
        GetOutside(ls[1..], title, key);
      }
    }
  }

  /** A key that has just been appended is read with its value, and there was none to read before
      unless a heading of another section holds an '=', which reading does not take for a heading. */
  lemma {:induction false} AppendGet(ls: seq<string>, title: string, key: string, val: string)
    requires TitleOnce(ls, title) && PlainKey(key) && PlainValue(val) && Append(ls, Before, title, key, val).1
    ensures Get(Append(ls, Before, title, key, val).0, false, title, key) == Some(val)
    ensures Get(ls, false, title, key) == None || exists i :: 0 <= i < |ls| && IsHeading(ls[i]) && '=' in ls[i]
  {
    if ls != [] {
      var rest := ls[1..];
      assert forall i :: 0 <= i < |rest| ==> rest[i] == ls[i + 1];
      if IsTitle(ls[0], title) {
        assert NoTitle(rest, title) && ls[0][0] == '[';
        AppendGetIn(rest, title, key, val);
      } else {
        AppendGet(rest, title, key, val);
      }
    }
  }

  lemma RemoveBehind(ls: seq<string>, k: nat)
    requires ls != []
    ensures [ls[0]] + ls[1..] == ls
    ensures k < |ls| - 1 ==> [ls[0]] + (ls[1..][..k] + ls[1..][k + 1..]) == ls[..k + 1] + ls[k + 2..]
  {
  }

  lemma TitleBehind(ls: seq<string>, title: string)
    requires ls != [] && TitleOnce(ls, title)
    ensures TitleOnce(ls[1..], title) && (IsTitle(ls[0], title) ==> NoTitle(ls[1..], title))
  {
    assert forall i :: 0 <= i < |ls[1..]| ==> ls[1..][i] == ls[i + 1];
  }

  lemma {:induction false} DeleteIn(ls: seq<string>, title: string, key: string)
    requires NoTitle(ls, title)
    ensures var k := Hit(ls, true, title, key);
            Delete(ls, In, title, key) == if k < |ls| then (ls[..k] + ls[k + 1..], true) else (ls, false)
  {
    if ls != [] {
      var rest := ls[1..];
      assert [ls[0]] + rest == ls;
      if Matches(ls[0], key) {
        BehindKeeps(rest, title, key, "");
        assert ls[..0] + ls[1..] == rest;
      } else {
        DeleteIn(rest, title, key);
        RemoveBehind(ls, Hit(rest, true, title, key));
      }
    }
  }

  /** A deletion takes out the line that a write would rewrite, and no other; or there is none. */
  lemma {:induction false} DeleteHit(ls: seq<string>, title: string, key: string)
    requires TitleOnce(ls, title)
    ensures var k := Hit(ls, false, title, key);
            Delete(ls, Before, title, key) == if k < |ls| then (ls[..k] + ls[k + 1..], true) else (ls, false)
  {
    hide TitleOnce, IsTitle, NoTitle;
    if ls != [] {
      TitleBehind(ls, title);
      if IsTitle(ls[0], title) {
        DeleteIn(ls[1..], title, key);
      } else {
        DeleteHit(ls[1..], title, key);
      }
      RemoveBehind(ls, Hit(ls[1..], IsTitle(ls[0], title), title, key));
    }
  }

  /** So a deletion takes a line out of another section exactly if the titled section lacks the key and
      some line behind the title matches it. */
  lemma DeleteReachesOther(ls: seq<string>, title: string, key: string)
    requires TitleOnce(ls, title) && PlainKey(key) && CleanHeadings(ls)
    ensures var (after, gone) := Delete(ls, Before, title, key);
            var k := Hit(ls, false, title, key);
            && (gone && InOther(ls, title, k) <==> Reaches(ls, title, key))
            && (gone ==> k < |ls| && Matches(ls[k], key) && after == ls[..k] + ls[k + 1..])
  {
    hide Hit, Delete, Get, InOther, CleanHeadings, TitleOnce, PlainKey, Reaches;
    DeleteHit(ls, title, key);
    HitIsFirst(ls, false, title, key);
    SetReachesOther(ls, title, key);
  }

  /** Appending changes no key, of any section, that the new line would not be read for. */
  lemma {:induction false} AppendKeepsOthers(ls: seq<string>, at: Where, title: string, key: string, val: string,
                                             within: bool, title': string, key': string)
    requires PlainKey(key) && !Starts(NewLine(key, val), key') && Append(ls, at, title, key, val).1
    ensures Get(Append(ls, at, title, key, val).0, within, title', key') == Get(ls, within, title', key')
  {
    AppendedLine(key, val);
    var n := NewLine(key, val);
    assert !IsTitle(n, title');
    hide NewLine, Value, Starts, IsTitle, IsHeading, IsComment;
    if ls == [] {
      GetSkips(n, [], within, title', key');
      assert [n] + [] == [n];
    } else {
      var l, rest := ls[0], ls[1..];
      var next := if IsTitle(l, title) then In else if IsHeading(l) && at == In then Behind else at;
      var more := Append(rest, next, title, key, val).0;
      AppendKeepsOthers(rest, next, title, key, val, true, title', key');
      AppendKeepsOthers(rest, next, title, key, val, false, title', key');
      GetStep(l, more, rest, within, title', key');
      GetSkips(n, [l] + more, within, title', key');
      assert [l] + rest == ls;
    }
  }

  /** A line that is neither read nor a title. */
  lemma GetSkips(l: string, rest: seq<string>, inside: bool, title: string, key: string)
    requires '=' in l && !IsComment(l) && !IsHeading(l) && !IsTitle(l, title) && !Starts(l, key)
    ensures Get([l] + rest, inside, title, key) == Get(rest, inside, title, key)
  {
    assert ([l] + rest)[1..] == rest;
  }

  /** What is read behind a line decides what is read from it on. */
  lemma GetStep(l: string, a: seq<string>, b: seq<string>, inside: bool, title: string, key: string)
    requires forall w: bool :: Get(a, w, title, key) == Get(b, w, title, key)
    ensures Get([l] + a, inside, title, key) == Get([l] + b, inside, title, key)
  {
    assert ([l] + a)[1..] == a && ([l] + b)[1..] == b;
  }

  /** A file of a title and a line, and of the title alone. */
  lemma GetTwo(l: string, other: string)
    requires Matches(l, other) && !IsComment(l)
    ensures Get(["[]", l], false, "", other) == Some(Value(l)) && Get(["[]"], false, "", other) == None
  {
    TitleIsNoComment("[]", "");
    GetNone(other);
    assert ["[]", l][1..] == [l] && ["[]"][1..] == [];
    assert IsTitle("[]", "") && '=' !in "[]";
    assert Get([l], true, "", other) == Some(Value(l));
  }

  lemma GetNone(other: string)
    ensures Get([], true, "", other) == None
  {
  }

  /** No key appended as `key`, in any file, changes what is read for `other`. */
  ghost predicate AppendLeaves(key: string, other: string) {
    forall ls, title, val, title' :: Append(ls, Before, title, key, val).1 ==>
      Get(Append(ls, Before, title, key, val).0, false, title', other) == Get(ls, false, title', other)
  }

  /** Appending a plain key leaves another alone in every file exactly if that one is no prefix of it and
      the space put behind it. */
  lemma AppendLeavesOthers(key: string, other: string)
    requires PlainKey(key) && PlainKey(other)
    ensures AppendLeaves(key, other) <==> !(other <= key + " ")
  {
    if other <= key + " " {
      var l := NewLine(key, "x");
      AppendedLine(key, "x");
      assert l == key + " " + "= x\n";
      StartsShorter(l, key + " ", other);
      AppendTwo(key);
      GetTwo(l, other);
    } else {
      forall ls, title, val, title' | Append(ls, Before, title, key, val).1
        ensures Get(Append(ls, Before, title, key, val).0, false, title', other) == Get(ls, false, title', other)
      {
        if Starts(NewLine(key, val), other) {
          NewLineStarts(key, val, other);
        }
        AppendKeepsOthers(ls, Before, title, key, val, false, title', other);
      }
    }
  }

  lemma AppendTwo(key: string)
    ensures Append(["[]"], Before, "", key, "x") == (["[]", NewLine(key, "x")], true)
  {
    var l := NewLine(key, "x");
    assert ["[]"][1..] == [] && Append([], In, "", key, "x") == ([l], true);
    assert IsTitle("[]", "") && ["[]"] + [l] == ["[]", l];
  }

  lemma NewLineStarts(key: string, val: string, other: string)
    requires '=' !in other && '=' !in key && Starts(NewLine(key, val), other)
    ensures other <= key + " "
  {
    var l := NewLine(key, val);
    assert l == (key + " ") + "=" + (" " + val + "\n");
    EqualOf(key + " ", " " + val + "\n");
    StartsByFront(l, other);
  }

  /** Nor does deleting change a prefix-incomparable key. */
  lemma {:induction false} DeleteKeepsOthers(ls: seq<string>, at: Where, title: string, key: string,
                                             within: bool, title': string, key': string)
    requires PlainKey(key) && Incomparable(key', key)
    ensures Get(Delete(ls, at, title, key).0, within, title', key') == Get(ls, within, title', key')
  {
    if ls != [] {
      var l, gone := ls[0], !IsTitle(ls[0], title) && at == In && Matches(ls[0], key);
      if gone {
        RewrittenLine(l, key, "");
        assert !IsTitle(l, title');
      }
      var next := if IsTitle(l, title) then In else if gone then Behind else at;
      forall w: bool {
        DeleteKeepsOthers(ls[1..], next, title, key, w, title', key');
      }
    }
  }

  /** No deletion of `key`, in any file, changes what is read for `other`. */
  ghost predicate DeleteLeaves(key: string, other: string) {
    forall ls, title, title' ::
      Get(Delete(ls, Before, title, key).0, false, title', other) == Get(ls, false, title', other)
  }

  /** Here too plain keys leave each other alone in every file exactly if neither is a prefix of the
      other. */
  lemma DeleteLeavesOthers(key: string, other: string)
    requires PlainKey(key) && PlainKey(other)
    ensures DeleteLeaves(key, other) <==> Incomparable(other, key)
  {
    if Incomparable(other, key) {
      forall ls, title, title'
        ensures Get(Delete(ls, Before, title, key).0, false, title', other) == Get(ls, false, title', other)
      {
        DeleteKeepsOthers(ls, Before, title, key, false, title', other);
      }
    } else {
      var l := LineOfBoth(key, other);
      RewrittenLine(l, key, "");
      DeleteTwo(l, key);
      GetTwo(l, other);
    }
  }

  lemma DeleteTwo(l: string, key: string)
    requires Matches(l, key) && !IsHeading(l)
    ensures Delete(["[]", l], Before, "", key) == (["[]"], true)
  {
    assert IsTitle("[]", "") && !IsTitle(l, "");
    assert ["[]", l][1..] == [l] && [l][1..] == [] && ["[]"] + [] == ["[]"];
    assert Delete([], Behind, "", key) == ([], true) && Delete([l], In, "", key) == ([], true);
  }

  // ---------------------------------------------------------------- the functions on a file

  class File {
    var lines: seq<string>

    constructor (lines: seq<string>)
      ensures this.lines == lines
    {
      this.lines := lines;
    }

    /** get_ini_key_string. */
    method GetKey(title: string, key: string) returns (r: Option<string>)
      ensures r == Get(lines, false, title, key)
    {
      var flag := false;
      var n := 0;
      assert lines[0..] == lines;
      while n < |lines|
        invariant 0 <= n <= |lines|
        invariant Get(lines[n..], flag, title, key) == Get(lines, false, title, key)
      {
        var sLine := lines[n];
        assert lines[n..][0] == sLine && lines[n..][1..] == lines[n + 1..];
        n := n + 1;
        if Starts(sLine, "//") {
          continue;
        }
        if sLine != "" && sLine[0] == '#' {
          continue;
        }
        var cEqual := Equal(sLine);
        if cEqual < |sLine| && flag {
          if Starts(sLine, key) {
            var value := ReadValue(sLine, cEqual);
            return Some(value);
          }
        } else {
          if IsTitle(sLine, title) {
            flag := true;
          } else if sLine != "" && sLine[0] == '[' && flag {
            flag := false;
          }
        }
      }
      return None;
    }

    /** The value on a line, behind the '=' and the spaces after it.  The last character goes, line end
        or not; if it was the '=', what is read is the terminator that stood behind it. */
    static method ReadValue(sLine: string, cEqual: nat) returns (value: string)
      requires '=' in sLine && cEqual == Equal(sLine)
      ensures value == Value(sLine)
    {
      var text := sLine[..|sLine| - 1];
      var p := cEqual + 1;
      if p > |text| {
        return "";
      }
      while p < |text| && text[p] == ' '
        invariant cEqual + 1 <= p <= |text|
        invariant DropSpaces(text[p..]) == DropSpaces(text[cEqual + 1..])
      {
        assert text[p..][1..] == text[p + 1..];
        p := p + 1;
      }
      value := text[p..];
    }

    /** set_ini_key_string. */
    method SetKey(title: string, key: string, val: string) returns (iFound: int)
      modifies this
      ensures var (after, found) := Set(old(lines), false, title, key, val);
              iFound == (if found then 0 else -1) && lines == if found then after else old(lines)
    {
      iFound := -1;
      var flag := 0;
      var written := [];
      ghost var whole := Set(lines, false, title, key, val);
      assert lines[0..] == lines && [] + whole.0 == whole.0;
      for n := 0 to |lines|
        invariant flag in {0, 1, 2} && iFound == (if flag == 2 then 0 else -1)
        invariant flag == 2 ==> whole == (written + lines[n..], true)
        invariant flag != 2 ==> var (rest, found) := Set(lines[n..], flag == 1, title, key, val);
                                whole == (written + rest, found)
      {
        var sLine := lines[n];
        assert lines[n..] == [sLine] + lines[n + 1..];
        ghost var before := written;
        if flag != 2 {
          var cEqual := Equal(sLine);
          if cEqual < |sLine| && flag == 1 {
            if Starts(sLine, key) {
              flag := 2;
              sLine := sLine[..cEqual + 1] + " " + val + "\n";
              iFound := 0;
            }
          } else {
            if IsTitle(sLine, title) {
              flag := 1;
            }
          }
        }
        written := written + [sLine];
        assert forall r: seq<string> :: before + ([sLine] + r) == written + r;
      }
      if iFound == 0 {
        lines := written;
      }
    }

    /** append_ini_key_string: 1 if the key was added, -1 if there is no such section or it has such
        a key already. */
    method AppendKey(title: string, key: string, val: string) returns (iFound: int)
      modifies this
      ensures var (after, added) := Append(old(lines), Before, title, key, val);
              iFound == (if added then 1 else -1) && lines == if added then after else old(lines)
    {
      hide NewLine;
      iFound := -1;
      var written := [];
      ghost var whole := Append(lines, Before, title, key, val);
      assert lines[0..] == lines && [] + whole.0 == whole.0;
      for n := 0 to |lines|
        invariant iFound in {-1, 0, 1}
        invariant var (rest, added) := Append(lines[n..], State(iFound), title, key, val);
                  added == whole.1 && (added ==> whole.0 == written + rest)
      {
        var sLine := lines[n];
        assert lines[n..] == [sLine] + lines[n + 1..];
        ghost var before, state := written, State(iFound);
        var sNewLine := NewLine(key, val);
        assert forall r: seq<string> :: before + ([sLine] + r) == before + [sLine] + r;
        assert forall r: seq<string> :: before + ([sNewLine] + ([sLine] + r)) == before + [sNewLine] + [sLine] + r;
        if IsTitle(sLine, title) {
          iFound := 0;
        } else if sLine != "" && sLine[0] == '[' && iFound == 0 {
          iFound := 1;
          written := written + [sNewLine];
        } else if Equal(sLine) < |sLine| && iFound == 0 {
          if Starts(sLine, key) {
            iFound := -1;
            assert !whole.1;
            return;
          }
        }
        written := written + [sLine];
      }
      if iFound == 0 {
        iFound := 1;
        written := written + [NewLine(key, val)];
      }
      if iFound == 1 {
        lines := written;
      }
    }

    /** delete_ini_key_string: 1 if a line was removed; otherwise 0 if the section was found, or -1. */
    method DeleteKey(title: string, key: string) returns (iFound: int)
      modifies this
      ensures var (after, gone) := Delete(old(lines), Before, title, key);
              && iFound == (if gone then 1 else if NoTitle(old(lines), title) then -1 else 0)
              && lines == if gone then after else old(lines)
    {
      iFound := -1;
      var written := [];
      ghost var whole := Delete(lines, Before, title, key);
      assert lines[0..] == lines && [] + whole.0 == whole.0;
      for n := 0 to |lines|
        invariant iFound in {-1, 0, 1}
        invariant lines == old(lines) && (iFound == -1 <==> NoTitle(lines[..n], title))
        invariant var (rest, gone) := Delete(lines[n..], State(iFound), title, key);
                  whole == (written + rest, gone)
      {
        var sLine := lines[n];
        assert lines[n..] == [sLine] + lines[n + 1..];
        ghost var before := written;
        assert forall r: seq<string> :: before + ([sLine] + r) == before + [sLine] + r;
        TitleSoFar(lines, title, n);
        var skip := false;
        if IsTitle(sLine, title) {
          iFound := 0;
        } else if Equal(sLine) < |sLine| && iFound == 0 {
          if Starts(sLine, key) {
            iFound := 1;
            skip := true;
          }
        }
        if !skip {
          written := written + [sLine];
        }
      }
      assert written + [] == written && lines[..|lines|] == lines;
      if iFound == 1 {
        lines := written;
      }
    }
  }

  lemma TitleSoFar(ls: seq<string>, title: string, n: nat)
    requires n < |ls|
    ensures NoTitle(ls[..n + 1], title) <==> NoTitle(ls[..n], title) && !IsTitle(ls[n], title)
  {
    assert ls[..n + 1] == ls[..n] + [ls[n]];
  }

  /** The states of append and delete by their iFound. */
  function State(iFound: int): Where {
    if iFound == 0 then In else if iFound == 1 then Behind else Before
  }
}

/** What the functions of config_operation.c read and write in a file of which a section is given by its
    text: a line with the title, others, and a line with the key. */
module IniSections {
  import opened IniFile
  import opened Wrappers

  /** A comment begins with "#" or with two slashes. */
  predicate Comment(l: string) {
    (|l| > 0 && l[0] as int == 35) || (|l| > 1 && l[0] as int == 47 && l[1] as int == 47)
  }

  /** The line has an equals sign and the key in front. */
  predicate Has(l: string, key: string) {
    61 as char in l && |key| <= |l| && l[..|key|] == key
  }

  predicate Heading(l: string) {
    |l| > 0 && l[0] as int == 91
  }

  predicate Title(l: string, title: string) {
    var t := [91 as char] + title + [93 as char];
    |t| <= |l| && l[..|t|] == t
  }

  /** No line has the title. */
  predicate Without(ls: seq<string>, title: string) {
    forall l :: l in ls ==> !Title(l, title)
  }

  /** Lines of a section of which none has the key. */
  predicate Lacks(ls: seq<string>, key: string) {
    forall l :: l in ls ==> !Heading(l) && (Comment(l) || !Has(l, key))
  }

  /** The line of the key, which `more` may lengthen, and what stands behind its equals sign. */
  function KeyLine(key: string, more: string, rest: string): string {
    key + more + [61 as char] + rest
  }

  predicate Spaces(w: string) {
    forall i :: 0 <= i < |w| ==> w[i] as int == 32
  }

  /** The predicates of the functions, in these terms. */
  lemma Terms(l: string, title: string, key: string)
    ensures IsComment(l) == Comment(l) && IsHeading(l) == Heading(l) && IsTitle(l, title) == Title(l, title)
    ensures ('=' in l && Starts(l, key)) == Has(l, key)
    ensures Title(l, title) ==> Heading(l) && !Comment(l)
  {
    assert TitleText(title) == [91 as char] + title + [93 as char];
    if Title(l, title) {
      assert l[0] == TitleText(title)[0];
    }
  }

  lemma {:induction false} DropsSpaces(w: string, v: string)
    requires Spaces(w) && (v == "" || v[0] as int != 32)
    ensures DropSpaces(w + v) == v
  {
    if w == "" {
      assert w + v == v;
    } else {
      assert (w + v)[1..] == w[1..] + v;
      DropsSpaces(w[1..], v);
    }
  }

  lemma LineHas(key: string, more: string, rest: string)
    requires 61 as char !in key + more
    ensures var l := KeyLine(key, more, rest);
            Has(l, key) && Equal(l) == |key + more| && l[..Equal(l) + 1] == key + more + [61 as char]
  {
    var l := KeyLine(key, more, rest);
    EqualOf(key + more, rest);
    assert "=" == [61 as char];
    assert l[..|key|] == key;
  }

  /** The value of a line: behind the equals sign and spaces, up to the last character. */
  lemma LineValue(key: string, more: string, gap: string, v: string, end: char)
    requires 61 as char !in key + more && Spaces(gap) && (v == "" || v[0] as int != 32)
    ensures Value(KeyLine(key, more, gap + v + [end])) == v
  {
    var l := KeyLine(key, more, gap + v + [end]);
    LineHas(key, more, gap + v + [end]);
    DropsSpaces(gap, v);
    var k := Equal(l);
    hide Equal, DropSpaces;
    assert l == key + more + [61 as char] + (gap + v) + [end];
    assert Front(l) == key + more + [61 as char] + (gap + v);
    assert Front(l)[k + 1..] == gap + v;
  }

  // ---------------------------------------------------------------- reading

  lemma {:induction false} GetBefore(pre: seq<string>, ls: seq<string>, title: string, key: string)
    requires Without(pre, title)
    ensures Get(pre + ls, false, title, key) == Get(ls, false, title, key)
  {
    if pre == [] {
      assert pre + ls == ls;
    } else {
      assert (pre + ls)[1..] == pre[1..] + ls;
      Terms(pre[0], title, key);
      GetBefore(pre[1..], ls, title, key);
    }
  }

  lemma {:induction false} GetIn(mid: seq<string>, ls: seq<string>, title: string, key: string)
    requires Lacks(mid, key)
    ensures Get(mid + ls, true, title, key) == Get(ls, true, title, key)
  {
    if mid == [] {
      assert mid + ls == ls;
    } else {
      assert (mid + ls)[1..] == mid[1..] + ls;
      Terms(mid[0], title, key);
      GetIn(mid[1..], ls, title, key);
    }
  }

  lemma Entered(t: string, ls: seq<string>, title: string, key: string)
    requires Title(t, title)
    ensures Get([t] + ls, false, title, key) == Get(ls, true, title, key)
  {
    Terms(t, title, key);
    assert ([t] + ls)[1..] == ls;
  }

  lemma InFront(a: seq<string>, b: seq<string>)
    requires a != []
    ensures [a[0]] + (a[1..] + b) == a + b
  {
  }

  lemma Assoc(a: seq<string>, b: string, c: seq<string>, d: seq<string>)
    ensures a + [b] + c + d == a + ([b] + (c + d))
  {
  }

  /** The value is read from behind the equals sign of the first line with the key behind the title; spaces
      in front of it and the last character of the line do not belong to it. */
  lemma ReadsValue(pre: seq<string>, t: string, mid: seq<string>, post: seq<string>, title: string,
                   key: string, more: string, gap: string, v: string, end: char)
    requires Without(pre, title) && Title(t, title) && Lacks(mid, key)
    requires 61 as char !in key + more && !Comment(KeyLine(key, more, gap + v + [end]))
    requires Spaces(gap) && (v == "" || v[0] as int != 32)
    ensures Get(pre + [t] + mid + ([KeyLine(key, more, gap + v + [end])] + post), false, title, key) == Some(v)
  {
    var l := KeyLine(key, more, gap + v + [end]);
    LineValue(key, more, gap, v, end);
    LineHas(key, more, gap + v + [end]);
    Terms(l, title, key);
    hide KeyLine, Value, Equal, Without, Lacks, Title;
    Assoc(pre, t, mid, [l] + post);
    GetBefore(pre, [t] + (mid + ([l] + post)), title, key);
    Entered(t, mid + ([l] + post), title, key);
    GetIn(mid, [l] + post, title, key);
  }

  /** Nothing is read if the file ends, or a heading of another section comes, before such a line. */
  lemma ReadsNothing(pre: seq<string>, t: string, mid: seq<string>, h: string, post: seq<string>, title: string,
                     key: string)
    requires Without(pre, title) && Title(t, title) && Lacks(mid, key)
    requires Heading(h) && !Title(h, title) && 61 as char !in h && Without(post, title)
    ensures Get(pre + [t] + mid + ([h] + post), false, title, key) == None
    ensures Get(pre + [t] + mid + [], false, title, key) == None
    ensures Get(pre, false, title, key) == None
  {
    Terms(h, title, key);
    LeavesAt(h, post, title, key);
    GetBefore(post, [], title, key);
    GetBefore(pre, [], title, key);
    assert post + [] == post && pre + [] == pre;
    hide Without, Lacks, Title;
    Assoc(pre, t, mid, [h] + post);
    GetBefore(pre, [t] + (mid + ([h] + post)), title, key);
    Entered(t, mid + ([h] + post), title, key);
    GetIn(mid, [h] + post, title, key);
    Assoc(pre, t, mid, []);
    GetBefore(pre, [t] + (mid + []), title, key);
    Entered(t, mid + [], title, key);
    GetIn(mid, [], title, key);
  }

  lemma LeavesAt(h: string, post: seq<string>, title: string, key: string)
    requires Heading(h) && !Title(h, title) && 61 as char !in h
    ensures Get([h] + post, true, title, key) == Get(post, false, title, key)
  {
    Terms(h, title, key);
    assert ([h] + post)[1..] == post;
  }

  // ---------------------------------------------------------------- writing

  lemma {:induction false} SetBefore(pre: seq<string>, ls: seq<string>, title: string, key: string, val: string)
    requires Without(pre, title)
    ensures var r := Set(ls, false, title, key, val);
            Set(pre + ls, false, title, key, val) == (pre + r.0, r.1)
  {
    if pre == [] {
      assert pre + ls == ls && pre + Set(ls, false, title, key, val).0 == Set(ls, false, title, key, val).0;
    } else {
      assert (pre + ls)[1..] == pre[1..] + ls;
      Terms(pre[0], title, key);
      SetBefore(pre[1..], ls, title, key, val);
      InFront(pre, Set(ls, false, title, key, val).0);
    }
  }

  lemma {:induction false} SetIn(mid: seq<string>, ls: seq<string>, title: string, key: string, val: string)
    requires forall l :: l in mid ==> !Has(l, key)
    ensures var r := Set(ls, true, title, key, val);
            Set(mid + ls, true, title, key, val) == (mid + r.0, r.1)
  {
    if mid == [] {
      assert mid + ls == ls && mid + Set(ls, true, title, key, val).0 == Set(ls, true, title, key, val).0;
    } else {
      assert (mid + ls)[1..] == mid[1..] + ls;
      Terms(mid[0], title, key);
      SetIn(mid[1..], ls, title, key, val);
      InFront(mid, Set(ls, true, title, key, val).0);
    }
  }

  lemma SetEntered(t: string, ls: seq<string>, title: string, key: string, val: string)
    requires Title(t, title)
    ensures var r := Set(ls, true, title, key, val);
            Set([t] + ls, false, title, key, val) == ([t] + r.0, r.1)
  {
    Terms(t, title, key);
    assert ([t] + ls)[1..] == ls;
  }

  /** Of the first line with the key behind the title, all behind the equals sign is replaced by a space, the
      value and a line end. */
  lemma WritesValue(pre: seq<string>, t: string, mid: seq<string>, post: seq<string>, title: string,
                    key: string, more: string, rest: string, val: string)
    requires Without(pre, title) && Title(t, title) && (forall l :: l in mid ==> !Has(l, key))
    requires 61 as char !in key + more
    ensures Set(pre + [t] + mid + ([KeyLine(key, more, rest)] + post), false, title, key, val)
         == (pre + [t] + mid + ([KeyLine(key, more, [32 as char] + val + [10 as char])] + post), true)
  {
    var l, n := KeyLine(key, more, rest), KeyLine(key, more, [32 as char] + val + [10 as char]);
    LineHas(key, more, rest);
    Terms(l, title, key);
    assert Rewritten(l, val) == n;
    assert ([l] + post)[1..] == post;
    assert Set([l] + post, true, title, key, val) == ([n] + post, true);
    hide *;
    Assoc(pre, t, mid, [l] + post);
    Assoc(pre, t, mid, [n] + post);
    SetBefore(pre, [t] + (mid + ([l] + post)), title, key, val);
    SetEntered(t, mid + ([l] + post), title, key, val);
    SetIn(mid, [l] + post, title, key, val);
  }

  // ---------------------------------------------------------------- appending

  lemma {:induction false} AppendOver(ls: seq<string>, more: seq<string>, at: Where, title: string, key: string,
                                      val: string)
    requires Without(ls, title) && (at == In ==> forall l :: l in ls ==> !Heading(l) && !Has(l, key))
    ensures var r := Append(more, at, title, key, val);
            Append(ls + more, at, title, key, val) == (ls + r.0, r.1)
  {
    if ls == [] {
      assert ls + more == more && ls + Append(more, at, title, key, val).0 == Append(more, at, title, key, val).0;
    } else {
      assert (ls + more)[1..] == ls[1..] + more;
      Terms(ls[0], title, key);
      AppendOver(ls[1..], more, at, title, key, val);
      InFront(ls, Append(more, at, title, key, val).0);
    }
  }

  lemma AppendEntered(t: string, ls: seq<string>, at: Where, title: string, key: string, val: string)
    requires Title(t, title)
    ensures Append([t] + ls, at, title, key, val) == Push(t, Append(ls, In, title, key, val))
  {
    Terms(t, title, key);
    assert ([t] + ls)[1..] == ls;
  }

  /** In a section that lacks the key, the new line stands behind the section's lines, in front of the next
      heading or at the end of the file. */
  lemma AppendsLine(pre: seq<string>, t: string, mid: seq<string>, h: string, post: seq<string>, title: string,
                    key: string, val: string)
    requires Without(pre, title) && Title(t, title) && Without(mid, title)
    requires forall l :: l in mid ==> !Heading(l) && !Has(l, key)
    requires Heading(h) && !Title(h, title) && Without(post, title)
    ensures var n := key + [32 as char, 61 as char, 32 as char] + val + [10 as char];
            && Append(pre + [t] + mid + ([h] + post), Before, title, key, val)
               == (pre + [t] + mid + ([n, h] + post), true)
            && Append(pre + [t] + mid + [], Before, title, key, val) == (pre + [t] + mid + [n], true)
  {
    var n := key + [32 as char, 61 as char, 32 as char] + val + [10 as char];
    assert NewLine(key, val) == n;
    AppendsHere(h, post, title, key, val);
    assert Append([], In, title, key, val) == ([n], true);
    hide *;
    AppendsIn(pre, t, mid, [h] + post, title, key, val);
    AppendsIn(pre, t, mid, [], title, key, val);
  }

  lemma AppendsHere(h: string, post: seq<string>, title: string, key: string, val: string)
    requires Heading(h) && !Title(h, title) && Without(post, title)
    ensures Append([h] + post, In, title, key, val) == ([NewLine(key, val), h] + post, true)
  {
    Terms(h, title, key);
    AppendOver(post, [], Behind, title, key, val);
    assert post + [] == post && ([h] + post)[1..] == post;
    assert [NewLine(key, val)] + ([h] + post) == [NewLine(key, val), h] + post;
  }

  lemma AppendsIn(pre: seq<string>, t: string, mid: seq<string>, ls: seq<string>, title: string, key: string,
                  val: string)
    requires Without(pre, title) && Title(t, title) && Without(mid, title)
    requires forall l :: l in mid ==> !Heading(l) && !Has(l, key)
    ensures var r := Append(ls, In, title, key, val);
            Append(pre + [t] + mid + ls, Before, title, key, val) == (pre + [t] + mid + r.0, r.1)
  {
    hide Append, Without, Title;
    var r := Append(ls, In, title, key, val);
    Assoc(pre, t, mid, ls);
    Assoc(pre, t, mid, r.0);
    AppendOver(pre, [t] + (mid + ls), Before, title, key, val);
    AppendEntered(t, mid + ls, Before, title, key, val);
    AppendOver(mid, ls, In, title, key, val);
  }

  /** If the section has the key, nothing is appended. */
  lemma AppendsNothing(pre: seq<string>, t: string, mid: seq<string>, l: string, post: seq<string>, title: string,
                       key: string, val: string)
    requires Without(pre, title) && Title(t, title) && Without(mid, title)
    requires forall m :: m in mid ==> !Heading(m) && !Has(m, key)
    requires !Heading(l) && Has(l, key)
    ensures !Append(pre + [t] + mid + ([l] + post), Before, title, key, val).1
  {
    Terms(l, title, key);
    assert !Append([l] + post, In, title, key, val).1;
    hide *;
    AppendsIn(pre, t, mid, [l] + post, title, key, val);
  }

  // ---------------------------------------------------------------- deleting

  lemma {:induction false} DeleteOver(ls: seq<string>, more: seq<string>, at: Where, title: string, key: string)
    requires Without(ls, title) && (at == In ==> forall l :: l in ls ==> !Has(l, key))
    ensures var r := Delete(more, at, title, key);
            Delete(ls + more, at, title, key) == (ls + r.0, r.1)
  {
    if ls == [] {
      assert ls + more == more && ls + Delete(more, at, title, key).0 == Delete(more, at, title, key).0;
    } else {
      assert (ls + more)[1..] == ls[1..] + more;
      Terms(ls[0], title, key);
      DeleteOver(ls[1..], more, at, title, key);
      InFront(ls, Delete(more, at, title, key).0);
    }
  }

  lemma DeletesHere(l: string, post: seq<string>, title: string, key: string)
    requires Has(l, key) && !Title(l, title) && Without(post, title)
    ensures Delete([l] + post, In, title, key) == (post, true)
  {
    Terms(l, title, key);
    DeleteOver(post, [], Behind, title, key);
    assert post + [] == post && ([l] + post)[1..] == post;
  }

  lemma DeleteEntered(t: string, ls: seq<string>, title: string, key: string)
    requires Title(t, title)
    ensures Delete([t] + ls, Before, title, key) == Push(t, Delete(ls, In, title, key))
  {
    Terms(t, title, key);
    assert ([t] + ls)[1..] == ls;
  }

  /** The first line with the key behind the title goes, and all other lines stay. */
  lemma DeletesLine(pre: seq<string>, t: string, mid: seq<string>, l: string, post: seq<string>, title: string,
                    key: string)
    requires Without(pre, title) && Title(t, title) && Without(mid, title)
    requires (forall m :: m in mid ==> !Has(m, key)) && Has(l, key) && !Title(l, title) && Without(post, title)
    ensures Delete(pre + [t] + mid + ([l] + post), Before, title, key) == (pre + [t] + mid + post, true)
  {
    DeletesHere(l, post, title, key);
    hide *;
    Assoc(pre, t, mid, [l] + post);
    Assoc(pre, t, mid, post);
    DeleteOver(pre, [t] + (mid + ([l] + post)), Before, title, key);
    DeleteEntered(t, mid + ([l] + post), title, key);
    DeleteOver(mid, [l] + post, In, title, key);
    Pushed(t, mid + post);
  }

  lemma Pushed(t: string, ls: seq<string>)
    ensures Push(t, (ls, true)) == ([t] + ls, true)
  {
  }
}

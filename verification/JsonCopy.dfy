/** cJSON_Duplicate: a new tree, sharing no node with the old one, that represents the same value. */
module JsonCopy {
  import opened JsonText
  import opened JsonTree
  import opened JsonList

  /** The first `i` children. */
  function Prefix(v: Json, i: nat): (p: Json)
    requires (v.Array? || v.Object?) && i <= Count(v)
    ensures (p.Array? || p.Object?) && Count(p) == i
  {
    match v
    case Array(items) => Array(items[..i])
    case Object(members) => Object(members[..i])
  }

  lemma PrefixStep(v: Json, i: nat, key: string)
    requires (v.Array? || v.Object?) && i < Count(v) && (v.Object? ==> key == v.members[i].key)
    ensures Extend(Prefix(v, i), key, At(v, i)) == Prefix(v, i + 1)
  {
    if v.Array? {
      assert v.items[..i] + [v.items[i]] == v.items[..i + 1];
    } else {
      assert v.members[..i] + [Member(key, v.members[i].value)] == v.members[..i + 1];
    }
  }

  lemma PrefixWhole(v: Json)
    requires v.Array? || v.Object?
    ensures Prefix(v, Count(v)) == v
  {
  }

  /** The first copied child. */
  method HangFirst(n: CJson, c: CJson, ghost v: Json)
    requires n.Is(v) && n.kin.kids == [] && c.next == null && c.prev == null && c != n
    modifies n`child
    ensures n.Holds(v) && Chain(n.child, n.kin.kids + [c])
  {
    assert n.Holds(v);
    n.child := c;
    assert n.kin.kids + [c] == [c];
  }

  /** cJSON_Duplicate; without `recurse`, the node alone. */
  method Duplicate(item: CJson, recurse: bool, ghost v: Json) returns (n: CJson)
    requires item.Is(v)
    ensures fresh(n) && fresh(n.kin.foot) && n.next == null && n.prev == null && n.name == item.name
    ensures n !in n.kin.foot && n.kind == item.kind && n.valueint == item.valueint && n.valuestring == item.valuestring
    ensures n.kin.foot == n.Kids() + n.kin.deep
    ensures if recurse then n.Is(v) else n.Blank()
    decreases v, 2
  {
    hide CJson.Is, CJson.Holds, CJson.Family, Chain, Prefix;
    ghost var below := item.Kids() + item.kin.deep;
    n := new CJson();
    assert n !in below && item.Is(v);
    n.kind, n.valueint, n.valuestring, n.name := item.kind, item.valueint, item.valuestring, item.name;
    if recurse {
      CopiesStart(item, n, v);
      if item.child != null {
        CopyChildren(item, n, v);
      }
    }
  }

  /** A node with the same fields and no children is the copy of one without, and the start of one
      with children. */
  lemma CopiesStart(item: CJson, n: CJson, v: Json)
    requires item.Is(v) && n.Blank()
    requires n.kind == item.kind && n.valueint == item.valueint && n.valuestring == item.valuestring
    ensures item.child == null ==> n.Is(v)
    ensures item.child != null ==> Parent(item, v) && n.Is(Prefix(v, 0))
  {
    assert item.Holds(v);
    assert n.Family();
  }

  /** The walk along the children. */
  method CopyChildren(item: CJson, n: CJson, ghost v: Json)
    requires Parent(item, v) && n.Is(Prefix(v, 0)) && n.kin.kids == [] && n.kin.foot == {}
    requires n != item && n !in item.Kids() + item.kin.deep
    modifies n`child, n`kin
    ensures n.Is(v) && fresh(n.kin.foot) && n !in n.kin.foot && n.kin.foot == n.Kids() + n.kin.deep
    decreases v, 1
  {
    hide CJson.Is, CJson.Holds, CJson.Family, Prefix;
    var cptr := item.child;
    var nptr: CJson? := null;
    ghost var i := 0;
    ghost var ks := item.kin.kids;
    assert Chain(item.child, ks) by {
      ChainOf(item, v);
    }
    while cptr != null
      invariant 0 <= i <= |ks| == Count(v) && item.kin.kids == ks && Parent(item, v) && Chain(item.child, ks)
      invariant cptr == (if i < |ks| then ks[i] else null)
      invariant n.Is(Prefix(v, i)) && |n.kin.kids| == i && fresh(n.kin.foot)
      invariant nptr == (if i == 0 then null else n.kin.kids[i - 1]) && (nptr != null ==> fresh(nptr))
      decreases |ks| - i
    {
      KidIs(item, v, i);
      nptr := CopyChild(n, nptr, cptr, v, i);
      cptr := cptr.next;
      i := i + 1;
    }
    PrefixWhole(v);
    FootIs(n, v);
  }

  lemma FootIs(n: CJson, v: Json)
    requires n.Is(v)
    ensures n !in n.kin.foot && n.kin.foot == n.Kids() + n.kin.deep
  {
    assert n.Holds(v);
  }

  lemma ChainOf(item: CJson, v: Json)
    requires item.Is(v)
    ensures Chain(item.child, item.kin.kids)
  {
  }

  /** The copy of one child, linked behind the last copied one. */
  method CopyChild(n: CJson, last: CJson?, c: CJson, ghost v: Json, ghost i: nat) returns (newchild: CJson)
    requires (v.Array? || v.Object?) && i < Count(v) && c.Is(At(v, i)) && (v.Object? ==> c.name == v.members[i].key)
    requires n.Is(Prefix(v, i)) && |n.kin.kids| == i && last == (if i == 0 then null else n.kin.kids[i - 1])
    modifies n`child, n`kin, (if last == null then {} else {last})`next
    ensures n.Is(Prefix(v, i + 1)) && n.kin.kids == old(n.kin.kids) + [newchild]
    ensures fresh(newchild) && fresh(n.kin.foot - old(n.kin.foot))
    decreases v, 0
  {
    hide CJson.Is, CJson.Holds, CJson.Family, Chain, Prefix, Extend;
    ghost var below := n.Kids() + n.kin.deep;
    newchild := Duplicate(c, true, At(v, i));
    assert forall o :: o in below ==> !fresh(o);
    assert n.Is(Prefix(v, i)) && n !in newchild.kin.foot && last !in newchild.kin.foot;
    if last != null {
      SuffixObject(n, last, newchild, Prefix(v, i));
    } else {
      HangFirst(n, newchild, Prefix(v, i));
    }
    PrefixStep(v, i, newchild.name);
    Adopt(n, newchild, Prefix(v, i), At(v, i));
  }
}

/** The in-place editing of a node's child list: append, detach, insert and replace act on the
    represented array or object as the corresponding sequence operations, keep the list a
    doubly linked chain, and leave a removed node detached. */
module JsonList {
  import opened JsonText
  import opened JsonTree

  function RemoveAt(v: Json, i: nat): Json
    requires (v.Array? || v.Object?) && i < Count(v)
  {
    match v
    case Array(items) => Array(items[..i] + items[i + 1..])
    case Object(members) => Object(members[..i] + members[i + 1..])
  }

  function InsertAt(v: Json, i: nat, key: string, w: Json): Json
    requires (v.Array? || v.Object?) && i <= Count(v)
  {
    match v
    case Array(items) => Array(items[..i] + [w] + items[i..])
    case Object(members) => Object(members[..i] + [Member(key, w)] + members[i..])
  }

  function UpdateAt(v: Json, i: nat, key: string, w: Json): Json
    requires (v.Array? || v.Object?) && i < Count(v)
  {
    match v
    case Array(items) => Array(items[i := w])
    case Object(members) => Object(members[i := Member(key, w)])
  }

  /** An array or object node; its children are counted and represented one by one. */
  ghost predicate Parent(p: CJson, v: Json)
    reads p, p.Kids(), p.kin.deep
  {
    && (v.Array? || v.Object?)
    && p.Is(v) && p.Holds(v)
    && |p.kin.kids| == Count(v)
  }

  lemma KidIs(p: CJson, v: Json, i: nat)
    requires Parent(p, v) && i < Count(v)
    ensures p.kin.kids[i].Is(At(v, i))
    ensures v.Object? ==> p.kin.kids[i].name == v.members[i].key
  {
    if v.Array? {
      assert p.kin.kids[i].Is(v.items[i]);
    } else {
      assert p.kin.kids[i].Is(v.members[i].value);
    }
  }

  /** A node outside the parent's tree, with a tree of its own, hanging nowhere. */
  ghost predicate Detached(item: CJson, w: Json, parent: CJson)
    reads item, item.Kids(), item.kin.deep, parent
  {
    && item.Is(w) && item.next == null && item.prev == null
    && item != parent && item !in parent.kin.foot && parent !in item.kin.foot && item.kin.foot !! parent.kin.foot
  }

  // ---------------------------------------------------------------- walking

  method GetArraySize(parent: CJson, ghost v: Json) returns (i: nat)
    requires Parent(parent, v)
    ensures i == Count(v)
  {
    var c := parent.child;
    i := 0;
    while c != null
      invariant Chain(parent.child, parent.kin.kids)
      invariant i <= |parent.kin.kids| && c == (if i < |parent.kin.kids| then parent.kin.kids[i] else null)
      decreases |parent.kin.kids| - i
    {
      assert i < |parent.kin.kids| && c == parent.kin.kids[i];
      assert parent.kin.kids[i].next == (if i + 1 == |parent.kin.kids| then null else parent.kin.kids[i + 1]);
      i, c := i + 1, c.next;
    }
  }

  /** The walk shared by every indexed operation: a non-positive index means the first child, and
      the result is null past the end. */
  method GetArrayItem(parent: CJson, item: int, ghost v: Json) returns (c: CJson?, ghost i: nat)
    requires Parent(parent, v)
    ensures i == if item > 0 then item else 0
    ensures if i < Count(v) then c == parent.kin.kids[i] && parent.kin.kids[i].Is(At(v, i)) else c == null
  {
    i := if item > 0 then item else 0;
    c := parent.child;
    var left := item;
    ghost var at := 0;
    while c != null && left > 0
      invariant Chain(parent.child, parent.kin.kids)
      invariant at <= |parent.kin.kids| && c == (if at < |parent.kin.kids| then parent.kin.kids[at] else null)
      invariant at + (if left > 0 then left else 0) == i
      decreases |parent.kin.kids| - at
    {
      assert parent.kin.kids[at].next == (if at + 1 == |parent.kin.kids| then null else parent.kin.kids[at + 1]);
      left, c := left - 1, c.next;
      at := at + 1;
    }
    if i < Count(v) {
      KidIs(parent, v, i);
    }
  }

  method LastSibling(parent: CJson, first: CJson) returns (c: CJson)
    requires Chain(parent.child, parent.kin.kids) && parent.kin.kids != [] && first == parent.child
    ensures c == parent.kin.kids[|parent.kin.kids| - 1]
  {
    c := first;
    ghost var i := 0;
    assert parent.kin.kids[0].prev == null;
    while c.next != null
      invariant Chain(parent.child, parent.kin.kids)
      invariant 0 <= i < |parent.kin.kids| && c == parent.kin.kids[i]
      invariant c.next == (if i + 1 == |parent.kin.kids| then null else parent.kin.kids[i + 1])
      decreases |parent.kin.kids| - i
    {
      i, c := i + 1, c.next;
    }
  }

  // ---------------------------------------------------------------- editing

  method AddItemToArray(parent: CJson, item: CJson?, ghost v: Json, ghost w: Json)
    requires Parent(parent, v)
    requires item != null ==> Detached(item, w, parent)
    modifies parent`child, parent`kin, (set c | c in parent.kin.kids)`next, (if item == null then {} else {item})`prev
    ensures item == null ==> parent.Is(v) && parent.kin == old(parent.kin)
    ensures item != null ==> parent.Is(Extend(v, item.name, w))
    ensures item != null ==> parent.kin == old(parent.kin.Append(item))
  {
    if item != null {
      AddNode(parent, item, v, w);
    }
  }

  /** The node becomes the only child, or it is linked behind the last. */
  method AddNode(parent: CJson, item: CJson, ghost v: Json, ghost w: Json)
    requires Parent(parent, v) && Detached(item, w, parent)
    modifies parent`child, parent`kin, (set c | c in parent.kin.kids)`next, item`prev
    ensures parent.Is(Extend(v, item.name, w)) && parent.kin == old(parent.kin.Append(item))
  {
    hide CJson.Is, CJson.Holds, CJson.Family, Kin.Valid;
    NodeFacts(item, w);
    NodeFacts(parent, v);
    var c := parent.child;
    if c == null {
      parent.child := item;
      assert parent.kin.kids + [item] == [item];
      Adopt(parent, item, v, w);
    } else {
      c := LastSibling(parent, c);
      assert c in parent.kin.foot;
      SuffixObject(parent, c, item, v);
      Adopt(parent, item, v, w);
    }
  }

  /** The pointer updates of a removal. */
  method Unlink(parent: CJson, c: CJson, ghost ks: seq<CJson>, ghost i: nat)
    requires Chain(parent.child, ks) && Distinct(ks) && i < |ks| && c == ks[i] && parent !in ks
    modifies parent`child, (set k | k in ks)`next, (set k | k in ks)`prev
    ensures c.next == null && c.prev == null
    ensures Chain(parent.child, ks[..i] + ks[i + 1..])
  {
    assert c.prev == Nth(ks, i - 1) && c.next == Nth(ks, i + 1);
    if c.prev != null {
      c.prev.next := c.next;
    }
    if c.next != null {
      c.next.prev := c.prev;
    }
    if c == parent.child {
      parent.child := c.next;
    }
    c.prev, c.next := null, null;
    hide Chain;
    assert forall j {:trigger ks[j].next} :: 0 <= j < |ks| && j != i ==>
      ks[j].next == if j + 1 == i then Nth(ks, i + 1) else Nth(ks, j + 1);
    assert forall j {:trigger ks[j].prev} :: 0 <= j < |ks| && j != i ==>
      ks[j].prev == if j - 1 == i then Nth(ks, i - 1) else Nth(ks, j - 1);
    Rejoined(parent.child, ks, i);
  }

  function Nth(cs: seq<CJson>, j: int): CJson? {
    if 0 <= j < |cs| then cs[j] else null
  }

  lemma Rejoined(head: CJson?, ks: seq<CJson>, i: nat)
    requires i < |ks| && head == Nth(ks, if i == 0 then 1 else 0)
    requires forall j {:trigger ks[j].next} :: 0 <= j < |ks| && j != i ==>
      ks[j].next == if j + 1 == i then Nth(ks, i + 1) else Nth(ks, j + 1)
    requires forall j {:trigger ks[j].prev} :: 0 <= j < |ks| && j != i ==>
      ks[j].prev == if j - 1 == i then Nth(ks, i - 1) else Nth(ks, j - 1)
    ensures Chain(head, ks[..i] + ks[i + 1..])
  {
    var cs := ks[..i] + ks[i + 1..];
    forall j | 0 <= j < |cs|
      ensures cs[j].prev == Nth(cs, j - 1) && cs[j].next == Nth(cs, j + 1)
    {
      var k := if j < i then j else j + 1;
      assert cs[j] == ks[k];
    }
  }

  ghost function Remove(k: Kin, i: nat): Kin
    requires i < |k.kids| == |k.feet|
  {
    Kin(k.kids[..i] + k.kids[i + 1..], k.feet[..i] + k.feet[i + 1..], k.foot - {k.kids[i]} - k.feet[i],
        k.deep - k.feet[i])
  }

  lemma RemoveValid(self: CJson, k: Kin, i: nat)
    requires k.Valid(self) && i < |k.kids|
    ensures Remove(k, i).Valid(self)
  {
    var k' := Remove(k, i);
    assert forall j :: 0 <= j < |k'.kids| ==> k'.kids[j] == k.kids[if j < i then j else j + 1];
    assert forall j :: 0 <= j < |k'.feet| ==> k'.feet[j] == k.feet[if j < i then j else j + 1];
    forall c | c in k.Brood() && c != k.kids[i]
      ensures c in k'.Brood()
    {
      var j :| 0 <= j < |k.kids| && k.kids[j] == c;
      assert c == k'.kids[if j < i then j else j - 1];
    }
    assert k'.Brood() == k.Brood() - {k.kids[i]};
  }

  /** The unlinked child leaves the ghost list. */
  ghost method Release(parent: CJson, c: CJson, i: nat, v: Json)
    requires parent.Holds(v) && (v.Array? || v.Object?) && |parent.kin.kids| == Count(v)
    requires i < Count(v) && c == parent.kin.kids[i]
    requires Chain(parent.child, parent.kin.kids[..i] + parent.kin.kids[i + 1..])
    requires c.next == null && c.prev == null && c.Is(At(v, i))
    modifies parent`kin
    ensures Detached(c, At(v, i), parent) && parent.Is(RemoveAt(v, i))
    ensures parent.kin == old(Remove(parent.kin, i))
  {
    ghost var k, v' := parent.kin, RemoveAt(v, i);
    hide CJson.Family, CJson.Is, CJson.Holds, Chain, Represent, Recorded, Kin.Valid;
    KidApart(parent, c, i, v);
    HoldsIff(parent, v);
    FamilyIff(parent);
    RemoveValid(parent, k, i);
    parent.kin := Remove(k, i);
    RemoveKids(k, i, v);
    FamilyIff(parent);
    HoldsIff(parent, v');
  }

  /** Where a child and what is below it stand. */
  lemma KidApart(parent: CJson, c: CJson, i: nat, v: Json)
    requires parent.Holds(v) && (v.Array? || v.Object?) && |parent.kin.kids| == Count(v)
    requires i < Count(v) && c == parent.kin.kids[i] && c.Is(At(v, i))
    ensures |parent.kin.feet| == Count(v) && c.kin.foot == parent.kin.feet[i] <= parent.kin.foot && c in parent.kin.foot
    ensures parent !in c.kin.foot && c !in c.kin.foot && c.Kids() + c.kin.deep <= parent.kin.deep
  {
    NodeFacts(c, At(v, i));
    hide CJson.Is;
  }

  lemma RemoveKids(k: Kin, i: nat, v: Json)
    requires (v.Array? || v.Object?) && |k.kids| == |k.feet| == Count(v) && i < Count(v)
    requires Recorded(k.kids, k.feet) && Represent(k.kids, v)
    ensures Recorded(k.kids[..i] + k.kids[i + 1..], k.feet[..i] + k.feet[i + 1..])
    ensures Represent(k.kids[..i] + k.kids[i + 1..], RemoveAt(v, i))
  {
    var ks, v' := k.kids[..i] + k.kids[i + 1..], RemoveAt(v, i);
    assert Recorded(ks, k.feet[..i] + k.feet[i + 1..]);
    hide Recorded;
    forall j | 0 <= j < |ks|
      ensures ks[j].Is(At(v', j)) && (v.Object? ==> ks[j].name == v'.members[j].key)
    {
      var j0 := if j < i then j else j + 1;
      assert ks[j] == k.kids[j0] && At(v', j) == At(v, j0);
    }
  }

  method DetachItemFromArray(parent: CJson, which: int, ghost v: Json) returns (c: CJson?, ghost i: nat)
    requires Parent(parent, v)
    modifies parent`child, parent`kin
    modifies (set k | k in parent.kin.kids)`next, (set k | k in parent.kin.kids)`prev
    ensures i == if which > 0 then which else 0
    ensures i >= Count(v) ==> c == null && parent.Is(v) && parent.kin == old(parent.kin)
    ensures i < Count(v) ==> c == old(parent.kin.kids)[i] && Detached(c, At(v, i), parent)
    ensures i < Count(v) ==> parent.Is(RemoveAt(v, i)) && parent.kin == old(Remove(parent.kin, i))
  {
    hide CJson.Is, CJson.Holds, CJson.Family, Kin.Valid, Chain;
    NodeFacts(parent, v);
    c, i := GetArrayItem(parent, which, v);
    if c != null {
      KidApart(parent, c, i, v);
      Unlink(parent, c, parent.kin.kids, i);
      Release(parent, c, i, v);
    }
  }

  // ---------------------------------------------------------------- insert

  ghost function Insert(k: Kin, i: nat, n: CJson, below: set<CJson>): Kin
    requires i < |k.kids| == |k.feet|
  {
    Kin(k.kids[..i] + [n] + k.kids[i..], k.feet[..i] + [below] + k.feet[i..], k.foot + {n} + below,
        k.deep + below)
  }

  lemma InsertValid(self: CJson, k: Kin, i: nat, n: CJson, below: set<CJson>)
    requires k.Valid(self) && i < |k.kids| && n != self && self !in below && n !in below
    requires n !in k.foot && k.foot !! below
    ensures var k' := Insert(k, i, n, below);
            && k'.Valid(self) && k'.kids[i] == n && k'.feet[i] == below
            && (forall j :: 0 <= j < |k'.kids| && j != i ==> k'.kids[j] == k.kids[if j < i then j else j - 1])
            && (forall j :: 0 <= j < |k'.kids| && j != i ==> k'.feet[j] == k.feet[if j < i then j else j - 1])
  {
    var k' := Insert(k, i, n, below);
    assert k'.Brood() == k.Brood() + {n};
  }

  lemma InsertRecorded(k: Kin, i: nat, n: CJson)
    requires |k.kids| == |k.feet| && i < |k.kids| && Recorded(k.kids, k.feet)
    requires n.Kids() <= n.kin.foot && n.kin.deep <= n.kin.foot
    ensures var k' := Insert(k, i, n, n.kin.foot);
            |k'.kids| == |k'.feet| && Recorded(k'.kids, k'.feet)
  {
  }

  lemma InsertRepresent(ks: seq<CJson>, i: nat, n: CJson, v: Json, w: Json)
    requires (v.Array? || v.Object?) && i < Count(v) && Represent(ks, v) && n.Is(w)
    ensures Represent(ks[..i] + [n] + ks[i..], InsertAt(v, i, n.name, w))
  {
    var ks', v' := ks[..i] + [n] + ks[i..], InsertAt(v, i, n.name, w);
    forall j | 0 <= j < |ks'|
      ensures ks'[j].Is(At(v', j)) && (v.Object? ==> ks'[j].name == v'.members[j].key)
    {
      if j != i {
        var j0 := if j < i then j else j - 1;
        assert ks'[j] == ks[j0] && At(v', j) == At(v, j0);
      }
    }
  }

  /** The pointer updates of an insertion before `c`. */
  method LinkBefore(parent: CJson, c: CJson, n: CJson, ghost ks: seq<CJson>, ghost i: nat)
    requires Chain(parent.child, ks) && Distinct(ks) && i < |ks| && c == ks[i] && parent !in ks
    requires n !in ks && n != parent
    modifies parent`child, n`next, n`prev, c`prev, (set k | k in ks)`next
    ensures Chain(parent.child, ks[..i] + [n] + ks[i..])
  {
    assert c.prev == Nth(ks, i - 1);
    n.next := c;
    n.prev := c.prev;
    c.prev := n;
    if c == parent.child {
      parent.child := n;
    } else {
      n.prev.next := n;
    }
    ghost var cs := ks[..i] + [n] + ks[i..];
    assert forall j :: 0 <= j < |cs| ==> cs[j] == if j < i then ks[j] else if j == i then n else ks[j - 1];
  }

  /** The newly linked child enters the ghost list at an index. */
  ghost method AdoptAt(parent: CJson, n: CJson, i: nat, v: Json, w: Json)
    requires parent.Holds(v) && (v.Array? || v.Object?) && |parent.kin.kids| == Count(v) && i < Count(v)
    requires n.Is(w) && n != parent && parent !in n.kin.foot && n !in parent.kin.foot && n.kin.foot !! parent.kin.foot
    requires Chain(parent.child, parent.kin.kids[..i] + [n] + parent.kin.kids[i..])
    modifies parent`kin
    ensures parent.Is(InsertAt(v, i, n.name, w)) && parent.kin == Insert(old(parent.kin), i, n, n.kin.foot)
  {
    hide Kin.Valid, CJson.Family, CJson.Is, CJson.Holds, Chain, Represent, Recorded, Insert, InsertAt;
    InsertReady(parent, n, i, v, w);
    ghost var v' := InsertAt(v, i, n.name, w);
    parent.kin := Insert(parent.kin, i, n, n.kin.foot);
    FamilyIff(parent);
    HoldsIff(parent, v');
    IsIff(parent, v');
  }

  lemma InsertReady(parent: CJson, n: CJson, i: nat, v: Json, w: Json)
    requires parent.Holds(v) && (v.Array? || v.Object?) && |parent.kin.kids| == Count(v) && i < Count(v)
    requires n.Is(w) && n != parent && parent !in n.kin.foot && n !in parent.kin.foot && n.kin.foot !! parent.kin.foot
    ensures |parent.kin.feet| == |parent.kin.kids| && parent.kind == (if v.Array? then KArray else KObject)
    ensures var k', v' := Insert(parent.kin, i, n, n.kin.foot), InsertAt(v, i, n.name, w);
            && |k'.kids| == |k'.feet| && k'.kids == parent.kin.kids[..i] + [n] + parent.kin.kids[i..]
            && k'.Valid(parent) && Recorded(k'.kids, k'.feet) && Clear(k'.kids, parent)
            && (v'.Array? <==> v.Array?) && (v'.Object? <==> v.Object?) && Represent(k'.kids, v')
  {
    hide Kin.Valid, CJson.Family, CJson.Is, CJson.Holds, Chain, Represent, Recorded;
    var k := parent.kin;
    NodeFacts(n, w);
    HoldsFacts(parent, v);
    HoldsIff(parent, v);
    FamilyIff(parent);
    InsertValid(parent, k, i, n, n.kin.foot);
    InsertRecorded(k, i, n);
    InsertRepresent(k.kids, i, n, v, w);
    ClearWith(k.kids, n, parent, Insert(k, i, n, n.kin.foot).kids);
  }

  method InsertItemInArray(parent: CJson, which: int, newitem: CJson, ghost v: Json, ghost w: Json)
    requires Parent(parent, v) && Detached(newitem, w, parent)
    modifies parent`child, parent`kin, newitem`next, newitem`prev
    modifies (set k | k in parent.kin.kids)`next, (set k | k in parent.kin.kids)`prev
    ensures var i := if which > 0 then which else 0;
            if i < Count(v) then
              parent.Is(InsertAt(v, i, newitem.name, w))
              && parent.kin == Insert(old(parent.kin), i, newitem, newitem.kin.foot)
            else parent.Is(Extend(v, newitem.name, w)) && parent.kin == old(parent.kin.Append(newitem))
  {
    hide CJson.Is, CJson.Holds, CJson.Family, Kin.Valid, Chain;
    NodeFacts(newitem, w);
    NodeFacts(parent, v);
    var c, i := GetArrayItem(parent, which, v);
    if c == null {
      AddItemToArray(parent, newitem, v, w);
    } else {
      LinkBefore(parent, c, newitem, parent.kin.kids, i);
      AdoptAt(parent, newitem, i, v, w);
    }
  }

  // ---------------------------------------------------------------- replace

  ghost function Update(k: Kin, i: nat, n: CJson, below: set<CJson>): Kin
    requires i < |k.kids| == |k.feet|
  {
    Kin(k.kids[i := n], k.feet[i := below], k.foot - {k.kids[i]} - k.feet[i] + {n} + below,
        k.deep - k.feet[i] + below)
  }

  lemma UpdateValid(self: CJson, k: Kin, i: nat, n: CJson, below: set<CJson>)
    requires k.Valid(self) && i < |k.kids| && n != self && self !in below && n !in below
    requires n !in k.foot && k.foot !! below
    ensures var k' := Update(k, i, n, below);
            k'.Valid(self) && k'.kids == k.kids[i := n] && k'.feet == k.feet[i := below]
  {
    var k' := Update(k, i, n, below);
    forall c | c in k.Brood() && c != k.kids[i]
      ensures c in k'.Brood()
    {
      var j :| 0 <= j < |k.kids| && k.kids[j] == c;
      assert c == k'.kids[j];
    }
    assert n == k'.kids[i];
    assert k'.Brood() == k.Brood() - {k.kids[i]} + {n};
  }

  /** The pointer updates of a replacement of `c`. */
  method LinkInstead(parent: CJson, c: CJson, n: CJson, ghost ks: seq<CJson>, ghost i: nat)
    requires Chain(parent.child, ks) && Distinct(ks) && i < |ks| && c == ks[i] && parent !in ks
    requires n !in ks && n != parent
    modifies parent`child, n`next, n`prev, (set k | k in ks)`next, (set k | k in ks)`prev
    ensures c.next == null && c.prev == null
    ensures Chain(parent.child, ks[i := n])
  {
    assert c.prev == Nth(ks, i - 1) && c.next == Nth(ks, i + 1);
    n.next := c.next;
    n.prev := c.prev;
    if n.next != null {
      n.next.prev := n;
    }
    if c == parent.child {
      parent.child := n;
    } else {
      n.prev.next := n;
    }
    c.next, c.prev := null, null;
  }

  /** The replacing node takes the replaced one's place in the ghost list. */
  ghost method Exchange(parent: CJson, c: CJson, n: CJson, i: nat, v: Json, w: Json)
    requires parent.Holds(v) && (v.Array? || v.Object?) && |parent.kin.kids| == Count(v) && i < Count(v)
    requires c == parent.kin.kids[i] && c.next == null && c.prev == null && c.Is(At(v, i))
    requires n.Is(w) && n != parent && parent !in n.kin.foot && n !in parent.kin.foot && n.kin.foot !! parent.kin.foot
    requires Chain(parent.child, parent.kin.kids[i := n])
    modifies parent`kin
    ensures parent.Is(UpdateAt(v, i, n.name, w)) && parent.kin == Update(old(parent.kin), i, n, n.kin.foot)
    ensures Detached(c, At(v, i), parent)
  {
    hide Kin.Valid, CJson.Family, CJson.Is, CJson.Holds, Chain, Represent, Recorded;
    ghost var k, v' := parent.kin, UpdateAt(v, i, n.name, w);
    NodeFacts(c, At(v, i));
    HoldsFacts(parent, v);
    NodeFacts(n, w);
    ExchangeReady(parent, c, n, i, v, w);
    ClearWith(k.kids, n, parent, k.kids[i := n]);
    parent.kin := Update(k, i, n, n.kin.foot);
    FamilyIff(parent);
    HoldsIff(parent, v');
    IsIff(parent, v');
  }

  lemma ExchangeReady(parent: CJson, c: CJson, n: CJson, i: nat, v: Json, w: Json)
    requires parent.Holds(v) && (v.Array? || v.Object?) && |parent.kin.kids| == Count(v) && i < Count(v)
    requires c == parent.kin.kids[i] && c.Is(At(v, i))
    requires n.Is(w) && n != parent && parent !in n.kin.foot && n !in parent.kin.foot && n.kin.foot !! parent.kin.foot
    ensures |parent.kin.feet| == |parent.kin.kids| && parent.kind == (if v.Array? then KArray else KObject)
    ensures var k' := Update(parent.kin, i, n, n.kin.foot);
            && k'.Valid(parent) && Recorded(k'.kids, k'.feet) && k'.kids == parent.kin.kids[i := n]
            && Represent(k'.kids, UpdateAt(v, i, n.name, w))
            && c.kin.foot !! k'.foot && c !in k'.foot && parent !in c.kin.foot
  {
    hide Kin.Valid, CJson.Family, CJson.Is, CJson.Holds, Chain, Represent, Recorded;
    var k := parent.kin;
    NodeFacts(n, w);
    KidApart(parent, c, i, v);
    HoldsIff(parent, v);
    FamilyIff(parent);
    UpdateValid(parent, k, i, n, n.kin.foot);
    UpdateKids(k, i, n, v, w);
    assert c != n;
  }

  lemma UpdateKids(k: Kin, i: nat, n: CJson, v: Json, w: Json)
    requires (v.Array? || v.Object?) && |k.kids| == |k.feet| == Count(v) && i < Count(v)
    requires Recorded(k.kids, k.feet) && Represent(k.kids, v)
    requires n.Is(w) && n.Kids() <= n.kin.foot && n.kin.deep <= n.kin.foot
    ensures Recorded(k.kids[i := n], k.feet[i := n.kin.foot])
    ensures Represent(k.kids[i := n], UpdateAt(v, i, n.name, w))
  {
  }

  /** The replacement of a child that was found. */
  method ReplaceChild(parent: CJson, c: CJson, newitem: CJson, ghost i: nat, ghost v: Json, ghost w: Json)
    requires Parent(parent, v) && Detached(newitem, w, parent) && i < Count(v) && c == parent.kin.kids[i]
    modifies parent`child, parent`kin, newitem`next, newitem`prev
    modifies (set k | k in parent.kin.kids)`next, (set k | k in parent.kin.kids)`prev
    ensures parent.Is(UpdateAt(v, i, newitem.name, w)) && Detached(c, At(v, i), parent)
    ensures parent.kin == Update(old(parent.kin), i, newitem, newitem.kin.foot)
  {
    hide CJson.Is, CJson.Holds, CJson.Family, Kin.Valid, Chain;
    KidIs(parent, v, i);
    NodeFacts(newitem, w);
    NodeFacts(parent, v);
    KidApart(parent, c, i, v);
    LinkInstead(parent, c, newitem, parent.kin.kids, i);
    Exchange(parent, c, newitem, i, v, w);
  }

  /** Replaces the indexed child; the replaced node `c` is left detached (the code then frees it). */
  method ReplaceItemInArray(parent: CJson, which: int, newitem: CJson, ghost v: Json, ghost w: Json) returns (c: CJson?)
    requires Parent(parent, v) && Detached(newitem, w, parent)
    modifies parent`child, parent`kin, newitem`next, newitem`prev
    modifies (set k | k in parent.kin.kids)`next, (set k | k in parent.kin.kids)`prev
    ensures var i := if which > 0 then which else 0;
            if i < Count(v) then
              && parent.Is(UpdateAt(v, i, newitem.name, w))
              && parent.kin == Update(old(parent.kin), i, newitem, newitem.kin.foot)
              && c == old(parent.kin.kids)[i] && Detached(c, At(v, i), parent)
            else parent.Is(v) && parent.kin == old(parent.kin) && c == null
  {
    hide CJson.Is, CJson.Holds, CJson.Family, Kin.Valid, Chain;
    NodeFacts(newitem, w);
    NodeFacts(parent, v);
    ghost var i;
    c, i := GetArrayItem(parent, which, v);
    if c != null {
      ReplaceChild(parent, c, newitem, i, v, w);
    }
  }
}

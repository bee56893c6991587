/** The size-class allocator of alloc.c: blocks carved once from one arena, kept in a free queue per
    class when they are freed, with the system's malloc behind it.  Addresses are numbers and 0 is
    the null pointer; a block is a header of two words and its payload. */
module Alloc {
  import opened Powers

  /** sizeof(WebsAlloc) with 32-bit pointers. */
  const HEADER := 8

  const MAX_CLASS := 13
  const WEBS_SHIFT := 4

  /** The values that the flag word takes: WEBS_INTEGRITY, that with WEBS_MALLOCED, WEBS_FILL_WORD. */
  datatype Flags = InUse | InUseMalloced | Fill

  // ---------------------------------------------------------------- classes

  function Payload(q: nat): (n: nat)
    ensures n > 0
  {
    Pow2(WEBS_SHIFT + q)
  }

  function BitLength(n: nat): nat {
    if n == 0 then 0 else 1 + BitLength(n / 2)
  }

  function Class(size: nat): nat {
    BitLength(if size == 0 then 0 else (size - 1) / 16)
  }

  lemma {:induction false} BitLengthBounds(n: nat)
    ensures n < Pow2(BitLength(n)) && (n > 0 ==> Pow2(BitLength(n) - 1) <= n)
  {
    if n > 0 {
      BitLengthBounds(n / 2);
    }
  }

  lemma PayloadIs(q: nat)
    ensures Payload(q) == 16 * Pow2(q)
  {
    Pow2Add(WEBS_SHIFT, q);
    assert Pow2(4) == 16 * Pow2(0);
  }

  /** The class of a size is the least whose blocks hold it. */
  lemma ClassIsLeast(size: nat, q: nat)
    ensures size <= Payload(q) <==> Class(size) <= q
  {
    var n := if size == 0 then 0 else (size - 1) / 16;
    BitLengthBounds(n);
    PayloadIs(q);
    var l := BitLength(n);
    if l <= q {
      Pow2Grows(l, q);
    } else {
      Pow2Grows(q, l - 1);
    }
  }

  lemma {:induction false} Pow2Grows(a: nat, b: nat)
    requires a <= b
    ensures Pow2(a) <= Pow2(b)
  {
    if a < b {
      Pow2Grows(a, b - 1);
    }
  }

  lemma ClassOfPayload(q: nat)
    ensures Class(Payload(q)) == q
  {
    ClassIsLeast(Payload(q), q);
    if q > 0 {
      assert Payload(q) == 2 * Payload(q - 1);
      ClassIsLeast(Payload(q), q - 1);
    }
  }

  /** A class's blocks hold 16 times a power of two, and the classes reach up to 65536 bytes. */
  lemma ClassNumbers(size: nat, q: nat)
    ensures Payload(q) == 16 * Pow2(q)
    ensures Class(size) <= q <==> size <= 16 * Pow2(q)
    ensures Class(size) < MAX_CLASS <==> size <= 65536
  {
    PayloadIs(q);
    ClassIsLeast(size, q);
    ClassIsLeast(size, 12);
    PayloadIs(12);
    Pow2Add(6, 6);
    Pow2Add(3, 3);
    assert Pow2(3) == 8;
  }

  /** wallocGetSize. */
  method GetSize(size: nat) returns (memSize: nat, q: nat)
    ensures q == Class(size) && memSize == Payload(q) + HEADER
  {
    var mask: nat := if size == 0 then 0 else (size - 1) / 16;
    ghost var whole := mask;
    q := 0;
    while mask > 0
      invariant q + BitLength(mask) == BitLength(whole)
    {
      q := q + 1;
      mask := mask / 2;
    }
    memSize := Pow2(WEBS_SHIFT + q) + HEADER;
  }

  // ---------------------------------------------------------------- the arena

  /** An arena block: where its header is, and its class. */
  datatype Block = Block(addr: nat, q: nat)

  function Carved(blocks: seq<Block>): nat {
    if blocks == [] then 0
    else Carved(blocks[..|blocks| - 1]) + HEADER + Payload(blocks[|blocks| - 1].q)
  }

  /** The account of the arena: its blocks in order of address, the index of each, those in use,
      and the queues of those that are not. */
  datatype Book = Book(blocks: seq<Block>, index: map<nat, nat>, live: set<nat>, queues: seq<seq<nat>>)

  /** The headers by address: the union of size and next pointer, and the flags. */
  datatype Headers = Headers(u: map<nat, nat>, flags: map<nat, Flags>) {
    predicate Reads(a: nat, value: nat, flag: Flags) {
      a in u && u[a] == value && a in flags && flags[a] == flag
    }

    function Put(a: nat, value: nat, flag: Flags): Headers {
      Headers(u[a := value], flags[a := flag])
    }
  }

  function First(xs: seq<nat>, j: nat): nat {
    if j < |xs| then xs[j] else 0
  }

  ghost predicate Indexed(b: Book) {
    && (forall i :: 0 <= i < |b.blocks| ==> b.blocks[i].addr in b.index && b.index[b.blocks[i].addr] == i)
    && (forall a :: a in b.index ==> b.index[a] < |b.blocks| && b.blocks[b.index[a]].addr == a)
  }

  ghost function Q(b: Book, a: nat): nat
    requires Indexed(b) && a in b.index
  {
    b.blocks[b.index[a]].q
  }

  /** The blocks exactly tile the arena from `base` to `next`. */
  ghost predicate Tiled(b: Book, base: nat, next: nat) {
    && 0 < base && next == base + Carved(b.blocks)
    && forall i :: 0 <= i < |b.blocks| ==>
         b.blocks[i].q < MAX_CLASS && b.blocks[i].addr == base + Carved(b.blocks[..i])
  }

  /** A block of the arena is in use, or it is in the queue of its class. */
  ghost predicate Placed(b: Book, h: Headers)
    requires Indexed(b)
  {
    && |b.queues| == MAX_CLASS && b.live <= b.index.Keys
    && (forall a :: a in b.index && a !in b.live ==> Q(b, a) < MAX_CLASS && a in b.queues[Q(b, a)])
    && (forall a :: a in b.live ==> h.Reads(a, Payload(Q(b, a)), InUse))
  }

  /** An unused block of class `k`, with `next` after it in its queue. */
  ghost predicate Unused(b: Book, h: Headers, k: nat, a: nat, next: nat)
    requires Indexed(b)
  {
    0 < a && a in b.index && Q(b, a) == k && a !in b.live && h.Reads(a, next, Fill)
  }

  /** A queue is a list of different unused blocks of its class, linked through their headers. */
  ghost predicate Queue(b: Book, h: Headers, k: nat)
    requires Indexed(b) && k < |b.queues|
  {
    var xs := b.queues[k];
    && (forall j :: 0 <= j < |xs| ==> Unused(b, h, k, xs[j], First(xs, j + 1)))
    && (forall i, j :: 0 <= i < j < |xs| ==> xs[i] != xs[j])
  }

  ghost predicate Queued(b: Book, h: Headers, heads: seq<nat>)
    requires Indexed(b)
  {
    && |heads| == |b.queues| == MAX_CLASS
    && forall k :: 0 <= k < MAX_CLASS ==> heads[k] == First(b.queues[k], 0) && Queue(b, h, k)
  }

  /** The system's blocks are outside the arena and apart from each other. */
  ghost predicate Outside(b: Book, h: Headers, system: map<nat, nat>, base: nat, size: nat) {
    && (forall a :: a in system ==>
          && 0 < a && (a + HEADER + Payload(system[a]) <= base || base + size <= a)
          && a !in b.index && h.Reads(a, Payload(system[a]), InUseMalloced))
    && (forall a, c :: a in system && c in system && a < c ==> a + HEADER + Payload(system[a]) <= c)
  }

  // ---------------------------------------------------------------- what each step keeps

  /** The first block of a queue is taken. */
  function TakeBook(b: Book, q: nat): Book
    requires q < |b.queues| && b.queues[q] != []
  {
    b.(live := b.live + {b.queues[q][0]}, queues := b.queues[q := b.queues[q][1..]])
  }

  lemma TakeKeeps(b: Book, h: Headers, heads: seq<nat>, q: nat)
    requires Indexed(b) && Placed(b, h) && Queued(b, h, heads) && q < MAX_CLASS && b.queues[q] != []
    ensures var (b', h', a) := (TakeBook(b, q), h.Put(b.queues[q][0], Payload(q), InUse), b.queues[q][0]);
            && heads[q] == a && a in b.index && a !in b.live && Q(b, a) == q && h.Reads(a, First(b.queues[q], 1), Fill)
            && Indexed(b') && Placed(b', h') && Queued(b', h', heads[q := First(b.queues[q], 1)])
  {
    assert Queue(b, h, q);
    TakePlaced(b, h, q);
    hide Payload, Placed;
    forall k | 0 <= k < MAX_CLASS
      ensures heads[q := First(b.queues[q], 1)][k] == First(TakeBook(b, q).queues[k], 0)
      ensures Queue(TakeBook(b, q), h.Put(b.queues[q][0], Payload(q), InUse), k)
    {
      assert Queue(b, h, k);
      TakeQueue(b, h, q, k);
    }
  }

  lemma TakePlaced(b: Book, h: Headers, q: nat)
    requires Indexed(b) && Placed(b, h) && q < |b.queues| && b.queues[q] != [] && Queue(b, h, q)
    ensures Placed(TakeBook(b, q), h.Put(b.queues[q][0], Payload(q), InUse))
  {
    hide Payload;
    var b', xs := TakeBook(b, q), b.queues[q];
    assert xs[0] in b.index && Q(b, xs[0]) == q;
    forall c | c in b'.index && c !in b'.live
      ensures Q(b', c) < MAX_CLASS && c in b'.queues[Q(b', c)]
    {
      assert c in b.queues[Q(b, c)];
      InTail(xs, c);
    }
  }

  lemma InTail(xs: seq<nat>, c: nat)
    requires xs != []
    ensures c in xs && c != xs[0] ==> c in xs[1..]
  {
    if c in xs && c != xs[0] {
      var j :| 0 <= j < |xs| && xs[j] == c;
      assert xs[1..][j - 1] == c;
    }
  }

  lemma TakeQueue(b: Book, h: Headers, q: nat, k: nat)
    requires Indexed(b) && q < |b.queues| && k < |b.queues| && b.queues[q] != [] && Queue(b, h, k) && Queue(b, h, q)
    ensures Queue(TakeBook(b, q), h.Put(b.queues[q][0], Payload(q), InUse), k)
  {
    var a, xs := b.queues[q][0], b.queues[k];
    var b', h' := TakeBook(b, q), h.Put(a, Payload(q), InUse);
    var ys := b'.queues[k];
    var o := if k == q then 1 else 0;
    assert Unused(b, h, q, a, First(b.queues[q], 1));
    assert ys == xs[o..];
    forall j | 0 <= j < |ys|
      ensures Unused(b', h', k, ys[j], First(ys, j + 1)) && ys[j] != a
    {
      assert Unused(b, h, k, xs[j + o], First(xs, j + o + 1));
      StaysUnused(b, h, b', k, xs[j + o], First(xs, j + o + 1), a, Payload(q), InUse);
    }
    hide Unused, Payload;
    forall i, j | 0 <= i < j < |ys|
      ensures ys[i] != ys[j]
    {
      assert xs[i + o] != xs[j + o];
    }
  }

  lemma StaysUnused(b: Book, h: Headers, b': Book, k: nat, a: nat, next: nat, c: nat, value: nat, flag: Flags)
    requires Indexed(b) && Unused(b, h, k, a, next)
    requires b'.index == b.index && b'.blocks == b.blocks && a !in b'.live && a != c
    ensures Indexed(b') && Unused(b', h.Put(c, value, flag), k, a, next)
  {
  }

  /** A block is put at the front of its queue. */
  function GiveBook(b: Book, q: nat, a: nat): Book
    requires q < |b.queues|
  {
    b.(live := b.live - {a}, queues := b.queues[q := [a] + b.queues[q]])
  }

  lemma GivenFirst(b: Book, q: nat, a: nat)
    requires q < |b.queues|
    ensures q < |GiveBook(b, q, a).queues| && First(GiveBook(b, q, a).queues[q], 0) == a
  {
  }

  lemma GiveKeeps(b: Book, h: Headers, heads: seq<nat>, a: nat)
    requires Indexed(b) && Placed(b, h) && Queued(b, h, heads) && a in b.live && Q(b, a) < MAX_CLASS && 0 < a
    ensures var (q, b') := (Q(b, a), GiveBook(b, Q(b, a), a));
            var h' := h.Put(a, heads[q], Fill);
            Indexed(b') && Placed(b', h') && Queued(b', h', heads[q := a])
  {
    var q := Q(b, a);
    var b', h' := GiveBook(b, q, a), h.Put(a, heads[q], Fill);
    assert Queue(b, h, q);
    hide Payload;
    forall k | 0 <= k < MAX_CLASS
      ensures heads[q := a][k] == First(b'.queues[k], 0) && Queue(b', h', k)
    {
      assert Queue(b, h, k);
      GiveQueue(b, h, a, heads[q], k);
    }
    forall c | c in b'.index && c !in b'.live
      ensures Q(b', c) < MAX_CLASS && c in b'.queues[Q(b', c)]
    {
      if c != a {
        assert c in b.queues[Q(b, c)];
      }
    }
  }

  lemma GiveQueue(b: Book, h: Headers, a: nat, head: nat, k: nat)
    requires Indexed(b) && a in b.live && a in b.index && Q(b, a) < |b.queues| && 0 < a && k < |b.queues|
    requires Queue(b, h, k) && head == First(b.queues[Q(b, a)], 0)
    ensures Queue(GiveBook(b, Q(b, a), a), h.Put(a, head, Fill), k)
  {
    if k == Q(b, a) {
      GiveOwn(b, h, a, head);
    } else {
      var xs, b' := b.queues[k], GiveBook(b, Q(b, a), a);
      forall j | 0 <= j < |xs|
        ensures Unused(b', h.Put(a, head, Fill), k, xs[j], First(xs, j + 1))
      {
        assert Unused(b, h, k, xs[j], First(xs, j + 1));
        StaysUnused(b, h, b', k, xs[j], First(xs, j + 1), a, head, Fill);
      }
    }
  }

  lemma GiveOwn(b: Book, h: Headers, a: nat, head: nat)
    requires Indexed(b) && a in b.live && a in b.index && Q(b, a) < |b.queues| && 0 < a
    requires Queue(b, h, Q(b, a)) && head == First(b.queues[Q(b, a)], 0)
    ensures Queue(GiveBook(b, Q(b, a), a), h.Put(a, head, Fill), Q(b, a))
  {
    var q := Q(b, a);
    var b', h', xs := GiveBook(b, q, a), h.Put(a, head, Fill), b.queues[q];
    var ys := b'.queues[q];
    assert ys == [a] + xs && First(ys, 1) == head;
    forall j | 0 <= j < |ys|
      ensures Unused(b', h', q, ys[j], First(ys, j + 1)) && (j > 0 ==> ys[j] != a)
    {
      if j > 0 {
        assert Unused(b, h, q, xs[j - 1], First(xs, j));
        StaysUnused(b, h, b', q, xs[j - 1], First(xs, j), a, head, Fill);
      }
    }
    hide Unused;
    forall i, j | 0 <= i < j < |ys|
      ensures ys[i] != ys[j]
    {
      assert ys[j] == xs[j - 1] && (i > 0 ==> ys[i] == xs[i - 1]);
    }
  }

  /** A block is carved at the free end. */
  function CarveBook(b: Book, q: nat, a: nat): Book {
    b.(blocks := b.blocks + [Block(a, q)], index := b.index[a := |b.blocks|], live := b.live + {a})
  }

  lemma CarveKeeps(b: Book, h: Headers, heads: seq<nat>, base: nat, next: nat, q: nat)
    requires Indexed(b) && Placed(b, h) && Queued(b, h, heads) && Tiled(b, base, next) && q < MAX_CLASS
    ensures var (b', h') := (CarveBook(b, q, next), h.Put(next, Payload(q), InUse));
            && next !in b.index && 0 < next
            && Indexed(b') && Placed(b', h') && Queued(b', h', heads) && Tiled(b', base, next + HEADER + Payload(q))
            && forall c :: c in b.index ==> Q(b', c) == Q(b, c)
  {
    var b', h' := CarveBook(b, q, next), h.Put(next, Payload(q), InUse);
    hide *;
    NextIsNew(b, base, next);
    CarveTiled(b, base, next, q);
    CarveIndexed(b, next, q);
    CarvePlaced(b, h, next, q);
    CarveQueued(b, h, heads, next, q);
  }

  lemma CarveQueued(b: Book, h: Headers, heads: seq<nat>, next: nat, q: nat)
    requires Indexed(b) && next !in b.index && Indexed(CarveBook(b, q, next)) && Queued(b, h, heads)
    requires forall c :: c in b.index ==> Q(CarveBook(b, q, next), c) == Q(b, c)
    ensures Queued(CarveBook(b, q, next), h.Put(next, Payload(q), InUse), heads)
  {
    hide Indexed, Payload, Queue;
    var b' := CarveBook(b, q, next);
    forall k | 0 <= k < MAX_CLASS
      ensures heads[k] == First(b'.queues[k], 0) && Queue(b', h.Put(next, Payload(q), InUse), k)
    {
      assert Queue(b, h, k);
      CarveQueue(b, h, next, q, k);
    }
  }

  lemma CarvePlaced(b: Book, h: Headers, next: nat, q: nat)
    requires Indexed(b) && next !in b.index && Indexed(CarveBook(b, q, next)) && Placed(b, h)
    requires Q(CarveBook(b, q, next), next) == q
    requires forall c :: c in b.index ==> Q(CarveBook(b, q, next), c) == Q(b, c)
    ensures Placed(CarveBook(b, q, next), h.Put(next, Payload(q), InUse))
  {
    hide Indexed, Payload;
    var b' := CarveBook(b, q, next);
    forall c | c in b'.index && c !in b'.live
      ensures Q(b', c) < MAX_CLASS && c in b'.queues[Q(b', c)]
    {
      assert c in b.index && c in b.queues[Q(b, c)];
    }
  }

  lemma NextIsNew(b: Book, base: nat, next: nat)
    requires Indexed(b) && Tiled(b, base, next)
    ensures next !in b.index && 0 < next
  {
    if next in b.index {
      BlockBefore(b, base, next, b.index[next]);
    }
  }

  lemma BlockBefore(b: Book, base: nat, next: nat, i: nat)
    requires Tiled(b, base, next) && i < |b.blocks|
    ensures b.blocks[i].addr < next
    decreases |b.blocks| - i
  {
    BlockEnds(b, base, next, i);
    if i + 1 < |b.blocks| {
      BlockBefore(b, base, next, i + 1);
    }
  }

  lemma CarveTiled(b: Book, base: nat, next: nat, q: nat)
    requires Tiled(b, base, next) && q < MAX_CLASS
    ensures Tiled(CarveBook(b, q, next), base, next + HEADER + Payload(q))
  {
    var bs := CarveBook(b, q, next).blocks;
    assert bs[..|b.blocks|] == b.blocks;
    forall i | 0 <= i < |b.blocks|
      ensures bs[..i] == b.blocks[..i]
    {
    }
  }

  lemma CarveIndexed(b: Book, next: nat, q: nat)
    requires Indexed(b) && next !in b.index
    ensures Indexed(CarveBook(b, q, next)) && Q(CarveBook(b, q, next), next) == q
    ensures forall c :: c in b.index ==> Q(CarveBook(b, q, next), c) == Q(b, c)
  {
  }

  lemma CarveQueue(b: Book, h: Headers, next: nat, q: nat, k: nat)
    requires Indexed(b) && next !in b.index && Indexed(CarveBook(b, q, next)) && k < |b.queues| && Queue(b, h, k)
    requires forall c :: c in b.index ==> Q(CarveBook(b, q, next), c) == Q(b, c)
    ensures Queue(CarveBook(b, q, next), h.Put(next, Payload(q), InUse), k)
  {
    hide Indexed, Payload;
    var b', xs := CarveBook(b, q, next), b.queues[k];
    forall j | 0 <= j < |xs|
      ensures Unused(b', h.Put(next, Payload(q), InUse), k, xs[j], First(xs, j + 1))
    {
      assert Unused(b, h, k, xs[j], First(xs, j + 1));
      assert xs[j] in b.index && Q(b', xs[j]) == Q(b, xs[j]);
    }
    hide Unused;
  }

  /** A block ends where the next begins, or at the free end. */
  lemma {:induction false} BlockEnds(b: Book, base: nat, next: nat, i: nat)
    requires Tiled(b, base, next) && i < |b.blocks|
    ensures b.blocks[i].addr + HEADER + Payload(b.blocks[i].q)
         == (if i + 1 < |b.blocks| then b.blocks[i + 1].addr else next)
  {
    hide Payload;
    assert b.blocks[..i + 1][..i] == b.blocks[..i];
    if i + 1 == |b.blocks| {
      assert b.blocks[..i + 1] == b.blocks;
    }
  }

  /** Every arena block lies between the ends of what has been carved. */
  lemma InArena(b: Book, base: nat, next: nat, a: nat)
    requires Indexed(b) && Tiled(b, base, next) && a in b.index
    ensures base <= a && a + HEADER + Payload(Q(b, a)) <= next
  {
    var i := b.index[a];
    BlockEnds(b, base, next, i);
    if i + 1 < |b.blocks| {
      BlockBefore(b, base, next, i + 1);
    }
  }

  /** Two arena blocks do not overlap. */
  lemma {:induction false} Apart(b: Book, base: nat, next: nat, i: nat, j: nat)
    requires Tiled(b, base, next) && i < j < |b.blocks|
    ensures b.blocks[i].addr + HEADER + Payload(b.blocks[i].q) <= b.blocks[j].addr
    decreases j - i
  {
    BlockEnds(b, base, next, i);
    if i + 1 < j {
      Apart(b, base, next, i + 1, j);
    }
  }

  /** A header outside the arena's blocks is no concern of theirs. */
  lemma ElsewhereKeeps(b: Book, h: Headers, heads: seq<nat>, a: nat, value: nat, flag: Flags)
    requires Indexed(b) && Placed(b, h) && Queued(b, h, heads) && a !in b.index
    ensures Placed(b, h.Put(a, value, flag)) && Queued(b, h.Put(a, value, flag), heads)
  {
    hide Indexed, Payload;
    forall k | 0 <= k < MAX_CLASS
      ensures Queue(b, h.Put(a, value, flag), k)
    {
      assert Queue(b, h, k);
    }
  }

  /** A header in the arena is no concern of the system's blocks. */
  lemma OutsideKeeps(b: Book, h: Headers, system: map<nat, nat>, base: nat, size: nat,
                     b': Book, a: nat, value: nat, flag: Flags)
    requires Outside(b, h, system, base, size)
    requires base <= a < base + size && b'.index.Keys <= b.index.Keys + {a}
    ensures Outside(b', h.Put(a, value, flag), system, base, size)
  {
    hide Payload;
  }

  /** A block that the system gives joins the others. */
  lemma SystemGrows(b: Book, h: Headers, system: map<nat, nat>, base: nat, size: nat, a: nat, q: nat)
    requires Outside(b, h, system, base, size) && 0 < a && a !in b.index
    requires a + HEADER + Payload(q) <= base || base + size <= a
    requires forall c :: c in system ==> a + HEADER + Payload(q) <= c || c + HEADER + Payload(system[c]) <= a
    ensures a !in system && Outside(b, h.Put(a, Payload(q), InUseMalloced), system[a := q], base, size)
  {
    hide Payload;
  }

  /** All of it. */
  ghost predicate Sound(b: Book, h: Headers, heads: seq<nat>, system: map<nat, nat>, base: nat, size: nat, next: nat) {
    && Indexed(b) && Placed(b, h) && Queued(b, h, heads) && Tiled(b, base, next) && next <= base + size
    && Outside(b, h, system, base, size)
  }

  /** The class of an arena block. */
  ghost function ClassOf(b: Book, a: nat): nat {
    if a in b.index && b.index[a] < |b.blocks| then b.blocks[b.index[a]].q else 0
  }

  lemma SoundBlock(b: Book, h: Headers, heads: seq<nat>, system: map<nat, nat>, base: nat, size: nat, next: nat, a: nat)
    requires Sound(b, h, heads, system, base, size, next) && a in b.index
    ensures 0 < base <= a < a + HEADER + Payload(ClassOf(b, a)) <= next && a !in system && ClassOf(b, a) < MAX_CLASS
  {
    InArena(b, base, next, a);
    hide Payload;
  }

  lemma SoundInUse(b: Book, h: Headers, heads: seq<nat>, system: map<nat, nat>, base: nat, size: nat, next: nat, a: nat)
    requires Sound(b, h, heads, system, base, size, next) && (a in b.live || a in system)
    ensures a in b.live ==> a in b.index && h.Reads(a, Payload(ClassOf(b, a)), InUse)
    ensures a in system ==> a !in b.live && a !in b.index && 0 < a && h.Reads(a, Payload(system[a]), InUseMalloced)
  {
    hide Payload;
  }

  lemma SoundHead(b: Book, h: Headers, heads: seq<nat>, system: map<nat, nat>, base: nat, size: nat, next: nat, q: nat)
    requires Sound(b, h, heads, system, base, size, next) && q < MAX_CLASS
    ensures |heads| == |b.queues| == MAX_CLASS && heads[q] == First(b.queues[q], 0)
    ensures b.queues[q] != [] ==> heads[q] in b.index && heads[q] in h.u && heads[q] > 0
  {
    hide Payload;
    assert Queue(b, h, q);
  }

  lemma SoundTake(b: Book, h: Headers, heads: seq<nat>, system: map<nat, nat>, base: nat, size: nat, next: nat, q: nat)
    requires Sound(b, h, heads, system, base, size, next)
    requires q < MAX_CLASS && |b.queues| == MAX_CLASS && b.queues[q] != []
    ensures |heads| == MAX_CLASS && heads[q] == b.queues[q][0] && heads[q] !in b.live && heads[q] !in system
    ensures heads[q] in h.u && 0 < heads[q]
    ensures Sound(TakeBook(b, q), h.Put(heads[q], Payload(q), InUse), heads[q := h.u[heads[q]]],
                  system, base, size, next)
  {
    hide Payload;
    TakeKeeps(b, h, heads, q);
    SoundBlock(b, h, heads, system, base, size, next, heads[q]);
    OutsideKeeps(b, h, system, base, size, TakeBook(b, q), heads[q], Payload(q), InUse);
    hide Indexed, Placed, Queued, Tiled, Outside;
  }

  lemma SoundCarve(b: Book, h: Headers, heads: seq<nat>, system: map<nat, nat>, base: nat, size: nat, next: nat, q: nat)
    requires Sound(b, h, heads, system, base, size, next) && q < MAX_CLASS
    requires next + HEADER + Payload(q) < base + size
    ensures next !in b.live && next !in system && 0 < next
    ensures Sound(CarveBook(b, q, next), h.Put(next, Payload(q), InUse), heads,
                  system, base, size, next + HEADER + Payload(q))
  {
    CarveKeeps(b, h, heads, base, next, q);
    FreeEnd(b, h, heads, system, base, size, next);
    OutsideKeeps(b, h, system, base, size, CarveBook(b, q, next), next, Payload(q), InUse);
    hide Indexed, Queued, Tiled, Outside, Payload;
  }

  /** The free part of the arena holds no block. */
  lemma FreeEnd(b: Book, h: Headers, heads: seq<nat>, system: map<nat, nat>, base: nat, size: nat, next: nat)
    requires Sound(b, h, heads, system, base, size, next) && next < base + size
    ensures base <= next && next !in system
  {
    hide Payload;
  }

  lemma SoundGive(b: Book, h: Headers, heads: seq<nat>, system: map<nat, nat>, base: nat, size: nat, next: nat, a: nat)
    requires Sound(b, h, heads, system, base, size, next) && a in b.live
    ensures var q := ClassOf(b, a);
            && q < MAX_CLASS == |b.queues| == |heads| && a !in system
            && Sound(GiveBook(b, q, a), h.Put(a, heads[q], Fill), heads[q := a], system, base, size, next)
  {
    hide Payload;
    var q := ClassOf(b, a);
    SoundInUse(b, h, heads, system, base, size, next, a);
    SoundBlock(b, h, heads, system, base, size, next, a);
    SoundHead(b, h, heads, system, base, size, next, q);
    GiveKeeps(b, h, heads, a);
    OutsideKeeps(b, h, system, base, size, GiveBook(b, q, a), a, heads[q], Fill);
    hide Indexed, Placed, Queued, Tiled, Outside;
  }

  lemma SoundSystem(b: Book, h: Headers, heads: seq<nat>, system: map<nat, nat>, base: nat, size: nat, next: nat,
                    a: nat, q: nat)
    requires Sound(b, h, heads, system, base, size, next) && 0 < a
    requires a + HEADER + Payload(q) <= base || base + size <= a
    requires forall c :: c in system ==> a + HEADER + Payload(q) <= c || c + HEADER + Payload(system[c]) <= a
    ensures a !in b.live && a !in system
    ensures Sound(b, h.Put(a, Payload(q), InUseMalloced), heads, system[a := q], base, size, next)
  {
    if a in b.index {
      SoundBlock(b, h, heads, system, base, size, next, a);
    }
    SystemGrows(b, h, system, base, size, a, q);
    ElsewhereKeeps(b, h, heads, a, Payload(q), InUseMalloced);
    hide Indexed, Queued, Tiled, Outside, Payload;
  }

  lemma SoundFree(b: Book, h: Headers, heads: seq<nat>, system: map<nat, nat>, base: nat, size: nat, next: nat, a: nat)
    requires Sound(b, h, heads, system, base, size, next) && a in system
    ensures a !in b.live && Sound(b, h, heads, system - {a}, base, size, next)
  {
    hide Payload, Queued, Tiled;
  }

  // ---------------------------------------------------------------- contents

  function Load(d: map<nat, int>, a: nat): int {
    if a in d then d[a] else 0
  }

  function Bytes(d: map<nat, int>, from: nat, n: nat): (bytes: seq<int>)
    ensures |bytes| == n
  {
    if n == 0 then [] else Bytes(d, from, n - 1) + [Load(d, from + n - 1)]
  }

  function CopyTo(d: map<nat, int>, dst: nat, src: nat, n: nat): map<nat, int> {
    if n == 0 then d else CopyTo(d, dst, src, n - 1)[dst + n - 1 := Load(d, src + n - 1)]
  }

  lemma {:induction false} CopyToAt(d: map<nat, int>, dst: nat, src: nat, n: nat, a: nat)
    ensures Load(CopyTo(d, dst, src, n), a) == if dst <= a < dst + n then Load(d, src + (a - dst)) else Load(d, a)
  {
    if n > 0 {
      CopyToAt(d, dst, src, n - 1, a);
    }
  }

  lemma {:induction false} CopyToBytes(d: map<nat, int>, dst: nat, src: nat, n: nat)
    ensures Bytes(CopyTo(d, dst, src, n), dst, n) == Bytes(d, src, n)
  {
    CopiedUpTo(d, dst, src, n, n);
  }

  lemma {:induction false} CopiedUpTo(d: map<nat, int>, dst: nat, src: nat, n: nat, k: nat)
    requires k <= n
    ensures Bytes(CopyTo(d, dst, src, n), dst, k) == Bytes(d, src, k)
  {
    if k > 0 {
      CopiedUpTo(d, dst, src, n, k - 1);
      CopyToAt(d, dst, src, n, dst + k - 1);
    }
  }

  lemma {:induction false} CopyToElsewhere(d: map<nat, int>, dst: nat, src: nat, n: nat, from: nat, k: nat)
    requires from + k <= dst || dst + n <= from
    ensures Bytes(CopyTo(d, dst, src, n), from, k) == Bytes(d, from, k)
  {
    if k > 0 {
      CopyToElsewhere(d, dst, src, n, from, k - 1);
      CopyToAt(d, dst, src, n, from + k - 1);
    }
  }

  // ---------------------------------------------------------------- the allocator

  class Allocator {
    const freeBuf: nat
    const freeSize: nat
    var freeNext: nat
    var freeLeft: nat
    const useMalloc: bool
    const qhead: array<nat>
    var h: Headers
    /** The bytes of payloads, by address. */
    var data: map<nat, int>
    /** The blocks that the system's malloc has given out, with their classes. */
    var system: map<nat, nat>
    ghost var b: Book
    /** How often the system's malloc has given nothing. */
    ghost var refusals: nat

    ghost predicate Valid()
      reads this, qhead
    {
      Sound(b, h, qhead[..], system, freeBuf, freeSize, freeNext) && freeNext + freeLeft == freeBuf + freeSize
    }

    /** The blocks in use, by header address. */
    ghost function InUseSet(): set<nat>
      reads this
    {
      b.live + system.Keys
    }

    /** What a block in use holds: the size that its header keeps. */
    ghost function Held(a: nat): nat
      reads this
    {
      if a in h.u then h.u[a] else 0
    }

    /** wopenAlloc, on `bufsize` bytes at `buf`. */
    constructor (buf: nat, bufsize: nat, useMalloc: bool)
      requires buf > 0
      ensures Valid() && fresh(qhead) && InUseSet() == {} && b.blocks == [] && freeLeft == bufsize
      ensures freeBuf == buf && freeSize == bufsize && this.useMalloc == useMalloc
    {
      freeBuf, freeNext, freeSize, freeLeft := buf, buf, bufsize, bufsize;
      this.useMalloc := useMalloc;
      qhead := new nat[MAX_CLASS](_ => 0);
      h, data, system := Headers(map[], map[]), map[], map[];
      b := Book([], map[], {}, seq(MAX_CLASS, _ => []));
      refusals := 0;
    }

    /** walloc: the first block of the class's queue, or else one carved from the arena if it leaves some of
        it free, or else one from the system if that is wanted; or none, which has one of three reasons, and
        then nothing has changed. */
    method Walloc(size: int) returns (mp: nat)
      requires Valid() && size <= 0x4000_0000
      modifies this`h, this`b, this`freeNext, this`freeLeft, this`system, this`refusals, qhead
      ensures Valid()
      ensures mp == 0 ==> size < 0 || !useMalloc || refusals > old(refusals)
      ensures old(b).live <= b.live
      ensures !useMalloc ==> system == old(system)
      ensures mp == 0 ==> b == old(b) && system == old(system) && freeLeft == old(freeLeft)
      ensures mp != 0 ==>
                && 0 <= size <= Payload(Class(size)) && mp >= HEADER && mp - HEADER !in old(InUseSet())
                && InUseSet() == old(InUseSet()) + {mp - HEADER} && Held(mp - HEADER) == Payload(Class(size))
      ensures 0 <= size && Class(size) < MAX_CLASS ==>
                && |old(b).queues| == MAX_CLASS
                && (old(b).queues[Class(size)] != [] ==>
                      mp == old(b).queues[Class(size)][0] + HEADER && b == TakeBook(old(b), Class(size)))
                && (old(b).queues[Class(size)] == [] && old(freeLeft) > Payload(Class(size)) + HEADER ==>
                      mp == old(freeNext) + HEADER && b == CarveBook(old(b), Class(size), old(freeNext)))
                && (old(b).queues[Class(size)] == [] && old(freeLeft) <= Payload(Class(size)) + HEADER ==> b == old(b))
      ensures 0 <= size && Class(size) >= MAX_CLASS ==> b == old(b)
      ensures forall a :: a in old(InUseSet()) ==> Held(a) == old(Held(a))
    {
      hide Sound, Class, Payload, TakeBook, CarveBook;
      if size < 0 {
        return 0;
      }
      var memSize, q := GetSize(size);
      ClassIsLeast(size, q);
      if q >= MAX_CLASS {
        mp := 0;
        if useMalloc {
          mp := FromSystem(q);
        }
      } else {
        SoundHead(b, h, qhead[..], system, freeBuf, freeSize, freeNext, q);
        mp := FromClass(memSize, q);
      }
    }

    method FromClass(memSize: nat, q: nat) returns (mp: nat)
      requires Valid() && q < MAX_CLASS == |b.queues| && qhead.Length == MAX_CLASS && memSize == Payload(q) + HEADER
      requires qhead[q] == First(b.queues[q], 0) && (b.queues[q] != [] ==> qhead[q] > 0)
      modifies this`h, this`b, this`freeNext, this`freeLeft, this`system, this`refusals, qhead
      ensures Valid()
      ensures mp == 0 ==> b == old(b) && system == old(system) && freeLeft == old(freeLeft)
      ensures mp == 0 ==> !useMalloc || refusals > old(refusals)
      ensures old(b).live <= b.live
      ensures !useMalloc ==> system == old(system)
      ensures mp != 0 ==>
                && mp >= HEADER && mp - HEADER !in old(InUseSet())
                && InUseSet() == old(InUseSet()) + {mp - HEADER} && Held(mp - HEADER) == Payload(q)
      ensures old(b).queues[q] != [] ==> mp == old(b).queues[q][0] + HEADER && b == TakeBook(old(b), q)
      ensures old(b).queues[q] == [] && old(freeLeft) > Payload(q) + HEADER ==>
                mp == old(freeNext) + HEADER && b == CarveBook(old(b), q, old(freeNext))
      ensures old(b).queues[q] == [] && old(freeLeft) <= Payload(q) + HEADER ==> b == old(b)
      ensures forall a :: a in old(InUseSet()) ==> Held(a) == old(Held(a))
    {
      hide Sound, Payload, TakeBook, CarveBook;
      if qhead[q] != 0 {
        mp := FromQueue(q);
      } else if freeLeft > memSize {
        mp := Carve(q);
      } else {
        mp := 0;
        if useMalloc {
          mp := FromSystem(q);
        }
      }
    }

    /** The first block of the queue leaves it. */
    method FromQueue(q: nat) returns (mp: nat)
      requires Valid() && q < MAX_CLASS && |b.queues| == MAX_CLASS && b.queues[q] != [] && qhead.Length == MAX_CLASS
      modifies this`h, this`b, qhead
      ensures Valid() && mp == old(b).queues[q][0] + HEADER && b == TakeBook(old(b), q) && old(b).live <= b.live
      ensures mp - HEADER !in old(InUseSet()) && InUseSet() == old(InUseSet()) + {mp - HEADER}
      ensures Held(mp - HEADER) == Payload(q)
      ensures forall a :: a in old(InUseSet()) ==> Held(a) == old(Held(a))
    {
      hide Sound, Payload;
      ghost var heads := qhead[..];
      SoundTake(b, h, heads, system, freeBuf, freeSize, freeNext, q);
      var bp: nat := qhead[q];
      assert bp == heads[q];
      qhead[q] := h.u[bp];
      assert qhead[..] == heads[q := h.u[bp]];
      h := h.Put(bp, Payload(q), InUse);
      b := TakeBook(b, q);
      mp := bp + HEADER;
    }

    /** A new block from the free end of the arena. */
    method Carve(q: nat) returns (mp: nat)
      requires Valid() && q < MAX_CLASS && freeLeft > Payload(q) + HEADER
      modifies this`h, this`b, this`freeNext, this`freeLeft
      ensures Valid() && mp == old(freeNext) + HEADER && b == CarveBook(old(b), q, old(freeNext))
      ensures old(b).live <= b.live
      ensures mp - HEADER !in old(InUseSet()) && InUseSet() == old(InUseSet()) + {mp - HEADER}
      ensures Held(mp - HEADER) == Payload(q)
      ensures forall a :: a in old(InUseSet()) ==> Held(a) == old(Held(a))
    {
      hide Sound, Payload;
      SoundCarve(b, h, qhead[..], system, freeBuf, freeSize, freeNext, q);
      var bp: nat := freeNext;
      freeNext := freeNext + (HEADER + Payload(q));
      freeLeft := freeLeft - (HEADER + Payload(q));
      h := h.Put(bp, Payload(q), InUse);
      b := CarveBook(b, q, bp);
      mp := bp + HEADER;
    }

    /** A block from the system, if it gives one. */
    method FromSystem(q: nat) returns (mp: nat)
      requires Valid()
      modifies this`h, this`system, this`refusals
      ensures Valid() && (mp == 0 ==> system == old(system) && refusals > old(refusals))
      ensures mp != 0 ==>
                && mp >= HEADER && mp - HEADER !in old(InUseSet()) && InUseSet() == old(InUseSet()) + {mp - HEADER}
                && Held(mp - HEADER) == Payload(q)
      ensures forall a :: a in old(InUseSet()) ==> Held(a) == old(Held(a))
    {
      hide Sound, Payload;
      var bp: nat := Malloc(HEADER + Payload(q));
      if bp == 0 {
        return 0;
      }
      SoundSystem(b, h, qhead[..], system, freeBuf, freeSize, freeNext, bp, q);
      h := h.Put(bp, Payload(q), InUseMalloced);
      system := system[bp := q];
      mp := bp + HEADER;
    }

    /** malloc: any bytes that are outside the arena and not given out, or none. */
    method Malloc(n: nat) returns (bp: nat)
      modifies this`refusals
      ensures bp == 0 ==> refusals > old(refusals)
      ensures bp != 0 ==> && (bp + n <= freeBuf || freeBuf + freeSize <= bp)
                          && forall a :: a in system ==> bp + n <= a || a + HEADER + Payload(system[a]) <= bp
    {
      bp := *;
      if !((bp + n <= freeBuf || freeBuf + freeSize <= bp)
           && forall a :: a in system ==> bp + n <= a || a + HEADER + Payload(system[a]) <= bp) {
        bp := 0;
      }
      if bp == 0 {
        refusals := refusals + 1;
      }
    }

    /** wfree of a block in use: to the front of the queue of its class, or back to the system. */
    method Wfree(mp: nat)
      requires Valid() && (mp == 0 || (mp >= HEADER && mp - HEADER in InUseSet()))
      modifies this`h, this`b, this`system, qhead
      ensures Valid() && (mp == 0 ==> b == old(b) && system == old(system))
      ensures mp != 0 ==> InUseSet() == old(InUseSet()) - {mp - HEADER}
      ensures mp != 0 && mp - HEADER in old(b).live ==>
                var (a, q) := (mp - HEADER, Class(old(Held(mp - HEADER))));
                q < MAX_CLASS == |old(b).queues| && b == GiveBook(old(b), q, a) && system == old(system)
      ensures mp != 0 && mp - HEADER !in old(b).live ==> b == old(b)
      ensures forall a :: a in InUseSet() ==> Held(a) == old(Held(a))
    {
      hide Sound, Payload, Class, GiveBook;
      if mp == 0 {
        return;
      }
      var bp: nat := mp - HEADER;
      SoundInUse(b, h, qhead[..], system, freeBuf, freeSize, freeNext, bp);
      var memSize, q := GetSize(h.u[bp]);
      if h.flags[bp] == InUseMalloced {
        SoundFree(b, h, qhead[..], system, freeBuf, freeSize, freeNext, bp);
        system := system - {bp};
        return;
      }
      ClassOfPayload(ClassOf(b, bp));
      ToQueue(bp, q);
    }

    method ToQueue(bp: nat, q: nat)
      requires Valid() && bp in b.live && q == ClassOf(b, bp)
      modifies this`h, this`b, qhead
      ensures Valid() && q < |old(b).queues| == MAX_CLASS && b == GiveBook(old(b), q, bp)
      ensures InUseSet() == old(InUseSet()) - {bp}
      ensures forall a :: a in InUseSet() ==> Held(a) == old(Held(a))
    {
      hide Sound, ClassOf;
      ghost var heads := qhead[..];
      SoundGive(b, h, heads, system, freeBuf, freeSize, freeNext, bp);
      h := h.Put(bp, qhead[q], Fill);
      qhead[q] := bp;
      assert qhead[..] == heads[q := bp];
      b := GiveBook(b, q, bp);
    }

    /** memcpy between two places that do not overlap. */
    method CopyBytes(dst: nat, src: nat, n: nat)
      requires dst + n <= src || src + n <= dst
      modifies this`data
      ensures data == CopyTo(old(data), dst, src, n)
    {
      for i := 0 to n
        invariant data == CopyTo(old(data), dst, src, i)
      {
        CopyToAt(old(data), dst, src, i, src + i);
        data := data[dst + i := Load(data, src + i)];
      }
    }

    /** wrealloc: the block itself if it holds enough, or else the one that walloc gives, with the same
        contents, and the old block stands at the front of its queue; where walloc gives none, nothing has
        changed.  No other block in use is touched. */
    method Wrealloc(mp: nat, newsize: int) returns (newbuf: nat)
      requires Valid() && newsize <= 0x4000_0000 && (mp == 0 || (mp >= HEADER && mp - HEADER in InUseSet()))
      modifies this, qhead
      ensures Valid()
      ensures newbuf == 0 ==> b == old(b) && system == old(system) && data == old(data)
      ensures newbuf == 0 ==> (mp == 0 && newsize < 0) || !useMalloc || refusals > old(refusals)
      ensures newbuf != 0 ==> newbuf >= HEADER && newsize <= Held(newbuf - HEADER)
      ensures newbuf != 0 && mp == 0 ==> InUseSet() == old(InUseSet()) + {newbuf - HEADER}
      ensures newbuf != 0 && mp != 0 ==>
                && InUseSet() == old(InUseSet()) - {mp - HEADER} + {newbuf - HEADER}
                && var size := old(Held(mp - HEADER)); Bytes(data, newbuf, size) == Bytes(old(data), mp, size)
      ensures mp != 0 && newsize <= old(Held(mp - HEADER)) ==>
                newbuf == mp && b == old(b) && system == old(system) && data == old(data)
      ensures 0 <= newsize && Class(newsize) < MAX_CLASS && (mp == 0 || newsize > old(Held(mp - HEADER))) ==>
                && |old(b).queues| == MAX_CLASS
                && (old(b).queues[Class(newsize)] != [] ==> newbuf == old(b).queues[Class(newsize)][0] + HEADER)
                && (old(b).queues[Class(newsize)] == [] && old(freeLeft) > Payload(Class(newsize)) + HEADER ==>
                      newbuf == old(freeNext) + HEADER)
      ensures newbuf != 0 && newbuf != mp && mp != 0 && mp - HEADER in old(b).live ==>
                var q := Class(old(Held(mp - HEADER))); q < |b.queues| && First(b.queues[q], 0) == mp - HEADER
      ensures forall a :: a in old(InUseSet()) && a + HEADER != mp ==>
                && a in InUseSet() && Held(a) == old(Held(a))
                && Bytes(data, a + HEADER, Held(a)) == Bytes(old(data), a + HEADER, Held(a))
    {
      hide Sound, Class, Payload, GiveBook, TakeBook, CarveBook;
      if mp == 0 {
        newbuf := Walloc(newsize);
        return;
      }
      var bp: nat := mp - HEADER;
      var size := SizeOf(bp);
      if size >= newsize {
        return mp;
      }
      newbuf := Walloc(newsize);
      if newbuf != 0 {
        Move(newbuf, mp, size);
      }
    }

    function SizeOf(a: nat): (n: nat)
      requires Valid() && a in InUseSet()
      reads this, qhead
      ensures n == Held(a)
    {
      SoundInUse(b, h, qhead[..], system, freeBuf, freeSize, freeNext, a);
      h.u[a]
    }

    /** The contents go to the new block, and the old one is freed. */
    method Move(newbuf: nat, mp: nat, size: nat)
      requires Valid() && HEADER <= newbuf && HEADER <= mp && newbuf != mp
      requires newbuf - HEADER in InUseSet() && mp - HEADER in InUseSet()
      requires size == Held(mp - HEADER) <= Held(newbuf - HEADER)
      modifies this`data, this`h, this`b, this`system, qhead
      ensures Valid() && InUseSet() == old(InUseSet()) - {mp - HEADER}
      ensures mp - HEADER in old(b).live ==>
                Class(size) < |b.queues| && First(b.queues[Class(size)], 0) == mp - HEADER
      ensures Bytes(data, newbuf, size) == Bytes(old(data), mp, size)
      ensures forall a :: a in InUseSet() ==> Held(a) == old(Held(a))
      ensures forall a :: a in InUseSet() && a + HEADER != newbuf ==>
                Bytes(data, a + HEADER, Held(a)) == Bytes(old(data), a + HEADER, Held(a))
    {
      hide Sound, Class, Payload, GiveBook, TakeBook, CarveBook;
      forall a | a in InUseSet() && a + HEADER != newbuf
        ensures newbuf + Held(newbuf - HEADER) <= a || a + HEADER + Held(a) <= newbuf - HEADER
      {
        InUseApart(newbuf - HEADER, a);
      }
      CopyBytes(newbuf, mp, size);
      CopyToBytes(old(data), newbuf, mp, size);
      forall a | a in InUseSet() && a + HEADER != newbuf
        ensures Bytes(data, a + HEADER, Held(a)) == Bytes(old(data), a + HEADER, Held(a))
      {
        CopyToElsewhere(old(data), newbuf, mp, size, a + HEADER, Held(a));
      }
      Wfree(mp);
      if mp - HEADER in old(b).live {
        GivenFirst(old(b), Class(size), mp - HEADER);
      }
    }

    /** Two blocks in use do not overlap. */
    lemma InUseApart(a: nat, c: nat)
      requires Valid() && a in InUseSet() && c in InUseSet() && a != c
      ensures a + HEADER + Held(a) <= c || c + HEADER + Held(c) <= a
    {
      hide Sound;
      if a < c {
        SoundApart(b, h, qhead[..], system, freeBuf, freeSize, freeNext, a, c);
      } else {
        SoundApart(b, h, qhead[..], system, freeBuf, freeSize, freeNext, c, a);
      }
    }

    /** What is freed first is given out first: a freed block of the arena is the next one that any
        request for its class gets. */
    method FreeThenAllocate(mp: nat, size: nat) returns (again: nat)
      requires Valid() && mp >= HEADER && mp - HEADER in b.live && size <= 0x4000_0000
      requires Class(size) == Class(Held(mp - HEADER))
      modifies this, qhead
      ensures Valid() && again == mp && InUseSet() == old(InUseSet()) && b.queues == old(b).queues
    {
      hide Sound, Class, Payload;
      Wfree(mp);
      again := Walloc(size);
      assert b.queues == old(b).queues;
    }
  }

  /** Blocks in use are apart, wherever they are. */
  lemma SoundApart(b: Book, h: Headers, heads: seq<nat>, system: map<nat, nat>, base: nat, size: nat, next: nat,
                   a: nat, c: nat)
    requires Sound(b, h, heads, system, base, size, next) && a < c
    requires (a in b.live || a in system) && (c in b.live || c in system)
    ensures a in h.u && c in h.u && a + HEADER + h.u[a] <= c
  {
    SoundInUse(b, h, heads, system, base, size, next, a);
    SoundInUse(b, h, heads, system, base, size, next, c);
    if a in b.live {
      SoundBlock(b, h, heads, system, base, size, next, a);
      if c in b.live {
        ArenaApart(b, base, next, a, c);
      } else {
        hide Payload, Indexed, Placed, Queued, Tiled;
      }
    } else {
      if c in b.live {
        SoundBlock(b, h, heads, system, base, size, next, c);
      }
      hide Payload, Indexed, Placed, Queued, Tiled;
    }
  }

  lemma ArenaApart(b: Book, base: nat, next: nat, a: nat, c: nat)
    requires Indexed(b) && Tiled(b, base, next) && a in b.index && c in b.index && a < c
    ensures a + HEADER + Payload(ClassOf(b, a)) <= c
  {
    if b.index[a] < b.index[c] {
      Apart(b, base, next, b.index[a], b.index[c]);
    } else if b.index[c] < b.index[a] {
      Apart(b, base, next, b.index[c], b.index[a]);
    }
  }

  /** The account of the arena in every state: the blocks carved follow one another without gap or
      overlap from the start of the arena to its free end, and together with what is left make up
      the arena; each is in use, or else it is in the queue of its class, whose payload is 2^(4+q). */
  lemma ArenaAccount(s: Allocator, i: nat)
    requires s.Valid() && i < |s.b.blocks|
    ensures Carved(s.b.blocks) + s.freeLeft == s.freeSize
    ensures var x := s.b.blocks[i];
            && x.addr + HEADER + Payload(x.q) == (if i + 1 < |s.b.blocks| then s.b.blocks[i + 1].addr else s.freeNext)
            && x.q < |s.b.queues| == MAX_CLASS && (i == 0 ==> x.addr == s.freeBuf)
            && (x.addr in s.b.live <==> x.addr !in s.b.queues[x.q])
  {
    hide Sound;
    SoundPlace(s.b, s.h, s.qhead[..], s.system, s.freeBuf, s.freeSize, s.freeNext, i);
  }

  lemma SoundPlace(b: Book, h: Headers, heads: seq<nat>, system: map<nat, nat>, base: nat, size: nat, next: nat, i: nat)
    requires Sound(b, h, heads, system, base, size, next) && i < |b.blocks|
    ensures next == base + Carved(b.blocks)
    ensures var x := b.blocks[i];
            && x.addr + HEADER + Payload(x.q) == (if i + 1 < |b.blocks| then b.blocks[i + 1].addr else next)
            && x.q < |b.queues| == MAX_CLASS && (i == 0 ==> x.addr == base)
            && (x.addr in b.live <==> x.addr !in b.queues[x.q])
  {
    BlockEnds(b, base, next, i);
    hide Payload;
    var x := b.blocks[i];
    assert Q(b, x.addr) == x.q;
    assert Queue(b, h, x.q);
  }

  /** No block is in two places of the queues. */
  lemma QueuesApart(s: Allocator, k: nat, j: nat, l: nat, m: nat)
    requires s.Valid() && k < MAX_CLASS && l < MAX_CLASS && |s.b.queues| == MAX_CLASS
    requires j < |s.b.queues[k]| && m < |s.b.queues[l]| && (k != l || j != m)
    ensures s.b.queues[k][j] != s.b.queues[l][m]
  {
    hide Payload;
    assert Queue(s.b, s.h, k) && Queue(s.b, s.h, l);
    assert Unused(s.b, s.h, k, s.b.queues[k][j], First(s.b.queues[k], j + 1));
    assert Unused(s.b, s.h, l, s.b.queues[l][m], First(s.b.queues[l], m + 1));
  }
}

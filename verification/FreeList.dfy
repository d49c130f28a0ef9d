/** The heap of user/umalloc.c in units of one Header: the free nodes, the live blocks,
    the ptr and size fields stored in headers, and the units sbrk has handed out. */
module FreeList {

  /** Address of the static header `base`; the data segment lies below the heap. */
  const BASE := 1

  datatype Heap = Heap(
    free: set<int>,          // nodes of the free list, BASE included
    live: set<int>,          // headers of blocks handed to the program
    ptr: map<int, int>,
    size: map<int, int>)

  /** ptr leads from a to the next higher node, and from the highest one back to BASE. */
  ghost predicate Linked(h: Heap, a: int)
  {
    && a in h.ptr && h.ptr[a] in h.free
    && (if h.ptr[a] > a then forall c :: c in h.free ==> c <= a || c >= h.ptr[a]
        else h.ptr[a] == BASE && forall c :: c in h.free ==> c <= a)
  }

  /** The block at a ends before every block above it begins. */
  ghost predicate Apart(h: Heap, a: int)
    requires a in h.size
  {
    && a >= BASE && (if a == BASE then h.size[a] == 0 else h.size[a] >= 1)
    && (forall b :: b in h.free && a < b ==> a + h.size[a] <= b)
    && (forall b :: b in h.live && a < b ==> a + h.size[a] <= b)
  }

  /** The free block at a does not touch the next free block. */
  ghost predicate Gap(h: Heap, a: int)
    requires a in h.size
  {
    a != BASE ==> a + h.size[a] !in h.free
  }

  /** A circular, address-ordered list of blocks that overlap no live block and no other. */
  ghost predicate Ordered(h: Heap)
  {
    && BASE in h.free && h.free !! h.live
    && h.free <= h.ptr.Keys && h.free <= h.size.Keys && h.live <= h.size.Keys
    && (forall a {:trigger Apart(h, a)} :: a in h.free ==> Apart(h, a))
    && (forall a {:trigger Apart(h, a)} :: a in h.live ==> Apart(h, a))
    && (forall a {:trigger Linked(h, a)} :: a in h.free ==> Linked(h, a))
  }

  /** ... and coalesced. */
  ghost predicate Coalesced(h: Heap)
    requires h.free <= h.size.Keys
  {
    forall a {:trigger Gap(h, a)} :: a in h.free ==> Gap(h, a)
  }

  ghost predicate Wf(h: Heap) { Ordered(h) && Coalesced(h) }

  /** Unit u belongs to some block, free or live. */
  ghost predicate Covered(h: Heap, u: int)
  {
    exists b :: (b in h.free || b in h.live) && b in h.size && b <= u < b + h.size[b]
  }

  ghost predicate SameCover(h: Heap, h': Heap)
  {
    forall u :: Covered(h', u) <==> Covered(h, u)
  }

  /** Free plus live units are exactly the given ones. */
  ghost predicate Tiles(h: Heap, units: set<int>)
  {
    forall u :: u in units <==> Covered(h, u)
  }

  /** No unit belongs to two blocks. */
  lemma BlocksAreDisjoint(h: Heap, a: int, b: int, u: int)
    requires Ordered(h) && (a in h.free || a in h.live) && (b in h.free || b in h.live) && a != b
    ensures !(a <= u < a + h.size[a] && b <= u < b + h.size[b])
  {
    assert Apart(h, a) && Apart(h, b);
  }

  // ---- walking the circle ----

  /** The nodes met from p through q. */
  ghost function From(free: set<int>, p: int, q: int): set<int>
  {
    if p <= q then set c | c in free && p <= c <= q
    else (set c | c in free && p <= c) + (set c | c in free && c <= q)
  }

  lemma FromNext(h: Heap, p: int, q: int)
    requires Ordered(h) && p in h.free && q in h.free && p != q
    ensures h.ptr[p] in h.free && p !in From(h.free, h.ptr[p], q)
    ensures From(h.free, p, q) == From(h.free, h.ptr[p], q) + {p}
  {
    assert Linked(h, p);
    forall c | c in h.free ensures c >= BASE { assert Apart(h, c); }
  }

  lemma FromAll(h: Heap, q: int)
    requires Ordered(h) && q in h.free
    ensures h.ptr[q] in h.free && From(h.free, h.ptr[q], q) == h.free
  {
    assert Linked(h, q);
    forall c | c in h.free ensures c in From(h.free, h.ptr[q], q) {
      assert Apart(h, c);
    }
  }

  lemma FromEnd(h: Heap, q: int)
    requires q in h.free
    ensures From(h.free, q, q) == {q}
  {
  }

  lemma {:induction false} Largest(s: set<int>, w: int) returns (m: int)
    requires w in s
    ensures m in s && forall c :: c in s ==> c <= m
    decreases s
  {
    m := w;
    if x :| x in s && x > w {
      m := Largest(s - {w}, x);
      forall c | c in s ensures c <= m {
        assert c in s - {w} || c == w;
      }
    }
  }

  /** The list is one circle: a non-empty set of nodes closed under ptr is all of them. */
  lemma OneCircle(h: Heap, s: set<int>)
    requires Ordered(h) && (exists a :: a in s) && s <= h.free && forall a :: a in s ==> a in h.ptr && h.ptr[a] in s
    ensures s == h.free
  {
    var w :| w in s;
    var top := Largest(s, w);
    assert Linked(h, top);
    assert BASE in s;
    forall c | c in h.free ensures c in s {
      assert Apart(h, c);
      var low := set x | x in s && x <= c;
      assert BASE in low;
      var a := Largest(low, BASE);
      assert Linked(h, a);
      var n := if a < c then h.ptr[a] else a;
      assert n in low;
    }
  }

  // ---- what free() does to the heap ----

  /** bp becomes the node after p. */
  function Insert(h: Heap, p: int, bp: int): Heap
    requires p in h.ptr
  {
    h.(free := h.free + {bp}, live := h.live - {bp}, ptr := h.ptr[bp := h.ptr[p]][p := bp])
  }

  /** a absorbs the node after it. */
  function Absorb(h: Heap, a: int): Heap
    requires a in h.ptr && h.ptr[a] in h.ptr && a in h.size && h.ptr[a] in h.size
  {
    var b := h.ptr[a];
    h.(free := h.free - {b}, ptr := h.ptr[a := h.ptr[b]], size := h.size[a := h.size[a] + h.size[b]])
  }

  /** p is the last free node below bp. */
  ghost predicate Precedes(h: Heap, p: int, bp: int)
  {
    p in h.free && p < bp && forall c :: c in h.free ==> c <= p || bp < c
  }

  lemma InsertLinks(h: Heap, p: int, bp: int, a: int)
    requires Ordered(h) && bp in h.live && Precedes(h, p, bp) && (a in h.free || a == bp)
    ensures Linked(Insert(h, p, bp), a)
  {
    assert Linked(h, p) && Apart(h, p) && Apart(h, bp);
    if a != bp { assert Linked(h, a) && Apart(h, a); }
  }

  lemma InsertKeeps(h: Heap, p: int, bp: int)
    requires Ordered(h) && bp in h.live && Precedes(h, p, bp)
    ensures Ordered(Insert(h, p, bp))
  {
    var h' := Insert(h, p, bp);
    forall a | a in h.free || a in h.live ensures Apart(h', a) {
      assert Apart(h, a);
    }
    forall a | a in h'.free ensures Linked(h', a) {
      InsertLinks(h, p, bp, a);
    }
  }

  lemma AbsorbKeeps(h: Heap, a: int)
    requires Ordered(h) && a in h.free && a != BASE && h.ptr[a] in h.free && h.ptr[a] == a + h.size[a]
    ensures Ordered(Absorb(h, a))
  {
    var b, h' := h.ptr[a], Absorb(h, a);
    assert Linked(h, a) && Linked(h, b) && Apart(h, a) && Apart(h, b);
    forall c | c in h'.free || c in h'.live ensures Apart(h', c) {
      assert Apart(h, c);
    }
    forall c | c in h'.free ensures Linked(h', c) {
      assert Linked(h, c) && Apart(h, c);
    }
  }

  lemma InsertCovers(h: Heap, p: int, bp: int)
    requires p in h.ptr && bp in h.live
    ensures SameCover(h, Insert(h, p, bp))
  {
    forall u ensures Covered(Insert(h, p, bp), u) <==> Covered(h, u) { }
  }

  lemma AbsorbCovers(h: Heap, a: int)
    requires Ordered(h) && a in h.free && a != BASE && h.ptr[a] in h.free && h.ptr[a] == a + h.size[a]
    ensures SameCover(h, Absorb(h, a))
  {
    var b, h' := h.ptr[a], Absorb(h, a);
    assert Linked(h, a) && Apart(h, a) && Apart(h, b);
    forall u ensures Covered(h', u) <==> Covered(h, u) {
      if Covered(h, u) {
        var c :| (c in h.free || c in h.live) && c in h.size && c <= u < c + h.size[c];
        var d := if c == b then a else c;
        assert (d in h'.free || d in h'.live) && d in h'.size && d <= u < d + h'.size[d];
      }
      if Covered(h', u) {
        var c :| (c in h'.free || c in h'.live) && c in h'.size && c <= u < c + h'.size[c];
        var d := if c == a && u >= b then b else c;
        assert (d in h.free || d in h.live) && d in h.size && d <= u < d + h.size[d];
      }
    }
  }

  // ---- free(), malloc() and morecore() as wholes ----

  /** What free(bp) makes of the heap when p is the node before bp. */
  function Freed(h: Heap, p: int, bp: int): Heap
    requires Linkable(h, p, bp)
  {
    var h1 := Insert(h, p, bp);
    var h2 := if bp + h.size[bp] == h.ptr[p] then Absorb(h1, bp) else h1;
    if p + h.size[p] == bp then Absorb(h2, p) else h2
  }

  predicate Linkable(h: Heap, p: int, bp: int)
  {
    && p in h.ptr && p in h.size && bp in h.size && p != bp
    && h.ptr[p] in h.ptr && h.ptr[p] in h.size && h.ptr[p] != bp
  }

  /** Freeing keeps the list ordered and coalesced and loses no unit. */
  lemma FreedKeeps(h: Heap, p: int, bp: int)
    requires Wf(h) && bp in h.live && Precedes(h, p, bp)
    ensures Linkable(h, p, bp) && Wf(Freed(h, p, bp)) && Freed(h, p, bp).live == h.live - {bp}
    ensures SameCover(h, Freed(h, p, bp))
  {
    assert Linked(h, p) && Apart(h, p) && Apart(h, bp);
    var h1 := Insert(h, p, bp);
    InsertKeeps(h, p, bp);
    InsertCovers(h, p, bp);
    var h2 := h1;
    if bp + h.size[bp] == h.ptr[p] {
      h2 := Absorb(h1, bp);
      AbsorbKeeps(h1, bp);
      AbsorbCovers(h1, bp);
    }
    if p + h.size[p] == bp {
      AbsorbKeeps(h2, p);
      AbsorbCovers(h2, p);
    }
    FreedGaps(h, p, bp);
  }

  lemma FreedGaps(h: Heap, p: int, bp: int)
    requires Wf(h) && bp in h.live && Precedes(h, p, bp)
    requires Linkable(h, p, bp) && Freed(h, p, bp).free <= Freed(h, p, bp).size.Keys
    ensures Coalesced(Freed(h, p, bp))
  {
    var h', n := Freed(h, p, bp), h.ptr[p];
    assert Linked(h, p) && Apart(h, p) && Apart(h, bp) && Apart(h, n);
    forall a | a in h'.free ensures Gap(h', a) {
      if a != bp { assert Gap(h, a) && Apart(h, a); }
      assert Gap(h, n) && Gap(h, p);
    }
  }

  /** malloc hands out the whole node p, which follows prev. */
  function Taken(h: Heap, prev: int, p: int): Heap
    requires p in h.ptr
  {
    h.(free := h.free - {p}, live := h.live + {p}, ptr := h.ptr[prev := h.ptr[p]])
  }

  /** malloc hands out the last n units of node p. */
  function Cut(h: Heap, p: int, n: int): Heap
    requires p in h.size
  {
    var q := p + h.size[p] - n;
    h.(live := h.live + {q}, size := h.size[p := h.size[p] - n][q := n])
  }

  /** morecore writes a header for a fresh block of n units. */
  function Grown(h: Heap, hp: int, n: int): Heap
  {
    h.(live := h.live + {hp}, size := h.size[hp := n])
  }

  lemma TakenApart(h: Heap, prev: int, p: int)
    requires Ordered(h) && prev in h.free && p in h.free && p != BASE
    ensures var h' := Taken(h, prev, p);
            && (forall a {:trigger Apart(h', a)} :: a in h'.free ==> Apart(h', a))
            && (forall a {:trigger Apart(h', a)} :: a in h'.live ==> Apart(h', a))
  {
    var h' := Taken(h, prev, p);
    hide Linked;
    forall a | a in h.free || a in h.live ensures Apart(h', a) { assert Apart(h, a); }
  }

  lemma TakenSets(h: Heap, prev: int, p: int)
    requires Ordered(h) && prev in h.free && p in h.free && p != BASE
    ensures var h' := Taken(h, prev, p);
            && BASE in h'.free && h'.free !! h'.live
            && h'.free <= h'.ptr.Keys && h'.free <= h'.size.Keys && h'.live <= h'.size.Keys
  {
  }

  lemma TakenLinked(h: Heap, prev: int, p: int)
    requires Wf(h) && prev in h.free && h.ptr[prev] == p && p in h.free && p != BASE
    ensures forall a {:trigger Linked(Taken(h, prev, p), a)} ::
              a in Taken(h, prev, p).free ==> Linked(Taken(h, prev, p), a)
  {
    var h' := Taken(h, prev, p);
    assert Linked(h, prev) && Linked(h, p);
    forall a | a in h'.free ensures Linked(h', a) {
      assert Linked(h, a) && Apart(h, p);
    }
  }

  lemma TakenGaps(h: Heap, prev: int, p: int)
    requires Wf(h) && p in h.free
    ensures forall a {:trigger Gap(Taken(h, prev, p), a)} :: a in Taken(h, prev, p).free ==> Gap(Taken(h, prev, p), a)
  {
    hide Linked, Apart;
    forall a | a in Taken(h, prev, p).free ensures Gap(Taken(h, prev, p), a) { assert Gap(h, a); }
  }

  lemma TakenKeeps(h: Heap, prev: int, p: int)
    requires Wf(h) && prev in h.free && h.ptr[prev] == p && p in h.free && p != BASE
    ensures Wf(Taken(h, prev, p))
  {
    TakenSets(h, prev, p);
    TakenApart(h, prev, p);
    TakenLinked(h, prev, p);
    TakenGaps(h, prev, p);
    hide Linked, Apart, Gap, Taken;
  }

  lemma TakenCovers(h: Heap, prev: int, p: int)
    requires p in h.ptr && p in h.free
    ensures SameCover(h, Taken(h, prev, p))
  {
    forall u ensures Covered(Taken(h, prev, p), u) <==> Covered(h, u) { }
  }

  lemma CutKeeps(h: Heap, p: int, n: int)
    requires Wf(h) && p in h.free && 1 <= n < h.size[p]
    ensures Wf(Cut(h, p, n)) && p + h.size[p] - n !in h.free + h.live
  {
    var h', q := Cut(h, p, n), p + h.size[p] - n;
    assert Apart(h, p);
    assert q !in h.free && q !in h.live;
    forall a | a in h'.free || a in h'.live ensures Apart(h', a) {
      if a != q { assert Apart(h, a); }
    }
    forall a | a in h'.free ensures Linked(h', a) && Gap(h', a) { assert Linked(h, a) && Gap(h, a); }
  }

  lemma CutCovers(h: Heap, p: int, n: int)
    requires Wf(h) && p in h.free && 1 <= n < h.size[p]
    requires p + h.size[p] - n !in h.free + h.live
    ensures SameCover(h, Cut(h, p, n))
  {
    var h', q := Cut(h, p, n), p + h.size[p] - n;
    forall u ensures Covered(h', u) <==> Covered(h, u) {
      if Covered(h, u) {
        var c :| (c in h.free || c in h.live) && c in h.size && c <= u < c + h.size[c];
        var d := if c == p && u >= q then q else c;
        assert (d in h'.free || d in h'.live) && d in h'.size && d <= u < d + h'.size[d];
      }
      if Covered(h', u) {
        var c :| (c in h'.free || c in h'.live) && c in h'.size && c <= u < c + h'.size[c];
        var d := if c == q then p else c;
        assert (d in h.free || d in h.live) && d in h.size && d <= u < d + h.size[d];
      }
    }
  }

  /** Every block ends at or below top. */
  ghost predicate EndsBelow(h: Heap, top: int)
    requires h.free <= h.size.Keys && h.live <= h.size.Keys
  {
    && (forall a {:trigger Ends(h, a, top)} :: a in h.free ==> Ends(h, a, top))
    && (forall a {:trigger Ends(h, a, top)} :: a in h.live ==> Ends(h, a, top))
  }

  ghost predicate Ends(h: Heap, a: int, top: int)
    requires a in h.size
  {
    a + h.size[a] <= top
  }

  lemma GrownApart(h: Heap, hp: int, n: int, a: int)
    requires Ordered(h) && EndsBelow(h, hp) && hp > BASE && hp !in h.live && hp !in h.free && n >= 1
    requires a in h.free || a in h.live || a == hp
    ensures Apart(Grown(h, hp, n), a)
  {
    forall b | b in h.free || b in h.live ensures b < hp { assert Apart(h, b) && Ends(h, b, hp); }
    if a != hp { assert Ends(h, a, hp); }
    if a != hp { assert Apart(h, a); }
  }

  lemma GrownKeeps(h: Heap, hp: int, n: int)
    requires Wf(h) && EndsBelow(h, hp) && hp > BASE && hp !in h.live && hp !in h.free && n >= 1
    ensures Wf(Grown(h, hp, n))
  {
    var h' := Grown(h, hp, n);
    forall a | a in h'.free || a in h'.live ensures Apart(h', a) { GrownApart(h, hp, n, a); }
    forall a | a in h'.free ensures Linked(h', a) { assert Linked(h, a); }
    assert Ordered(h');
    GrownGaps(h, hp, n);
    hide Ordered, Coalesced;
  }

  lemma GrownGaps(h: Heap, hp: int, n: int)
    requires h.free <= h.size.Keys && Coalesced(h) && hp !in h.free
    ensures Coalesced(Grown(h, hp, n))
  {
    var h' := Grown(h, hp, n);
    forall a | a in h'.free ensures Gap(h', a) { assert Gap(h, a); }
  }

  lemma GrownCovers(h: Heap, hp: int, n: int, u: int)
    requires hp !in h.live && hp !in h.free
    ensures Covered(Grown(h, hp, n), u) <==> Covered(h, u) || hp <= u < hp + n
  {
    var h' := Grown(h, hp, n);
    if hp <= u < hp + n { assert hp in h'.live && hp in h'.size; }
    if Covered(h, u) {
      var c :| (c in h.free || c in h.live) && c in h.size && c <= u < c + h.size[c];
      assert (c in h'.free || c in h'.live) && c in h'.size && c <= u < c + h'.size[c];
    }
  }

  lemma FreedEndsBelow(h: Heap, p: int, bp: int, top: int)
    requires Wf(h) && bp in h.live && Precedes(h, p, bp) && EndsBelow(h, top)
    requires Linkable(h, p, bp) && Wf(Freed(h, p, bp))
    ensures EndsBelow(Freed(h, p, bp), top)
  {
    var h' := Freed(h, p, bp);
    assert Linked(h, p) && Apart(h, p) && Apart(h, bp);
    assert Ends(h, p, top) && Ends(h, bp, top) && Ends(h, h.ptr[p], top);
    forall a | a in h'.free || a in h'.live ensures Ends(h', a, top) { assert Ends(h, a, top); }
  }

  /** Where the freed block ends up: a node of its own after p, or inside p. */
  lemma FreedPlace(h: Heap, p: int, bp: int)
    requires Wf(h) && bp in h.live && Precedes(h, p, bp) && Linkable(h, p, bp)
    ensures var h' := Freed(h, p, bp);
            && p in h'.free && p in h'.ptr && p in h'.size && bp in h'.size
            && (bp in h'.free ==> h'.ptr[p] == bp && h'.size[bp] >= h.size[bp])
            && (bp !in h'.free ==> h'.size[p] >= h.size[bp])
            && forall b :: b in h'.live ==> b in h'.size && b in h.size && h'.size[b] == h.size[b]
  {
    assert Linked(h, p) && Apart(h, p) && Apart(h, bp) && Apart(h, h.ptr[p]);
  }
}

/** user/umalloc.c: malloc and free over the free list. Addresses and sizes are in units
    of sizeof(Header), 16 bytes. */
module Umalloc {
  import opened Arith
  import opened FreeList

  const HEADER := 16
  const SBRK_ERROR := -1

  type uint32 = x: int | 0 <= x < 0x1_0000_0000

  /** Units malloc asks for: as few as hold the bytes, plus one header. */
  function UnitsFor(nbytes: uint32): (u: int)
    ensures HEADER * (u - 2) < nbytes <= HEADER * (u - 1)
  {
    (nbytes + HEADER - 1) / HEADER + 1
  }

  /** Units morecore asks sbrk for: those needed, and never fewer than 4096. */
  function CoreUnits(n: int): (u: int)
    ensures u >= n && u >= 4096 && (u > n ==> u == 4096)
  {
    if n < 4096 then 4096 else n
  }

  /** sbrk takes an int, so the byte count loses everything above 32 bits and its top
      bit becomes a sign. */
  function SbrkArg(nu: int): int
  {
    var low := (nu * HEADER) % 0x1_0000_0000;
    if low >= 0x8000_0000 then low - 0x1_0000_0000 else low
  }

  /** Units obtained once sbrk has moved the break from hp to brk. */
  ghost function GotAfter(got: set<int>, hp: int, brk: int): set<int>
  {
    (set u | u in got && u < brk) + Span(hp, brk)
  }

  /** The calls of malloc that can break the allocator: those of almost 2 GiB and more. */
  lemma TruncatedExactly(nbytes: uint32)
    ensures Truncated(UnitsFor(nbytes)) <==> nbytes >= 0x7fff_ffe1
    ensures Truncated(UnitsFor(0xffff_ffff)) && SbrkArg(CoreUnits(UnitsFor(0xffff_ffff))) == HEADER
  {
    SbrkArgExact(CoreUnits(UnitsFor(nbytes)));
  }

  lemma SbrkArgExact(nu: int)
    requires nu >= 1
    ensures SbrkArg(nu) % HEADER == 0 && SbrkArg(nu) / HEADER <= nu
    ensures SbrkArg(nu) / HEADER == nu <==> SbrkArg(nu) == nu * HEADER
    ensures SbrkArg(nu) == nu * HEADER <==> nu < 0x800_0000
  {
  }

  /** When the argument of sbrk was not truncated, the units below the break are exactly
      the units of the grown heap; when it was, the heap claims units it does not have. */
  lemma AfterGrowth(h: Heap, got: set<int>, top: int, hp: int, nu: int, brk: int)
    requires Wf(h) && Tiles(h, got) && EndsBelow(h, top) && (forall u :: u in got ==> u < top)
    requires hp >= top > BASE && hp !in h.free && hp !in h.live && nu >= 1
    requires brk == hp + SbrkArg(nu) / HEADER
    ensures var h' := Grown(h, hp, nu);
            && Wf(h')
            && (SbrkArg(nu) == nu * HEADER ==>
                  Tiles(h', GotAfter(got, hp, brk)) && EndsBelow(h', brk))
            && (SbrkArg(nu) != nu * HEADER ==>
                  Covered(h', hp + nu - 1) && hp + nu - 1 !in GotAfter(got, hp, brk))
  {
    var h' := Grown(h, hp, nu);
    SbrkArgExact(nu);
    forall a | a in h.free || a in h.live ensures Ends(h, a, hp) { assert Ends(h, a, top); }
    GrownKeeps(h, hp, nu);
    forall u ensures Covered(h', u) <==> Covered(h, u) || hp <= u < hp + nu { GrownCovers(h, hp, nu, u); }
    if SbrkArg(nu) == nu * HEADER {
      forall a | a in h'.free || a in h'.live ensures Ends(h', a, brk) {
        if a != hp { assert Ends(h, a, top); }
      }
    }
  }

  /** morecore(n) would pass sbrk something other than the bytes it needs. */
  predicate Truncated(n: int) { SbrkArg(CoreUnits(n)) != CoreUnits(n) * HEADER }

  class Allocator {
    var freep: int              // 0 until the first malloc
    var ptr: map<int, int>
    var size: map<int, int>
    ghost var free: set<int>
    ghost var live: set<int>
    ghost var got: set<int>     // units obtained from sbrk and still below the break
    ghost var brk: int          // the break
    ghost var sbrks: nat        // calls of sbrk so far

    ghost function H(): Heap
      reads this
    {
      Heap(free, live, ptr, size)
    }

    /** No free block has n units. */
    ghost predicate NoFit(n: int)
      reads this
    {
      forall c :: c in free && c in size ==> size[c] < n
    }

    /** Free plus live units are the units obtained, all below the break. */
    ghost predicate Exact()
      requires Wf(H())
      reads this
    {
      Tiles(H(), got) && EndsBelow(H(), brk) && forall u :: u in got ==> u < brk
    }

    ghost predicate Valid()
      reads this
    {
      && brk > BASE
      && if freep == 0 then free == {} && live == {} && got == {}
         else freep in free && Wf(H()) && Exact()
    }

    constructor (top: int)
      requires top > BASE
      ensures Valid() && live == {} && brk == top && sbrks == 0
    {
      freep, ptr, size := 0, map[], map[];
      free, live, got, brk, sbrks := {}, {}, {}, top, 0;
    }

    /** The search loop of free: the node after which bp belongs. */
    method FindBefore(bp: int) returns (p: int)
      requires freep in free && Wf(H()) && bp in live
      ensures Precedes(H(), p, bp)
    {
      ghost var h := H();
      assert Apart(h, bp);
      ghost var below := set c | c in free && c < bp;
      assert BASE in below;
      ghost var t := Largest(below, BASE);
      assert Linked(h, t) && (ptr[t] > t ==> ptr[t] !in below);
      p := freep;
      while !(bp > p && bp < ptr[p])
        invariant p in free
        decreases From(free, p, t)
      {
        assert Linked(h, p);
        if p >= ptr[p] && (bp > p || bp < ptr[p]) {
          assert Apart(h, BASE);
          break;
        }
        assert p != t;
        FromNext(h, p, t);
        p := ptr[p];
      }
      assert Linked(h, p);
    }

    /** Returns a block to the free list, merging it with free neighbours. */
    method Free(ap: int)
      requires freep in free && Wf(H()) && ap - 1 in live
      modifies this`freep, this`ptr, this`size, this`free, this`live
      ensures freep in free && Wf(H()) && live == old(live) - {ap - 1}
      ensures SameCover(old(H()), H()) && (Tiles(H(), got) <==> old(Tiles(H(), got)))
      ensures old(EndsBelow(H(), brk)) ==> EndsBelow(H(), brk)
      ensures old(Valid()) ==> Valid()
      ensures forall b :: b in live ==> size[b] == old(size)[b]
      ensures var bp := ap - 1;
              if bp in free then ptr[freep] == bp && size[bp] >= old(size)[bp]
              else size[freep] >= old(size)[bp]
    {
      var bp := ap - 1;
      var p := FindBefore(bp);
      ghost var h := H();
      FreedKeeps(h, p, bp);
      FreedPlace(h, p, bp);
      assert Apart(h, bp);
      if EndsBelow(h, brk) { FreedEndsBelow(h, p, bp, brk); }
      Link(bp, p);
      assert Apart(H(), freep) && (Tiles(H(), got) <==> Tiles(h, got));
    }

    /** The rest of free: link bp after p and merge. */
    method Link(bp: int, p: int)
      requires Linkable(H(), p, bp) && p < bp && size[bp] >= 1
      modifies this`freep, this`ptr, this`size, this`free, this`live
      ensures H() == old(Freed(H(), p, bp)) && freep == p
    {
      var n := ptr[p];
      free, live := free + {bp}, live - {bp};
      if bp + size[bp] == n {
        size := size[bp := size[bp] + size[n]];
        ptr := ptr[bp := ptr[n]];
        free := free - {n};
      } else {
        ptr := ptr[bp := n];
      }
      if p + size[p] == bp {
        size := size[p := size[p] + size[bp]];
        ptr := ptr[p := ptr[bp]];
        free := free - {bp};
      } else {
        ptr := ptr[p := bp];
      }
      freep := p;
    }

    /** The fresh chunk at hp becomes a block of nu units; the break moves by what sbrk was asked for. */
    method Extend(hp: int, nu: int)
      requires nu >= 1 && Valid() && freep != 0 && hp >= brk
      modifies this`size, this`live, this`brk, this`got
      ensures Wf(H()) && hp !in old(live) && hp !in free && live == old(live) + {hp} && size == old(size)[hp := nu]
      ensures brk == hp + SbrkArg(nu) / HEADER && got == GotAfter(old(got), hp, brk)
      ensures SbrkArg(nu) == nu * HEADER ==> Valid()
      ensures SbrkArg(nu) != nu * HEADER ==> !Tiles(H(), got)
    {
      ghost var h, top := H(), brk;
      assert hp !in free && hp !in live by { TopIsFresh(h, brk, hp); }
      size := size[hp := nu];
      live := live + {hp};
      brk := hp + SbrkArg(nu) / HEADER;
      got := GotAfter(got, hp, brk);
      AfterGrowth(h, old(got), top, hp, nu, brk);
      SbrkArgExact(nu);
    }

    /** Asks sbrk for a chunk, which answers with the old break or SBRK_ERROR, and frees
        the chunk into the list. */
    method Morecore(n: int, answer: int) returns (p: int)
      requires n >= 1 && Valid() && freep != 0
      requires answer == SBRK_ERROR || answer >= brk
      modifies this
      ensures live == old(live) && sbrks == old(sbrks) + 1 && freep in free && Wf(H())
      ensures forall b :: b in live ==> size[b] == old(size)[b]
      ensures p == 0 <==> answer == SBRK_ERROR
      ensures p == 0 ==> Valid() && free == old(free) && size == old(size) && brk == old(brk) && got == old(got)
      ensures p != 0 ==> brk == answer + SbrkArg(CoreUnits(n)) / HEADER && got == GotAfter(old(got), answer, brk)
      ensures p != 0 ==> p == freep && ptr[p] in free && (size[p] >= n || size[ptr[p]] >= n)
      ensures p != 0 ==> if Truncated(n) then !Tiles(H(), got) else Valid()
    {
      var nu := CoreUnits(n);
      var hp := answer;
      sbrks := sbrks + 1;
      if answer == SBRK_ERROR {
        return 0;
      }
      AddChunk(hp, nu);
      p := freep;
    }

    /** The chunk obtained from sbrk, freed into the list. */
    method AddChunk(hp: int, nu: int)
      requires nu >= 1 && Valid() && freep != 0 && hp >= brk
      modifies this`freep, this`ptr, this`size, this`free, this`live, this`brk, this`got
      ensures live == old(live) && freep in free && Wf(H()) && freep != 0
      ensures forall b :: b in live ==> size[b] == old(size)[b]
      ensures brk == hp + SbrkArg(nu) / HEADER && got == GotAfter(old(got), hp, brk)
      ensures ptr[freep] in free && (size[freep] >= nu || size[ptr[freep]] >= nu)
      ensures if SbrkArg(nu) == nu * HEADER then Valid() else !Tiles(H(), got)
    {
      Extend(hp, nu);
      FreeChunk(hp);
      assert live == old(live);
    }

    /** free on a new chunk: the node it ends up in is freep or the next one. */
    method FreeChunk(hp: int)
      requires freep in free && Wf(H()) && hp in live
      modifies this`freep, this`ptr, this`size, this`free, this`live
      ensures freep in free && freep != 0 && Wf(H()) && live == old(live) - {hp} && (old(Valid()) ==> Valid())
      ensures Tiles(H(), got) <==> old(Tiles(H(), got))
      ensures forall b :: b in live ==> size[b] == old(size)[b]
      ensures ptr[freep] in free && (size[freep] >= old(size)[hp] || size[ptr[freep]] >= old(size)[hp])
    {
      Free(hp + 1);
      PlaceOfChunk(H(), freep);
    }

    /** The header of the allocator is set up on the first call. */
    method Setup()
      requires Valid() && freep == 0
      modifies this`freep, this`ptr, this`size, this`free
      ensures Valid() && freep == BASE && free == {BASE}
    {
      freep := BASE;
      ptr := ptr[BASE := BASE];
      size := size[BASE := 0];
      free := {BASE};
      assert Linked(H(), BASE) && Apart(H(), BASE) && Gap(H(), BASE);
      assert forall u :: !Covered(H(), u);
      assert Ends(H(), BASE, brk);
    }

    /** Hands out n units of node p, which follows prevp and is large enough. */
    method Carve(prevp: int, p: int, n: int) returns (ap: int)
      requires Wf(H()) && prevp in free && ptr[prevp] == p && p in free && 1 <= n <= size[p]
      modifies this`freep, this`ptr, this`size, this`free, this`live
      ensures freep in free && Wf(H()) && SameCover(old(H()), H())
      ensures old(EndsBelow(H(), brk)) ==> EndsBelow(H(), brk)
      ensures ap - 1 !in old(live) && live == old(live) + {ap - 1} && size[ap - 1] == n
      ensures forall b :: b in old(live) ==> size[b] == old(size)[b]
      ensures ap > BASE
    {
      ghost var h := H();
      assert Apart(h, p) && Apart(h, BASE) && Linked(h, p) && Linked(h, prevp);
      var q := p;
      if size[p] == n {
        TakenKeeps(h, prevp, p);
        TakenCovers(h, prevp, p);
        ptr := ptr[prevp := ptr[p]];
        free, live := free - {p}, live + {p};
        assert H() == Taken(h, prevp, p);
      } else {
        CutKeeps(h, p, n);
        CutCovers(h, p, n);
        size := size[p := size[p] - n];
        q := p + size[p];
        size := size[q := n];
        live := live + {q};
        assert H() == Cut(h, p, n);
      }
      CarvedEnds(h, H(), p, q, n, brk);
      freep := prevp;
      ap := q + 1;
    }

    /** Carve, and the accounting stays as good as it was. */
    method HandOut(prevp: int, p: int, n: int) returns (ap: int)
      requires freep in free && Wf(H()) && prevp in free && ptr[prevp] == p && p in free && 1 <= n <= size[p]
      modifies this`freep, this`ptr, this`size, this`free, this`live
      ensures freep in free && Wf(H()) && (if old(Tiles(H(), got)) then old(Valid()) ==> Valid() else !Valid())
      ensures ap - 1 !in old(live) && live == old(live) + {ap - 1} && size[ap - 1] == n && ap > BASE
      ensures forall b :: b in old(live) ==> size[b] == old(size)[b]
    {
      ghost var h := H();
      ap := Carve(prevp, p, n);
      assert Apart(H(), freep);
      assert Tiles(H(), got) <==> Tiles(h, got);
    }

    /** malloc: a fresh block of the units asked for, the first that fits after freep, or
        null only when no free block fits and sbrk fails. sbrk is called at most once.
        Free plus live units stay exactly the units obtained, unless this very call made
        sbrk truncate its argument. */
    method Malloc(nbytes: uint32, answer: int) returns (ap: int)
      requires Valid() && (answer == SBRK_ERROR || answer >= brk)
      modifies this
      ensures freep in free && Wf(H())
      ensures forall b :: b in old(live) ==> b in live && size[b] == old(size)[b]
      ensures ap != 0 ==> ap - 1 !in old(live) && live == old(live) + {ap - 1}
      ensures ap != 0 ==> size[ap - 1] == UnitsFor(nbytes) && (size[ap - 1] - 1) * HEADER >= nbytes
      ensures ap == 0 ==> live == old(live)
      ensures ap == 0 <==> old(NoFit(UnitsFor(nbytes))) && answer == SBRK_ERROR
      ensures sbrks == old(sbrks) + if old(NoFit(UnitsFor(nbytes))) then 1 else 0
      ensures !old(NoFit(UnitsFor(nbytes))) || answer == SBRK_ERROR ==> brk == old(brk) && got == old(got)
      ensures old(NoFit(UnitsFor(nbytes))) && answer != SBRK_ERROR ==>
                brk == answer + SbrkArg(CoreUnits(UnitsFor(nbytes))) / HEADER && got == GotAfter(old(got), answer, brk)
      ensures Valid() <==> !(old(NoFit(UnitsFor(nbytes))) && answer != SBRK_ERROR && nbytes >= 0x7fff_ffe1)
    {
      TruncatedExactly(nbytes);
      var n := UnitsFor(nbytes);
      if freep == 0 {
        Setup();
      }
      assert NoFit(n) <==> old(NoFit(n));
      ap := Search(n, answer);
    }

    /** The loop of malloc. */
    method Search(n: int, answer: int) returns (ap: int)
      requires n >= 1 && Valid() && freep != 0 && (answer == SBRK_ERROR || answer >= brk)
      modifies this
      ensures freep in free && Wf(H())
      ensures forall b :: b in old(live) ==> b in live && size[b] == old(size)[b]
      ensures ap != 0 ==> ap - 1 !in old(live) && live == old(live) + {ap - 1} && size[ap - 1] == n
      ensures ap == 0 ==> live == old(live)
      ensures ap == 0 <==> old(NoFit(n)) && answer == SBRK_ERROR
      ensures sbrks == old(sbrks) + if old(NoFit(n)) then 1 else 0
      ensures !old(NoFit(n)) || answer == SBRK_ERROR ==> brk == old(brk) && got == old(got)
      ensures old(NoFit(n)) && answer != SBRK_ERROR ==>
                brk == answer + SbrkArg(CoreUnits(n)) / HEADER && got == GotAfter(old(got), answer, brk)
      ensures Valid() <==> !(old(NoFit(n)) && answer != SBRK_ERROR && Truncated(n))
    {
      var prevp := freep;
      FromAll(H(), prevp);
      var p := ptr[prevp];
      ghost var grown, goal := false, freep;
      while true
        invariant freep in free && Wf(H()) && prevp in free && p in free && ptr[prevp] == p && goal in free
        invariant live == old(live) && forall b :: b in live ==> size[b] == old(size)[b]
        invariant sbrks == old(sbrks) + if grown then 1 else 0
        invariant !grown ==> Valid() && brk == old(brk) && got == old(got) && goal == freep
        invariant !grown ==> free == old(free) && size == old(size)
        invariant grown ==> old(NoFit(n)) && brk == answer + SbrkArg(CoreUnits(n)) / HEADER && got == GotAfter(old(got), answer, brk)
        invariant !grown ==> forall c :: c in free && c !in From(free, p, freep) ==> size[c] < n
        invariant grown ==> answer != SBRK_ERROR && size[goal] >= n && (goal == freep || goal == p)
        invariant grown ==> if Truncated(n) then !Tiles(H(), got) else Valid()
        decreases !grown, From(free, p, goal)
      {
        if size[p] >= n {
          ap := HandOut(prevp, p, n);
          return;
        }
        FromEnd(H(), p);
        if p == freep {
          p := Morecore(n, answer);
          if p == 0 {
            return 0;
          }
          grown := true;
          goal := if size[freep] >= n then freep else ptr[freep];
        } else {
          FromNext(H(), p, goal);
        }
        assert Linked(H(), p);
        prevp := p;
        p := ptr[p];
      }
    }
  }

  lemma PlaceOfChunk(h: Heap, p: int)
    requires Wf(h) && p in h.free
    ensures h.ptr[p] in h.free && p >= BASE
  {
    assert Linked(h, p) && Apart(h, p);
  }

  lemma CarvedEnds(h: Heap, h': Heap, p: int, q: int, n: int, top: int)
    requires Wf(h) && Wf(h') && p in h.free
    requires forall a :: a in h'.free || a in h'.live ==> a in h.free || a in h.live || a == q
    requires q in h'.size && q + h'.size[q] == p + h.size[p]
    requires forall a :: a in h'.size && a != q ==> a in h.size && h'.size[a] <= h.size[a]
    ensures EndsBelow(h, top) ==> EndsBelow(h', top)
  {
    if EndsBelow(h, top) {
      assert Ends(h, p, top);
      forall a | a in h'.free || a in h'.live ensures Ends(h', a, top) {
        if a != q { assert Ends(h, a, top); }
      }
    }
  }

  lemma TopIsFresh(h: Heap, top: int, hp: int)
    requires Wf(h) && EndsBelow(h, top) && hp >= top > BASE
    ensures hp !in h.free && hp !in h.live
  {
    forall a | a in h.free || a in h.live ensures a != hp {
      assert Apart(h, a) && Ends(h, a, top);
    }
  }
}

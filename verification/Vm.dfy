/** kernel/kalloc.c and kernel/vm.c over the pages of PageTable. */
module Vm {
  import opened Arith
  import opened PageTable
  import opened PageList

  datatype MapResult = Mapped | NoMemory | Panic

  /** mappages panics when it comes to page v: there is no such page, or it is mapped. */
  predicate Barred(s: Phys, r: int, v: int) { v >= VPNS || V(Look(s, r, v)) }

  predicate NoneBarred(s: Phys, r: int, v0: int, done: int)
  {
    forall v :: v0 <= v < v0 + done ==> !Barred(s, r, v)
  }

  /** A page filled by memset with one byte value. */
  function Junk(b: int): (w: seq<int>)
    ensures |w| == ENTRIES
  {
    seq(ENTRIES, _ => b * 0x0101_0101_0101_0101)
  }

  function Px(level: int, v: int): int
  {
    if level == 2 then Px2(v) else if level == 1 then Px1(v) else Px0(v)
  }

  /** The role of the table that walk has reached for page v of root r. */
  function TableRole(level: int, r: int, v: int): Role
  {
    if level == 2 then Top else if level == 1 then Mid(r, Px2(v)) else Low(r, Px2(v), Px1(v))
  }

  /** The page before which uvmunmap of npages pages from va on ends. */
  function UnmapEnd(va: int, npages: int): int
  {
    var lo := va / PGSIZE;
    if va % PGSIZE != 0 then lo else Max(lo, Min(lo + npages, VPNS))
  }

  /** PGROUNDUP: the first page boundary that is not below sz. */
  function RoundUp(sz: int): (a: int)
    ensures sz <= a < sz + PGSIZE && a % PGSIZE == 0
  {
    (sz + PGSIZE - 1) / PGSIZE * PGSIZE
  }

  /** The pages from RoundUp(a) up to RoundUp(b) are those that begin in a..b. */
  lemma PagesBetween(a: int, b: int, v: int)
    ensures RoundUp(a) / PGSIZE <= v < RoundUp(b) / PGSIZE <==> a <= v * PGSIZE < b
  {
    assert RoundUp(a) == RoundUp(a) / PGSIZE * PGSIZE && RoundUp(b) == RoundUp(b) / PGSIZE * PGSIZE;
  }

  /** Of the pages of root r only those that begin in a..b are translated otherwise than before. */
  ghost predicate OnlyBetween(s: Phys, t: Phys, r: int, a: int, b: int) {
    forall v {:trigger Look(t, r, v)} :: 0 <= v < VPNS && !(a <= v * PGSIZE < b) ==> Look(t, r, v) == Look(s, r, v)
  }

  /** Every page of root r that begins in a..b holds a fresh zeroed frame with the given flags. */
  ghost predicate FreshBetween(s: Phys, r: int, a: int, b: int, perm: int) {
    forall v {:trigger Holds(s, r, v, Zeros(), perm)} :: a <= v * PGSIZE < b ==> Holds(s, r, v, Zeros(), perm)
  }

  /** Every page of root r that begins in a..b is unmapped. */
  ghost predicate NoneBetween(s: Phys, r: int, a: int, b: int) {
    forall v {:trigger Look(s, r, v)} :: a <= v * PGSIZE < b ==> Look(s, r, v) == 0
  }

  lemma UnmappedBetween(s: Phys, t: Phys, r: int, va: int, npages: int)
    requires Is(s, r, Top) && 0 <= va && va % PGSIZE == 0 && 0 <= npages
    requires Within(s, t, r, va / PGSIZE, UnmapEnd(va, npages))
    requires forall v :: va / PGSIZE <= v < UnmapEnd(va, npages) ==> Look(t, r, v) == 0
    ensures NoneBetween(t, r, va, Min(va + npages * PGSIZE, MAXVA)) && OnlyBetween(s, t, r, va, va + npages * PGSIZE)
  {
    hide Look;
    var lo, hi := va / PGSIZE, UnmapEnd(va, npages);
    assert va == lo * PGSIZE && MAXVA == VPNS * PGSIZE;
    forall v | va <= v * PGSIZE < Min(va + npages * PGSIZE, MAXVA) ensures lo <= v < hi {
      assert v < lo + npages && v < VPNS;
    }
    forall v | 0 <= v < VPNS && !(va <= v * PGSIZE < va + npages * PGSIZE) ensures Look(t, r, v) == Look(s, r, v) {
      assert !(lo <= v < hi);
    }
  }

  lemma Between(s: Phys, t: Phys, r: int, a: int, b: int, perm: int)
    requires Is(s, r, Top) && Within(s, t, r, RoundUp(a) / PGSIZE, RoundUp(b) / PGSIZE)
    ensures OnlyBetween(s, t, r, a, b)
    ensures FreshRun(t, r, RoundUp(a) / PGSIZE, RoundUp(b) / PGSIZE, perm) ==> FreshBetween(t, r, a, b, perm)
    ensures (forall v :: RoundUp(a) / PGSIZE <= v < RoundUp(b) / PGSIZE ==> Look(t, r, v) == 0) ==> NoneBetween(t, r, a, b)
  {
    hide RoundUp, Look, Holds;
    forall v | 0 <= v < VPNS && !(a <= v * PGSIZE < b) ensures Look(t, r, v) == Look(s, r, v) {
      PagesBetween(a, b, v);
    }
    forall v | a <= v * PGSIZE < b
      ensures RoundUp(a) / PGSIZE <= v < RoundUp(b) / PGSIZE
      ensures FreshRun(t, r, RoundUp(a) / PGSIZE, RoundUp(b) / PGSIZE, perm) ==> Holds(t, r, v, Zeros(), perm)
    {
      PagesBetween(a, b, v);
    }
  }

  /** Pages lo..hi of root r hold fresh zeroed frames with the given flags. */
  ghost predicate FreshRun(s: Phys, r: int, lo: int, hi: int, perm: int)
  {
    forall v {:trigger Holds(s, r, v, Zeros(), perm)} :: lo <= v < hi ==> Holds(s, r, v, Zeros(), perm)
  }

  /** A page that could not be added leaves the ones before it owned. */
  lemma FailedRun(s: Phys, s1: Phys, s2: Phys, r: int, lo: int, v: int, perm: int)
    requires Within(s, s1, r, lo, v) && Within(s1, s2, r, 0, 0) && Is(s1, r, Top)
    requires 0 <= lo && v <= VPNS && 0 <= perm < 1024 && FreshRun(s1, r, lo, v, perm)
    ensures Within(s, s2, r, lo, v) && OwnsRange(s2, r, lo, v)
  {
    WithinWider(s1, s2, r, 0, 0, {}, lo, v, {});
    WithinTrans(s, s1, s2, r, lo, v, {});
    forall w | lo <= w < v ensures Owned(s2, r, w) {
      HoldsStays(s1, s2, r, 0, 0, w, Zeros(), perm);
    }
  }

  lemma GrownRun(s: Phys, s1: Phys, s2: Phys, r: int, lo: int, v: int, perm: int)
    requires Within(s, s1, r, lo, v) && Within(s1, s2, r, v, v + 1) && Is(s1, r, Top) && 0 <= lo <= v < VPNS
    requires FreshRun(s1, r, lo, v, perm) && Holds(s2, r, v, Zeros(), perm)
    ensures Within(s, s2, r, lo, v + 1) && FreshRun(s2, r, lo, v + 1, perm)
  {
    WithinGrows(s, s1, s2, r, lo, v);
    forall w | lo <= w < v ensures Holds(s2, r, w, Zeros(), perm) {
      HoldsStays(s1, s2, r, v, v + 1, w, Zeros(), perm);
    }
  }

  lemma UndoneRun(s: Phys, s2: Phys, s3: Phys, r: int, lo: int, v: int)
    requires Inv(s) && Inv(s3) && Is(s, r, Top) && 0 <= lo && v <= VPNS
    requires Within(s, s2, r, lo, v) && Within(s2, s3, r, lo, v)
    requires forall w :: lo <= w < v ==> Look(s, r, w) == 0 && Look(s3, r, w) == 0
    ensures Within(s, s3, r, 0, 0)
  {
    WithinTrans(s, s2, s3, r, lo, v, {});
    Restored(s, s3, r, lo, v);
  }

  /** Page v of root to is a private copy of page v of root from, or both are unmapped. */
  ghost predicate Copied(s: Phys, s': Phys, from: int, to: int, v: int)
  {
    var e := Look(s, from, v);
    if V(e) then Holds(s', to, v, Words(s, Ppn(e)), Flags(e)) else Look(s', to, v) == 0
  }

  ghost predicate CopiedRun(s: Phys, s': Phys, from: int, to: int, hi: int)
  {
    forall v {:trigger Copied(s, s', from, to, v)} :: 0 <= v < hi ==> Copied(s, s', from, to, v)
  }

  /** Every page below sz is a private copy, or unmapped in both. */
  ghost predicate CopiedBelow(s: Phys, s': Phys, from: int, to: int, sz: int) {
    forall v {:trigger Copied(s, s', from, to, v)} :: 0 <= v && v * PGSIZE < sz ==> Copied(s, s', from, to, v)
  }

  lemma AllCopied(s: Phys, t: Phys, from: int, to: int, sz: int)
    requires Is(s, to, Top) && 0 <= sz && Within(s, t, to, 0, RoundUp(sz) / PGSIZE)
    requires CopiedRun(s, t, from, to, RoundUp(sz) / PGSIZE)
    ensures CopiedBelow(s, t, from, to, sz) && OnlyBetween(s, t, to, 0, sz)
  {
    assert RoundUp(0) == 0;
    Between(s, t, to, 0, sz, 0);
    hide RoundUp, Copied;
    forall v | 0 <= v && v * PGSIZE < sz ensures Copied(s, t, from, to, v) {
      PagesBetween(0, sz, v);
    }
  }

  lemma CopiedStays(s: Phys, s1: Phys, s2: Phys, from: int, to: int, lo: int, hi: int, v: int)
    requires Within(s1, s2, to, lo, hi) && Is(s1, to, Top) && 0 <= v < VPNS && !(lo <= v < hi) && Copied(s, s1, from, to, v)
    ensures Copied(s, s2, from, to, v)
  {
    var e := Look(s, from, v);
    assert Look(s2, to, v) == Look(s1, to, v);
    if V(e) {
      HoldsStays(s1, s2, to, lo, hi, v, Words(s, Ppn(e)), Flags(e));
    }
  }

  lemma FailedCopy(s: Phys, s1: Phys, s2: Phys, from: int, to: int, v: int)
    requires Inv(s) && Is(s, from, Top) && Within(s, s1, to, 0, v) && Within(s1, s2, to, 0, 0) && Is(s1, to, Top)
    requires 0 <= v <= VPNS && CopiedRun(s, s1, from, to, v)
    ensures Within(s, s2, to, 0, v) && OwnsRange(s2, to, 0, v)
  {
    WithinWider(s1, s2, to, 0, 0, {}, 0, v, {});
    WithinTrans(s, s1, s2, to, 0, v, {});
    forall w | 0 <= w < v ensures Owned(s2, to, w) {
      assert Copied(s, s1, from, to, w);
      CopiedStays(s, s1, s2, from, to, 0, 0, w);
    }
  }

  class Machine {
    var mem: map<int, seq<int>>
    var freelist: int            // page number of the first free page, 0 when there is none
    ghost var role: map<int, Role>
    ghost var f: Queue

    ghost function S(): Phys
      reads this`mem, this`role
    {
      Phys(mem, role)
    }

    ghost predicate Valid()
      reads this
    {
      Inv(S()) && ListOk(S(), f, freelist)
    }

    method Kalloc() returns (p: int)
      requires Valid()
      modifies this
      ensures Valid()
      ensures p == 0 <==> old(f.count) == 0
      ensures p == 0 ==> S() == old(S()) && f == old(f)
      ensures p != 0 ==> Is(old(S()), p, Free) && S() == Refill(old(S()), p, Junk(5), Held)
      ensures p != 0 ==> f.count == old(f.count) - 1
    {
      ghost var s := S();
      p := freelist;
      if f.count > 0 { PopKeeps(s, f, p, Junk(5)); }
      if p != 0 {
        RefillKeeps(s, p, Junk(5), Held);
        freelist := mem[p][0] / PGSIZE;
        mem := mem[p := Junk(5)];
        role := role[p := Held];
        f := Popped(f);
      }
    }

    /** Frees a page the kernel holds. */
    method Kfree(p: int)
      requires ListOk(S(), f, freelist) && Is(S(), p, Held)
      modifies this
      ensures ListOk(S(), f, freelist) && f.count == old(f.count) + 1
      ensures old(Inv(S())) ==> Inv(S())
      ensures S() == Refill(old(S()), p, Junk(1)[0 := old(freelist) * PGSIZE], Free)
    {
      ghost var s := S();
      var words := Junk(1)[0 := freelist * PGSIZE];
      PushKeeps(s, f, freelist, p, words);
      if Inv(s) { RefillKeeps(s, p, words, Free); }
      mem := mem[p := words];
      role := role[p := Free];
      f := Pushed(f, p);
      freelist := p;
    }

    /** Hands the whole pages between two physical addresses to the allocator, each once. */
    method Freerange(start: int, end: int)
      requires Valid() && 0 < start <= end
      requires forall q :: RoundUp(start) / PGSIZE <= q < end / PGSIZE ==> Is(S(), q, Held)
      modifies this
      ensures Valid() && role.Keys == old(role).Keys
      ensures forall q :: q in role ==>
                role[q] == if RoundUp(start) / PGSIZE <= q < end / PGSIZE then Free else old(role)[q]
    {
      ghost var s, lo := S(), RoundUp(start) / PGSIZE;
      var p := RoundUp(start);
      ghost var n := lo;
      while p + PGSIZE <= end
        invariant p == n * PGSIZE && lo <= n && Valid() && role.Keys == s.role.Keys
        invariant n <= end / PGSIZE || n == lo
        invariant forall q :: q in role ==> role[q] == if lo <= q < n then Free else s.role[q]
      {
        assert Is(s, n, Held);
        Kfree(p / PGSIZE);
        p := p + PGSIZE;
        n := n + 1;
      }
    }

    /** The entry for virtual address va under root r: entry k of level-0 table p. With
        alloc, missing tables are created; without memory for them walk gives up. */
    method Walk(r: int, va: int, alloc: bool) returns (ok: bool, p: int, k: int)
      requires Valid() && Is(S(), r, Top) && 0 <= va < MAXVA
      modifies this
      ensures Valid() && Within(old(S()), S(), r, 0, 0)
      ensures ok ==> Is(S(), p, Low(r, Px2(va / PGSIZE), Px1(va / PGSIZE))) && k == Px0(va / PGSIZE)
      ensures (!alloc ==> S() == old(S()) && f == old(f)) && (!ok ==> Look(S(), r, va / PGSIZE) == 0)
      ensures f.count >= old(f.count) - 2 && (alloc && !ok ==> f.count == 0 && old(f.count) < 2)
    {
      ghost var s := S();
      ghost var v := va / PGSIZE;
      Indices(v);
      WithinSelf(s, r);
      p := r;
      var level := 2;
      while level > 0
        invariant 0 <= level <= 2 && Valid() && Within(s, S(), r, 0, 0) && Is(S(), r, Top)
        invariant Is(S(), p, TableRole(level, r, v))
        invariant !alloc ==> S() == s && f == old(f)
        invariant f.count >= old(f.count) - (2 - level)
        invariant level == 2 ==> p == r
        invariant level == 1 ==> V(Entry(S(), r, Px2(v))) && Ppn(Entry(S(), r, Px2(v))) == p
      {
        k := Px(level, va / PGSIZE);
        assert PageOk(S(), p);
        if V(mem[p][k]) {
          assert if level == 2 then TopEntry(S(), p, k) else MidEntry(S(), p, r, Px2(v), k);
          p := Ppn(mem[p][k]);
        } else {
          if !alloc {
            return false, 0, 0;
          }
          ghost var s1 := S();
          var c := NewTable(p, k, r);
          WithinTrans(s, s1, S(), r, 0, 0, {});
          assert SameRole(s1, S(), r, 0, 0, r);
          if c == 0 {
            return false, 0, 0;
          }
          p := c;
        }
        level := level - 1;
      }
      ok, k := true, Px0(va / PGSIZE);
    }

    /** Allocates, zeroes and links in the table for entry k of table p; 0 without memory. */
    method NewTable(p: int, k: int, ghost r: int) returns (c: int)
      requires Valid() && p in role && (role[p].Top? || role[p].Mid?) && PageOk(S(), p)
      requires 0 <= k < (if role[p].Top? then TOPS else ENTRIES) && !V(Entry(S(), p, k))
      modifies this
      ensures Valid() && Within(old(S()), S(), r, 0, 0) && p in role && role[p] == old(role)[p]
      ensures (c == 0 ==> f.count == 0) && f.count == old(f.count) - if c == 0 then 0 else 1
      ensures c != 0 ==> Is(S(), c, if role[p].Top? then Mid(p, k) else Low(role[p].r, role[p].i, k))
      ensures c != 0 ==> V(Entry(S(), p, k)) && Ppn(Entry(S(), p, k)) == c
    {
      ghost var s := S();
      c := Kalloc();
      if c == 0 {
        WithinSelf(s, r);
        return;
      }
      ghost var s1 := S();
      NewTableWithin(s, c, Junk(5), p, k, r);
      assert PageOk(s1, p);
      AddTableKeeps(s1, p, k, c, r);
      PteParts(c, 0);
      mem := mem[c := Zeros()];
      mem := mem[p := mem[p][k := Pte(c, 0)]];
      role := role[c := if role[p].Top? then Mid(p, k) else Low(role[p].r, role[p].i, k)];
      assert S() == AddTable(s1, p, k, c);
      SameFreeList(s1, S(), f, freelist);
    }

    /** One round of mappages: page v of root r to page frame n. It panics on an address too high and on a page that
        is mapped already. */
    method MapOne(r: int, va: int, n: int, perm: int, ghost own: bool) returns (res: MapResult)
      requires Valid() && Is(S(), r, Top) && 0 <= va && 0 <= perm < 1024 && Rwx(perm) && (own ==> Is(S(), n, Held))
      modifies this
      ensures Valid() && Is(S(), r, Top) && (res == Panic <==> va >= MAXVA || V(Look(old(S()), r, va / PGSIZE)))
      ensures f.count >= old(f.count) - 2 && (res == NoMemory ==> f.count == 0 && old(f.count) < 2)
      ensures res != Mapped ==> Within(old(S()), S(), r, 0, 0)
      ensures res == Mapped ==> WithinBut(old(S()), S(), r, va / PGSIZE, va / PGSIZE + 1, if own then {n} else {})
      ensures res == Mapped ==> Look(S(), r, va / PGSIZE) == Pte(n, perm)
      ensures res == Mapped && own ==> Is(S(), n, Frame(r, va / PGSIZE)) && Words(S(), n) == old(Words(S(), n))
    {
      ghost var s0, v := S(), va / PGSIZE;
      if va >= MAXVA {
        WithinSelf(s0, r);
        return Panic;
      }
      Indices(v);
      var ok, p, k := Walk(r, va, true);
      ghost var s := S();
      assert SameRole(s0, s, r, 0, 0, r) && Look(s, r, v) == Look(s0, r, v);
      if !ok {
        return NoMemory;
      }
      assert own ==> SameRole(s0, s, r, 0, 0, n);
      assert PageOk(s, p);
      LeafEntry(s, p, k);
      if V(mem[p][k]) {
        return Panic;
      }
      SetLeaf(p, k, n, perm, own);
      WithinWider(s0, s, r, 0, 0, {}, v, v + 1, if own then {n} else {});
      WithinTrans(s0, s, S(), r, v, v + 1, if own then {n} else {});
      assert SameRole(s0, S(), r, v, v + 1, r);
      res := Mapped;
    }

    /** Stores a leaf for page frame n in the invalid entry k of level-0 table p. */
    method SetLeaf(p: int, k: int, n: int, perm: int, ghost own: bool)
      requires Valid() && p in role && role[p].Low? && PageOk(S(), p) && 0 <= k < ENTRIES
      requires !V(Entry(S(), p, k)) && 0 <= perm < 1024 && Rwx(perm)
      requires own ==> Is(S(), n, Held)
      modifies this`mem, this`role
      ensures Valid()
      ensures var x := old(role)[p];
              var v := Vpn(x.i, x.j, k);
              && WithinBut(old(S()), S(), x.r, v, v + 1, if own then {n} else {})
              && Look(S(), x.r, v) == Pte(n, perm)
              && (own ==> Is(S(), n, Frame(x.r, v)) && Words(S(), n) == old(Words(S(), n)))
    {
      ghost var s := S();
      PteParts(n, perm);
      MapLeafKeeps(s, p, k, Pte(n, perm), own);
      MapLeafWithin(s, p, k, Pte(n, perm), own);
      mem := mem[p := mem[p][k := Pte(n, perm)]];
      if own {
        role := role[n := Frame(role[p].r, Vpn(role[p].i, role[p].j, k))];
      }
      assert S() == MapLeaf(s, p, k, Pte(n, perm), own);
      SameFreeList(s, S(), f, freelist);
    }

    /** Clears the valid entry k of level-0 table p, freeing its frame first if asked to. */
    method ClearOne(p: int, k: int, doFree: bool)
      requires Valid() && p in role && role[p].Low? && PageOk(S(), p) && 0 <= k < ENTRIES && V(Entry(S(), p, k))
      requires doFree <==> Is(S(), Ppn(Entry(S(), p, k)), Frame(role[p].r, Vpn(role[p].i, role[p].j, k)))
      modifies this
      ensures Valid() && f.count >= old(f.count)
      ensures var x := old(role)[p];
              var v := Vpn(x.i, x.j, k);
              && Within(old(S()), S(), x.r, v, v + 1) && 0 <= v < VPNS && Look(S(), x.r, v) == 0
              && Released(old(S()), S(), x.r, v, v + 1)
    {
      ghost var s := S();
      if doFree {
        FreeLeaf(s, p, k, Junk(1)[0 := freelist * PGSIZE]);
        FreeFrame(Ppn(mem[p][k]));
      } else {
        ClearBorrowed(s, p, k);
      }
      ZeroEntry(p, k);
    }

    /** kfree of a frame that a leaf still names. */
    method FreeFrame(q: int)
      requires Valid() && q in role && role[q].Frame?
      modifies this
      ensures ListOk(S(), f, freelist) && f.count == old(f.count) + 1
      ensures S() == Refill(SetRole(old(S()), q, Held), q, Junk(1)[0 := old(freelist) * PGSIZE], Free)
    {
      ghost var s := S();
      role := role[q := Held];
      assert S() == SetRole(s, q, Held);
      SameFreeList(s, S(), f, freelist);
      Kfree(q);
    }

    method ZeroEntry(p: int, k: int)
      requires ListOk(S(), f, freelist) && p in role && role[p].Low? && p in mem && 0 <= k < |mem[p]|
      modifies this`mem
      ensures ListOk(S(), f, freelist) && S() == Store(old(S()), p, k, 0)
    {
      ghost var s := S();
      mem := mem[p := mem[p][k := 0]];
      assert S() == Store(s, p, k, 0);
      SameFreeList(s, S(), f, freelist);
    }

    /** One round of uvmunmap. */
    method UnmapOne(r: int, va: int, doFree: bool)
      requires Valid() && Is(S(), r, Top) && 0 <= va < MAXVA
      requires V(Look(S(), r, va / PGSIZE)) ==>
                 (doFree <==> Is(S(), Ppn(Look(S(), r, va / PGSIZE)), Frame(r, va / PGSIZE)))
      modifies this
      ensures Valid() && Within(old(S()), S(), r, va / PGSIZE, va / PGSIZE + 1)
      ensures Look(S(), r, va / PGSIZE) == 0 && Is(S(), r, Top) && f.count >= old(f.count)
      ensures Released(old(S()), S(), r, va / PGSIZE, va / PGSIZE + 1)
    {
      ghost var s, v := S(), va / PGSIZE;
      Indices(v);
      WithinSelf(s, r);
      WithinWider(s, s, r, 0, 0, {}, v, v + 1, {});
      var ok, p, k := Walk(r, va, false);
      if !ok {
        return;
      }
      assert PageOk(s, p);
      LeafEntry(s, p, k);
      assert Look(s, r, v) == if V(mem[p][k]) then mem[p][k] else 0;
      if V(mem[p][k]) {
        ClearOne(p, k, doFree);
        assert SameRole(s, S(), r, v, v + 1, r);
      }
    }

    /** Removes the mappings of npages pages from va on, with their frames if asked to. It panics at once on an address
        that is not aligned, and at the first page that is too high. */
    method UvmUnmap(r: int, va: int, npages: int, doFree: bool) returns (panicked: bool)
      requires Valid() && Is(S(), r, Top) && 0 <= va && 0 <= npages && va + npages * PGSIZE < 0x1_0000_0000_0000_0000
      requires forall v :: va / PGSIZE <= v < UnmapEnd(va, npages) && V(Look(S(), r, v)) ==>
                 (doFree <==> Is(S(), Ppn(Look(S(), r, v)), Frame(r, v)))
      modifies this
      ensures panicked <==> va % PGSIZE != 0 || (npages > 0 && va + npages * PGSIZE > MAXVA)
      ensures Valid() && Is(S(), r, Top) && Within(old(S()), S(), r, va / PGSIZE, UnmapEnd(va, npages))
      ensures forall v :: va / PGSIZE <= v < UnmapEnd(va, npages) ==> Look(S(), r, v) == 0
      ensures f.count >= old(f.count) && Released(old(S()), S(), r, va / PGSIZE, UnmapEnd(va, npages))
      ensures va % PGSIZE == 0 ==> NoneBetween(S(), r, va, Min(va + npages * PGSIZE, MAXVA))
      ensures OnlyBetween(old(S()), S(), r, va, if va % PGSIZE == 0 then va + npages * PGSIZE else va)
    {
      ghost var s, lo := S(), va / PGSIZE;
      WithinSelf(s, r);
      WithinWider(s, s, r, 0, 0, {}, lo, lo, {});
      if va % PGSIZE != 0 {
        return true;
      }
      panicked := UnmapLoop(r, va, npages, doFree, lo);
      UnmappedBetween(s, S(), r, va, npages);
    }

    /** uvmunmap's loop. */
    method UnmapLoop(r: int, va: int, npages: int, doFree: bool, ghost lo: int) returns (panicked: bool)
      requires Valid() && Is(S(), r, Top) && va == lo * PGSIZE && 0 <= lo && 0 <= npages
      requires forall v :: lo <= v < Max(lo, Min(lo + npages, VPNS)) && V(Look(S(), r, v)) ==>
                 (doFree <==> Is(S(), Ppn(Look(S(), r, v)), Frame(r, v)))
      modifies this
      ensures panicked <==> npages > 0 && lo + npages > VPNS
      ensures Unmapped(old(S()), r, lo, Max(lo, Min(lo + npages, VPNS))) && f.count >= old(f.count)
    {
      ghost var s, v := S(), lo;
      WithinSelf(s, r);
      WithinWider(s, s, r, 0, 0, {}, lo, lo, {});
      var a := va;
      while a < va + npages * PGSIZE
        invariant lo <= v <= lo + npages && a == v * PGSIZE && (v == lo || v <= VPNS)
        invariant Unmapped(s, r, lo, v) && f.count >= old(f.count)
        decreases lo + npages - v
      {
        if a >= MAXVA {
          return true;
        }
        ghost var s1 := S();
        KeepsFrame(s, s1, r, lo, v, v);
        assert a / PGSIZE == v;
        UnmapOne(r, a, doFree);
        WithinGrows(s, s1, S(), r, lo, v);
        a := a + PGSIZE;
        v := v + 1;
      }
      panicked := false;
    }

    /** Since s, pages lo..hi have been unmapped, and their frames, if any were given back, are free. */
    ghost predicate Unmapped(s: Phys, r: int, lo: int, hi: int)
      reads this
    {
      && Valid() && Is(S(), r, Top) && Within(s, S(), r, lo, hi) && Released(s, S(), r, lo, hi)
      && forall v :: lo <= v < hi ==> Look(S(), r, v) == 0
    }

    /** Since s, done pages from v0 on have been mapped to the frames from n0 on, and nothing else has changed. */
    ghost predicate RunDone(s: Phys, r: int, v0: int, n0: int, perm: int, own: bool, done: int)
      reads this
    {
      && Valid() && Is(S(), r, Top) && WithinBut(s, S(), r, v0, v0 + done, Opened(n0, done, own))
      && MapsRun(S(), r, v0, n0, perm, own, done) && (own ==> KeepsWords(s, S(), n0, done))
    }

    /** A round of mappages after done others. */
    method MapNext(ghost s: Phys, r: int, a: int, n: int, perm: int, ghost own: bool, ghost v0: int, ghost n0: int,
                   ghost done: int)
      returns (res: MapResult)
      requires 0 <= v0 && 0 <= done && (done > 0 ==> v0 + done <= VPNS) && a == (v0 + done) * PGSIZE && n == n0 + done
      requires Is(s, r, Top) && RunDone(s, r, v0, n0, perm, own, done) && 0 <= perm < 1024 && Rwx(perm)
      requires own ==> forall q :: n0 <= q <= n ==> Is(s, q, Held)
      modifies this
      ensures RunDone(s, r, v0, n0, perm, own, if res == Mapped then done + 1 else done)
      ensures (res == Panic <==> Barred(s, r, v0 + done)) && (res == Mapped ==> v0 + done < VPNS)
      ensures f.count >= old(f.count) - 2 && (res == NoMemory ==> f.count == 0 && old(f.count) < 2)
    {
      ghost var s1 := S();
      assert a < MAXVA ==> Look(s1, r, v0 + done) == Look(s, r, v0 + done);
      if own {
        assert Is(s, n, Held);
        assert SameRole(s, s1, r, v0, v0 + done, n);
      }
      res := MapOne(r, a, n, perm, own);
      if res == Mapped {
        MapsRunGrows(s, s1, S(), r, v0, n0, perm, own, done);
        if own { KeepsWordsGrows(s, s1, S(), r, v0, n0, perm, done); }
      } else {
        RunStays(s, s1, S(), r, v0, n0, own, done);
        RunMapped(s1, S(), r, v0, n0, perm, own, done);
        if own { KeepsWordsStays(s, s1, S(), r, v0, n0, perm, done); }
      }
    }

    /** Maps size bytes from va on to the page frames from pa on. It stops after done pages: when all are mapped,
        without memory for a table, or with a panic, which arguments not aligned give at once and an address too high or
        a page mapped already give when their turn comes. */
    method MapPages(r: int, va: int, size: int, pa: int, perm: int, ghost own: bool)
      returns (res: MapResult, ghost done: int)
      requires Valid() && Is(S(), r, Top) && 0 <= va && 0 <= size && va + size < 0x1_0000_0000_0000_0000
      requires 0 <= perm < 1024 && Rwx(perm)
      requires own ==> forall n :: pa / PGSIZE <= n < pa / PGSIZE + size / PGSIZE ==> Is(S(), n, Held)
      modifies this
      ensures RunDone(old(S()), r, va / PGSIZE, pa / PGSIZE, perm, own, done)
      ensures va % PGSIZE != 0 || size % PGSIZE != 0 || size == 0 ==> res == Panic && done == 0 && S() == old(S())
      ensures va % PGSIZE == 0 && size % PGSIZE == 0 && size != 0 ==>
                && 0 <= done <= size / PGSIZE && (res == Mapped <==> done == size / PGSIZE)
                && NoneBarred(old(S()), r, va / PGSIZE, done)
                && (done < size / PGSIZE ==> (res == Panic <==> Barred(old(S()), r, va / PGSIZE + done)))
      ensures f.count >= old(f.count) - 2 * (size / PGSIZE)
      ensures res == NoMemory ==> f.count == 0 && old(f.count) < 2 * (size / PGSIZE)
    {
      ghost var s, v0 := S(), va / PGSIZE;
      if va % PGSIZE != 0 || size % PGSIZE != 0 || size == 0 {
        WithinSelf(s, r);
        WithinWider(s, s, r, 0, 0, {}, v0, v0, {});
        return Panic, 0;
      }
      res, done := MapLoop(r, va, size, pa, perm, own, v0, size / PGSIZE);
    }

    /** mappages's loop over n pages. */
    method MapLoop(r: int, va: int, size: int, pa: int, perm: int, ghost own: bool, ghost v0: int, ghost n: int)
      returns (res: MapResult, ghost done: int)
      requires Valid() && Is(S(), r, Top) && 0 <= v0 && va == v0 * PGSIZE && n > 0 && size == n * PGSIZE
      requires 0 <= perm < 1024 && Rwx(perm)
      requires own ==> forall q :: pa / PGSIZE <= q < pa / PGSIZE + n ==> Is(S(), q, Held)
      modifies this
      ensures RunDone(old(S()), r, v0, pa / PGSIZE, perm, own, done)
      ensures 0 <= done <= n && (res == Mapped <==> done == n)
      ensures NoneBarred(old(S()), r, v0, done)
      ensures done < n ==> (res == Panic <==> Barred(old(S()), r, v0 + done))
      ensures f.count >= old(f.count) - 2 * n && (res == NoMemory ==> f.count == 0 && old(f.count) < 2 * n)
    {
      ghost var s, n0 := S(), pa / PGSIZE;
      done := 0;
      WithinSelf(s, r);
      WithinWider(s, s, r, 0, 0, {}, v0, v0, {});
      var a, last, p := va, va + size - PGSIZE, pa;
      while true
        invariant 0 <= done < n && a == (v0 + done) * PGSIZE && p == pa + done * PGSIZE && (done > 0 ==> v0 + done <= VPNS)
        invariant RunSoFar(s, r, v0, n0, perm, own, done) && f.count >= old(f.count) - 2 * done
        decreases n - done
      {
        DivMod(p, PGSIZE, n0 + done, pa % PGSIZE);
        res := MapTurn(s, r, a, p / PGSIZE, perm, own, v0, n0, done);
        if res != Mapped {
          return;
        }
        done := done + 1;
        if a == last {
          break;
        }
        a := a + PGSIZE;
        p := p + PGSIZE;
      }
    }

    ghost predicate RunSoFar(s: Phys, r: int, v0: int, n0: int, perm: int, own: bool, done: int)
      reads this
    {
      RunDone(s, r, v0, n0, perm, own, done) && NoneBarred(s, r, v0, done)
    }

    /** A round of mappages, which panics at the first page that is barred. */
    method MapTurn(ghost s: Phys, r: int, a: int, n: int, perm: int, ghost own: bool, ghost v0: int, ghost n0: int,
                   ghost done: int)
      returns (res: MapResult)
      requires 0 <= v0 && 0 <= done && (done > 0 ==> v0 + done <= VPNS) && a == (v0 + done) * PGSIZE && n == n0 + done
      requires Is(s, r, Top) && RunSoFar(s, r, v0, n0, perm, own, done) && 0 <= perm < 1024 && Rwx(perm)
      requires own ==> forall q :: n0 <= q <= n ==> Is(s, q, Held)
      modifies this
      ensures RunSoFar(s, r, v0, n0, perm, own, if res == Mapped then done + 1 else done)
      ensures (res == Panic <==> Barred(s, r, v0 + done)) && (res == Mapped ==> v0 + done < VPNS)
      ensures f.count >= old(f.count) - 2 && (res == NoMemory ==> f.count == 0 && old(f.count) < 2)
    {
      res := MapNext(s, r, a, n, perm, own, v0, n0, done);
    }

    /** mappages for one page the kernel holds. */
    method MapHeld(r: int, va: int, c: int, perm: int) returns (ok: bool)
      requires Valid() && Is(S(), r, Top) && 0 <= va < MAXVA && va % PGSIZE == 0 && !V(Look(S(), r, va / PGSIZE))
      requires Is(S(), c, Held) && 0 <= perm < 1024 && Rwx(perm)
      modifies this
      ensures Valid() && Is(S(), r, Top) && f.count >= old(f.count) - 2 && (!ok ==> old(f.count) < 2)
      ensures WithinBut(old(S()), S(), r, va / PGSIZE, va / PGSIZE + (if ok then 1 else 0), {c})
      ensures !ok ==> Is(S(), c, Held)
      ensures ok ==> MapsAt(S(), r, va / PGSIZE, c, perm, true, 0) && Words(S(), c) == Words(old(S()), c)
    {
      ghost var s, v := S(), va / PGSIZE;
      var res, done := MapPages(r, va, PGSIZE, c * PGSIZE, perm, true);
      ok := res == Mapped;
      WithinWider(s, S(), r, v, v + done, Opened(c, done, true), v, v + done, {c});
      if !ok {
        assert SameRole(s, S(), r, v, v, c);
      }
    }

    /** Fills a page the kernel holds (memset, memmove). */
    method Overwrite(c: int, words: seq<int>)
      requires Valid() && Is(S(), c, Held) && |words| == ENTRIES
      modifies this`mem
      ensures Valid() && S() == Refill(old(S()), c, words, Held)
    {
      ghost var s := S();
      RefillKeeps(s, c, words, Held);
      mem := mem[c := words];
      assert S() == Refill(s, c, words, Held);
      SameFreeList(s, S(), f, freelist);
    }

    /** kalloc followed by filling the page; no page table under r sees it. */
    method TakeFilled(words: seq<int>, ghost r: int, ghost v: int) returns (c: int)
      requires Valid() && Is(S(), r, Top) && 0 <= v < VPNS && |words| == ENTRIES
      modifies this
      ensures Valid() && (c == 0 ==> S() == old(S()) && old(f.count) == 0) && (c != 0 ==> f.count == old(f.count) - 1)
      ensures c != 0 ==> c > 0 && Is(old(S()), c, Free) && Is(S(), c, Held) && Is(S(), r, Top) && PageOk(S(), c)
      ensures c != 0 ==> S() == Refill(Refill(old(S()), c, Junk(5), Held), c, words, Held)
      ensures c != 0 ==> Look(S(), r, v) == Look(old(S()), r, v)
    {
      ghost var s := S();
      c := Kalloc();
      if c != 0 {
        RefillLooks(s, c, Junk(5), Held, r, v);
        RefillLooks(S(), c, words, Held, r, v);
        Overwrite(c, words);
        assert PageOk(S(), c);
      }
    }

    /** kfree of a page that was taken for a mapping that did not come about. */
    method GiveBack(c: int, ghost s: Phys, ghost r: int, ghost v: int)
      requires Valid() && Is(s, c, Free) && Is(S(), c, Held) && Is(s, r, Top) && WithinBut(s, S(), r, v, v, {c})
      modifies this
      ensures Valid() && Is(S(), r, Top) && Within(s, S(), r, 0, 0)
    {
      ghost var s3, w := S(), Junk(1)[0 := freelist * PGSIZE];
      Kfree(c);
      ReturnedPage(s, c, s3, w, r, v);
      assert SameRole(s, S(), r, 0, 0, r);
    }

    /** Takes a page, gives it contents and maps it at va; a page that cannot be mapped
        goes back. */
    method AddPage(r: int, va: int, words: seq<int>, perm: int) returns (ok: bool, c: int)
      requires Valid() && Is(S(), r, Top) && 0 <= va < MAXVA && va % PGSIZE == 0 && Look(S(), r, va / PGSIZE) == 0
      requires |words| == ENTRIES && 0 <= perm < 1024 && Rwx(perm)
      modifies this
      ensures Valid() && Is(S(), r, Top) && (!ok ==> old(f.count) < 3) && (ok ==> f.count >= old(f.count) - 3)
      ensures !ok ==> Within(old(S()), S(), r, 0, 0)
      ensures ok ==> Within(old(S()), S(), r, va / PGSIZE, va / PGSIZE + 1)
      ensures ok ==> c > 0 && c == Ppn(Look(S(), r, va / PGSIZE)) && Holds(S(), r, va / PGSIZE, words, perm)
    {
      ghost var s, v := S(), va / PGSIZE;
      c := TakeFilled(words, r, v);
      if c == 0 {
        WithinSelf(s, r);
        return false, 0;
      }
      ghost var s2 := S();
      ok := MapHeld(r, va, c, perm);
      ghost var s3 := S();
      TakenPage(s, c, Junk(5), words, s3, r, v, if ok then v + 1 else v);
      PteParts(c, perm);
      if !ok {
        GiveBack(c, s, r, v);
        return false, 0;
      }
      WithinClose(s, s3, r, v, v + 1, c);
    }

    method UvmDealloc(r: int, oldsz: int, newsz: int) returns (sz: int)
      requires Valid() && Is(S(), r, Top) && 0 <= newsz && 0 <= oldsz <= MAXVA
      requires OwnsRange(S(), r, RoundUp(newsz) / PGSIZE, RoundUp(oldsz) / PGSIZE)
      modifies this
      ensures Valid() && Is(S(), r, Top) && sz == (if newsz >= oldsz then oldsz else newsz) && f.count >= old(f.count)
      ensures Released(old(S()), S(), r, RoundUp(newsz) / PGSIZE, RoundUp(oldsz) / PGSIZE)
      ensures Within(old(S()), S(), r, RoundUp(newsz) / PGSIZE, RoundUp(oldsz) / PGSIZE)
      ensures newsz < oldsz ==>
                forall v :: RoundUp(newsz) / PGSIZE <= v < RoundUp(oldsz) / PGSIZE ==> Look(S(), r, v) == 0
      ensures OnlyBetween(old(S()), S(), r, newsz, oldsz) && NoneBetween(S(), r, newsz, oldsz)
    {
      ghost var s, lo, hi := S(), RoundUp(newsz) / PGSIZE, RoundUp(oldsz) / PGSIZE;
      WithinSelf(s, r);
      WithinWider(s, s, r, 0, 0, {}, lo, hi, {});
      if newsz >= oldsz {
        Between(s, s, r, newsz, oldsz, 0);
        return oldsz;
      }
      if RoundUp(newsz) < RoundUp(oldsz) {
        var npages := (RoundUp(oldsz) - RoundUp(newsz)) / PGSIZE;
        assert npages == hi - lo;
        forall v | lo <= v < hi && V(Look(s, r, v)) ensures Is(s, Ppn(Look(s, r, v)), Frame(r, v)) {
          assert Owned(s, r, v);
        }
        var panicked := UvmUnmap(r, RoundUp(newsz), npages, true);
      }
      Between(s, S(), r, newsz, oldsz, 0);
      sz := newsz;
    }

    /** One turn of uvmalloc's loop: a zeroed page at a, or everything since start taken back. */
    method GrowOne(r: int, a: int, start: int, perm: int, ghost s: Phys, ghost lo: int, ghost v: int) returns (done: bool)
      requires Valid() && Is(S(), r, Top) && start == lo * PGSIZE && a == v * PGSIZE && 0 <= lo <= v < VPNS
      requires 0 <= perm < 1024 && Rwx(perm) && Within(s, S(), r, lo, v) && FreshRun(S(), r, lo, v, perm)
      requires Is(s, r, Top) && Inv(s) && Look(s, r, v) == 0 && forall w :: lo <= w < v ==> Look(s, r, w) == 0
      modifies this
      ensures Valid() && Is(S(), r, Top)
      ensures done ==> Within(s, S(), r, lo, v + 1) && FreshRun(S(), r, lo, v + 1, perm) && f.count >= old(f.count) - 3
      ensures !done ==> Within(s, S(), r, 0, 0) && old(f.count) < 3
    {
      ghost var s1 := S();
      KeepsFrame(s, s1, r, lo, v, v);
      var c;
      done, c := AddPage(r, a, Zeros(), perm);
      if !done {
        FailedRun(s, s1, S(), r, lo, v, perm);
        ghost var s2 := S();
        var z := UvmDealloc(r, a, start);
        UndoneRun(s, s2, S(), r, lo, v);
      } else {
        GrownRun(s, s1, S(), r, lo, v, perm);
      }
    }

    /** Grows an address space; without memory it puts back every page and mapping. */
    method UvmAlloc(r: int, oldsz: int, newsz: int, xperm: int) returns (sz: int, ghost ok: bool)
      requires Valid() && Is(S(), r, Top) && 0 <= oldsz && 0 <= newsz <= MAXVA
      requires xperm == 0 || xperm == PTE_W || xperm == PTE_X || xperm == PTE_W + PTE_X
      requires forall v :: RoundUp(oldsz) / PGSIZE <= v < RoundUp(newsz) / PGSIZE ==> Look(S(), r, v) == 0
      modifies this
      ensures Valid() && Is(S(), r, Top)
      ensures sz == if !ok then 0 else if newsz < oldsz then oldsz else newsz
      ensures !ok ==> Within(old(S()), S(), r, 0, 0)
      ensures !ok ==> oldsz < newsz && old(f.count) < 3 * (RoundUp(newsz) / PGSIZE - RoundUp(oldsz) / PGSIZE)
      ensures ok ==> Within(old(S()), S(), r, RoundUp(oldsz) / PGSIZE, RoundUp(newsz) / PGSIZE)
      ensures ok ==> FreshRun(S(), r, RoundUp(oldsz) / PGSIZE, RoundUp(newsz) / PGSIZE, PTE_R + PTE_U + xperm)
      ensures ok ==> FreshBetween(S(), r, oldsz, newsz, PTE_R + PTE_U + xperm)
      ensures OnlyBetween(old(S()), S(), r, oldsz, if ok then newsz else oldsz)
    {
      ghost var s := S();
      sz, ok := GrowTo(r, oldsz, newsz, xperm);
      if ok {
        Between(s, S(), r, oldsz, newsz, PTE_R + PTE_U + xperm);
      }
    }

    /** The statements of uvmalloc. */
    method GrowTo(r: int, oldsz: int, newsz: int, xperm: int) returns (sz: int, ghost ok: bool)
      requires Valid() && Is(S(), r, Top) && 0 <= oldsz && 0 <= newsz <= MAXVA
      requires xperm == 0 || xperm == PTE_W || xperm == PTE_X || xperm == PTE_W + PTE_X
      requires forall v :: RoundUp(oldsz) / PGSIZE <= v < RoundUp(newsz) / PGSIZE ==> Look(S(), r, v) == 0
      modifies this
      ensures Valid() && Is(S(), r, Top)
      ensures sz == if !ok then 0 else if newsz < oldsz then oldsz else newsz
      ensures !ok ==> Within(old(S()), S(), r, 0, 0)
      ensures !ok ==> oldsz < newsz && old(f.count) < 3 * (RoundUp(newsz) / PGSIZE - RoundUp(oldsz) / PGSIZE)
      ensures ok ==> Within(old(S()), S(), r, RoundUp(oldsz) / PGSIZE, RoundUp(newsz) / PGSIZE)
      ensures ok ==> FreshRun(S(), r, RoundUp(oldsz) / PGSIZE, RoundUp(newsz) / PGSIZE, PTE_R + PTE_U + xperm)
    {
      ghost var s, lo := S(), RoundUp(oldsz) / PGSIZE;
      var perm := PTE_R + PTE_U + xperm;
      WithinSelf(s, r);
      WithinWider(s, s, r, 0, 0, {}, lo, lo, {});
      if newsz < oldsz {
        WithinWider(s, s, r, 0, 0, {}, lo, RoundUp(newsz) / PGSIZE, {});
        return oldsz, true;
      }
      var start := RoundUp(oldsz);
      var a := start;
      ghost var v := lo;
      while a < newsz
        invariant start <= a <= RoundUp(newsz) && a == v * PGSIZE
        invariant Valid() && Is(S(), r, Top) && Within(s, S(), r, lo, v) && FreshRun(S(), r, lo, v, perm)
        invariant f.count >= old(f.count) - 3 * (v - lo)
      {
        var done := GrowOne(r, a, start, perm, s, lo, v);
        if !done {
          return 0, false;
        }
        a := a + PGSIZE;
        v := v + 1;
      }
      sz, ok := newsz, true;
    }

    /** Copies the mapped pages below sz of one address space into another that has none
        there; without memory it takes every copy back. */
    method UvmCopy(from: int, to: int, sz: int) returns (res: int)
      requires Valid() && Is(S(), from, Top) && Is(S(), to, Top) && from != to && 0 <= sz <= MAXVA
      requires OwnsRange(S(), from, 0, RoundUp(sz) / PGSIZE)
      requires forall v :: 0 <= v < RoundUp(sz) / PGSIZE ==> Look(S(), to, v) == 0
      modifies this
      ensures Valid() && Is(S(), to, Top) && (res == 0 || res == -1)
      ensures res == 0 ==> Within(old(S()), S(), to, 0, RoundUp(sz) / PGSIZE)
      ensures res == 0 ==> CopiedBelow(old(S()), S(), from, to, sz)
      ensures OnlyBetween(old(S()), S(), to, 0, if res == 0 then sz else 0)
      ensures res == -1 ==> Within(old(S()), S(), to, 0, 0) && old(f.count) < 3 * (RoundUp(sz) / PGSIZE)
    {
      ghost var s := S();
      res := CopyTo(from, to, sz);
      if res == 0 {
        AllCopied(s, S(), from, to, sz);
      }
    }

    /** The statements of uvmcopy. */
    method CopyTo(from: int, to: int, sz: int) returns (res: int)
      requires Valid() && Is(S(), from, Top) && Is(S(), to, Top) && from != to && 0 <= sz <= MAXVA
      requires OwnsRange(S(), from, 0, RoundUp(sz) / PGSIZE)
      requires forall v :: 0 <= v < RoundUp(sz) / PGSIZE ==> Look(S(), to, v) == 0
      modifies this
      ensures Valid() && Is(S(), to, Top) && (res == 0 || res == -1)
      ensures res == 0 ==> Within(old(S()), S(), to, 0, RoundUp(sz) / PGSIZE)
      ensures res == 0 ==> CopiedRun(old(S()), S(), from, to, RoundUp(sz) / PGSIZE)
      ensures res == -1 ==> Within(old(S()), S(), to, 0, 0) && old(f.count) < 3 * (RoundUp(sz) / PGSIZE)
    {
      ghost var s := S();
      WithinSelf(s, to);
      var i := 0;
      while i < sz
        invariant 0 <= i <= RoundUp(sz) && i % PGSIZE == 0
        invariant Valid() && Is(S(), to, Top) && Within(s, S(), to, 0, i / PGSIZE)
        invariant CopiedRun(s, S(), from, to, i / PGSIZE) && f.count >= old(f.count) - 3 * (i / PGSIZE)
      {
        ghost var s1, v := S(), i / PGSIZE;
        var done := CopyOne(from, to, i, s);
        if !done {
          FailedCopy(s, s1, S(), from, to, v);
          ghost var s2 := S();
          forall w | 0 <= w < v && V(Look(s2, to, w)) ensures Is(s2, Ppn(Look(s2, to, w)), Frame(to, w)) {
            assert Owned(s2, to, w);
          }
          var panicked := UvmUnmap(to, 0, i / PGSIZE, true);
          UndoneRun(s, s2, S(), to, 0, v);
          return -1;
        }
        WithinGrows(s, s1, S(), to, 0, v);
        forall w | 0 <= w < v ensures Copied(s, S(), from, to, w) {
          assert Copied(s, s1, from, to, w);
          CopiedStays(s, s1, S(), from, to, v, v + 1, w);
        }
        i := i + PGSIZE;
        assert i / PGSIZE == v + 1;
      }
      res := 0;
    }

    /** One round of uvmcopy. */
    method CopyOne(from: int, to: int, i: int, ghost s: Phys) returns (ok: bool)
      requires Valid() && Inv(s) && Is(s, from, Top) && Is(s, to, Top) && Is(S(), to, Top) && from != to
      requires 0 <= i < MAXVA && i % PGSIZE == 0 && Within(s, S(), to, 0, i / PGSIZE)
      requires Owned(s, from, i / PGSIZE) && Look(s, to, i / PGSIZE) == 0
      modifies this
      ensures Valid() && Is(S(), to, Top) && (!ok ==> old(f.count) < 3) && (ok ==> f.count >= old(f.count) - 3)
      ensures !ok ==> Within(old(S()), S(), to, 0, 0)
      ensures ok ==> Within(old(S()), S(), to, i / PGSIZE, i / PGSIZE + 1) && Copied(s, S(), from, to, i / PGSIZE)
    {
      ghost var s1, v := S(), i / PGSIZE;
      Indices(v);
      WithinSelf(s1, to);
      WithinWider(s1, s1, to, 0, 0, {}, v, v + 1, {});
      KeepsFrame(s, s1, to, 0, v, v);
      assert SameRole(s, s1, to, 0, v, from) && Look(s1, from, v) == Look(s, from, v);
      var ok1, p, k := Walk(from, i, false);
      if !ok1 {
        return true;
      }
      assert PageOk(s1, p);
      LeafEntry(s1, p, k);
      if !V(mem[p][k]) {
        return true;
      }
      ghost var e := Look(s, from, v);
      LookIsLeaf(s1, from, v);
      assert SameRole(s, s1, to, 0, v, Ppn(e)) && PageOk(s1, Ppn(e));
      var c;
      ok, c := AddPage(to, i, mem[Ppn(mem[p][k])], Flags(mem[p][k]));
    }

    /** Allocates a page on first use, as vmfault does for addresses below sz. */
    method VmFault(r: int, va: int, sz: int) returns (pa: int)
      requires Valid() && Is(S(), r, Top) && 0 <= va && 0 <= sz <= MAXVA
      modifies this
      ensures Valid() && Is(S(), r, Top)
      ensures pa == 0 ==> Within(old(S()), S(), r, 0, 0)
      ensures pa == 0 ==> va >= sz || old(Look(S(), r, va / PGSIZE)) != 0 || old(f.count) < 3
      ensures pa != 0 ==> va < sz && old(Look(S(), r, va / PGSIZE)) == 0 && f.count >= old(f.count) - 3
      ensures pa != 0 ==> Within(old(S()), S(), r, va / PGSIZE, va / PGSIZE + 1)
      ensures pa != 0 ==> Holds(S(), r, va / PGSIZE, Zeros(), PTE_W + PTE_U + PTE_R) && pa == Ppn(Look(S(), r, va / PGSIZE)) * PGSIZE
    {
      ghost var s := S();
      WithinSelf(s, r);
      if va >= sz {
        return 0;
      }
      var a := va / PGSIZE * PGSIZE;
      ghost var v := va / PGSIZE;
      var ok, p, k := Walk(r, a, false);
      if ok {
        assert PageOk(s, p);
        Indices(v);
        LeafEntry(s, p, k);
        if V(mem[p][k]) {
          return 0;
        }
      }
      var done, c := AddPage(r, a, Zeros(), PTE_W + PTE_U + PTE_R);
      pa := if done then c * PGSIZE else 0;
    }

    method UvmCreate() returns (r: int)
      requires Valid()
      modifies this
      ensures Valid()
      ensures r == 0 ==> old(f.count) == 0 && S() == old(S())
      ensures r != 0 ==> Is(old(S()), r, Free) && Is(S(), r, Top) && forall v :: 0 <= v < VPNS ==> Look(S(), r, v) == 0
      ensures r != 0 ==> WithinBut(old(S()), S(), r, 0, 0, {r})
    {
      ghost var s := S();
      r := Kalloc();
      if r == 0 {
        return;
      }
      ghost var s1 := S();
      RefillKeeps(s1, r, Zeros(), Top);
      mem := mem[r := Zeros()];
      role := role[r := Top];
      assert S() == Refill(s1, r, Zeros(), Top);
      SameFreeList(s1, S(), f, freelist);
      NewRoot(s, r, Junk(5));
    }

    /** Frees table p and every table below it, each once. The caller clears the entry
        that led to p. */
    method Freewalk(p: int)
      requires Valid() && p in role && IsTable(role[p]) && NoLeaves(S(), p)
      modifies this
      ensures ListOk(S(), f, freelist)
      ensures Gone(old(S()), S(), p, ENTRIES, true)
      ensures var q, i := old(Parent(S(), p)), old(ParentIndex(S(), p));
              Inv(Unlinked(S(), q, i)) && SameLooks(old(S()), Unlinked(S(), q, i), p, 0, VPNS)
      decreases Level(role[p])
    {
      ghost var s, x := S(), role[p];
      GoneNone(s, p);
      var i := 0;
      while i < ENTRIES
        invariant 0 <= i <= ENTRIES && Valid() && p in role && role[p] == x && Gone(s, S(), p, i, false)
        invariant NoLeaves(S(), p) && SameLooks(s, S(), p, 0, VPNS)
        invariant forall j :: 0 <= j < i ==> !V(Entry(S(), p, j))
      {
        ghost var s1 := S();
        assert PageOk(s1, p);
        var pte := mem[p][i];
        if V(pte) {
          ChildTable(s1, p, i);
        } else {
          GoneSkips(s, s1, p, i);
        }
        if V(pte) && !Rwx(pte) {
          var child := Ppn(pte);
          Freewalk(child);
          ghost var s2 := S();
          ChildFreed(s, s1, s2, p, i);
          mem := mem[p := mem[p][i := 0]];
          assert S() == Unlinked(s2, p, i);
          SameFreeList(s2, S(), f, freelist);
        } else if V(pte) {
          assert false;
        }
        i := i + 1;
      }
      ghost var s1 := S();
      assert PageOk(s1, p);
      TreeFreed(s, s1, p, Junk(1)[0 := freelist * PGSIZE]);
      role := role[p := Held];
      SameFreeList(s1, S(), f, freelist);
      Kfree(p);
    }

    /** Takes down an address space with no leaf at or above sz: everything that belonged
        to it, and nothing else, becomes free. */
    method UvmFree(r: int, sz: int)
      requires Valid() && Is(S(), r, Top) && 0 <= sz <= MAXVA
      requires OwnsRange(S(), r, 0, RoundUp(sz) / PGSIZE)
      requires forall v :: RoundUp(sz) / PGSIZE <= v < VPNS ==> Look(S(), r, v) == 0
      modifies this
      ensures Valid() && role.Keys == old(role).Keys
      ensures forall q :: q in role ==> role[q] == if BelongsTo(old(role)[q], q, r) then Free else old(role)[q]
      ensures forall r2, v :: r2 != r && old(Is(S(), r2, Top)) && 0 <= v < VPNS ==> Look(S(), r2, v) == old(Look(S(), r2, v))
    {
      ghost var s, n := S(), RoundUp(sz) / PGSIZE;
      WithinSelf(s, r);
      WithinWider(s, s, r, 0, 0, {}, 0, n, {});
      if sz > 0 {
        forall v | 0 <= v < n && V(Look(s, r, v)) ensures Is(s, Ppn(Look(s, r, v)), Frame(r, v)) {
          assert Owned(s, r, v);
        }
        var panicked := UvmUnmap(r, 0, RoundUp(sz) / PGSIZE, true);
      }
      ghost var s1 := S();
      forall v | 0 <= v < VPNS ensures Look(s1, r, v) == 0 {
        if v >= n { KeepsFrame(s, s1, r, 0, n, v); }
      }
      NoLooksNoLeaves(s1, r);
      Freewalk(r);
      AllGone(s, s1, S(), r, n);
      forall r2, v | r2 != r && Is(s, r2, Top) && 0 <= v < VPNS ensures Look(S(), r2, v) == Look(s, r2, v) {
        assert SameRole(s, s1, r, 0, n, r2);
        assert Look(s1, r2, v) == Look(s, r2, v);
      }
    }
  }
}

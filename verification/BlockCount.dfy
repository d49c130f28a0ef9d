/** How many blocks a stretch of a file still needs and how many the disk has left: what decides, before a call, how far
    readi and writei get. */
module BlockCount {
  import opened Arith
  import opened BlockMap
  import opened Params

  // The disk's side.

  ghost function FreeBlocks(role: seq<Role>): set<int> {
    set b | 0 <= b < |role| && role[b] == Free
  }

  ghost function FreeCount(s: Fs): int { |FreeBlocks(s.role)| }

  lemma TakesOne(role: seq<Role>, b: int, r: Role)
    requires 0 <= b < |role| && role[b] == Free && r != Free
    ensures |FreeBlocks(role[b := r])| == |FreeBlocks(role)| - 1
  {
    assert FreeBlocks(role[b := r]) == FreeBlocks(role) - {b};
  }

  lemma NoneLeft(s: Fs)
    ensures FreeCount(s) == 0 <==> forall b :: 0 <= b < |s.role| ==> s.role[b] != Free
  {
    if FreeCount(s) != 0 {
      assert FreeBlocks(s.role) != {};
      var b :| b in FreeBlocks(s.role);
    } else {
      forall b | 0 <= b < |s.role| ensures s.role[b] != Free {
        assert b !in FreeBlocks(s.role);
      }
    }
  }

  /** The bitmap tells how many blocks are free. */
  lemma SameDiskSameFree(s: Fs, t: Fs)
    requires Inv(s) && Inv(t) && SameLayout(s, t) && s.disk == t.disk
    ensures FreeCount(s) == FreeCount(t)
  {
    forall b | 0 <= b < |s.disk| ensures s.role[b] == Free <==> t.role[b] == Free {
      assert BlockOk(s, 0, b) && BlockOk(t, 0, b);
    }
    assert FreeBlocks(s.role) == FreeBlocks(t.role);
  }

  // The file's side.

  predicate Hole(s: Fs, i: int, n: int)
    requires Shape(s) && 0 <= i < |s.inode|
  {
    0 <= n < MAXFILE && At(s, i, SlotNo(n)) == 0
  }

  /** The holes among blocks a..e of file i. */
  function Holes(s: Fs, i: int, a: int, e: int): int
    requires Shape(s) && 0 <= i < |s.inode|
    decreases e - a
  {
    if e <= a then 0 else Holes(s, i, a, e - 1) + if Hole(s, i, e - 1) then 1 else 0
  }

  /** The indirect block that blocks a..e need and the file does not have. */
  function Indirect(s: Fs, i: int, a: int, e: int): int
    requires Shape(s) && 0 <= i < |s.inode|
  {
    if a < e && NDIRECT < e && At(s, i, NDIRECT) == 0 then 1 else 0
  }

  /** How many blocks have to be allocated for blocks a..e of file i. */
  function Need(s: Fs, i: int, a: int, e: int): int
    requires Shape(s) && 0 <= i < |s.inode|
  {
    Holes(s, i, a, e) + Indirect(s, i, a, e)
  }

  /** One past the last block of len bytes at off. */
  function EndBlock(off: int, len: int): int { if len <= 0 then off / BSIZE else (off + len - 1) / BSIZE + 1 }

  /** How many blocks have to be allocated for len bytes at off. */
  function Needs(s: Fs, i: int, off: int, len: int): int
    requires Shape(s) && 0 <= i < |s.inode|
  {
    Need(s, i, off / BSIZE, EndBlock(off, len))
  }

  /** How many blocks a bmap(i, n) has to allocate. */
  function Missing(s: Fs, i: int, n: int): int
    requires Shape(s) && 0 <= i < |s.inode| && 0 <= n < MAXFILE
  {
    (if At(s, i, SlotNo(n)) == 0 then 1 else 0) + if NDIRECT <= n && At(s, i, NDIRECT) == 0 then 1 else 0
  }

  // A file and what became of it.

  /** Slots other than that of block n, and the indirect slot when n needs it, are the same. */
  ghost predicate Beyond(s: Fs, t: Fs, i: int, n: int)
    requires Shape(s) && Shape(t) && 0 <= i < |s.inode| == |t.inode|
  {
    forall k {:trigger At(t, i, k)} :: 0 <= k < SLOTS && k != SlotNo(n) && (k != NDIRECT || n < NDIRECT) ==>
      At(t, i, k) == At(s, i, k)
  }

  ghost predicate SlotsKept(s: Fs, t: Fs, i: int)
    requires Shape(s) && Shape(t) && 0 <= i < |s.inode| == |t.inode|
  {
    forall k {:trigger At(t, i, k)} :: 0 <= k < SLOTS && At(s, i, k) != 0 ==> At(t, i, k) == At(s, i, k)
  }

  /** Blocks a..e are there; every other block of the file is the one it was, or still missing. */
  ghost predicate Filled(s: Fs, t: Fs, i: int, a: int, e: int)
    requires Shape(s) && Shape(t) && 0 <= i < |s.inode| == |t.inode|
  {
    forall n {:trigger SlotNo(n)} :: 0 <= n < MAXFILE ==>
      if a <= n < e then At(t, i, SlotNo(n)) != 0 else At(t, i, SlotNo(n)) == At(s, i, SlotNo(n))
  }

  /** The indirect block is the one it was, or new because one of blocks a..e needs it. */
  ghost predicate IndTo(s: Fs, t: Fs, i: int, a: int, e: int)
    requires Shape(s) && Shape(t) && 0 <= i < |s.inode| == |t.inode|
  {
    At(t, i, NDIRECT) == At(s, i, NDIRECT) || (At(s, i, NDIRECT) == 0 && a < e && NDIRECT < e)
  }

  /** Exactly blocks a..e have been provided. */
  ghost predicate Provided(s: Fs, t: Fs, i: int, a: int, e: int)
    requires Shape(s) && Shape(t) && 0 <= i < |s.inode| == |t.inode|
  {
    && SlotsKept(s, t, i) && Filled(s, t, i, a, e) && IndTo(s, t, i, a, e)
    && FreeCount(t) == FreeCount(s) - Need(s, i, a, e)
  }

  /** A block past the direct ones is there only with the indirect block. */
  lemma EntryNeedsIndirect(s: Fs, i: int, n: int)
    requires Shape(s) && 0 <= i < |s.inode| && NDIRECT <= n < MAXFILE && At(s, i, SlotNo(n)) != 0
    ensures At(s, i, NDIRECT) != 0
  {
  }

  lemma IndExact(s: Fs, t: Fs, i: int, a: int, e: int)
    requires Shape(s) && Shape(t) && 0 <= i < |s.inode| == |t.inode| && 0 <= a && e <= MAXFILE
    requires SlotsKept(s, t, i) && Filled(s, t, i, a, e) && IndTo(s, t, i, a, e)
    ensures At(t, i, NDIRECT) == 0 <==> At(s, i, NDIRECT) == 0 && !(a < e && NDIRECT < e)
  {
    hide At;
    if a < e && NDIRECT < e {
      assert At(t, i, SlotNo(e - 1)) != 0;
      EntryNeedsIndirect(t, i, e - 1);
    }
    assert At(s, i, NDIRECT) != 0 ==> At(t, i, NDIRECT) == At(s, i, NDIRECT);
  }

  /** The next block's bmap needs what the count says. */
  lemma NextNeed(s: Fs, t: Fs, i: int, a: int, n: int)
    requires Shape(s) && Shape(t) && 0 <= i < |s.inode| == |t.inode| && 0 <= a <= n < MAXFILE
    requires SlotsKept(s, t, i) && Filled(s, t, i, a, n) && IndTo(s, t, i, a, n)
    ensures Missing(t, i, n) == Need(s, i, a, n + 1) - Need(s, i, a, n)
  {
    IndExact(s, t, i, a, n);
    assert At(t, i, SlotNo(n)) == At(s, i, SlotNo(n));
    hide At, Filled, SlotsKept;
  }

  lemma ProvidedNext(s: Fs, s1: Fs, t: Fs, i: int, a: int, n: int)
    requires Shape(s) && Shape(s1) && Shape(t) && 0 <= i < |s.inode| == |s1.inode| == |t.inode| && 0 <= a <= n < MAXFILE
    requires Provided(s, s1, i, a, n) && SlotsKept(s1, t, i) && Beyond(s1, t, i, n) && At(t, i, SlotNo(n)) != 0
    requires FreeCount(t) == FreeCount(s1) - Missing(s1, i, n)
    ensures Provided(s, t, i, a, n + 1)
  {
    NextNeed(s, s1, i, a, n);
    hide At, Need, FreeCount, Missing;
    KeptJoin(s, s1, t, i);
    FilledNext(s, s1, t, i, a, n, n + 1);
    IndNext(s, s1, t, i, a, n);
  }

  lemma IndNext(s: Fs, s1: Fs, t: Fs, i: int, a: int, n: int)
    requires Shape(s) && Shape(s1) && Shape(t) && 0 <= i < |s.inode| == |s1.inode| == |t.inode| && 0 <= a <= n < MAXFILE
    requires IndTo(s, s1, i, a, n) && SlotsKept(s, s1, i) && SlotsKept(s1, t, i) && Beyond(s1, t, i, n)
    ensures IndTo(s, t, i, a, n + 1)
  {
    hide At;
    assert n < NDIRECT ==> At(t, i, NDIRECT) == At(s1, i, NDIRECT);
    assert At(s1, i, NDIRECT) != 0 ==> At(t, i, NDIRECT) == At(s1, i, NDIRECT);
  }

  lemma KeptJoin(s: Fs, m: Fs, t: Fs, i: int)
    requires Shape(s) && Shape(m) && Shape(t) && 0 <= i < |s.inode| == |m.inode| == |t.inode|
    requires SlotsKept(s, m, i) && SlotsKept(m, t, i)
    ensures SlotsKept(s, t, i)
  {
    hide At;
    forall k | 0 <= k < SLOTS && At(s, i, k) != 0 ensures At(t, i, k) == At(s, i, k) {
      assert At(m, i, k) == At(s, i, k);
    }
  }

  /** After one more bmap, which got its block (e == n + 1) or did not (e == n). */
  lemma FilledNext(s: Fs, s1: Fs, t: Fs, i: int, a: int, n: int, e: int)
    requires Shape(s) && Shape(s1) && Shape(t) && 0 <= i < |s.inode| == |s1.inode| == |t.inode| && 0 <= a <= n < MAXFILE
    requires Filled(s, s1, i, a, n) && SlotsKept(s1, t, i) && Beyond(s1, t, i, n)
    requires if e == n + 1 then At(t, i, SlotNo(n)) != 0 else e == n && At(t, i, SlotNo(n)) == 0
    ensures Filled(s, t, i, a, e)
  {
    hide At;
    forall l | 0 <= l < MAXFILE
      ensures if a <= l < e then At(t, i, SlotNo(l)) != 0 else At(t, i, SlotNo(l)) == At(s, i, SlotNo(l))
    {
      assert if a <= l < n then At(s1, i, SlotNo(l)) != 0 else At(s1, i, SlotNo(l)) == At(s, i, SlotNo(l));
      if l != n {
        assert At(t, i, SlotNo(l)) == At(s1, i, SlotNo(l));
      }
    }
  }

  // Counting over a range.

  lemma {:induction false} HolesGrow(s: Fs, i: int, a: int, e: int, f: int)
    requires Shape(s) && 0 <= i < |s.inode| && e <= f
    ensures 0 <= Holes(s, i, a, e) <= Holes(s, i, a, f)
    decreases f - a
  {
    if f > a {
      HolesGrow(s, i, a, if e < f then e else f - 1, f - 1);
    }
  }

  lemma NeedGrows(s: Fs, i: int, a: int, e: int, f: int)
    requires Shape(s) && 0 <= i < |s.inode| && e <= f
    ensures 0 <= Need(s, i, a, e) <= Need(s, i, a, f)
  {
    HolesGrow(s, i, a, e, f);
  }

  lemma {:induction false} HolesSplit(s: Fs, i: int, a: int, e: int, f: int)
    requires Shape(s) && 0 <= i < |s.inode| && a <= e <= f
    ensures Holes(s, i, a, f) == Holes(s, i, a, e) + Holes(s, i, e, f)
    decreases f - e
  {
    if e < f {
      HolesSplit(s, i, a, e, f - 1);
    }
  }

  lemma {:induction false} HolesSame(s: Fs, t: Fs, i: int, a: int, e: int)
    requires Shape(s) && Shape(t) && 0 <= i < |s.inode| == |t.inode|
    requires forall n {:trigger Hole(t, i, n)} :: a <= n < e ==> (Hole(t, i, n) <==> Hole(s, i, n))
    ensures Holes(t, i, a, e) == Holes(s, i, a, e)
    decreases e - a
  {
    if a < e {
      assert Hole(t, i, e - 1) <==> Hole(s, i, e - 1);
      HolesSame(s, t, i, a, e - 1);
    }
  }

  // Bytes and blocks.

  lemma EndBlocks(off: int, k: int, x: int)
    requires 0 <= off && 0 <= k && 0 <= x && off + k + x <= MAXBYTES
    ensures 0 <= off / BSIZE <= EndBlock(off, k) <= EndBlock(off, k + x) <= MAXFILE
    ensures off / BSIZE <= (off + k) / BSIZE <= EndBlock(off, k) <= (off + k) / BSIZE + (if k > 0 then 1 else 0)
    ensures k > 0 ==> off / BSIZE < EndBlock(off, k)
    ensures x > 0 ==> EndBlock(off, k + x) == EndBlock(off + k, x) > (off + k) / BSIZE
  {
    assert MAXBYTES == MAXFILE * BSIZE;
    assert off + (k + x) - 1 == off + k + x - 1;
  }

  lemma NeedsGrow(s: Fs, i: int, off: int, x: int, y: int)
    requires Shape(s) && 0 <= i < |s.inode| && 0 <= off && 0 <= x <= y && off + y <= MAXBYTES
    ensures 0 <= Needs(s, i, off, x) <= Needs(s, i, off, y) && (x == 0 ==> Needs(s, i, off, x) == 0)
  {
    EndBlocks(off, x, y - x);
    assert x == 0 ==> EndBlock(off, x) == off / BSIZE;
    hide EndBlock;
    NeedGrows(s, i, off / BSIZE, EndBlock(off, x), EndBlock(off, y));
  }

  /** A write in two parts needs what the whole needs. */
  lemma NeedsJoin(s: Fs, m: Fs, i: int, off: int, k: int, x: int)
    requires Shape(s) && Shape(m) && 0 <= i < |s.inode| == |m.inode| && 0 <= off && 0 <= k && 0 <= x &&
             off + k + x <= MAXBYTES
    requires var a, e := off / BSIZE, EndBlock(off, k); SlotsKept(s, m, i) && Filled(s, m, i, a, e) && IndTo(s, m, i, a, e)
    ensures Needs(s, i, off, k) + Needs(m, i, off + k, x) == Needs(s, i, off, k + x)
  {
    EndBlocks(off, k, x);
    EndBlocks(off + k, 0, x);
    var a, e, a1, f := off / BSIZE, EndBlock(off, k), (off + k) / BSIZE, EndBlock(off, k + x);
    if x == 0 {
      assert EndBlock(off + k, x) == a1;
    } else {
      hide EndBlock;
      NeedJoin(s, m, i, a, e, a1, f);
    }
  }

  lemma NeedJoin(s: Fs, m: Fs, i: int, a: int, e: int, a1: int, f: int)
    requires Shape(s) && Shape(m) && 0 <= i < |s.inode| == |m.inode| && 0 <= a <= a1 <= e <= a1 + 1 <= f <= MAXFILE
    requires e == a1 + 1 ==> a < e
    requires e == a1 ==> a < e || a1 == a
    requires SlotsKept(s, m, i) && Filled(s, m, i, a, e) && IndTo(s, m, i, a, e)
    ensures Need(s, i, a, e) + Need(m, i, a1, f) == Need(s, i, a, f)
  {
    IndExact(s, m, i, a, e);
    HolesSplit(s, i, a, e, f);
    HolesSplit(m, i, a1, e, f);
    forall n | e <= n < f ensures Hole(m, i, n) <==> Hole(s, i, n) {
      assert At(m, i, SlotNo(n)) == At(s, i, SlotNo(n));
    }
    HolesSame(s, m, i, e, f);
    if e == a1 + 1 {
      assert At(m, i, SlotNo(a1)) != 0;
      assert !Hole(m, i, a1);
    }
    hide At, Filled, SlotsKept, IndTo, Hole;
  }

  /** A stretch without holes needs nothing. */
  lemma {:induction false} NoHolesNoNeed(s: Fs, i: int, a: int, e: int)
    requires Shape(s) && 0 <= i < |s.inode| && 0 <= a && e <= MAXFILE
    ensures Need(s, i, a, e) == 0 <==> forall n {:trigger SlotNo(n)} :: a <= n < e ==> At(s, i, SlotNo(n)) != 0
    decreases e - a
  {
    if a < e {
      NoHolesNoNeed(s, i, a, e - 1);
      HolesGrow(s, i, a, e - 1, e);
      if At(s, i, SlotNo(e - 1)) != 0 && NDIRECT < e {
        EntryNeedsIndirect(s, i, e - 1);
      }
      if Need(s, i, a, e) == 0 {
        assert !Hole(s, i, e - 1);
        assert Indirect(s, i, a, e - 1) == 0;
      }
    }
  }

  // A loop over the blocks of len bytes at off, as in readi and writei.

  /** How much of src[a..] goes to the block of byte off + a. */
  function Chunk(off: int, len: int, a: int): int { Min(len - a, BSIZE - (off + a) % BSIZE) }

  /** Where, in a write at off, the piece begins that byte k falls into: with its block, or with the write. */
  function StartOf(off: int, k: int): int { k - Min(k, (off + k) % BSIZE) }

  lemma PieceEnds(off: int, n: int, tot: int, good: int)
    requires 0 <= off && 0 <= tot < n && (tot > 0 ==> (off + tot) % BSIZE == 0) && tot <= good
    ensures var m := Chunk(off, n, tot);
            && 0 < m <= n - tot && (tot + m < n ==> (off + (tot + m)) % BSIZE == 0)
            && (good < tot + m ==> good < n && tot == StartOf(off, good))
  {
    var m := Chunk(off, n, tot);
    if tot + m < n {
      assert off + (tot + m) == ((off + tot) / BSIZE + 1) * BSIZE;
    }
    if good < tot + m {
      StartOfPiece(off, n, tot, good);
    }
  }

  lemma StartOfPiece(off: int, n: int, tot: int, good: int)
    requires 0 <= off && 0 <= tot < n && (tot > 0 ==> (off + tot) % BSIZE == 0) && tot <= good < tot + Chunk(off, n, tot)
    ensures tot == StartOf(off, good) && (off + tot) / BSIZE == (off + good) / BSIZE
  {
    var q, r := (off + tot) / BSIZE, (off + tot) % BSIZE;
    DivMod(off + good, BSIZE, q, r + good - tot);
    if tot > 0 {
      assert off + tot == q * BSIZE;
    }
  }

  lemma TurnBlocks(off: int, len: int, tot: int, m: int)
    requires 0 <= off && 0 <= tot < len && off + len <= MAXBYTES && (tot > 0 ==> (off + tot) % BSIZE == 0)
    requires 0 < m <= Chunk(off, len, tot)
    ensures var n := (off + tot) / BSIZE;
            off / BSIZE <= n < MAXFILE && EndBlock(off, tot) == n && EndBlock(off, tot + m) == n + 1
  {
    assert MAXBYTES == MAXFILE * BSIZE;
    var n, r := (off + tot) / BSIZE, (off + tot) % BSIZE;
    DivMod(off + tot + m - 1, BSIZE, n, r + m - 1);
    if tot > 0 {
      DivMod(off + tot - 1, BSIZE, n - 1, BSIZE - 1);
    }
    assert off + (tot + m) - 1 == off + tot + m - 1;
  }

  /** The loop has ended after tot bytes; stuck tells that the next block was there, but not all of its bytes could be
      moved. */
  ghost predicate Halted(s: Fs, t: Fs, i: int, off: int, len: int, tot: int, stuck: bool)
    requires Shape(s) && Shape(t) && 0 <= i < |s.inode| == |t.inode|
  {
    var a, tried := off / BSIZE, if tot < len then tot + 1 else tot;
    && Needs(s, i, off, tot) <= FreeCount(s) && (stuck <==> tot < len && Needs(s, i, off, tot + 1) <= FreeCount(s))
    && SlotsKept(s, t, i) && Filled(s, t, i, a, EndBlock(off, if stuck then tot + 1 else tot))
    && IndTo(s, t, i, a, EndBlock(off, tried)) && FreeCount(t) == Max(0, FreeCount(s) - Needs(s, i, off, tried))
  }

  /** A turn: bmap takes s1 to t, and then m bytes are moved, or none. */
  lemma HaltTurn(s: Fs, s1: Fs, t: Fs, i: int, off: int, len: int, tot: int, m: int, stuck: bool)
    requires Shape(s) && Shape(s1) && Shape(t) && 0 <= i < |s.inode| == |s1.inode| == |t.inode|
    requires 0 <= off && 0 <= tot < len && off + len <= MAXBYTES && (tot > 0 ==> (off + tot) % BSIZE == 0)
    requires Provided(s, s1, i, off / BSIZE, EndBlock(off, tot)) && SlotsKept(s1, t, i) && (off + tot) / BSIZE < MAXFILE
    requires var n := (off + tot) / BSIZE;
             && Beyond(s1, t, i, n) && (At(t, i, SlotNo(n)) != 0 <==> Missing(s1, i, n) <= FreeCount(s1))
             && FreeCount(t) == Max(0, FreeCount(s1) - Missing(s1, i, n))
             && (m == 0 ==> (stuck <==> At(t, i, SlotNo(n)) != 0))
             && (m != 0 ==> m == Chunk(off, len, tot) && At(t, i, SlotNo(n)) != 0)
    ensures m != 0 ==> Provided(s, t, i, off / BSIZE, EndBlock(off, tot + m))
    ensures m == 0 ==> Halted(s, t, i, off, len, tot, stuck)
  {
    hide EndBlock, Chunk, Holes, Indirect, At, SlotsKept, Filled, Beyond, Missing, StartOf;
    var a, n := off / BSIZE, (off + tot) / BSIZE;
    PieceEnds(off, len, tot, tot);
    TurnBlocks(off, len, tot, Chunk(off, len, tot));
    TurnBlocks(off, len, tot, 1);
    NextNeed(s, s1, i, a, n);
    if At(t, i, SlotNo(n)) != 0 {
      ProvidedNext(s, s1, t, i, a, n);
    } else {
      KeptJoin(s, s1, t, i);
      FilledNext(s, s1, t, i, a, n, n);
      IndNext(s, s1, t, i, a, n);
    }
  }

  lemma NextNeeds(s: Fs, t: Fs, i: int, off: int, len: int, tot: int)
    requires Shape(s) && Shape(t) && 0 <= i < |s.inode| == |t.inode|
    requires 0 <= off && 0 <= tot < len && off + len <= MAXBYTES && (tot > 0 ==> (off + tot) % BSIZE == 0)
    requires Provided(s, t, i, off / BSIZE, EndBlock(off, tot)) && (off + tot) / BSIZE < MAXFILE
    ensures Missing(t, i, (off + tot) / BSIZE) == Needs(s, i, off, tot + 1) - Needs(s, i, off, tot)
  {
    TurnBlocks(off, len, tot, 1);
    hide EndBlock, Need, At, Filled, SlotsKept;
    NextNeed(s, t, i, off / BSIZE, (off + tot) / BSIZE);
  }

  /** The bytes at off that the disk has blocks for and that can be moved, good of them, decide where it ends. */
  ghost predicate Reaches(s: Fs, i: int, off: int, len: int, good: int, r: int)
    requires Shape(s) && 0 <= i < |s.inode|
  {
    if len <= good && Needs(s, i, off, len) <= FreeCount(s) then r == len
    else if good < len && Needs(s, i, off, good + 1) <= FreeCount(s) then r == StartOf(off, good)
    else 0 <= r < len && r <= good && Needs(s, i, off, r) <= FreeCount(s) < Needs(s, i, off, r + 1)
  }

  lemma HaltMeans(s: Fs, t: Fs, i: int, off: int, len: int, good: int, tot: int, stuck: bool)
    requires Shape(s) && Shape(t) && 0 <= i < |s.inode| == |t.inode| && 0 <= off && 0 <= tot <= len && off + len <= MAXBYTES
    requires Halted(s, t, i, off, len, tot, stuck) && tot <= good
    requires stuck ==> (tot > 0 ==> (off + tot) % BSIZE == 0) && good < tot + Chunk(off, len, tot)
    ensures stuck <==> good < len && Needs(s, i, off, good + 1) <= FreeCount(s)
    ensures Reaches(s, i, off, len, good, tot)
    ensures FreeCount(t) == Max(0, FreeCount(s) - Needs(s, i, off, Min(len, good + 1)))
    ensures Filled(s, t, i, off / BSIZE, EndBlock(off, if stuck then good + 1 else tot))
    ensures IndTo(s, t, i, off / BSIZE, EndBlock(off, Min(len, good + 1)))
  {
    hide EndBlock, Need, SlotsKept, Filled, At, FreeCount, Chunk, StartOf;
    var u := Min(len, good + 1);
    EndBlocks(off, tot, u - tot);
    NeedsGrow(s, i, off, tot, u);
    if stuck {
      StuckAt(off, len, tot, good);
    } else if tot < len {
      EndBlocks(off, tot + 1, u - tot - 1);
      NeedsGrow(s, i, off, tot + 1, u);
    }
  }

  lemma StuckAt(off: int, len: int, tot: int, good: int)
    requires 0 <= off && 0 <= tot < len && off + len <= MAXBYTES && (tot > 0 ==> (off + tot) % BSIZE == 0)
    requires tot <= good < tot + Chunk(off, len, tot)
    ensures good < len && tot == StartOf(off, good) && EndBlock(off, tot + 1) == EndBlock(off, good + 1)
  {
    StartOfPiece(off, len, tot, good);
    TurnBlocks(off, len, tot, 1);
    TurnBlocks(off, len, tot, good + 1 - tot);
  }
}

/** file.c: filewrite on an inode, in chunks small enough for one log transaction each. */
module FileCode {
  import opened Arith
  import opened BlockCount
  import opened BlockMap
  import opened FsCode
  import opened Params

  const CHUNK := 3072   // ((MAXOPBLOCKS - 1 - 1 - 2) / 2) * BSIZE

  class File {
    var off: int

    constructor (off: int)
      ensures this.off == off
    {
      this.off := off;
    }
  }

  lemma SubsetSize(a: set<int>, b: set<int>)
    requires forall x :: x in a ==> x in b
    ensures |a| <= |b|
  {
    forall x | x in a ensures x in b {
    }
    assert b == a + (b - a);
  }

  /** The first k bytes of src are in the file from off on: t is what became of s. */
  ghost predicate SoFar(s: Fs, t: Fs, i: int, off: int, src: seq<int>, k: int)
    requires Shape(s) && Shape(t) && 0 <= i < |s.inode|
  {
    && 0 <= off && 0 <= k <= |src| && SameLayout(s, t) && Wrote(s, t, i, off, src, k, k, k, k)
    && Needs(s, i, off, k) <= FreeCount(s)
    && (k == 0 ==> t == s) && (k > 0 ==> off <= s.inode[i].size && off + k <= MAXBYTES)
  }

  /** A write of part of a buffer is a write from that part of the buffer. */
  lemma WrittenPart(s: Fs, m: Fs, t: Fs, i: int, off: int, src: seq<int>, k: int, n: int, b: int)
    requires Shape(s) && Shape(m) && Shape(t) && 0 <= i < |s.inode| && 0 <= off && 0 <= k && 0 <= n && k + n <= |src|
    requires SameLayout(s, m) && Written(s, m, i, off, src, 0, k)
    requires 0 <= b <= n && Written(m, t, i, off + k, src[k..k + n], 0, b)
    ensures Written(s, t, i, off, src, 0, k + b)
  {
    hide Byte;
    assert Written(m, t, i, off, src, k, k + b);
    WrittenJoin(s, m, t, i, off, src, 0, k, k + b);
  }

  /** A write of k bytes, and then one of the part after them. */
  lemma WroteJoin(s: Fs, m: Fs, t: Fs, i: int, off: int, src: seq<int>, k: int, n: int, r: int, b: int, e: int, u: int)
    requires Shape(s) && Shape(m) && Shape(t) && 0 <= i < |s.inode| && 0 <= n && k + n <= |src| &&
             SoFar(s, m, i, off, src, k)
    requires SameLayout(s, m) && SameLayout(m, t) && 0 <= r <= b <= n
    requires 0 <= e && off + k + e <= MAXBYTES && 0 <= u && off + k + u <= MAXBYTES
    requires Wrote(m, t, i, off + k, src[k..k + n], r, b, e, u)
    ensures Wrote(s, t, i, off, src, k + r, k + b, k + e, k + u)
  {
    hide Written, SlotsKept, NoHoles, RolesGrow, Spread, Byte, At, Need, EndBlock, FreeCount;
    WrittenPart(s, m, t, i, off, src, k, n, b);
    KeptJoin(s, m, t, i);
    RolesJoin(s, m, t, i);
    SpreadJoin(s, m, t, i, off, k, e, u);
  }

  lemma RolesJoin(s: Fs, m: Fs, t: Fs, i: int)
    requires RolesGrow(s, m, i) && RolesGrow(m, t, i)
    ensures RolesGrow(s, t, i)
  {
    forall c | 0 <= c < |s.role|
      ensures t.role[c] == s.role[c] || (s.role[c] == Free && t.role[c].Slot? && t.role[c].inum == i)
    {
      assert m.role[c] == s.role[c] || (s.role[c] == Free && m.role[c].Slot? && m.role[c].inum == i);
    }
  }

  lemma SpreadJoin(s: Fs, m: Fs, t: Fs, i: int, off: int, k: int, e: int, u: int)
    requires Shape(s) && Shape(m) && Shape(t) && 0 <= i < |s.inode| == |m.inode| == |t.inode|
    requires 0 <= off && 0 <= k && 0 <= e && off + k + e <= MAXBYTES && 0 <= u && off + k + u <= MAXBYTES
    requires SlotsKept(s, m, i) && Spread(s, m, i, off, k, k) && SlotsKept(m, t, i) && Spread(m, t, i, off + k, e, u)
    requires Needs(s, i, off, k) <= FreeCount(s)
    ensures Spread(s, t, i, off, k + e, k + u)
  {
    NeedsJoin(s, m, i, off, k, u);
    hide EndBlock, Need, FreeCount, At, Filled, SlotsKept, IndTo;
    FilledJoin(s, m, t, i, off, k, e);
    IndJoin(s, m, t, i, off, k, u);
  }

  lemma FilledJoin(s: Fs, m: Fs, t: Fs, i: int, off: int, k: int, e: int)
    requires Shape(s) && Shape(m) && Shape(t) && 0 <= i < |s.inode| == |m.inode| == |t.inode|
    requires 0 <= off && 0 <= k && 0 <= e && off + k + e <= MAXBYTES && SlotsKept(m, t, i)
    requires Filled(s, m, i, off / BSIZE, EndBlock(off, k)) && Filled(m, t, i, (off + k) / BSIZE, EndBlock(off + k, e))
    ensures Filled(s, t, i, off / BSIZE, EndBlock(off, k + e))
  {
    EndBlocks(off, k, e);
    assert EndBlock(off + k, 0) == (off + k) / BSIZE;
    hide EndBlock, At;
    forall n | 0 <= n < MAXFILE
      ensures if off / BSIZE <= n < EndBlock(off, k + e) then At(t, i, SlotNo(n)) != 0
              else At(t, i, SlotNo(n)) == At(s, i, SlotNo(n))
    {
      assert if off / BSIZE <= n < EndBlock(off, k) then At(m, i, SlotNo(n)) != 0
             else At(m, i, SlotNo(n)) == At(s, i, SlotNo(n));
      assert At(m, i, SlotNo(n)) != 0 ==> At(t, i, SlotNo(n)) == At(m, i, SlotNo(n));
    }
  }

  lemma IndJoin(s: Fs, m: Fs, t: Fs, i: int, off: int, k: int, u: int)
    requires Shape(s) && Shape(m) && Shape(t) && 0 <= i < |s.inode| == |m.inode| == |t.inode|
    requires 0 <= off && 0 <= k && 0 <= u && off + k + u <= MAXBYTES && SlotsKept(m, t, i)
    requires IndTo(s, m, i, off / BSIZE, EndBlock(off, k)) && IndTo(m, t, i, (off + k) / BSIZE, EndBlock(off + k, u))
    ensures IndTo(s, t, i, off / BSIZE, EndBlock(off, k + u))
  {
    EndBlocks(off, k, u);
    assert EndBlock(off + k, 0) == (off + k) / BSIZE;
    hide EndBlock, At;
    assert At(m, i, NDIRECT) != 0 ==> At(t, i, NDIRECT) == At(m, i, NDIRECT);
  }

  /** When even u bytes need more blocks than there are, so do more bytes. */
  lemma WroteMore(s: Fs, t: Fs, i: int, off: int, src: seq<int>, r: int, b: int, e: int, u: int, v: int)
    requires Shape(s) && Shape(t) && 0 <= i < |s.inode| && 0 <= off && 0 <= r <= b <= |src|
    requires 0 <= u <= v && off + v <= MAXBYTES && FreeCount(s) <= Needs(s, i, off, u) &&
             Wrote(s, t, i, off, src, r, b, e, u)
    ensures Wrote(s, t, i, off, src, r, b, e, v)
  {
    EndBlocks(off, u, v - u);
    hide Written, SlotsKept, NoHoles, RolesGrow, Byte, At, Need, EndBlock, FreeCount, Filled;
    NeedsGrow(s, i, off, u, v);
  }

  /** Where, in a write of src at off in chunks, the piece begins that byte good falls into: with its block or its
      chunk. */
  function PieceStart(off: int, good: int): int { good - Min(InChunk(good), (off + good) % BSIZE) }

  /** The place of a byte in its chunk. */
  function InChunk(k: int): int { if k < CHUNK then k else InChunk(k - CHUNK) }

  predicate OnChunk(k: int) { k == 0 || (k >= CHUNK && OnChunk(k - CHUNK)) }

  /** Of a write of len bytes at off, those in chunks that do not go past the largest file. */
  function Cap(off: int, len: int): int {
    if off + len <= MAXBYTES then len else MAXBYTES - off - InChunk(MAXBYTES - off)
  }

  lemma {:induction false} ChunkBelow(k: int, x: int)
    requires 0 <= k <= x && OnChunk(k)
    ensures k <= x - InChunk(x) && (x < k + CHUNK ==> k == x - InChunk(x))
    decreases x
  {
    assert CHUNK == (MAXOPBLOCKS - 1 - 1 - 2) / 2 * BSIZE;
    if x >= CHUNK { ChunkBelow(if k == 0 then 0 else k - CHUNK, x - CHUNK); }
  }

  /** A write of len bytes at off in chunks, good of which can be read, stops for that: it gets that far, and the disk has
      the blocks up to the one of the first byte that cannot be read. */
  ghost predicate TornFile(s: Fs, i: int, off: int, len: int, good: int)
    requires Shape(s) && 0 <= i < |s.inode|
  {
    off <= s.inode[i].size && good < Cap(off, len) && Needs(s, i, off, good + 1) <= FreeCount(s)
  }

  /** It stops there, and so changes a block behind the log's back: the block was there, or was added by the chunk before,
      and one of the bytes that go to it is new. */
  ghost predicate TearsFile(s: Fs, i: int, off: int, src: seq<int>, good: int)
    requires Shape(s) && 0 <= i < |s.inode| && 0 <= off && 0 <= good
  {
    && TornFile(s, i, off, |src|, good) && good < |src| && off + good < MAXBYTES && 0 <= PieceStart(off, good) <= good
    && Differs(s, i, off, src, PieceStart(off, good), good)
    && var n := (off + good) / BSIZE; At(s, i, SlotNo(n)) != 0 || n < EndBlock(off, good - InChunk(good))
  }

  /** How many bytes a write in chunks counts, as the state before it decides. */
  ghost predicate FileReaches(s: Fs, i: int, off: int, len: int, good: int, done: int)
    requires Shape(s) && 0 <= i < |s.inode|
  {
    var cap := Cap(off, len);
    if off > s.inode[i].size then done == 0
    else if cap <= good && Needs(s, i, off, cap) <= FreeCount(s) then done == cap
    else if TornFile(s, i, off, len, good) then done == PieceStart(off, good)
    else 0 <= done < cap && done <= good && Needs(s, i, off, done) <= FreeCount(s) < Needs(s, i, off, done + 1)
  }

  /** The bytes it looks for blocks for, if it finds them. */
  function Tried(s: Fs, i: int, off: int, len: int, good: int): int
    requires Shape(s) && 0 <= i < |s.inode|
  {
    if off > s.inode[i].size then 0 else Min(Cap(off, len), good + 1)
  }

  /** The end of a write of src at off: done bytes are counted, and the file holds them, or good of them when torn. If
      not all are, that is because the rest cannot be read, for want of a block, or for a bad offset or length. */
  ghost predicate FileWritten(s: Fs, t: Fs, i: int, off: int, src: seq<int>, good: int, done: int)
    requires Shape(s) && Shape(t) && 0 <= i < |s.inode|
  {
    var torn := TornFile(s, i, off, |src|, good);
    && 0 <= off && 0 <= done <= |src| && done <= good && (torn ==> good < |src|) && SameLayout(s, t)
    && FileReaches(s, i, off, |src|, good, done)
    && Wrote(s, t, i, off, src, done, if torn then good else done, if torn then good + 1 else done,
             Tried(s, i, off, |src|, good))
    && (done < |src| ==>
          || torn || NoBlockFor(t, i, off + done)
          || off > s.inode[i].size || off + done + Min(|src| - done, CHUNK) > MAXBYTES)
  }

  /** The block of byte o is missing, and there is none left for it. */
  ghost predicate NoBlockFor(s: Fs, i: int, o: int) {
    exists n {:trigger NoBlock(s, i, n)} :: n * BSIZE <= o < n * BSIZE + BSIZE && NoBlock(s, i, n)
  }

  /** The chunk byte good is in. */
  lemma {:induction false} ChunkOf(k: int, good: int)
    requires 0 <= k <= good < k + CHUNK && OnChunk(k)
    ensures InChunk(good) == good - k
    decreases k
  {
    assert CHUNK == (MAXOPBLOCKS - 1 - 1 - 2) / 2 * BSIZE;
    if k > 0 { ChunkOf(k - CHUNK, good - CHUNK); }
  }

  /** The outcome of one writei of part at o, of which good bytes can be read: m became t. */
  ghost predicate PartWritten(m: Fs, t: Fs, i: int, o: int, part: seq<int>, good: int, r: int)
    requires Shape(m) && Shape(t) && 0 <= i < |m.inode|
  {
    && 0 <= o && -1 <= r <= |part| && r <= good && SameLayout(m, t)
    && (r == -1 <==> o > m.inode[i].size || o + |part| > MAXBYTES)
    && (r == -1 ==> t == m) && (r >= 0 ==> PartIn(m, t, i, o, part, good, r))
  }

  /** The chunk at k, of n bytes, fits, and so is part of the cap, or it does not, and the cap is k. */
  lemma Capped(off: int, len: int, k: int, n: int)
    requires 0 <= k < len && OnChunk(k) && n == Min(len - k, CHUNK) && off + k <= MAXBYTES
    ensures off + k + n <= MAXBYTES ==> k + n <= Cap(off, len)
    ensures off + k + n > MAXBYTES ==> k == Cap(off, len)
    ensures Cap(off, len) <= len && off + Cap(off, len) <= MAXBYTES
  {
    if off + len > MAXBYTES {
      ChunkBelow(k, MAXBYTES - off);
      if off + k + n <= MAXBYTES {
        assert n == CHUNK && OnChunk(k + n);
        ChunkBelow(k + n, MAXBYTES - off);
      }
      ChunkPlace(MAXBYTES - off);
    }
  }

  lemma {:induction false} ChunkPlace(x: int)
    requires 0 <= x
    ensures 0 <= InChunk(x) <= x && InChunk(x) < CHUNK && OnChunk(x - InChunk(x))
    decreases x
  {
    assert CHUNK == (MAXOPBLOCKS - 1 - 1 - 2) / 2 * BSIZE;
    if x >= CHUNK {
      ChunkPlace(x - CHUNK);
      assert x - InChunk(x) == x - CHUNK - InChunk(x - CHUNK) + CHUNK;
    }
  }

  /** One more chunk, and the loop goes on. */
  lemma ChunkGoesOn(s: Fs, m: Fs, t: Fs, i: int, off: int, src: seq<int>, part: seq<int>, k: int, n: int, good: int)
    requires Shape(s) && Shape(m) && Shape(t) && 0 <= i < |s.inode| && SoFar(s, m, i, off, src, k) && SameLayout(s, m)
    requires 0 < n && k + n <= |src| && k <= good && part == src[k..k + n] && |part| == n
    requires PartWritten(m, t, i, off + k, part, good - k, n)
    ensures SoFar(s, t, i, off, src, k + n) && !Torn(m, i, off + k, n, good - k)
  {
    hide Wrote, NoBlock, StartOf, Need, EndBlock, FreeCount, Shape;
    StartsIn(s, m, i, off, src, k);
    WroteJoin(s, m, t, i, off, src, k, n, n, n, n, n);
    NeedsLate(s, m, i, off, src, k, n);
  }

  /** What the rest of a write needs is what the whole needs, less what has been used. */
  lemma NeedsLate(s: Fs, m: Fs, i: int, off: int, src: seq<int>, k: int, x: int)
    requires Shape(s) && Shape(m) && 0 <= i < |s.inode| == |m.inode| && SoFar(s, m, i, off, src, k) && 0 <= x &&
             off + k + x <= MAXBYTES
    ensures Needs(m, i, off + k, x) <= FreeCount(m) <==> Needs(s, i, off, k + x) <= FreeCount(s)
    ensures FreeCount(m) == FreeCount(s) - Needs(s, i, off, k)
  {
    hide Written, SlotsKept, NoHoles, RolesGrow, Filled, IndTo, At, Need, EndBlock, FreeCount;
    NeedsJoin(s, m, i, off, k, x);
  }

  /** Or the write ends before it. */
  lemma ChunkRefused(s: Fs, m: Fs, i: int, off: int, src: seq<int>, k: int, n: int, good: int)
    requires Shape(s) && Shape(m) && 0 <= i < |s.inode| && SoFar(s, m, i, off, src, k)
    requires OnChunk(k) && n == Min(|src| - k, CHUNK) > 0 && k <= good &&
             (off + k > m.inode[i].size || off + k + n > MAXBYTES)
    ensures FileWritten(s, m, i, off, src, good, k) && !TornFile(s, i, off, |src|, good)
  {
    hide Written, SlotsKept, NoHoles, RolesGrow, Spread, Byte, At, Need, EndBlock, FreeCount, Cap, OnChunk, NoBlock,
      PieceStart;
    if off <= s.inode[i].size {
      Capped(off, |src|, k, n);
    }
  }

  /** Or with part of it: because no more can be read. */
  lemma ChunkTorn(s: Fs, m: Fs, t: Fs, i: int, off: int, src: seq<int>, part: seq<int>, k: int, n: int, good: int, r: int)
    requires Shape(s) && Shape(m) && Shape(t) && 0 <= i < |s.inode| && SoFar(s, m, i, off, src, k) && SameLayout(s, m)
    requires OnChunk(k) && n == Min(|src| - k, CHUNK) > 0 && 0 <= off && 0 <= k <= good && 0 <= r < n
    requires part == src[k..k + n] && |part| == n
    requires PartWritten(m, t, i, off + k, part, good - k, r) && Torn(m, i, off + k, n, good - k)
    ensures FileWritten(s, t, i, off, src, good, k + r) && TornFile(s, i, off, |src|, good) && good < k + n
  {
    hide Wrote, NoBlock, StartOf, PieceStart, Need, EndBlock, FreeCount, Cap, OnChunk, InChunk, SoFar, Shape, NoBlockFor;
    StartsIn(s, m, i, off, src, k);
    Capped(off, |src|, k, n);
    NeedsLate(s, m, i, off, src, k, good - k + 1);
    ChunkOf(k, good);
    PieceOf(off, k, good);
    WroteJoin(s, m, t, i, off, src, k, n, r, good - k, good - k + 1, good - k + 1);
    assert k + (good - k) == good && k + (good - k + 1) == good + 1;
  }

  lemma StartsIn(s: Fs, m: Fs, i: int, off: int, src: seq<int>, k: int)
    requires Shape(s) && Shape(m) && 0 <= i < |s.inode| && SoFar(s, m, i, off, src, k)
    ensures k > 0 || off + k <= m.inode[i].size ==> off <= s.inode[i].size
    ensures 0 <= off && 0 <= k <= |src| && (k > 0 ==> off + k <= MAXBYTES)
  {
  }

  /** Or for want of a block. */
  lemma ChunkShort(s: Fs, m: Fs, t: Fs, i: int, off: int, src: seq<int>, part: seq<int>, k: int, n: int, good: int, r: int)
    requires Shape(s) && Shape(m) && Shape(t) && 0 <= i < |s.inode| && SoFar(s, m, i, off, src, k) && SameLayout(s, m)
    requires OnChunk(k) && n == Min(|src| - k, CHUNK) > 0 && 0 <= off && 0 <= k <= good && 0 <= r < n
    requires part == src[k..k + n] && |part| == n
    requires PartWritten(m, t, i, off + k, part, good - k, r) && !Torn(m, i, off + k, n, good - k)
    ensures FileWritten(s, t, i, off, src, good, k + r) && !TornFile(s, i, off, |src|, good)
  {
    hide Wrote, NoBlock, StartOf, PieceStart, Need, EndBlock, FreeCount, Cap, OnChunk, InChunk, SoFar, Shape;
    StartsIn(s, m, i, off, src, k);
    Capped(off, |src|, k, n);
    var u := Min(n, good - k + 1);
    NeedsLate(s, m, i, off, src, k, r);
    NeedsLate(s, m, i, off, src, k, r + 1);
    assert k + (r + 1) == k + r + 1 && off + k + r == off + (k + r);
    ShortMeans(s, i, off, |src|, k + r, good);
    WroteJoin(s, m, t, i, off, src, k, n, r, r, r, u);
    NeedsGrow(s, i, off, k + r + 1, k + u);
    WroteMore(s, t, i, off, src, k + r, k + r, k + r, k + u, Tried(s, i, off, |src|, good));
    assert NoBlockFor(t, i, off + (k + r));
  }

  lemma ShortMeans(s: Fs, i: int, off: int, len: int, done: int, good: int)
    requires Shape(s) && 0 <= i < |s.inode| && 0 <= off <= s.inode[i].size && 0 <= done < Cap(off, len) && done <= good
    requires off + Cap(off, len) <= MAXBYTES && Needs(s, i, off, done) <= FreeCount(s) < Needs(s, i, off, done + 1)
    ensures FileReaches(s, i, off, len, good, done) && !TornFile(s, i, off, len, good)
  {
    hide Need, EndBlock, FreeCount, Cap;
    NeedsGrow(s, i, off, done + 1, Cap(off, len));
    if good < Cap(off, len) {
      NeedsGrow(s, i, off, done + 1, good + 1);
    }
  }

  lemma PartFacts(m: Fs, t: Fs, i: int, o: int, part: seq<int>, good: int, r: int)
    requires Shape(m) && Shape(t) && 0 <= i < |m.inode| && PartWritten(m, t, i, o, part, good, r)
    ensures -1 <= r <= |part| && r <= good && SameLayout(m, t)
    ensures r != -1 ==> o <= m.inode[i].size && o + |part| <= MAXBYTES
    ensures r == -1 ==> t == m && (o > m.inode[i].size || o + |part| > MAXBYTES) && !Torn(m, i, o, |part|, good)
  {
    hide PartIn;
  }

  /** Both, with what it means for the log. */
  lemma ChunkResult(s: Fs, m: Fs, t: Fs, i: int, off: int, src: seq<int>, k: int, n: int, good: int, r: int,
                    valid: bool, o: int, part: seq<int>, g: int)
    requires Shape(s) && Shape(m) && Shape(t) && 0 <= i < |s.inode| && SoFar(s, m, i, off, src, k) && i < |m.inode|
    requires SameLayout(s, m) && 0 <= off && 0 <= k <= good && OnChunk(k) && n == Min(|src| - k, CHUNK) > 0
    requires o == off + k && part == src[k..k + n] && |part| == n && g == good - k
    requires PartWritten(m, t, i, o, part, g, r) && (valid <==> !Tears(m, {}, i, o, part, g))
    ensures -1 <= r <= n && k + r <= good && SameLayout(m, t)
    ensures r == n ==> SoFar(s, t, i, off, src, k + r) && valid
    ensures r != n ==> FileWritten(s, t, i, off, src, good, k + Max(r, 0)) && (valid <==> !TearsFile(s, i, off, src, good))
  {
    hide SoFar, FileWritten, Tears, TearsFile, PartWritten, OnChunk, InChunk, Torn, TornFile, Shape;
    PartFacts(m, t, i, o, part, g, r);
    if r == n {
      ChunkGoesOn(s, m, t, i, off, src, part, k, n, good);
      NotTorn(m, {}, i, o, part, g);
    } else if r == -1 {
      ChunkRefused(s, m, i, off, src, k, n, good);
      NotTorn(m, {}, i, o, part, g);
      NotTornFile(s, i, off, src, good);
    } else {
      if Torn(m, i, o, n, g) {
        ChunkTorn(s, m, t, i, off, src, part, k, n, good, r);
        ChunkOf(k, good);
        TearsLate(s, m, i, off, src, k, n, good);
      } else {
        ChunkShort(s, m, t, i, off, src, part, k, n, good, r);
        NotTorn(m, {}, i, o, part, g);
        NotTornFile(s, i, off, src, good);
      }
    }
  }

  lemma NotTornFile(s: Fs, i: int, off: int, src: seq<int>, good: int)
    requires Shape(s) && 0 <= i < |s.inode| && 0 <= off && 0 <= good && !TornFile(s, i, off, |src|, good)
    ensures !TearsFile(s, i, off, src, good)
  {
  }

  /** Seen from the chunk that stops, and seen from the start of the whole write. */
  lemma TearsLate(s: Fs, m: Fs, i: int, off: int, src: seq<int>, k: int, n: int, good: int)
    requires Shape(s) && Shape(m) && 0 <= i < |s.inode| && SoFar(s, m, i, off, src, k) && 0 < n && k + n <= |src|
    requires InChunk(good) == good - k && 0 <= k <= good
    requires TornFile(s, i, off, |src|, good) && Torn(m, i, off + k, n, good - k) && |s.inode| == |m.inode| && 0 <= off
    ensures Tears(m, {}, i, off + k, src[k..k + n], good - k) <==> TearsFile(s, i, off, src, good)
  {
    hide SoFar, Differs, At, StartOf, PieceStart, TornFile, EndBlock, Need, FreeCount, Shape, InChunk;
    assert |src[k..k + n]| == n;
    PieceOf(off, k, good);
    DiffersLate(s, m, i, off, src, k, n, StartOf(off + k, good - k), good - k);
    BlockLate(s, m, i, off, src, k, good);
    assert off + k + (good - k) == off + good;
  }

  lemma PieceOf(off: int, k: int, good: int)
    requires 0 <= off && 0 <= k <= good && InChunk(good) == good - k
    ensures 0 <= StartOf(off + k, good - k) <= good - k && PieceStart(off, good) == k + StartOf(off + k, good - k)
  {
    assert off + k + (good - k) == off + good;
  }

  lemma DiffersLate(s: Fs, m: Fs, i: int, off: int, src: seq<int>, k: int, n: int, a: int, b: int)
    requires Shape(s) && Shape(m) && 0 <= i < |s.inode| && SoFar(s, m, i, off, src, k) && k + n <= |src|
    requires 0 <= a <= b < n && off + k + n <= MAXBYTES
    ensures Differs(m, i, off + k, src[k..k + n], a, b) <==> Differs(s, i, off, src, k + a, k + b)
  {
    hide SoFar, Written, NewAt, Shape;
    SoFarWritten(s, m, i, off, src, k);
    var part := src[k..k + n];
    if Differs(m, i, off + k, part, a, b) {
      var j :| a <= j < b && NewAt(m, i, off + k, part, j);
      NewLate(s, m, i, off, src, k, n, j);
    }
    if Differs(s, i, off, src, k + a, k + b) {
      var j :| k + a <= j < k + b && NewAt(s, i, off, src, j);
      NewLate(s, m, i, off, src, k, n, j - k);
    }
  }

  lemma SoFarWritten(s: Fs, m: Fs, i: int, off: int, src: seq<int>, k: int)
    requires Shape(s) && Shape(m) && 0 <= i < |s.inode| && SoFar(s, m, i, off, src, k)
    ensures 0 <= off && 0 <= k <= |src| && |m.inode| == |s.inode| && Written(s, m, i, off, src, 0, k)
  {
  }

  lemma NewLate(s: Fs, m: Fs, i: int, off: int, src: seq<int>, k: int, n: int, j: int)
    requires Shape(s) && Shape(m) && 0 <= i < |s.inode| == |m.inode| && 0 <= off && 0 <= k && k + n <= |src| && 0 <= j < n
    requires Written(s, m, i, off, src, 0, k) && off + k + n <= MAXBYTES
    ensures NewAt(m, i, off + k, src[k..k + n], j) <==> NewAt(s, i, off, src, k + j)
  {
    assert off + k + j == off + (k + j);
  }

  lemma BlockLate(s: Fs, m: Fs, i: int, off: int, src: seq<int>, k: int, good: int)
    requires Shape(s) && Shape(m) && 0 <= i < |s.inode| && SoFar(s, m, i, off, src, k) && 0 <= k <= good
    requires off + good < MAXBYTES
    ensures var n := (off + good) / BSIZE; At(m, i, SlotNo(n)) != 0 <==> At(s, i, SlotNo(n)) != 0 || n < EndBlock(off, k)
  {
    hide Written, Byte, NoHoles, At;
    assert SlotNo((off + good) / BSIZE) >= 0;
  }

  /** What a transaction that began in m, with the inodes dm on disk and the file's offset at o, leaves behind. */
  ghost predicate Transacted(fs: FileSystem, f: File, m: Fs, dm: seq<Inode>, i: int, o: int, part: seq<int>,
                             good: int, r: int)
    reads fs, f
    requires Shape(m) && 0 <= i < |m.inode| && |dm| == |m.inode| && 0 <= o && 0 <= good
  {
    && fs.Sound() && f.off == o + Max(r, 0) && PartWritten(m, fs.S(), i, o, part, good, r) && |fs.inode| == |m.inode|
    && fs.dinode == (if r == -1 then dm else dm[i := fs.inode[i]])
    && (fs.Valid() <==> !Tears(m, {}, i, o, part, good)) && (NoHoles(m, i) ==> |fs.logged| <= MAXOPBLOCKS)
  }

  /** One transaction: a write at the file's offset of at most CHUNK bytes, good of which can be read; the offset moves
      past those counted. */
  method Transact(fs: FileSystem, f: File, i: int, part: seq<int>, good: int) returns (r: int)
    requires fs.Valid() && 0 <= i < |fs.inode| && IsBytes(part) && |part| <= CHUNK && 0 <= f.off < 0x1_0000_0000 &&
             0 <= good
    modifies fs`disk, fs`inode, fs`dinode, fs`role, fs`logged, fs`base, fs`dbase, f
    ensures Transacted(fs, f, old(fs.S()), old(fs.dinode), i, old(f.off), part, good, r)
  {
    fs.BeginOp();
    ghost var ops := {};
    r, ops := fs.Writei(i, f.off, part, good);
    SubsetSize(fs.logged, ops);
    if r > 0 {
      f.off := f.off + r;
    }
  }

  /** filewrite gets to the point of calling writei with a range it takes. */
  predicate Runs(s: Fs, i: int, off: int, len: int)
    requires 0 <= i < |s.inode|
  {
    len > 0 && off <= s.inode[i].size && off + Min(len, CHUNK) <= MAXBYTES
  }

  /** filewrite, begun in s at off with the inodes d on disk, has written the first k bytes of src and goes on; no
      transaction so far has logged more than most blocks. */
  ghost predicate Going(fs: FileSystem, f: File, s: Fs, d: seq<Inode>, i: int, off: int, src: seq<int>, good: int, k: int,
                        most: int)
    reads fs, f
  {
    && fs.Valid() && f.off == off + k && GoodSoFar(s, fs.S(), i, off, src, good, k, most)
    && |d| == |s.inode| && fs.dinode == if k == 0 then d else d[i := fs.inode[i]]
  }

  ghost predicate GoodSoFar(s: Fs, t: Fs, i: int, off: int, src: seq<int>, good: int, k: int, most: int) {
    && Shape(s) && Shape(t) && 0 <= i < |s.inode| && i < |t.inode| && SoFar(s, t, i, off, src, k) && 0 <= off
    && 0 <= k <= good && (k < |src| ==> OnChunk(k)) && (NoHoles(s, i) ==> most <= MAXOPBLOCKS)
  }

  /** It has ended, with done bytes counted. */
  ghost predicate Over(fs: FileSystem, f: File, s: Fs, d: seq<Inode>, i: int, off: int, src: seq<int>, good: int, done: int,
                       most: int)
    reads fs, f
  {
    && fs.Sound() && Shape(s) && 0 <= i < |s.inode| == |d| && FileWritten(s, fs.S(), i, off, src, good, done)
    && f.off == off + done && 0 <= good && (NoHoles(s, i) ==> most <= MAXOPBLOCKS)
    && (fs.Valid() <==> !TearsFile(s, i, off, src, good))
    && fs.dinode == if Runs(s, i, off, |src|) then d[i := fs.inode[i]] else d
  }

  /** After a chunk: the whole of it went in, or not. */
  ghost predicate Turned(fs: FileSystem, f: File, s: Fs, d: seq<Inode>, i: int, off: int, src: seq<int>, good: int, k: int,
                         most: int, whole: bool)
    reads fs, f
  {
    match whole
    case true => Going(fs, f, s, d, i, off, src, good, k, most)
    case false => Over(fs, f, s, d, i, off, src, good, k, most)
  }

  lemma GoingStarts(fs: FileSystem, f: File, i: int, src: seq<int>, good: int)
    requires fs.Valid() && 0 <= i < |fs.inode| && 0 <= f.off && 0 <= good
    ensures Going(fs, f, fs.S(), fs.dinode, i, f.off, src, good, 0, 0)
  {
    assert EndBlock(f.off, 0) == f.off / BSIZE;
    hide Byte, At;
  }

  lemma GoingEnds(fs: FileSystem, f: File, s: Fs, d: seq<Inode>, i: int, off: int, src: seq<int>, good: int, most: int)
    requires Going(fs, f, s, d, i, off, src, good, |src|, most)
    ensures Over(fs, f, s, d, i, off, src, good, |src|, most)
  {
    hide Inv, Written, SlotsKept, NoHoles, RolesGrow, Spread, Byte, At, Need, EndBlock, FreeCount, OnChunk, InChunk,
      PieceStart;
    NotTornFile(s, i, off, src, good);
  }

  lemma ChunkTurn(fs: FileSystem, f: File, s: Fs, d: seq<Inode>, m: Fs, dm: seq<Inode>, i: int, off: int,
                  src: seq<int>, k: int, n: int, good: int, r: int, next: int, o: int, part: seq<int>, g: int, was: int, most: int)
    requires GoodSoFar(s, m, i, off, src, good, k, was) && n == Min(|src| - k, CHUNK) > 0
    requires o == off + k && part == src[k..k + n] && |part| == n && g == good - k && most == Max(was, |fs.logged|)
    requires |d| == |s.inode| == |m.inode| && dm == (if k == 0 then d else d[i := m.inode[i]])
    requires Transacted(fs, f, m, dm, i, o, part, g, r)
    requires next == k + Max(r, 0)
    ensures -1 <= r <= n
    ensures Turned(fs, f, s, d, i, off, src, good, next, most, r == n)
  {
    hide SoFar, FileWritten, Tears, TearsFile, OnChunk, InChunk, NoHoles, PartIn, PartWritten, Runs, Shape, Inv,
      FileSystem.InodesLogged, FileSystem.BlocksLogged;
    SoFarFacts(s, m, i, off, src, k, n);
    ShapeOf(fs.S());
    PartFacts(m, fs.S(), i, o, part, g, r);
    ChunkResult(s, m, fs.S(), i, off, src, k, n, good, r, fs.Valid(), o, part, g);
  }

  lemma SoFarFacts(s: Fs, m: Fs, i: int, off: int, src: seq<int>, k: int, n: int)
    requires Shape(s) && Shape(m) && 0 <= i < |s.inode| && SoFar(s, m, i, off, src, k) && OnChunk(k) &&
             n == Min(|src| - k, CHUNK) > 0
    ensures SameLayout(s, m) && (NoHoles(s, i) ==> NoHoles(m, i)) && (k + n < |src| ==> OnChunk(k + n))
    ensures Runs(s, i, off, |src|) <==> k > 0 || (off + k <= m.inode[i].size && off + k + n <= MAXBYTES)
  {
    assert CHUNK == (MAXOPBLOCKS - 1 - 1 - 2) / 2 * BSIZE;
    hide Written, SlotsKept, NoHoles, RolesGrow, Spread, Byte, At, Need, EndBlock, FreeCount, Shape;
  }

  lemma BytesOf(src: seq<int>, k: int, n: int, part: seq<int>)
    requires 0 <= k && 0 <= n && k + n <= |src| && IsBytes(src) && part == src[k..k + n]
    ensures IsBytes(part) && |part| == n
  {
  }

  /** A turn of filewrite's loop: one transaction for the next n1 bytes of src, k of which are in; the file's offset moves
      past those counted. */
  method WriteChunk(fs: FileSystem, f: File, i: int, src: seq<int>, k: int, n1: int, good: int, ghost off: int, ghost s: Fs,
                    ghost d: seq<Inode>, ghost was: int)
    returns (r: int, next: int, ghost most: int)
    requires Going(fs, f, s, d, i, off, src, good, k, was) && IsBytes(src) && n1 == Min(|src| - k, CHUNK) > 0
    requires f.off < 0x1_0000_0000
    modifies fs`disk, fs`inode, fs`dinode, fs`role, fs`logged, fs`base, fs`dbase, f
    ensures -1 <= r <= n1 && most == Max(was, |fs.logged|) && next == k + Max(r, 0)
    ensures Turned(fs, f, s, d, i, off, src, good, next, most, r == n1)
  {
    ghost var m, dm, o, g := fs.S(), fs.dinode, f.off, good - k;
    var part := src[k..k + n1];
    BytesOf(src, k, n1, part);
    r := Transact(fs, f, i, part, good - k);
    most := Max(was, |fs.logged|);
    next := k + if r > 0 then r else 0;
    ChunkTurn(fs, f, s, d, m, dm, i, off, src, k, n1, good, r, next, o, part, g, was, most);
  }

  /** filewrite: the result is n when all of src is written, else -1. good bytes of src can be read. */
  method Filewrite(fs: FileSystem, f: File, i: int, src: seq<int>, n: int, good: int)
    returns (ret: int, ghost done: int, ghost most: int)
    requires fs.Valid() && 0 <= i < |fs.inode| && IsBytes(src) && 0 <= f.off < 0x1_0000_0000 && 0 <= good
    requires n < 0x8000_0000 && |src| == Max(n, 0)
    modifies fs`disk, fs`inode, fs`dinode, fs`role, fs`logged, fs`base, fs`dbase, f
    ensures Over(fs, f, old(fs.S()), old(fs.dinode), i, old(f.off), src, good, done, most)
    ensures ret == if Succeeds(old(fs.S()), i, old(f.off), n, good) then n else -1
  {
    GoingStarts(fs, f, i, src, good);
    ghost var s, off := fs.S(), f.off;
    var k;
    k, done, most := WriteChunks(fs, f, i, src, n, good, fs.S(), fs.dinode, f.off);
    ret := if k == n then n else -1;
    AllWritten(s, fs.S(), i, off, src, n, good, done);
  }

  /** A write of n bytes at off will be complete: it starts in the file and ends within the largest, the bytes can be read
      and the disk has the blocks. */
  ghost predicate Succeeds(s: Fs, i: int, off: int, n: int, good: int)
    requires Shape(s) && 0 <= i < |s.inode|
  {
    n == 0 || (n > 0 && off <= s.inode[i].size && off + n <= MAXBYTES && n <= good && Needs(s, i, off, n) <= FreeCount(s))
  }

  lemma AllWritten(s: Fs, t: Fs, i: int, off: int, src: seq<int>, n: int, good: int, done: int)
    requires Shape(s) && Shape(t) && 0 <= i < |s.inode| && |src| == Max(n, 0) && FileWritten(s, t, i, off, src, good, done)
    ensures done == n <==> Succeeds(s, i, off, n, good)
  {
    hide Wrote, NoBlock, Need, EndBlock, FreeCount;
    if n > 0 && off <= s.inode[i].size {
      if off + n > MAXBYTES {
        ChunkPlace(MAXBYTES - off);
      }
      ChunkPlace(good);
    }
  }

  /** filewrite's loop, begun in s at off. */
  method WriteChunks(fs: FileSystem, f: File, i: int, src: seq<int>, n: int, good: int, ghost s: Fs, ghost d: seq<Inode>,
                     ghost off: int)
    returns (k: int, ghost done: int, ghost most: int)
    requires Going(fs, f, s, d, i, off, src, good, 0, 0) && IsBytes(src) && off < 0x1_0000_0000
    requires n < 0x8000_0000 && |src| == Max(n, 0)
    modifies fs`disk, fs`inode, fs`dinode, fs`role, fs`logged, fs`base, fs`dbase, f
    ensures Over(fs, f, s, d, i, off, src, good, done, most) && (k == n <==> done == n)
  {
    k, most := 0, 0;
    while k < n
      invariant 0 <= k <= |src| && Going(fs, f, s, d, i, off, src, good, k, most)
      decreases n - k
    {
      var r, n1, next;
      r, n1, next, most := WriteNextChunk(fs, f, i, src, k, n, good, off, s, d, most);
      if r != n1 {
        done := next;
        return;
      }
      k := next;
    }
    GoingEnds(fs, f, s, d, i, off, src, good, most);
    done := |src|;
  }

  /** A turn of the loop. */
  method WriteNextChunk(fs: FileSystem, f: File, i: int, src: seq<int>, k: int, n: int, good: int, ghost off: int,
                        ghost s: Fs, ghost d: seq<Inode>, ghost was: int)
    returns (r: int, n1: int, next: int, ghost most: int)
    requires Going(fs, f, s, d, i, off, src, good, k, was) && IsBytes(src) && off < 0x1_0000_0000 &&
             k < n == |src| < 0x8000_0000
    modifies fs`disk, fs`inode, fs`dinode, fs`role, fs`logged, fs`base, fs`dbase, f
    ensures 0 < n1 <= n - k && -1 <= r <= n1 && next == k + Max(r, 0)
    ensures Turned(fs, f, s, d, i, off, src, good, next, most, r == n1)
  {
    var max := CHUNK;
    n1 := n - k;
    if n1 > max {
      n1 := max;
    }
    r, next, most := WriteChunk(fs, f, i, src, k, n1, good, off, s, d, was);
  }

  /** A readi of n bytes at off allocates: one of the blocks it comes to is missing, and the disk has one. */
  ghost predicate Allocates(s: Fs, i: int, off: int, n: int, good: int)
    requires Shape(s) && 0 <= i < |s.inode|
  {
    && off <= s.inode[i].size && off + n < 0x1_0000_0000 && FreeCount(s) > 0
    && Needs(s, i, off, Min(Min(n, s.inode[i].size - off), good + 1)) > 0
  }

  lemma ReadLogs(s: Fs, t: Fs, i: int, off: int, n: int, good: int, r: int, out: seq<int>, kept: bool)
    requires Inv(s) && Inv(t) && SameLayout(s, t) && 0 <= i < |s.inode| && 0 <= off && 0 <= n && 0 <= good
    requires ReadGives(s, t, i, off, n, good, r, out, kept) && (kept ==> t == s)
    ensures kept <==> !Allocates(s, i, off, n, good)
    ensures Allocates(s, i, off, n, good) ==> t.disk != s.disk
  {
    hide Inv, Reaches, Need, EndBlock, NoHoles;
    ShapeOf(s);
    if off <= s.inode[i].size {
      NeedsGrow(s, i, off, 0, Min(Min(n, s.inode[i].size - off), good + 1));
    }
    if t.disk == s.disk {
      SameDiskSameFree(s, t);
    }
  }

  /** fileread on an inode, which is not within a transaction: when none is open, that it logs a block is a panic. good
      bytes can be delivered. */
  method Fileread(fs: FileSystem, f: File, i: int, n: int, good: int) returns (r: int, out: seq<int>)
    requires fs.Valid() && 0 <= i < |fs.inode| && 0 <= f.off < 0x1_0000_0000 && -0x8000_0000 <= n < 0x8000_0000 && 0 <= good
    modifies fs`disk, fs`inode, fs`role, fs`logged, f
    ensures fs.Valid() && SameFiles(old(fs.S()), fs.S()) && f.off == old(f.off) + Max(r, 0)
    ensures Reads(old(fs.S()), i, old(f.off), out)
    ensures ReadGives(old(fs.S()), fs.S(), i, old(f.off), n % 0x1_0000_0000, good, r, out,
                      fs.S() == old(fs.S()) && fs.logged == old(fs.logged))
    ensures !Allocates(old(fs.S()), i, old(f.off), n % 0x1_0000_0000, good) ==>
              fs.S() == old(fs.S()) && fs.logged == old(fs.logged)
    ensures old(fs.logged) == {} ==>
              (fs.logged != {} <==> Allocates(old(fs.S()), i, old(f.off), n % 0x1_0000_0000, good))
  {
    ghost var s, un := fs.S(), n % 0x1_0000_0000;
    r, out := fs.Readi(i, f.off, n % 0x1_0000_0000, good);
    ReadLogs(s, fs.S(), i, f.off, un, good, r, out, fs.S() == s && fs.logged == old(fs.logged));
    if r > 0 {
      f.off := f.off + r;
    }
  }

  /** A copy that fails part way: the call counts no byte, yet the file has a new one, and the block is not logged. */
  method CopyFailureTears(fs: FileSystem, i: int, x: int) returns (r: int)
    requires fs.Valid() && fs.logged == {} && 0 <= i < |fs.inode| && At(fs.S(), i, 0) != 0
    requires 0 <= x < 256 && x != Byte(fs.S(), i, 0)
    modifies fs`disk, fs`inode, fs`dinode, fs`role, fs`logged
    ensures r == 0 && fs.Sound() && !fs.Valid() && Byte(fs.S(), i, 0) == x
    ensures At(fs.S(), i, 0) == old(At(fs.S(), i, 0)) != 0
  {
    ghost var s, ops := fs.S(), {};
    assert SlotNo(0) == 0 && NewAt(s, i, 0, [x, x], 0);
    assert EndBlock(0, 2) == 1 && !Hole(s, i, 0) && Needs(s, i, 0, 2) == Holes(s, i, 0, 1);
    r, ops := fs.Writei(i, 0, [x, x], 1);
  }
}

/** fs.c: the block allocator, bmap, itrunc, readi and writei, as code over the blocks the buffer cache shows. */
module FsCode {
  import opened Arith
  import opened BlockCount
  import opened BlockMap
  import opened Params

  const IPB := 16

  /** What one bmap(i, n) may change: a free block entered slot n of the file, or its indirect slot, or both. */
  ghost predicate Extends(s: Fs, t: Fs, i: int, n: int)
    requires Shape(s) && Shape(t) && 0 <= i < |s.inode| && 0 <= n < MAXFILE
  {
    && SameFiles(s, t) && (forall j :: 0 <= j < |s.inode| && j != i ==> t.inode[j] == s.inode[j])
    && (forall j, k {:trigger At(t, j, k)} :: 0 <= j < |s.inode| && 0 <= k < SLOTS ==>
          At(t, j, k) == At(s, j, k) || (j == i && At(s, j, k) == 0 && (k == SlotNo(n) || (k == NDIRECT <= n))))
    && (forall b {:trigger t.role[b]} :: 0 <= b < |s.disk| ==>
          t.role[b] == s.role[b] ||
          (s.role[b] == Free && (t.role[b] == Slot(i, SlotNo(n)) || (t.role[b] == Slot(i, NDIRECT) && NDIRECT <= n))))
  }

  lemma ExtendsKeeps(s: Fs, t: Fs, i: int, n: int)
    requires Shape(s) && Shape(t) && 0 <= i < |s.inode| && 0 <= n < MAXFILE && Extends(s, t, i, n)
    ensures Grows(s, t, i) && Beyond(s, t, i, n) && SlotsKept(s, t, i)
  {
    hide At, Byte;
  }

  /** Only blocks of bm, and d and x, were logged. */
  ghost predicate Logs(was: set<int>, now: set<int>, bm: set<int>, d: int, x: int) {
    was <= now && forall b :: b in now ==> b in was || b in bm || b == d || b == x
  }

  /** The block besides the data block that a bmap(i, n) may log, bitmap blocks apart. */
  function Second(s: Fs, i: int, n: int): int
    requires Shape(s) && 0 <= i < |s.inode| && 0 <= n < MAXFILE
  {
    if n < NDIRECT then At(s, i, n) else At(s, i, NDIRECT)
  }

  /** A bmap(i, n) gets its block exactly when the disk has what is missing, and takes exactly that, or all there is. */
  ghost predicate Allotted(s: Fs, t: Fs, i: int, n: int)
    requires Shape(s) && Shape(t) && 0 <= i < |s.inode| == |t.inode| && 0 <= n < MAXFILE
  {
    && (At(t, i, SlotNo(n)) != 0 <==> Missing(s, i, n) <= FreeCount(s))
    && FreeCount(t) == Max(0, FreeCount(s) - Missing(s, i, n))
  }

  /** It takes nothing. */
  ghost predicate Spared(s: Fs, i: int, n: int)
    requires Shape(s) && 0 <= i < |s.inode| && 0 <= n < MAXFILE
  {
    Missing(s, i, n) == 0 || FreeCount(s) == 0
  }

  /** Every other file is as it was. */
  ghost predicate OthersKept(s: Fs, t: Fs, i: int)
    requires Shape(s) && Shape(t)
  {
    && SameLayout(s, t)
    && (forall j :: 0 <= j < |s.inode| && j != i ==> t.inode[j] == s.inode[j])
    && (forall j, o {:trigger Byte(t, j, o)} ::
          0 <= j < |s.inode| && j != i && 0 <= o < MAXBYTES ==> Byte(t, j, o) == Byte(s, j, o))
  }

  predicate IsBytes(src: seq<int>) {
    forall k :: 0 <= k < |src| ==> 0 <= src[k] < 256
  }

  /** Every file reads as before, except that bytes off + a .. off + b of file i are those of src. */
  ghost predicate Written(s: Fs, t: Fs, i: int, off: int, src: seq<int>, a: int, b: int)
    requires Shape(s) && Shape(t) && 0 <= i < |s.inode| && 0 <= off && 0 <= a <= b <= |src|
  {
    && SameLayout(s, t)
    && (forall j, o {:trigger Byte(t, j, o)} :: 0 <= j < |s.inode| && 0 <= o < MAXBYTES ==>
          Byte(t, j, o) == if j == i && off + a <= o < off + b then src[o - off] else Byte(s, j, o))
  }

  /** Other inodes as before; file i has its size, keeps every block it had, and gains only free ones. */
  ghost predicate Grows(s: Fs, t: Fs, i: int)
    requires Shape(s) && Shape(t) && 0 <= i < |s.inode|
  {
    && SameLayout(s, t)
    && t.inode[i].size == s.inode[i].size && (forall j :: 0 <= j < |s.inode| && j != i ==> t.inode[j] == s.inode[j])
    && (forall k {:trigger At(t, i, k)} :: 0 <= k < SLOTS && At(s, i, k) != 0 ==> At(t, i, k) == At(s, i, k))
    && (forall b {:trigger t.role[b]} :: 0 <= b < |s.role| ==>
          t.role[b] == s.role[b] || (s.role[b] == Free && t.role[b].Slot? && t.role[b].inum == i))
  }

  function Splice(x: seq<int>, o: int, src: seq<int>, a: int, m: int): (y: seq<int>)
    requires |x| == BSIZE && 0 <= o && 0 <= m && o + m <= BSIZE && 0 <= a && a + m <= |src|
    ensures |y| == BSIZE
    ensures forall k :: 0 <= k < BSIZE ==> y[k] == if o <= k < o + m then src[a + k - o] else x[k]
  {
    x[..o] + src[a..a + m] + x[o + m..]
  }

  /** The blocks holding bytes 0..o of file i are all allocated. */
  ghost predicate MappedTo(s: Fs, i: int, o: int)
    requires Shape(s) && 0 <= i < |s.inode|
  {
    forall n {:trigger SlotNo(n)} :: 0 <= n < MAXFILE && n * BSIZE < o ==> At(s, i, SlotNo(n)) != 0
  }

  ghost predicate DiskFull(s: Fs) {
    forall b :: 0 <= b < |s.role| ==> s.role[b] != Free
  }

  /** Block n of the file is missing, and there is none left for it. */
  ghost predicate NoBlock(s: Fs, i: int, n: int) {
    Shape(s) && 0 <= i < |s.inode| && 0 <= n < MAXFILE && At(s, i, SlotNo(n)) == 0 && DiskFull(s)
  }

  /** One block's worth of a write. */
  lemma SplicedBlock(s: Fs, i: int, off: int, src: seq<int>, a: int, m: int)
    requires Inv(s) && 0 <= i < |s.inode| && 0 <= off && 0 <= a && IsBytes(src) && 0 <= m && a + m <= |src|
    requires off + a < MAXBYTES && (off + a) % BSIZE + m <= BSIZE
    requires 0 < At(s, i, SlotNo((off + a) / BSIZE)) < |s.disk|
    ensures var b := At(s, i, SlotNo((off + a) / BSIZE));
            var t := PutData(s, b, Splice(s.disk[b], (off + a) % BSIZE, src, a, m));
            Inv(t) && SameSlots(s, t) && Written(s, t, i, off, src, a, a + m)
  {
    var n, b := (off + a) / BSIZE, At(s, i, SlotNo((off + a) / BSIZE));
    var x := Splice(s.disk[b], (off + a) % BSIZE, src, a, m);
    assert IsBlock(s.disk[b]);
    PutDataKeeps(s, i, n, x);
    var t := PutData(s, b, x);
    hide Word, TestBit, PutData, Splice;
    forall j, o | 0 <= j < |s.inode| && 0 <= o < MAXBYTES
      ensures Byte(t, j, o) == if j == i && off + a <= o < off + a + m then src[o - off] else Byte(s, j, o)
    {
      if j == i && o / BSIZE == n {
        assert o - (off + a) == o % BSIZE - (off + a) % BSIZE;
      }
    }
  }

  lemma WrittenJoin(s: Fs, m: Fs, t: Fs, i: int, off: int, src: seq<int>, a: int, b: int, c: int)
    requires Shape(s) && Shape(m) && Shape(t) && 0 <= i < |s.inode| && 0 <= off && 0 <= a <= b <= c <= |src|
    requires SameLayout(s, m) && Written(s, m, i, off, src, a, b) && Written(m, t, i, off, src, b, c)
    ensures Written(s, t, i, off, src, a, c)
  {
    forall j, o | 0 <= j < |s.inode| && 0 <= o < MAXBYTES
      ensures Byte(t, j, o) == if j == i && off + a <= o < off + c then src[o - off] else Byte(s, j, o)
    {
      assert Byte(m, j, o) == Byte(m, j, o);
    }
  }

  /** The blocks the turns of one writei logged, whether the indirect block is one of them, and how many of the data
      blocks were new. */
  datatype Ops = Ops(blocks: set<int>, ind: bool, turns: int, added: int)

  ghost predicate Covers(w: Ops, was: set<int>, now: set<int>) {
    && (forall b :: b in now ==> b in was || b in w.blocks)
    && |w.blocks| <= w.turns + w.added + if w.ind then 2 else 0
  }

  /** The indirect block counted is the one the file has. */
  ghost predicate IndOk(w: Ops, s: Fs, i: int)
    requires Shape(s) && 0 <= i < |s.inode|
  {
    w.ind ==> At(s, i, NDIRECT) in w.blocks && At(s, i, NDIRECT) != 0
  }

  ghost function AfterTurn(w: Ops, s: Fs, t: Fs, i: int, n: int, bm: set<int>): Ops
    requires Shape(s) && Shape(t) && 0 <= i < |s.inode| == |t.inode| && 0 <= n < MAXFILE
  {
    Ops(w.blocks + bm + {At(t, i, SlotNo(n)), Second(t, i, n)}, w.ind || NDIRECT <= n,
        w.turns + 1, w.added + if At(s, i, SlotNo(n)) == 0 then 1 else 0)
  }

  /** A turn logs its data block and one bitmap block per allocation, and the first indirect turn two more. */
  lemma TurnCovers(w: Ops, was: set<int>, now: set<int>, next: set<int>, s: Fs, t: Fs, i: int, n: int, bm: set<int>)
    requires Shape(s) && Shape(t) && 0 <= i < |s.inode| && 0 <= n < MAXFILE && Grows(s, t, i)
    requires Covers(w, was, now) && IndOk(w, s, i)
    requires Logs(now, next, bm, At(t, i, SlotNo(n)), Second(t, i, n)) && |bm| <= Missing(s, i, n)
    ensures Covers(AfterTurn(w, s, t, i, n, bm), was, next)
    ensures At(t, i, SlotNo(n)) != 0 ==> IndOk(AfterTurn(w, s, t, i, n, bm), t, i)
  {
    var d, x := At(t, i, SlotNo(n)), At(t, i, NDIRECT);
    assert At(s, i, NDIRECT) != 0 ==> x == At(s, i, NDIRECT);
    assert |w.blocks + bm| <= |w.blocks| + |bm|;
    if n < NDIRECT || w.ind {
      assert w.blocks + bm + {d, Second(t, i, n)} == w.blocks + bm + {d};
    } else {
      assert w.blocks + bm + {d, Second(t, i, n)} == w.blocks + bm + {d} + {x};
    }
  }

  /** The turns taken follow the offset, and a first block begun in the middle was there already. */
  ghost predicate Paced(w: Ops, off: int, n: int, tot: int, full: bool) {
    && w.turns >= 0 && (w.turns == 0 <==> tot == 0)
    && (w.turns > 0 ==> (off / BSIZE + w.turns - 1) * BSIZE < off + tot <= (off / BSIZE + w.turns) * BSIZE)
    && (0 < tot < n ==> (off + tot) % BSIZE == 0)
    && (full ==> w.added <= w.turns - if w.turns > 0 && off % BSIZE != 0 then 1 else 0)
  }

  lemma PacedTurn(w: Ops, s: Fs, t: Fs, i: int, off: int, n: int, tot: int, m: int, bm: set<int>, full: bool)
    requires Shape(s) && Shape(t) && 0 <= i < |s.inode| == |t.inode| && 0 <= off <= s.inode[i].size
    requires 0 <= tot < n && off + n <= MAXBYTES
    requires Paced(w, off, n, tot, full) && m == Min(n - tot, BSIZE - (off + tot) % BSIZE)
    requires full ==> MappedTo(s, i, s.inode[i].size)
    ensures Paced(AfterTurn(w, s, t, i, (off + tot) / BSIZE, bm), off, n, tot + m, full)
  {
    var bn := (off + tot) / BSIZE;
    if tot == 0 && off % BSIZE != 0 && full {
      assert bn * BSIZE < off;
      assert At(s, i, SlotNo(bn)) != 0;
    }
  }

  lemma MappedTurn(s: Fs, t: Fs, i: int, o: int, m: int)
    requires Shape(s) && Shape(t) && 0 <= i < |s.inode| && Grows(s, t, i) && 0 <= o < MAXBYTES
    requires 0 <= m <= BSIZE - o % BSIZE && MappedTo(s, i, o) && (m > 0 ==> At(t, i, SlotNo(o / BSIZE)) != 0)
    ensures MappedTo(t, i, o + m)
  {
    forall n | 0 <= n < MAXFILE && n * BSIZE < o + m ensures At(t, i, SlotNo(n)) != 0 {
      if n * BSIZE < o {
        assert At(s, i, SlotNo(n)) != 0;
        assert At(t, i, SlotNo(n)) == At(s, i, SlotNo(n));
      } else {
        assert n == o / BSIZE;
      }
    }
  }

  /** Three whole blocks' worth of bytes log at most nine blocks, the inode not counted. */
  lemma ChunkBound(w: Ops, was: set<int>, now: set<int>, off: int, n: int, tot: int)
    requires Covers(w, was, now) && Paced(w, off, n, tot, true) && 0 <= off && 0 <= tot <= n <= 3 * BSIZE
    ensures |w.blocks| <= 9
  {
  }

  /** From block n on, file i maps as in s, and none of its blocks has been logged that was not then. */
  ghost predicate Ahead(s: Fs, t: Fs, i: int, n: int, was: set<int>, now: set<int>)
    requires Shape(s) && Shape(t) && 0 <= i < |s.inode| == |t.inode|
  {
    forall k {:trigger SlotNo(k)} :: 0 <= k < MAXFILE && n <= k ==>
      At(t, i, SlotNo(k)) == At(s, i, SlotNo(k)) && SameIn(At(s, i, SlotNo(k)), was, now)
  }

  predicate SameIn(b: int, was: set<int>, now: set<int>) { b != 0 ==> (b in was <==> b in now) }

  /** b holds block n of file i: if it did in s, it has not been logged since, and if it is new, it has. */
  ghost predicate TornLog(s: Fs, i: int, n: int, b: int, was: set<int>, now: set<int>)
    requires Shape(s) && 0 <= i < |s.inode| && 0 <= n < MAXFILE
  {
    if At(s, i, SlotNo(n)) == 0 then b in now else b == At(s, i, SlotNo(n)) && (b in now <==> b in was)
  }

  /** One of the bytes a..k of src is not what the file holds. */
  ghost predicate Differs(s: Fs, i: int, off: int, src: seq<int>, a: int, k: int)
    requires Shape(s) && 0 <= i < |s.inode| && 0 <= off && 0 <= a <= k <= |src| && (a < k ==> off + k <= MAXBYTES)
  {
    exists j {:trigger NewAt(s, i, off, src, j)} :: a <= j < k && NewAt(s, i, off, src, j)
  }

  /** Byte j of src is not what the file holds. */
  ghost predicate NewAt(s: Fs, i: int, off: int, src: seq<int>, j: int)
    requires Shape(s) && 0 <= i < |s.inode| && 0 <= off && 0 <= j < |src| && off + j < MAXBYTES
  {
    src[j] != Byte(s, i, off + j)
  }

  /** A write of len bytes at off, good of which can be read, stops for that: it is in range, and the disk has the blocks
      up to the one of the first byte that cannot be read. */
  ghost predicate Torn(s: Fs, i: int, off: int, len: int, good: int)
    requires Shape(s) && 0 <= i < |s.inode|
  {
    off <= s.inode[i].size && off + len <= MAXBYTES && good < len && Needs(s, i, off, good + 1) <= FreeCount(s)
  }

  /** It stops there, and so changes a block of the file that is in no log. */
  ghost predicate Tears(s: Fs, was: set<int>, i: int, off: int, src: seq<int>, good: int)
    requires Shape(s) && 0 <= i < |s.inode| && 0 <= off && 0 <= good
  {
    && Torn(s, i, off, |src|, good)
    && var b := At(s, i, SlotNo((off + good) / BSIZE));
       b != 0 && b !in was && Differs(s, i, off, src, StartOf(off, good), good)
  }

  lemma StartOfChunk(w: Ops, off: int, n: int, tot: int, full: bool, good: int)
    requires Paced(w, off, n, tot, full) && 0 <= off && 0 <= tot < n && tot <= good < tot + Chunk(off, n, tot)
    ensures tot == StartOf(off, good) && (off + tot) / BSIZE == (off + good) / BSIZE
  {
    StartOfPiece(off, n, tot, good);
  }

  lemma HaltsOrGoesOn(s: Fs, s1: Fs, t: Fs, i: int, off: int, len: int, tot: int, m: int, torn: int, w: Ops, full: bool)
    requires Shape(s) && Shape(s1) && Shape(t) && 0 <= i < |s.inode| == |s1.inode| == |t.inode|
    requires 0 <= off && 0 <= tot < len && off + len <= MAXBYTES && Paced(w, off, len, tot, full)
    requires Provided(s, s1, i, off / BSIZE, EndBlock(off, tot)) && Grows(s1, t, i) && (off + tot) / BSIZE < MAXFILE
    requires Beyond(s1, t, i, (off + tot) / BSIZE) && Allotted(s1, t, i, (off + tot) / BSIZE)
    requires m == 0 && torn == 0 ==> NoBlock(t, i, (off + tot) / BSIZE)
    requires m != 0 ==> m == Chunk(off, len, tot) && At(t, i, SlotNo((off + tot) / BSIZE)) != 0
    requires torn != 0 ==> torn == At(t, i, SlotNo((off + tot) / BSIZE))
    ensures tot > 0 ==> (off + tot) % BSIZE == 0
    ensures m != 0 ==> Provided(s, t, i, off / BSIZE, EndBlock(off, tot + m)) && Needs(s, i, off, tot + m) <= FreeCount(s)
    ensures m == 0 ==> Halted(s, t, i, off, len, tot, torn != 0)
  {
    hide Need, EndBlock, Chunk, At;
    HaltTurn(s, s1, t, i, off, len, tot, m, torn != 0);
    hide Filled, SlotsKept, Grows, Beyond;
  }

  lemma AheadTurn(s: Fs, s1: Fs, t: Fs, i: int, off: int, len: int, tot: int, m: int, bm: set<int>,
                  was: set<int>, now: set<int>, next: set<int>)
    requires Shape(s) && Shape(s1) && Inv(t) && 0 <= i < |s.inode| == |s1.inode| == |t.inode|
    requires 0 <= off && 0 <= tot < len && off + len <= MAXBYTES && m == Chunk(off, len, tot)
    requires Ahead(s, s1, i, (off + tot) / BSIZE, was, now) && Beyond(s1, t, i, (off + tot) / BSIZE)
    requires forall b :: b in bm ==> b < t.nmeta
    requires var n := (off + tot) / BSIZE; Logs(now, next, bm, At(t, i, SlotNo(n)), Second(t, i, n))
    ensures tot + m < len ==> Ahead(s, t, i, (off + tot + m) / BSIZE, was, next)
  {
    var n := (off + tot) / BSIZE;
    if tot + m < len {
      assert off + tot + m == (n + 1) * BSIZE;
      forall k | 0 <= k < MAXFILE && n + 1 <= k
        ensures At(t, i, SlotNo(k)) == At(s, i, SlotNo(k)) && SameIn(At(s, i, SlotNo(k)), was, next)
      {
        assert At(s1, i, SlotNo(k)) == At(s, i, SlotNo(k));
        assert SlotOk(t, i, SlotNo(k)) && SlotOk(t, i, SlotNo(n)) && SlotOk(t, i, NDIRECT);
      }
    }
  }

  lemma TornTurn(s: Fs, s1: Fs, i: int, n: int, b: int, was: set<int>, now: set<int>, next: set<int>)
    requires Shape(s) && Shape(s1) && 0 <= i < |s.inode| == |s1.inode| && 0 <= n < MAXFILE && b != 0
    requires Ahead(s, s1, i, n, was, now) && TornLog(s1, i, n, b, now, next)
    ensures TornLog(s, i, n, b, was, next)
  {
    assert At(s1, i, SlotNo(n)) == At(s, i, SlotNo(n));
  }

  lemma EndsIn(o: int, m: int)
    requires 0 <= o < MAXBYTES && o % BSIZE + m <= BSIZE
    ensures o + m <= MAXBYTES
  {
    assert MAXBYTES == MAXFILE * BSIZE;
  }

  /** A splice changes the block exactly if one of its bytes is new. */
  lemma SpliceDiffers(s: Fs, i: int, off: int, src: seq<int>, a: int, k: int)
    requires Shape(s) && 0 <= i < |s.inode| && 0 <= off && 0 <= a <= k <= |src| && off + a < MAXBYTES
    requires (off + a) % BSIZE + k - a <= BSIZE && 0 < At(s, i, SlotNo((off + a) / BSIZE)) < |s.disk|
    ensures off + k <= MAXBYTES
    ensures var x := s.disk[At(s, i, SlotNo((off + a) / BSIZE))];
            |x| == BSIZE && (Splice(x, (off + a) % BSIZE, src, a, k - a) != x <==> Differs(s, i, off, src, a, k))
  {
    EndsIn(off + a, k - a);
    var x, o := s.disk[At(s, i, SlotNo((off + a) / BSIZE))], (off + a) % BSIZE;
    assert IsBlock(x);
    hide At, Word, Byte, IsBlock, Shape, NewAt;
    var y := Splice(x, o, src, a, k - a);
    if y != x {
      var p :| 0 <= p < BSIZE && y[p] != x[p];
      NewByte(s, i, off, src, a, k, x, o, a + p - o);
    }
    if Differs(s, i, off, src, a, k) {
      var j :| a <= j < k && NewAt(s, i, off, src, j);
      NewByte(s, i, off, src, a, k, x, o, j);
    }
  }

  lemma NewByte(s: Fs, i: int, off: int, src: seq<int>, a: int, k: int, x: seq<int>, o: int, j: int)
    requires Shape(s) && 0 <= i < |s.inode| && 0 <= off && 0 <= a <= j < k <= |src| && off + a < MAXBYTES
    requires off + k <= MAXBYTES && o == (off + a) % BSIZE && o + k - a <= BSIZE
    requires 0 < At(s, i, SlotNo((off + a) / BSIZE)) < |s.disk| && |x| == BSIZE
    requires x == s.disk[At(s, i, SlotNo((off + a) / BSIZE))]
    ensures NewAt(s, i, off, src, j) <==> Splice(x, o, src, a, k - a)[o + j - a] != x[o + j - a]
  {
    hide At, Word, Byte, Shape;
    InBlock(s, i, off, a, j);
  }

  /** Byte j of a write beginning in the same block. */
  lemma InBlock(s: Fs, i: int, off: int, a: int, j: int)
    requires Shape(s) && 0 <= i < |s.inode| && 0 <= off && 0 <= a <= j && off + a < MAXBYTES
    requires (off + a) % BSIZE + j - a < BSIZE && 0 < At(s, i, SlotNo((off + a) / BSIZE)) < |s.disk|
    ensures off + j < MAXBYTES && |s.disk[At(s, i, SlotNo((off + a) / BSIZE))]| == BSIZE
    ensures Byte(s, i, off + j) == s.disk[At(s, i, SlotNo((off + a) / BSIZE))][(off + a) % BSIZE + j - a]
  {
    assert IsBlock(s.disk[At(s, i, SlotNo((off + a) / BSIZE))]);
    DivMod(off + j, BSIZE, (off + a) / BSIZE, (off + a) % BSIZE + j - a);
  }

  /** A write at off to file i, seen from outside: r bytes are counted and b are in the file; the blocks of e bytes are
      there, its other blocks are as they were, and new ones come from the free, as many as u bytes need or as there are;
      nothing of any other file changes. */
  ghost predicate Wrote(s: Fs, t: Fs, i: int, off: int, src: seq<int>, r: int, b: int, e: int, u: int)
    requires Shape(s) && Shape(t) && 0 <= i < |s.inode| && 0 <= off && 0 <= r <= b <= |src|
  {
    && Written(s, t, i, off, src, 0, b) && SlotsKept(s, t, i) && (NoHoles(s, i) ==> NoHoles(t, i))
    && t.inode[i].size == (if r == 0 then s.inode[i].size else Max(s.inode[i].size, off + r))
    && (forall j :: 0 <= j < |s.inode| && j != i ==> t.inode[j] == s.inode[j])
    && RolesGrow(s, t, i) && Spread(s, t, i, off, e, u)
  }

  /** The blocks of e bytes at off are there, no other is new but perhaps the indirect block, and the free blocks are fewer
      by those that u bytes need, or none are left. */
  ghost predicate Spread(s: Fs, t: Fs, i: int, off: int, e: int, u: int)
    requires Shape(s) && Shape(t) && 0 <= i < |s.inode| == |t.inode|
  {
    && Filled(s, t, i, off / BSIZE, EndBlock(off, e)) && IndTo(s, t, i, off / BSIZE, EndBlock(off, u))
    && FreeCount(t) == Max(0, FreeCount(s) - Needs(s, i, off, u))
  }

  /** A block keeps its use, or was free and is now in a slot of file i. */
  ghost predicate RolesGrow(s: Fs, t: Fs, i: int) {
    |s.role| == |t.role| && forall c {:trigger t.role[c]} :: 0 <= c < |s.role| ==>
      t.role[c] == s.role[c] || (s.role[c] == Free && t.role[c].Slot? && t.role[c].inum == i)
  }

  /** The outcome of a writei in range that counted r bytes; short of all, it could not read on or there was no block. */
  ghost predicate PartIn(s: Fs, t: Fs, i: int, off: int, src: seq<int>, good: int, r: int)
    requires Shape(s) && Shape(t) && 0 <= i < |s.inode| && 0 <= off && 0 <= r <= |src| && r <= good
  {
    var torn := Torn(s, i, off, |src|, good);
    && Reaches(s, i, off, |src|, good, r) && (r < |src| ==> torn || NoBlock(t, i, (off + r) / BSIZE))
    && Wrote(s, t, i, off, src, r, if torn then good else r, if torn then good + 1 else r, Min(|src|, good + 1))
  }

  /** The same before the size is set, when b bytes are in the file. */
  ghost predicate AllIn(s: Fs, t: Fs, i: int, off: int, src: seq<int>, good: int, r: int, b: int)
    requires Shape(s) && Shape(t) && 0 <= i < |s.inode| && 0 <= off && 0 <= r <= b <= |src| && r <= good
  {
    var torn := Torn(s, i, off, |src|, good);
    && Reaches(s, i, off, |src|, good, r) && (r < |src| ==> torn || NoBlock(t, i, (off + r) / BSIZE))
    && Grows(s, t, i) && Written(s, t, i, off, src, 0, b)
    && Spread(s, t, i, off, if torn then good + 1 else r, Min(|src|, good + 1))
    && (NoHoles(s, i) ==> MappedTo(t, i, t.inode[i].size) && MappedTo(t, i, off + r))
  }

  /** What a write has done is not changed by the new size. */
  lemma Lengthened(s: Fs, m: Fs, t: Fs, i: int, off: int, src: seq<int>, good: int, r: int, b: int)
    requires Shape(s) && Shape(m) && Shape(t) && 0 <= i < |s.inode| && 0 <= off <= s.inode[i].size && 0 <= r <= b <= |src|
    requires r <= good && b == (if Torn(s, i, off, |src|, good) then good else r) && AllIn(s, m, i, off, src, good, r, b)
    requires SameSlots(m, t) && t.role == m.role && t.inode[i].size == Max(m.inode[i].size, off + r)
    requires forall j, o {:trigger Byte(t, j, o)} :: 0 <= j < |m.inode| && 0 <= o < MAXBYTES ==>
               Byte(t, j, o) == Byte(m, j, o)
    requires forall j :: 0 <= j < |s.inode| && j != i ==> t.inode[j] == m.inode[j]
    ensures PartIn(s, t, i, off, src, good, r)
  {
    hide Byte, Spread, Reaches, Torn, Min;
    forall j, o | 0 <= j < |s.inode| && 0 <= o < MAXBYTES
      ensures Byte(t, j, o) == if j == i && off <= o < off + b then src[o - off] else Byte(s, j, o)
    {
      assert Byte(t, j, o) == Byte(m, j, o);
    }
    hide Written;
    SpreadKeeps(s, m, t, i, off, if Torn(s, i, off, |src|, good) then good + 1 else r, Min(|src|, good + 1));
    hide At;
    forall k | 0 <= k < SLOTS && At(s, i, k) != 0 ensures At(t, i, k) == At(s, i, k) {
      assert At(m, i, k) == At(s, i, k);
    }
  }

  lemma SpreadKeeps(s: Fs, m: Fs, t: Fs, i: int, off: int, e: int, u: int)
    requires Shape(s) && Shape(m) && Shape(t) && 0 <= i < |s.inode| == |m.inode| == |t.inode|
    requires Spread(s, m, i, off, e, u) && SameSlots(m, t) && t.role == m.role
    ensures Spread(s, t, i, off, e, u)
  {
    hide EndBlock, Need;
    FilledKeeps(s, m, t, i, off / BSIZE, EndBlock(off, e));
    hide At, Filled;
    assert At(t, i, NDIRECT) == At(m, i, NDIRECT);
  }

  lemma FilledKeeps(s: Fs, m: Fs, t: Fs, i: int, a: int, e: int)
    requires Shape(s) && Shape(m) && Shape(t) && 0 <= i < |s.inode| == |m.inode| == |t.inode|
    requires Filled(s, m, i, a, e) && SameSlots(m, t)
    ensures Filled(s, t, i, a, e)
  {
    hide At;
    forall n | 0 <= n < MAXFILE
      ensures if a <= n < e then At(t, i, SlotNo(n)) != 0 else At(t, i, SlotNo(n)) == At(s, i, SlotNo(n))
    {
      assert At(t, i, SlotNo(n)) == At(m, i, SlotNo(n));
    }
  }

  lemma SameDiffers(s: Fs, m: Fs, i: int, off: int, src: seq<int>, a: int, k: int)
    requires Shape(s) && Shape(m) && 0 <= i < |s.inode| && 0 <= off && 0 <= a <= k <= |src| && off + k <= MAXBYTES
    requires Written(s, m, i, off, src, 0, a)
    ensures Differs(s, i, off, src, a, k) <==> Differs(m, i, off, src, a, k)
  {
    if Differs(s, i, off, src, a, k) {
      var j :| a <= j < k && NewAt(s, i, off, src, j);
      assert NewAt(m, i, off, src, j);
    }
    if Differs(m, i, off, src, a, k) {
      var j :| a <= j < k && NewAt(m, i, off, src, j);
      assert NewAt(s, i, off, src, j);
    }
  }

  /** The block torn is behind the log's back exactly when the write tears one, seen from before the call. */
  lemma TornMeans(s: Fs, m: Fs, i: int, off: int, src: seq<int>, tot: int, good: int, b: int, was: set<int>, now: set<int>)
    requires Shape(s) && Shape(m) && 0 <= i < |s.inode| && 0 <= off && 0 <= tot <= good < tot + Chunk(off, |src|, tot)
    requires off + |src| <= MAXBYTES && tot < |src| && tot == StartOf(off, good) && Written(s, m, i, off, src, 0, tot)
    requires b != 0 && TornLog(s, i, (off + tot) / BSIZE, b, was, now) && Torn(s, i, off, |src|, good)
    ensures Tears(s, was, i, off, src, good) <==> b !in now && Differs(m, i, off, src, tot, good)
    ensures Tears(s, was, i, off, src, good) ==> b == At(s, i, SlotNo((off + good) / BSIZE))
  {
    DivMod(off + good, BSIZE, (off + tot) / BSIZE, (off + tot) % BSIZE + good - tot);
    SameDiffers(s, m, i, off, src, tot, good);
    hide Written, Differs, At, StartOf, Torn;
  }

  /** The bytes of a block that could be read. */
  lemma SpilledIn(s: Fs, m: Fs, t: Fs, i: int, off: int, src: seq<int>, tot: int, good: int)
    requires Shape(s) && Shape(m) && Shape(t) && 0 <= i < |s.inode| && 0 <= off && 0 <= tot <= good <= |src|
    requires AllIn(s, m, i, off, src, good, tot, tot) && t.inode == m.inode && t.role == m.role && SameSlots(m, t)
    requires Written(m, t, i, off, src, tot, good) && Torn(s, i, off, |src|, good)
    ensures AllIn(s, t, i, off, src, good, tot, good)
  {
    assert Grows(m, t, i);
    hide Torn, Reaches, Spread;
    SpreadKeeps(s, m, t, i, off, good + 1, Min(|src|, good + 1));
    hide Written, Grows, NoHoles, MappedTo, SameSlots, Min;
    WrittenJoin(s, m, t, i, off, src, 0, tot, good);
    GrowsJoin(s, m, t, i);
    GrowsSize(s, m, i);
    if NoHoles(s, i) {
      GrowsMapped(m, t, i, m.inode[i].size);
      GrowsMapped(m, t, i, off + tot);
    }
  }

  lemma NotTorn(s: Fs, was: set<int>, i: int, off: int, src: seq<int>, good: int)
    requires Shape(s) && 0 <= i < |s.inode| && 0 <= off && 0 <= good && !Torn(s, i, off, |src|, good)
    ensures !Tears(s, was, i, off, src, good)
  {
  }

  lemma ShapeOf(s: Fs)
    requires Inv(s)
    ensures Shape(s)
  {
  }

  lemma SlotAbove(s: Fs, i: int, k: int)
    requires Inv(s) && 0 <= i < |s.inode| && 0 <= k < SLOTS
    ensures At(s, i, k) >= 0
  {
    assert SlotOk(s, i, k);
  }

  lemma GrowsSize(s: Fs, t: Fs, i: int)
    requires Shape(s) && Shape(t) && 0 <= i < |s.inode| && Grows(s, t, i)
    ensures |t.inode| == |s.inode| && t.inode[i].size == s.inode[i].size
  {
  }

  /** The file after tot bytes of writei's loop: t is what became of s. */
  ghost predicate Stored(s: Fs, t: Fs, i: int, off: int, src: seq<int>, tot: int)
    requires Shape(s) && Shape(t) && 0 <= i < |s.inode| && 0 <= off && 0 <= tot <= |src|
  {
    && Grows(s, t, i) && Written(s, t, i, off, src, 0, tot)
    && (NoHoles(s, i) ==> MappedTo(t, i, t.inode[i].size) && MappedTo(t, i, off + tot))
  }

  /** The blocks logged: at most nine for three blocks' worth of bytes when the file has no holes. */
  ghost predicate Counted(w: Ops, was: set<int>, now: set<int>, full: bool, n: int) {
    Covers(w, was, now) && (full && n <= 3 * BSIZE ==> |w.blocks| <= 9)
  }

  ghost predicate Progress(s: Fs, t: Fs, i: int, off: int, src: seq<int>, tot: int, w: Ops, was: set<int>, now: set<int>)
    requires Shape(s) && Shape(t) && 0 <= i < |s.inode| && 0 <= off && 0 <= tot <= |src|
  {
    Stored(s, t, i, off, src, tot) && Counted(w, was, now, NoHoles(s, i), |src|)
  }

  lemma StoredTurn(s: Fs, s1: Fs, t: Fs, i: int, off: int, src: seq<int>, tot: int, m: int)
    requires Shape(s) && Shape(s1) && Shape(t) && 0 <= i < |s.inode| && 0 <= off
    requires 0 <= tot < |src| && off + |src| <= MAXBYTES && Stored(s, s1, i, off, src, tot)
    requires Grows(s1, t, i) && 0 <= m && tot + m <= |src| && Written(s1, t, i, off, src, tot, tot + m)
    requires m != 0 ==> m <= BSIZE - (off + tot) % BSIZE && At(t, i, SlotNo((off + tot) / BSIZE)) != 0
    ensures Stored(s, t, i, off, src, tot + m)
  {
    assert SameLayout(s, s1) && SameLayout(s1, t) && t.inode[i].size == s1.inode[i].size;
    hide Written, Grows, NoHoles, MappedTo, At;
    WrittenJoin(s, s1, t, i, off, src, 0, tot, tot + m);
    GrowsJoin(s, s1, t, i);
    if NoHoles(s, i) {
      MappedTurn(s1, t, i, off + tot, m);
      GrowsMapped(s1, t, i, s1.inode[i].size);
    }
  }

  lemma CountedTurn(s: Fs, t: Fs, i: int, off: int, n: int, tot: int, w: Ops, bm: set<int>, was: set<int>, now: set<int>,
                    next: set<int>, full: bool)
    requires Shape(s) && Shape(t) && 0 <= i < |s.inode| && Grows(s, t, i) && 0 <= off <= s.inode[i].size
    requires 0 <= tot < n && off + n <= MAXBYTES && (full ==> MappedTo(s, i, s.inode[i].size))
    requires Counted(w, was, now, full, n) && IndOk(w, s, i) && Paced(w, off, n, tot, full)
    requires var bn := (off + tot) / BSIZE;
             |bm| <= Missing(s, i, bn) && Logs(now, next, bm, At(t, i, SlotNo(bn)), Second(t, i, bn))
    ensures var bn, m := (off + tot) / BSIZE, Min(n - tot, BSIZE - (off + tot) % BSIZE);
            var w1 := AfterTurn(w, s, t, i, bn, bm);
            && Counted(w1, was, next, full, n) && Paced(w1, off, n, tot + m, full)
            && (At(t, i, SlotNo(bn)) != 0 ==> IndOk(w1, t, i))
  {
    var bn, m := (off + tot) / BSIZE, Min(n - tot, BSIZE - (off + tot) % BSIZE);
    var w1 := AfterTurn(w, s, t, i, bn, bm);
    assert SameLayout(s, t);
    hide Grows, MappedTo, Paced, Covers, IndOk, At, AfterTurn, Missing, Logs, Second;
    TurnCovers(w, was, now, next, s, t, i, bn, bm);
    PacedTurn(w, s, t, i, off, n, tot, m, bm, full);
    if full && n <= 3 * BSIZE {
      ChunkBound(w1, was, next, off, n, tot + m);
    }
  }

  lemma ProgressTurn(s: Fs, s1: Fs, t: Fs, i: int, off: int, src: seq<int>, tot: int, m: int, w: Ops, bm: set<int>,
                     was: set<int>, now: set<int>, next: set<int>)
    requires Shape(s) && Shape(s1) && Shape(t) && 0 <= i < |s.inode| && 0 <= off <= s.inode[i].size
    requires 0 <= tot < |src| && off + |src| <= MAXBYTES
    requires Progress(s, s1, i, off, src, tot, w, was, now) && IndOk(w, s1, i) && Paced(w, off, |src|, tot, NoHoles(s, i))
    requires Grows(s1, t, i) && 0 <= m && tot + m <= |src| && Written(s1, t, i, off, src, tot, tot + m)
    requires m != 0 ==> m == Chunk(off, |src|, tot)
    requires m != 0 ==> At(t, i, SlotNo((off + tot) / BSIZE)) != 0
    requires |bm| <= Missing(s1, i, (off + tot) / BSIZE)
    requires var n := (off + tot) / BSIZE; Logs(now, next, bm, At(t, i, SlotNo(n)), Second(t, i, n))
    ensures var w1 := AfterTurn(w, s1, t, i, (off + tot) / BSIZE, bm);
            && Progress(s, t, i, off, src, tot + m, w1, was, next)
            && (m != 0 ==> IndOk(w1, t, i) && Paced(w1, off, |src|, tot + m, NoHoles(s, i)))
  {
    assert SameLayout(s, s1) && SameLayout(s1, t) && s1.inode[i].size == s.inode[i].size;
    hide Written, Grows, MappedTo, Paced, Counted, IndOk, NoHoles, At, AfterTurn, Missing, Logs, Second;
    CountedTurn(s1, t, i, off, |src|, tot, w, bm, was, now, next, NoHoles(s, i));
    StoredTurn(s, s1, t, i, off, src, tot, m);
  }

  lemma ProgressStart(s: Fs, i: int, off: int, src: seq<int>, was: set<int>)
    requires Shape(s) && 0 <= i < |s.inode| && 0 <= off <= s.inode[i].size
    ensures var w := Ops({}, false, 0, 0);
            Progress(s, s, i, off, src, 0, w, was, was) && IndOk(w, s, i) && Paced(w, off, |src|, 0, NoHoles(s, i))
  {
    hide Byte, At;
  }

  lemma GrowsMapped(s: Fs, t: Fs, i: int, o: int)
    requires Shape(s) && Shape(t) && 0 <= i < |s.inode| && Grows(s, t, i) && MappedTo(s, i, o)
    ensures MappedTo(t, i, o)
  {
    forall n | 0 <= n < MAXFILE && n * BSIZE < o ensures At(t, i, SlotNo(n)) != 0 {
      assert At(s, i, SlotNo(n)) != 0;
      assert At(t, i, SlotNo(n)) == At(s, i, SlotNo(n));
    }
  }

  lemma GrowsJoin(s: Fs, m: Fs, t: Fs, i: int)
    requires Shape(s) && Shape(m) && Shape(t) && 0 <= i < |s.inode| && Grows(s, m, i) && Grows(m, t, i)
    ensures Grows(s, t, i)
  {
    forall k | 0 <= k < SLOTS && At(s, i, k) != 0 ensures At(t, i, k) == At(s, i, k) {
      assert At(m, i, k) == At(s, i, k);
    }
    forall b | 0 <= b < |s.role|
      ensures t.role[b] == s.role[b] || (s.role[b] == Free && t.role[b].Slot? && t.role[b].inum == i)
    {
      assert m.role[b] == m.role[b];
    }
  }

  /** out is what file i holds from byte o on. */
  ghost predicate Reads(s: Fs, i: int, o: int, out: seq<int>)
    requires Shape(s) && 0 <= i < |s.inode| && 0 <= o
  {
    && (|out| > 0 ==> o + |out| <= MAXBYTES)
    && (forall k :: 0 <= k < |out| ==> out[k] == Byte(s, i, o + k))
  }

  lemma NoHolesAt(s: Fs, i: int, o: int)
    requires Shape(s) && 0 <= i < |s.inode| && 0 <= o < s.inode[i].size
    ensures NoHoles(s, i) ==> At(s, i, SlotNo(o / BSIZE)) != 0
  {
    assert o / BSIZE * BSIZE <= o;
  }

  lemma ReadsPiece(s: Fs, i: int, o: int, m: int)
    requires Shape(s) && 0 <= i < |s.inode| && 0 <= o && 0 < m && o % BSIZE + m <= BSIZE && o + m <= MAXBYTES
    requires 0 < At(s, i, SlotNo(o / BSIZE)) < |s.disk|
    ensures Reads(s, i, o, s.disk[At(s, i, SlotNo(o / BSIZE))][o % BSIZE..o % BSIZE + m])
  {
    var x := s.disk[At(s, i, SlotNo(o / BSIZE))];
    assert IsBlock(x);
    var y := x[o % BSIZE..o % BSIZE + m];
    forall k | 0 <= k < m ensures y[k] == Byte(s, i, o + k) {
      assert (o + k) / BSIZE == o / BSIZE && (o + k) % BSIZE == o % BSIZE + k;
    }
  }

  lemma ReadsAppend(s: Fs, t: Fs, i: int, o: int, out: seq<int>, more: seq<int>)
    requires Shape(s) && Shape(t) && SameFiles(s, t) && 0 <= i < |s.inode| && 0 <= o
    requires Reads(s, i, o, out) && Reads(t, i, o + |out|, more)
    ensures Reads(s, i, o, out + more)
  {
    forall k | 0 <= k < |out + more| ensures (out + more)[k] == Byte(s, i, o + k) {
      if k >= |out| {
        assert more[k - |out|] == Byte(t, i, o + |out| + (k - |out|));
        assert o + |out| + (k - |out|) == o + k;
      }
    }
  }

  /** Files are as in s, and out has been read from off on, up to the end of a block or to len. */
  ghost predicate Delivered(s: Fs, t: Fs, i: int, off: int, len: int, out: seq<int>)
    requires Shape(s) && Shape(t) && 0 <= i < |s.inode| && 0 <= off
  {
    && SameFiles(s, t) && Reads(s, i, off, out) && |out| <= len && (0 < |out| < len ==> (off + |out|) % BSIZE == 0)
  }

  lemma DeliveredMore(s: Fs, m: Fs, t: Fs, i: int, off: int, len: int, good: int, out: seq<int>, more: seq<int>)
    requires Shape(s) && Shape(m) && Shape(t) && 0 <= i < |s.inode| && 0 <= off && |out| < len && |out| <= good
    requires Delivered(s, m, i, off, len, out) && SameFiles(m, t) && Reads(t, i, off + |out|, more)
    requires more == [] || |more| == Chunk(off, len, |out|)
    ensures Delivered(s, t, i, off, len, out) && Delivered(s, t, i, off, len, out + more)
    ensures good < |out| + |more| ==> good < len && |out| == StartOf(off, good)
  {
    PieceEnds(off, len, |out|, good);
    SameFilesJoin(s, m, t);
    ReadsAppend(s, t, i, off, out, more);
    hide Byte, SameFiles, Reads, Chunk, StartOf;
    assert more == [] ==> out + more == out;
  }

  /** Between two turns of readi's loop. */
  ghost predicate ReadOn(s: Fs, t: Fs, i: int, off: int, len: int, out: seq<int>)
    requires Shape(s) && Shape(t) && 0 <= i < |s.inode| && 0 <= off
  {
    && Delivered(s, t, i, off, len, out) && Provided(s, t, i, off / BSIZE, EndBlock(off, |out|))
    && Needs(s, i, off, |out|) <= FreeCount(s)
  }

  /** The loop has ended: stuck tells that the next block was there, but not all of its bytes could be delivered. */
  ghost predicate ReadDone(s: Fs, t: Fs, i: int, off: int, len: int, good: int, out: seq<int>, stuck: bool)
    requires Shape(s) && Shape(t) && 0 <= i < |s.inode| && 0 <= off
  {
    && Delivered(s, t, i, off, len, out) && |out| <= good && Halted(s, t, i, off, len, |out|, stuck)
    && (stuck ==> |out| < len && good < |out| + Chunk(off, len, |out|))
  }

  /** A turn of the loop: bmap takes m to t, and more is what the block holds. */
  lemma ReadTurn(s: Fs, m: Fs, t: Fs, i: int, off: int, len: int, good: int, out: seq<int>, more: seq<int>)
    requires Shape(s) && Shape(m) && Shape(t) && 0 <= i < |s.inode| && 0 <= off && |out| < len && |out| <= good
    requires off + len <= MAXBYTES && (off + |out|) / BSIZE < MAXFILE
    requires ReadOn(s, m, i, off, len, out) && SameFiles(m, t) && Reads(t, i, off + |out|, more)
    requires more == [] || |more| == Chunk(off, len, |out|)
    requires var n := (off + |out|) / BSIZE;
             && SlotsKept(m, t, i) && Beyond(m, t, i, n) && Allotted(m, t, i, n)
             && (more != [] <==> At(t, i, SlotNo(n)) != 0)
    ensures if more == [] || good < |out| + |more| then ReadDone(s, t, i, off, len, good, out, more != [])
            else ReadOn(s, t, i, off, len, out + more)
  {
    hide Delivered, Reads, SameFiles, SlotsKept, Beyond, Provided, Halted, At, FreeCount, Need, EndBlock, Chunk,
      Missing, Byte;
    DeliveredMore(s, m, t, i, off, len, good, out, more);
    DeliveredAt(s, m, i, off, len, out);
    DeliveredAt(s, t, i, off, len, out);
    var k := if more == [] || good < |out| + |more| then 0 else |more|;
    HaltTurn(s, m, t, i, off, len, |out|, k, more != []);
    assert |out + more| == |out| + |more|;
    if k != 0 {
      EnoughFor(s, t, i, off, |out| + |more|);
    }
  }

  lemma EnoughFor(s: Fs, t: Fs, i: int, off: int, k: int)
    requires Shape(s) && Shape(t) && 0 <= i < |s.inode| == |t.inode|
    requires Provided(s, t, i, off / BSIZE, EndBlock(off, k))
    ensures Needs(s, i, off, k) <= FreeCount(s)
  {
    hide EndBlock, Need;
  }

  /** A turn that changes anything needs a block, and so does the read as a whole. */
  lemma QuietTurn(s: Fs, m: Fs, i: int, off: int, len: int, out: seq<int>)
    requires Shape(s) && Shape(m) && 0 <= i < |s.inode| && 0 <= off && |out| < len
    requires off + len <= MAXBYTES && (off + |out|) / BSIZE < MAXFILE && ReadOn(s, m, i, off, len, out)
    ensures FreeCount(s) == 0 || Needs(s, i, off, |out| + 1) == 0 ==>
              Needs(s, i, off, |out|) == 0 && (FreeCount(m) == 0 || Missing(m, i, (off + |out|) / BSIZE) == 0)
    ensures Needs(s, i, off, |out| + Chunk(off, len, |out|)) == Needs(s, i, off, |out| + 1)
  {
    hide Delivered, SlotsKept, Filled, IndTo, At, Need, EndBlock, Chunk, Missing, FreeCount;
    DeliveredAt(s, m, i, off, len, out);
    PieceEnds(off, len, |out|, |out|);
    TurnBlocks(off, len, |out|, 1);
    TurnBlocks(off, len, |out|, Chunk(off, len, |out|));
    NextNeeds(s, m, i, off, len, |out|);
    NeedsGrow(s, i, off, |out|, |out| + 1);
  }

  lemma DeliveredAt(s: Fs, t: Fs, i: int, off: int, len: int, out: seq<int>)
    requires Shape(s) && Shape(t) && 0 <= i < |s.inode| && 0 <= off && Delivered(s, t, i, off, len, out)
    ensures |t.inode| == |s.inode| && (0 < |out| < len ==> (off + |out|) % BSIZE == 0)
  {
  }

  /** The outcome r of a readi of len bytes within the file, as the state before it decides; kept tells that nothing has
      changed and nothing been logged, which is so exactly when no block in that range is missing or none is free. */
  ghost predicate ReadsTo(s: Fs, t: Fs, i: int, off: int, len: int, good: int, r: int, out: seq<int>, kept: bool)
    requires Shape(s) && 0 <= i < |s.inode|
  {
    && ReadsAs(s, t, i, off, len, good, r, out)
    && (kept <==> FreeCount(s) == 0 || Needs(s, i, off, Min(len, good + 1)) == 0)
    && (NoHoles(s, i) ==> kept && if good < len then r == -1 else r == |out| == len)
  }

  /** The outcome of a readi of n bytes: of those within the file, or nothing when it starts past its end or wraps around. */
  ghost predicate ReadGives(s: Fs, t: Fs, i: int, off: int, n: int, good: int, r: int, out: seq<int>, kept: bool)
    requires Shape(s) && 0 <= i < |s.inode|
  {
    match off <= s.inode[i].size && off + n < 0x1_0000_0000
    case true => ReadsTo(s, t, i, off, Min(n, s.inode[i].size - off), good, r, out, kept)
    case false => r == 0 && out == [] && kept
  }

  ghost predicate ReadsAs(s: Fs, t: Fs, i: int, off: int, len: int, good: int, r: int, out: seq<int>)
    requires Shape(s) && 0 <= i < |s.inode|
  {
    && Reaches(s, i, off, len, good, |out|)
    && r == (if good < len && Needs(s, i, off, good + 1) <= FreeCount(s) then -1 else |out|)
    && FreeCount(t) == Max(0, FreeCount(s) - Needs(s, i, off, Min(len, good + 1)))
  }

  /** readi's range: refused when it starts past the end or wraps around, else cut at the end. */
  method Clip(off: int, n: int, size: int) returns (ok: bool, len: int)
    requires 0 <= off < 0x1_0000_0000 && 0 <= n < 0x1_0000_0000
    ensures ok <==> off <= size && off + n < 0x1_0000_0000
    ensures ok ==> len == Min(n, size - off)
  {
    if off > size || (off + n) % 0x1_0000_0000 < off {
      return false, 0;
    }
    return true, if (off + n) % 0x1_0000_0000 > size then size - off else n;
  }

  lemma ReadMeans(s: Fs, t: Fs, i: int, off: int, len: int, good: int, out: seq<int>, stuck: bool)
    requires Shape(s) && Shape(t) && 0 <= i < |s.inode| && 0 <= off && 0 <= len && off + len <= MAXBYTES && |out| <= good
    requires ReadDone(s, t, i, off, len, good, out, stuck) || (!stuck && |out| == len && ReadOn(s, t, i, off, len, out))
    ensures ReadsAs(s, t, i, off, len, good, if stuck then -1 else |out|, out) && SameFiles(s, t) && Reads(s, i, off, out)
    ensures FreeCount(s) == 0 || Needs(s, i, off, Min(len, good + 1)) == 0 ==>
              FreeCount(s) == 0 || Needs(s, i, off, if |out| < len then |out| + 1 else |out|) == 0
    ensures FreeCount(s) == 0 ==> Needs(s, i, off, |out|) == 0
  {
    hide Reads, SameFiles, SlotsKept, Filled, IndTo, At, FreeCount, Need, EndBlock, Chunk;
    DeliveredAt(s, t, i, off, len, out);
    HaltMeans(s, t, i, off, len, good, |out|, stuck);
    NeedsGrow(s, i, off, Min(len, |out| + 1), Min(len, good + 1));
    NeedsGrow(s, i, off, |out|, |out|);
  }

  /** A file without holes needs no block up to its size, and is read to the end. */
  lemma ReadsWhole(s: Fs, t: Fs, i: int, off: int, len: int, good: int, r: int, out: seq<int>, kept: bool)
    requires Shape(s) && 0 <= i < |s.inode| && 0 <= off && 0 <= len && off + len <= s.inode[i].size && 0 <= good
    requires ReadsAs(s, t, i, off, len, good, r, out) && (kept ==> t == s)
    requires FreeCount(s) == 0 || Needs(s, i, off, Min(len, good + 1)) == 0 ==> kept
    ensures ReadsTo(s, t, i, off, len, good, r, out, kept)
  {
    NeedsGrow(s, i, off, Min(len, good + 1), len);
    if NoHoles(s, i) {
      EndBlocks(off, 0, len);
      forall n | off / BSIZE <= n < EndBlock(off, len) ensures At(s, i, SlotNo(n)) != 0 {
        assert n * BSIZE < off + len;
      }
      hide At, EndBlock, NoHoles, StartOf;
      NoHolesNoNeed(s, i, off / BSIZE, EndBlock(off, len));
    }
  }

  lemma SameFilesJoin(s: Fs, m: Fs, t: Fs)
    requires Shape(s) && Shape(m) && Shape(t) && SameFiles(s, m) && SameFiles(m, t)
    ensures SameFiles(s, t)
  {
    hide Byte;
    forall i, o | 0 <= i < |s.inode| && 0 <= o < MAXBYTES ensures Byte(t, i, o) == Byte(s, i, o) {
      assert Byte(m, i, o) == Byte(s, i, o);
    }
  }

  /** Giving back the block of slot k, if there is one, releases that slot. */
  lemma ReleasesOne(s: Fs, x: int, lo: int, hi: int, k: int)
    requires InvBut(s, 0, x, lo, hi) && 0 <= x < |s.inode| && 0 <= k < SLOTS && 0 <= At(s, x, k) < |s.disk|
    requires At(s, x, k) != 0 ==> s.role[At(s, x, k)] == Slot(x, k)
    ensures At(s, x, k) == 0 ==> Released(s, s, x, k, k + 1)
    ensures At(s, x, k) != 0 ==> Released(s, DropBlock(s, At(s, x, k)), x, k, k + 1)
  {
    forall b | 0 <= b < |s.role| && s.role[b] == Slot(x, k) ensures b == At(s, x, k) && b != 0 {
      assert BlockOk(s, 0, b) && BlockOk(s, 0, 0);
    }
  }

  lemma BitPlace(b: int, bi: int)
    requires 0 <= b && b % BPB == 0 && 0 <= bi < BPB
    ensures (b + bi) / BPB == b / BPB && (b + bi) % BPB == bi && (b + bi) % 8 == bi % 8
  {
    var q := b / BPB;
    DivMod(b + bi, BPB, q, bi);
    DivMod(b + bi, 8, 1024 * q + bi / 8, bi % 8);
  }

  lemma BitTellsFree(s: Fs, b: int, bi: int)
    requires Inv(s) && 0 <= b && b % BPB == 0 && 0 <= bi < BPB && b + bi < |s.disk|
    ensures s.bmapstart + b / BPB < |s.disk| && |s.disk[s.bmapstart + b / BPB]| == BSIZE
    ensures TestBit(s.disk[s.bmapstart + b / BPB][bi / 8], bi % 8) <==> s.role[b + bi] != Free
    ensures s.role[0] != Free
  {
    BitPlace(b, bi);
    assert BlockOk(s, 0, b + bi) && BlockOk(s, 0, 0);
  }

  class FileSystem {
    const inodestart: int
    const bmapstart: int
    const nmeta: int
    var disk: seq<seq<int>>
    var inode: seq<Inode>
    var dinode: seq<Inode>
    ghost var role: seq<Role>
    // Since the current transaction began: the blocks log_write was called on, and what blocks and inode records were.
    ghost var logged: set<int>
    ghost var base: seq<seq<int>>
    ghost var dbase: seq<Inode>

    constructor (inodestart: int, bmapstart: int, nmeta: int, disk: seq<seq<int>>, inode: seq<Inode>, ghost role: seq<Role>)
      requires Inv(Fs(bmapstart, nmeta, disk, inode, role)) && 0 < inodestart && inodestart + |inode| / IPB < bmapstart
      ensures Valid() && S() == Fs(bmapstart, nmeta, disk, inode, role) && dinode == inode && logged == {}
    {
      this.inodestart, this.bmapstart, this.nmeta := inodestart, bmapstart, nmeta;
      this.disk, this.inode, this.dinode, this.role := disk, inode, inode, role;
      this.logged, this.base, this.dbase := {}, disk, inode;
    }

    ghost function S(): Fs
      reads this
    {
      Fs(bmapstart, nmeta, disk, inode, role)
    }

    ghost predicate Valid()
      reads this
    {
      Sound() && BlocksLogged()
    }

    /** All that holds even when a block was changed behind the log's back. */
    ghost predicate Sound()
      reads this
    {
      && Inv(S()) && |dinode| == |inode| && 0 < inodestart && inodestart + |inode| / IPB < bmapstart
      && InodesLogged()
    }

    /** Everything logged is a block past the log area, and everything changed is logged. */
    ghost predicate LogOk()
      reads this
    {
      InodesLogged() && BlocksLogged()
    }

    ghost predicate InodesLogged()
      reads this
    {
      && (forall b :: b in logged ==> inodestart <= b < |disk|) && |base| == |disk| && |dbase| == |dinode|
      && (forall i {:trigger dinode[i]} :: 0 <= i < |dinode| ==> dinode[i] == dbase[i] || inodestart + i / IPB in logged)
    }

    ghost predicate BlocksLogged()
      reads this
    {
      |base| == |disk| && forall b {:trigger disk[b]} :: 0 <= b < |disk| ==> disk[b] == base[b] || b in logged
    }

    /** begin_op: a new transaction. */
    method BeginOp()
      requires Valid()
      modifies this`logged, this`base, this`dbase
      ensures Valid() && logged == {} && base == disk && dbase == dinode
    {
      logged, base, dbase := {}, disk, dinode;
    }

    /** Marks the free block b + bi used in its bitmap block and zeroes it (bzero). */
    method Take(b: int, bi: int)
      requires Valid() && 0 <= b && b % BPB == 0 && 0 <= bi < BPB && b + bi < |disk| && role[b + bi] == Free
      modifies this`disk, this`role, this`logged
      ensures S() == TakeBlock(old(S()), b + bi) && LogOk()
      ensures logged == old(logged) + {BitBlock(old(S()), b + bi), b + bi}
      ensures InvBut(S(), b + bi, 0, 0, 0) && SameSlots(old(S()), S()) && SameFiles(old(S()), S())
    {
      TakeBlockKeeps(S(), b + bi);
      assert BlockOk(S(), 0, b + bi);
      MarkUsed(b, bi);
      Bzero(b + bi);
      role := role[b + bi := Held];
    }

    /** Sets the bit of block b + bi. */
    method MarkUsed(b: int, bi: int)
      requires Shape(S()) && LogOk() && inodestart < bmapstart
      requires 0 <= b && b % BPB == 0 && 0 <= bi < BPB && b + bi < |disk|
      modifies this`disk, this`logged
      ensures S() == WithBit(old(S()), b + bi, true) && LogOk() && logged == old(logged) + {BitBlock(old(S()), b + bi)}
    {
      BitPlace(b, bi);
      BitBlockRange(S(), b + bi);
      var x := disk[bmapstart + b / BPB];
      disk := disk[bmapstart + b / BPB := x[bi / 8 := SetBit(x[bi / 8], bi % 8, true)]];
      logged := logged + {bmapstart + b / BPB};
    }

    /** bzero. */
    method Bzero(b: int)
      requires LogOk() && 0 < inodestart <= b < |disk|
      modifies this`disk, this`logged
      ensures disk == old(disk)[b := ZeroBlock()] && LogOk() && logged == old(logged) + {b}
    {
      disk := disk[b := ZeroBlock()];
      logged := logged + {b};
    }

    /** A free block, marked used and zeroed; 0 when there is none. */
    method Balloc() returns (r: int)
      requires Valid()
      modifies this`disk, this`role, this`logged
      ensures r == 0 ==> S() == old(S()) && logged == old(logged) && DiskFull(S())
      ensures r == 0 <==> FreeCount(old(S())) == 0
      ensures r != 0 ==> 0 < r < |old(disk)| && old(role)[r] == Free && forall b :: 0 <= b < r ==> old(role)[b] != Free
      ensures r != 0 ==> S() == TakeBlock(old(S()), r) && logged == old(logged) + {BitBlock(old(S()), r), r} && LogOk()
      ensures r != 0 ==> InvBut(S(), r, 0, 0, 0) && SameSlots(old(S()), S()) && SameFiles(old(S()), S())
    {
      NoneLeft(S());
      ghost var q := 0;
      var b := 0;
      while b < |disk|
        invariant 0 <= b == q * BPB && S() == old(S()) && logged == old(logged)
        invariant forall c :: 0 <= c < b && c < |disk| ==> role[c] != Free
      {
        DivMod(b, BPB, q, 0);
        var bi := FreeIn(b);
        if bi < BPB && b + bi < |disk| {
          Take(b, bi);
          return b + bi;
        }
        b := b + BPB;
        q := q + 1;
      }
      r := 0;
    }

    /** balloc's inner loop: the first free block of those in one bitmap block. */
    method FreeIn(b: int) returns (bi: int)
      requires Inv(S()) && 0 <= b < |disk| && b % BPB == 0
      ensures 0 <= bi <= BPB && (bi < BPB && b + bi < |disk| ==> role[b + bi] == Free && b + bi > 0)
      ensures forall c :: b <= c < b + bi && c < |disk| ==> role[c] != Free
    {
      bi := 0;
      while bi < BPB && b + bi < |disk|
        invariant 0 <= bi <= BPB && forall c :: b <= c < b + bi && c < |disk| ==> role[c] != Free
      {
        BitTellsFree(S(), b, bi);
        if !TestBit(disk[bmapstart + b / BPB][bi / 8], bi % 8) {
          return;
        }
        bi := bi + 1;
      }
    }

    /** Clears a bit; refuses (panic) when it is clear already. */
    method Bfree(b: int) returns (ok: bool)
      requires Shape(S()) && 0 <= b < |disk| && LogOk() && 0 < inodestart < bmapstart
      modifies this`disk, this`role, this`logged
      ensures ok <==> BitOn(old(S()), b)
      ensures !ok ==> S() == old(S())
      ensures ok ==> S() == DropBlock(old(S()), b) && LogOk()
    {
      BitBlockRange(S(), b);
      var x := disk[bmapstart + b / BPB];
      var bi := b % BPB;
      if !TestBit(x[bi / 8], bi % 8) {
        return false;
      }
      disk := disk[bmapstart + b / BPB := x[bi / 8 := SetBit(x[bi / 8], bi % 8, false)]];
      logged := logged + {bmapstart + b / BPB};
      role := role[b := Free];
      ok := true;
    }

    /** The block in a slot of the inode itself, allocated if it is empty. */
    method SlotBlock(i: int, k: int) returns (addr: int, ghost bm: set<int>)
      requires Valid() && 0 <= i < |inode| && 0 <= k <= NDIRECT
      modifies this`disk, this`inode, this`role, this`logged
      ensures Valid() && SameFiles(old(S()), S()) && addr == At(S(), i, k)
      ensures addr == 0 ==> DiskFull(S())
      ensures old(At(S(), i, k)) != 0 || addr == 0 ==> S() == old(S()) && logged == old(logged) && bm == {}
      ensures forall j, l :: 0 <= j < |inode| && 0 <= l < SLOTS && (j, l) != (i, k) ==> At(S(), j, l) == old(At(S(), j, l))
      ensures forall b :: 0 <= b < |disk| ==> role[b] == old(role)[b] || (old(role)[b] == Free && role[b] == Slot(i, k))
      ensures forall j :: 0 <= j < |inode| && j != i ==> inode[j] == old(inode)[j]
      ensures Logs(old(logged), logged, bm, addr, addr) && |bm| <= 1 && forall b :: b in bm ==> b < nmeta
      ensures addr != 0 && old(At(S(), i, k)) == 0 ==> addr in logged
      ensures addr == 0 <==> old(At(S(), i, k)) == 0 && FreeCount(old(S())) == 0
      ensures FreeCount(S()) == Max(0, FreeCount(old(S())) - if old(At(S(), i, k)) == 0 then 1 else 0)
    {
      addr, bm := inode[i].addrs[k], {};
      if addr == 0 {
        addr := Balloc();
        if addr == 0 {
          return;
        }
        bm := {BitBlock(old(S()), addr)};
        BitBlockRange(old(S()), addr);
        AttachKeeps(S(), i, k, addr);
        inode := inode[i := inode[i].(addrs := inode[i].addrs[k := addr])];
        role := role[addr := Slot(i, k)];
        assert role == old(role)[addr := Slot(i, k)];
        TakesOne(old(role), addr, Slot(i, k));
      }
    }

    /** The block in entry j of the indirect block, allocated if it is empty. */
    method EntryBlock(i: int, j: int) returns (addr: int, ghost bm: set<int>)
      requires Valid() && 0 <= i < |inode| && 0 <= j < NINDIRECT && At(S(), i, NDIRECT) != 0
      modifies this`disk, this`role, this`logged
      ensures Valid() && SameFiles(old(S()), S()) && addr == At(S(), i, NDIRECT + 1 + j)
      ensures addr == 0 ==> DiskFull(S())
      ensures old(At(S(), i, NDIRECT + 1 + j)) != 0 || addr == 0 ==> S() == old(S()) && logged == old(logged) && bm == {}
      ensures forall l, k :: 0 <= l < |inode| && 0 <= k < SLOTS && (l, k) != (i, NDIRECT + 1 + j) ==>
                               At(S(), l, k) == old(At(S(), l, k))
      ensures forall b :: 0 <= b < |disk| ==>
                role[b] == old(role)[b] || (old(role)[b] == Free && role[b] == Slot(i, NDIRECT + 1 + j))
      ensures Logs(old(logged), logged, bm, addr, At(S(), i, NDIRECT)) && |bm| <= 1 && forall b :: b in bm ==> b < nmeta
      ensures addr != 0 && old(At(S(), i, NDIRECT + 1 + j)) == 0 ==> addr in logged
      ensures addr == 0 <==> old(At(S(), i, NDIRECT + 1 + j)) == 0 && FreeCount(old(S())) == 0
      ensures FreeCount(S()) == Max(0, FreeCount(old(S())) - if old(At(S(), i, NDIRECT + 1 + j)) == 0 then 1 else 0)
    {
      var a := inode[i].addrs[NDIRECT];
      assert SlotOk(S(), i, NDIRECT);
      addr, bm := Word(disk[a], j), {};
      if addr == 0 {
        addr := Balloc();
        if addr != 0 {
          bm := {BitBlock(old(S()), addr)};
          BitBlockRange(old(S()), addr);
          EnterNew(i, j, a, addr);
          assert role == old(role)[addr := Slot(i, NDIRECT + 1 + j)];
          TakesOne(old(role), addr, Slot(i, NDIRECT + 1 + j));
        }
      }
    }

    /** Puts a block just allocated in entry j of the indirect block a. */
    method EnterNew(i: int, j: int, a: int, addr: int)
      requires 0 <= i < |inode| && 0 <= j < NINDIRECT && 0 <= addr < |disk| && InvBut(S(), addr, 0, 0, 0) && LogOk()
      requires |dinode| == |inode| && 0 < inodestart && inodestart + |inode| / IPB < bmapstart
      requires role[addr] == Held && disk[addr] == ZeroBlock() && a == inode[i].addrs[NDIRECT]
      requires At(S(), i, NDIRECT) != 0 == At(S(), i, NDIRECT + 1 + j)
      modifies this`disk, this`role, this`logged
      ensures Valid() && SameFiles(old(S()), S()) && addr == At(S(), i, NDIRECT + 1 + j)
      ensures forall l, k :: 0 <= l < |inode| && 0 <= k < SLOTS && (l, k) != (i, NDIRECT + 1 + j) ==>
                               At(S(), l, k) == old(At(S(), l, k))
      ensures role == old(role)[addr := Slot(i, NDIRECT + 1 + j)] && logged == old(logged) + {a}
    {
      assert SlotOk(S(), i, NDIRECT);
      AttachEntryKeeps(S(), i, j, addr);
      disk := disk[a := PutWord(disk[a], j, addr)];
      logged := logged + {a};
      role := role[addr := Slot(i, NDIRECT + 1 + j)];
    }

    /** The second half of bmap: the indirect block, then its entry. */
    method ThroughIndirect(i: int, n: int) returns (addr: int, ghost bm: set<int>)
      requires Valid() && 0 <= i < |inode| && 0 <= n < NINDIRECT
      modifies this`disk, this`inode, this`role, this`logged
      ensures Valid() && Extends(old(S()), S(), i, NDIRECT + n) && addr == At(S(), i, NDIRECT + 1 + n)
      ensures addr == 0 ==> DiskFull(S())
      ensures old(At(S(), i, NDIRECT + 1 + n)) != 0 ==> S() == old(S()) && logged == old(logged)
      ensures Logs(old(logged), logged, bm, addr, At(S(), i, NDIRECT)) && |bm| <= Missing(old(S()), i, NDIRECT + n)
      ensures forall b :: b in bm ==> b < nmeta
      ensures addr != 0 && old(At(S(), i, NDIRECT + 1 + n)) == 0 ==> addr in logged
      ensures Allotted(old(S()), S(), i, NDIRECT + n)
      ensures Spared(old(S()), i, NDIRECT + n) ==> S() == old(S()) && logged == old(logged)
    {
      addr, bm := SlotBlock(i, NDIRECT);
      if addr == 0 {
        return;
      }
      ghost var bm1 := bm;
      addr, bm := EntryBlock(i, n);
      bm := bm + bm1;
    }

    /** The disk block of block bn of file i, allocating what is missing; 0 when the disk is full. */
    method Bmap(i: int, bn: int) returns (panicked: bool, addr: int, ghost bm: set<int>)
      requires Valid() && 0 <= i < |inode| && 0 <= bn
      modifies this`disk, this`inode, this`role, this`logged
      ensures panicked <==> bn >= MAXFILE
      ensures panicked ==> S() == old(S()) && logged == old(logged)
      ensures !panicked ==> Valid() && Extends(old(S()), S(), i, bn) && addr == At(S(), i, SlotNo(bn))
      ensures !panicked && addr == 0 ==> DiskFull(S())
      ensures !panicked && old(At(S(), i, SlotNo(bn))) != 0 ==> S() == old(S()) && logged == old(logged)
      ensures !panicked ==> Logs(old(logged), logged, bm, addr, Second(S(), i, bn))
      ensures !panicked ==> |bm| <= Missing(old(S()), i, bn) && forall b :: b in bm ==> b < nmeta
      ensures !panicked && addr != 0 && old(At(S(), i, SlotNo(bn))) == 0 ==> addr in logged
      ensures !panicked ==> Allotted(old(S()), S(), i, bn)
      ensures !panicked && Spared(old(S()), i, bn) ==> S() == old(S()) && logged == old(logged)
    {
      panicked, addr, bm := false, 0, {};
      if bn < NDIRECT {
        addr, bm := SlotBlock(i, bn);
        return;
      }
      var n := bn - NDIRECT;
      if n < NINDIRECT {
        addr, bm := ThroughIndirect(i, n);
        return;
      }
      panicked := true;
    }

    /** bfree for the block in slot k of inode i: its bit is set, so this never panics; only that slot dangles. */
    method FreeSlot(b: int, ghost i: int, ghost k: int, ghost lo: int, ghost hi: int, ghost lo2: int, ghost hi2: int)
      requires InvBut(S(), 0, i, lo, hi) && 0 <= i < |inode| && 0 <= k < SLOTS && b == At(S(), i, k) != 0
      requires !(lo <= k < hi) && !(lo <= NDIRECT < hi) && lo2 <= k < hi2 && (lo < hi ==> lo2 <= lo && hi <= hi2)
      requires LogOk() && 0 < inodestart < bmapstart
      modifies this`disk, this`role, this`logged
      ensures InvBut(S(), 0, i, lo2, hi2) && LogOk() && SameSlots(old(S()), S())
      ensures OthersKept(old(S()), S(), i) && Released(old(S()), S(), i, k, k + 1)
    {
      assert SlotOk(S(), i, k);
      ReleasesOne(S(), i, lo, hi, k);
      DropBlockKeeps(S(), i, lo, hi, k, lo2, hi2);
      var ok := Bfree(b);
      assert ok;
    }

    /** The first loop of itrunc. */
    method DropDirects(i: int)
      requires Valid() && 0 <= i < |inode|
      modifies this`disk, this`inode, this`role, this`logged
      ensures Valid() && OthersKept(old(S()), S(), i) && Released(old(S()), S(), i, 0, NDIRECT)
      ensures inode[i].size == old(inode[i].size) && inode[i].addrs[NDIRECT] == old(inode[i].addrs[NDIRECT])
      ensures forall l :: 0 <= l < NDIRECT ==> inode[i].addrs[l] == 0
    {
      ghost var s := S();
      var k := 0;
      while k < NDIRECT
        invariant 0 <= k <= NDIRECT && DroppedTo(s, i, k)
      {
        DropDirect(s, i, k);
        k := k + 1;
      }
    }

    /** Since s, the first k direct slots of inode i have been emptied. */
    ghost predicate DroppedTo(s: Fs, i: int, k: int)
      reads this
      requires Shape(s) && 0 <= k <= NDIRECT
    {
      && Valid() && 0 <= i < |inode| == |s.inode| && OthersKept(s, S(), i) && Released(s, S(), i, 0, k)
      && inode[i].size == s.inode[i].size && inode[i].addrs[NDIRECT] == s.inode[i].addrs[NDIRECT]
      && forall l :: 0 <= l < k ==> inode[i].addrs[l] == 0
    }

    method DropDirect(ghost s: Fs, i: int, k: int)
      requires Shape(s) && 0 <= k < NDIRECT && DroppedTo(s, i, k)
      modifies this`disk, this`inode, this`role, this`logged
      ensures DroppedTo(s, i, k + 1)
    {
      assert SlotOk(S(), i, k);
      ReleasesOne(S(), i, 0, 0, k);
      if inode[i].addrs[k] != 0 {
        FreeSlot(inode[i].addrs[k], i, k, 0, 0, k, k + 1);
        ClearDirectKeeps(S(), i, k);
        inode := inode[i := inode[i].(addrs := inode[i].addrs[k := 0])];
      }
    }

    /** The loop of itrunc over the entries of the indirect block. */
    method DropEntries(i: int)
      requires Valid() && 0 <= i < |inode| && At(S(), i, NDIRECT) != 0
      modifies this`disk, this`role, this`logged
      ensures InvBut(S(), 0, i, NDIRECT + 1, SLOTS) && LogOk() && OthersKept(old(S()), S(), i)
      ensures Released(old(S()), S(), i, NDIRECT + 1, SLOTS)
    {
      ghost var s := S();
      var j := 0;
      while j < NINDIRECT
        invariant 0 <= j <= NINDIRECT && EntriesGone(s, i, j)
      {
        DropEntry(s, i, j);
        j := j + 1;
      }
    }

    /** Since s, the blocks of the first j entries have been given back; the entries dangle. */
    ghost predicate EntriesGone(s: Fs, i: int, j: int)
      reads this
      requires Shape(s) && 0 <= j <= NINDIRECT && 0 <= i < |s.inode|
    {
      && InvBut(S(), 0, i, NDIRECT + 1, NDIRECT + 1 + j) && LogOk() && 0 < inodestart < bmapstart
      && inode == s.inode && At(S(), i, NDIRECT) != 0
      && OthersKept(s, S(), i) && Released(s, S(), i, NDIRECT + 1, NDIRECT + 1 + j)
    }

    method DropEntry(ghost s: Fs, i: int, j: int)
      requires Shape(s) && 0 <= i < |s.inode| && 0 <= j < NINDIRECT && EntriesGone(s, i, j)
      modifies this`disk, this`role, this`logged
      ensures EntriesGone(s, i, j + 1)
    {
      assert SlotOk(S(), i, NDIRECT) && SlotOk(S(), i, NDIRECT + 1 + j);
      var a := inode[i].addrs[NDIRECT];
      ReleasesOne(S(), i, NDIRECT + 1, NDIRECT + 1 + j, NDIRECT + 1 + j);
      if Word(disk[a], j) != 0 {
        FreeSlot(Word(disk[a], j), i, NDIRECT + 1 + j, NDIRECT + 1, NDIRECT + 1 + j, NDIRECT + 1, NDIRECT + 2 + j);
      }
    }

    /** The second half of itrunc. */
    method DropIndirect(i: int)
      requires Valid() && 0 <= i < |inode|
      modifies this`disk, this`inode, this`role, this`logged
      ensures Valid() && OthersKept(old(S()), S(), i) && Released(old(S()), S(), i, NDIRECT, SLOTS)
      ensures forall k :: 0 <= k < SLOTS ==> At(S(), i, k) == if k < NDIRECT then old(inode)[i].addrs[k] else 0
    {
      if inode[i].addrs[NDIRECT] == 0 {
        NoIndirectNoEntries(S(), i);
      } else {
        DropEntries(i);
        FreeSlot(inode[i].addrs[NDIRECT], i, NDIRECT, NDIRECT + 1, SLOTS, NDIRECT, SLOTS);
        ClearIndirectKeeps(S(), i);
        inode := inode[i := inode[i].(addrs := inode[i].addrs[NDIRECT := 0])];
      }
    }

    /** Gives back every block of file i, and no other block. */
    method Itrunc(i: int)
      requires Valid() && 0 <= i < |inode|
      modifies this`disk, this`inode, this`dinode, this`role, this`logged
      ensures Valid() && OthersKept(old(S()), S(), i) && Released(old(S()), S(), i, 0, SLOTS)
      ensures inode[i].size == 0 && forall k :: 0 <= k < SLOTS ==> At(S(), i, k) == 0
      ensures dinode == old(dinode)[i := inode[i]]
    {
      DropDirects(i);
      ghost var s := S();
      DropIndirect(i);
      ReleasedJoin(old(S()), s, S(), i, 0, NDIRECT, SLOTS);
      ResizeKeeps(S(), i, 0);
      inode := inode[i := inode[i].(size := 0)];
      Iupdate(i);
    }

    /** Writes the inode back to its block. */
    method Iupdate(i: int)
      requires Sound() && 0 <= i < |inode|
      modifies this`dinode, this`logged
      ensures Sound() && (old(Valid()) ==> Valid()) && (old(Strays()) ==> Strays())
      ensures dinode == old(dinode)[i := inode[i]] && logged == old(logged) + {inodestart + i / IPB}
    {
      dinode := dinode[i := inode[i]];
      logged := logged + {inodestart + i / IPB};
    }

    /** One turn of writei's loop: src[a..] goes to byte off + a of file i, up to the end of that block. When not all
        of that can be read, nothing is stored or logged here, and torn is the block. */
    method WriteBlock(i: int, off: int, src: seq<int>, a: int, good: int) returns (m: int, torn: int, ghost bm: set<int>)
      requires Valid() && 0 <= i < |inode| && 0 <= off && 0 <= a < |src| && off + |src| <= MAXBYTES && IsBytes(src)
      modifies this`disk, this`inode, this`role, this`logged
      ensures Valid() && Grows(old(S()), S(), i)
      ensures m == 0 ==> SameFiles(old(S()), S()) && (torn == 0 ==> NoBlock(S(), i, (off + a) / BSIZE))
      ensures Allotted(old(S()), S(), i, (off + a) / BSIZE)
      ensures m != 0 ==> m == Chunk(off, |src|, a) && a + m <= good && torn == 0
      ensures m != 0 ==> At(S(), i, SlotNo((off + a) / BSIZE)) != 0
      ensures m >= 0 && a + m <= |src| && Written(old(S()), S(), i, off, src, a, a + m)
      ensures var n := (off + a) / BSIZE; Logs(old(logged), logged, bm, At(S(), i, SlotNo(n)), Second(S(), i, n))
      ensures |bm| <= Missing(old(S()), i, (off + a) / BSIZE) && (forall b :: b in bm ==> b < nmeta)
      ensures Beyond(old(S()), S(), i, (off + a) / BSIZE)
      ensures torn != 0 ==> torn == At(S(), i, SlotNo((off + a) / BSIZE)) && good < a + Chunk(off, |src|, a)
      ensures torn != 0 ==> TornLog(old(S()), i, (off + a) / BSIZE, torn, old(logged), logged)
    {
      ghost var s := S();
      var panicked, addr;
      panicked, addr, bm := Bmap(i, (off + a) / BSIZE);
      assert !panicked;
      ExtendsKeeps(s, S(), i, (off + a) / BSIZE);
      m, torn := 0, 0;
      if addr != 0 {
        m := Min(|src| - a, BSIZE - (off + a) % BSIZE);
        assert SlotOk(S(), i, SlotNo((off + a) / BSIZE));
        if a + m > good {
          return 0, addr, bm;
        }
        StorePiece(i, addr, off, src, a, m);
      }
    }

    /** m bytes of src from a on go to block b, which is logged. */
    method StorePiece(i: int, b: int, off: int, src: seq<int>, a: int, m: int)
      requires Valid() && 0 <= i < |inode| && 0 <= off && 0 <= a && 0 <= m && a + m <= |src| && IsBytes(src) &&
               off + a < MAXBYTES
      requires 0 < b == At(S(), i, SlotNo((off + a) / BSIZE)) && (off + a) % BSIZE + m <= BSIZE
      modifies this`disk, this`logged
      ensures Valid() && SameSlots(old(S()), S()) && Written(old(S()), S(), i, off, src, a, a + m)
      ensures logged == old(logged) + {b}
    {
      assert SlotOk(S(), i, SlotNo((off + a) / BSIZE));
      SplicedBlock(S(), i, off, src, a, m);
      StoreBlock(b, Splice(disk[b], (off + a) % BSIZE, src, a, m));
    }

    /** What either_copyin leaves in the buffer when it stops at byte good of src. Nothing is logged: if the block is
        not in the log anyway, it has changed behind the log's back when one of those bytes is new. */
    method Spill(i: int, b: int, off: int, src: seq<int>, a: int, good: int)
      requires Valid() && 0 <= i < |inode| && 0 <= off && 0 <= a <= good <= |src| && IsBytes(src) && off + a < MAXBYTES
      requires 0 < b == At(S(), i, SlotNo((off + a) / BSIZE)) && (off + a) % BSIZE + good - a <= BSIZE
      modifies this`disk
      ensures Sound() && SameSlots(old(S()), S()) && Written(old(S()), S(), i, off, src, a, good) && b < |disk|
      ensures if b !in logged && Differs(old(S()), i, off, src, a, good) then Strays() else Valid()
    {
      ghost var s := S();
      assert SlotOk(s, i, SlotNo((off + a) / BSIZE));
      SplicedBlock(s, i, off, src, a, good - a);
      SpliceDiffers(s, i, off, src, a, good);
      Scribble(b, Splice(disk[b], (off + a) % BSIZE, src, a, good - a));
    }

    /** New contents for a block's buffer, not logged. */
    method Scribble(b: int, x: seq<int>)
      requires Shape(S()) && LogOk() && nmeta <= b < |disk|
      modifies this`disk
      ensures S() == PutData(old(S()), b, x) && InodesLogged()
      ensures if b in logged || x == old(disk)[b] then BlocksLogged() else disk[b] != base[b]
    {
      disk := disk[b := x];
    }

    /** New contents for a block, logged. */
    method StoreBlock(b: int, x: seq<int>)
      requires Shape(S()) && LogOk() && nmeta <= b < |disk| && IsBlock(x) && inodestart < bmapstart
      modifies this`disk, this`logged
      ensures S() == PutData(old(S()), b, x) && LogOk() && logged == old(logged) + {b}
    {
      disk := disk[b := x];
      logged := logged + {b};
    }

    /** Between two turns of writei's loop, which began in s with the blocks of was logged. */
    ghost predicate StoredTo(s: Fs, was: set<int>, i: int, off: int, src: seq<int>, tot: int, w: Ops)
      reads this
      requires Shape(s) && 0 <= i < |s.inode| && 0 <= off && off + |src| <= MAXBYTES
    {
      && Valid() && 0 <= tot <= |src| && Progress(s, S(), i, off, src, tot, w, was, logged)
      && IndOk(w, S(), i) && Paced(w, off, |src|, tot, NoHoles(s, i))
      && Provided(s, S(), i, off / BSIZE, EndBlock(off, tot)) && Needs(s, i, off, tot) <= FreeCount(s)
      && (tot < |src| ==> Ahead(s, S(), i, (off + tot) / BSIZE, was, logged))
    }

    /** The loop is over after tot bytes: all of them, or there is no block for the next, or the next block's bytes cannot
        all be read; torn is that block. */
    ghost predicate Ended(s: Fs, was: set<int>, i: int, off: int, src: seq<int>, good: int, tot: int, torn: int, w: Ops)
      reads this
      requires Shape(s) && 0 <= i < |s.inode| && 0 <= off && off + |src| <= MAXBYTES
    {
      && Valid() && 0 <= tot <= |src| && tot <= good && Progress(s, S(), i, off, src, tot, w, was, logged)
      && (torn == 0 && tot < |src| ==> NoBlock(S(), i, (off + tot) / BSIZE))
      && Halted(s, S(), i, off, |src|, tot, torn != 0) && (torn != 0 && tot > 0 ==> (off + tot) % BSIZE == 0)
      && (torn != 0 ==>
            && tot < |src| && tot == StartOf(off, good) && good < tot + Chunk(off, |src|, tot)
            && torn == At(S(), i, SlotNo((off + tot) / BSIZE)) && TornLog(s, i, (off + tot) / BSIZE, torn, was, logged))
    }

    /** A turn of the loop. */
    method WriteNext(ghost s: Fs, ghost was: set<int>, i: int, off: int, src: seq<int>, good: int, tot: int, ghost w: Ops)
      returns (next: int, torn: int, ghost w1: Ops)
      requires Shape(s) && 0 <= i < |s.inode| && 0 <= off <= s.inode[i].size && off + |src| <= MAXBYTES && IsBytes(src)
      requires StoredTo(s, was, i, off, src, tot, w) && tot < |src| && tot <= good
      modifies this`disk, this`inode, this`role, this`logged
      ensures tot <= next <= |src| && next <= good
      ensures if next == tot then Ended(s, was, i, off, src, good, tot, torn, w1)
              else torn == 0 && StoredTo(s, was, i, off, src, next, w1)
    {
      ghost var s1, now := S(), logged;
      var m;
      ghost var bm;
      m, torn, bm := WriteBlock(i, off, src, tot, good);
      next := tot + m;
      w1 := AfterTurn(w, s1, S(), i, (off + tot) / BSIZE, bm);
      TurnEnds(s, s1, was, now, i, off, src, good, tot, m, next, torn, w, bm);
    }

    /** What that turn means for the loop that began in s. */
    lemma TurnEnds(s: Fs, s1: Fs, was: set<int>, now: set<int>, i: int, off: int, src: seq<int>, good: int, tot: int,
                   m: int, next: int, torn: int, w: Ops, bm: set<int>)
      requires Shape(s) && Shape(s1) && 0 <= i < |s.inode| == |s1.inode| && 0 <= off <= s.inode[i].size &&
               off + |src| <= MAXBYTES
      requires 0 <= tot < |src| && tot <= good && Progress(s, s1, i, off, src, tot, w, was, now) && IndOk(w, s1, i)
      requires Paced(w, off, |src|, tot, NoHoles(s, i)) && Ahead(s, s1, i, (off + tot) / BSIZE, was, now)
      requires Valid() && SameLayout(s1, S()) && Shape(S()) && Grows(s1, S(), i) &&
               Beyond(s1, S(), i, (off + tot) / BSIZE) && next == tot + m
      requires m == 0 && torn == 0 ==> NoBlock(S(), i, (off + tot) / BSIZE)
      requires Allotted(s1, S(), i, (off + tot) / BSIZE) && Provided(s, s1, i, off / BSIZE, EndBlock(off, tot))
      requires m != 0 ==> m == Chunk(off, |src|, tot) && tot + m <= good && torn == 0
      requires m != 0 ==> At(S(), i, SlotNo((off + tot) / BSIZE)) != 0
      requires m >= 0 && tot + m <= |src| && Written(s1, S(), i, off, src, tot, tot + m)
      requires var n := (off + tot) / BSIZE; Logs(now, logged, bm, At(S(), i, SlotNo(n)), Second(S(), i, n))
      requires |bm| <= Missing(s1, i, (off + tot) / BSIZE) && (forall b :: b in bm ==> b < nmeta)
      requires torn != 0 ==> torn == At(S(), i, SlotNo((off + tot) / BSIZE)) && good < tot + Chunk(off, |src|, tot)
      requires torn != 0 ==> TornLog(s1, i, (off + tot) / BSIZE, torn, now, logged)
      ensures var w1 := AfterTurn(w, s1, S(), i, (off + tot) / BSIZE, bm);
              if next == tot then Ended(s, was, i, off, src, good, tot, torn, w1)
              else torn == 0 && StoredTo(s, was, i, off, src, next, w1)
    {
      hide Progress, IndOk, Paced, Ahead, Grows, Beyond, NoBlock, Written, Logs, Missing, TornLog, AfterTurn, At,
        Second, NoHoles, InodesLogged, BlocksLogged, StartOf, Inv, Chunk, Shape, Allotted, Provided, Halted, EndBlock, Need;
      ProgressTurn(s, s1, S(), i, off, src, tot, m, w, bm, was, now, logged);
      HaltsOrGoesOn(s, s1, S(), i, off, |src|, tot, m, torn, w, NoHoles(s, i));
      if m == 0 {
        if torn != 0 {
          StartOfChunk(w, off, |src|, tot, NoHoles(s, i), good);
          TornTurn(s, s1, i, (off + tot) / BSIZE, torn, was, now, logged);
        }
      } else {
        AheadTurn(s, s1, S(), i, off, |src|, tot, m, bm, was, now, logged);
        assert off + tot + m == off + next;
      }
    }

    /** writei's loop: the bytes stored, and the blocks logged on the way. */
    method WriteBlocks(i: int, off: int, src: seq<int>, good: int) returns (tot: int, torn: int, ghost w: Ops)
      requires Valid() && 0 <= i < |inode| && 0 <= off <= inode[i].size && off + |src| <= MAXBYTES && IsBytes(src)
      requires 0 <= good
      modifies this`disk, this`inode, this`role, this`logged
      ensures Ended(old(S()), old(logged), i, off, src, good, tot, torn, w)
    {
      ghost var s := S();
      w := Ops({}, false, 0, 0);
      tot, torn := 0, 0;
      StoredStarts(i, off, src);
      while tot < |src|
        invariant StoredTo(s, old(logged), i, off, src, tot, w) && tot <= good && torn == 0
      {
        var next;
        next, torn, w := WriteNext(s, old(logged), i, off, src, good, tot, w);
        if next == tot {
          return;
        }
        tot := next;
      }
      StoredEnds(s, old(logged), i, off, src, good, w);
    }

    lemma StoredStarts(i: int, off: int, src: seq<int>)
      requires Valid() && 0 <= i < |inode| && 0 <= off <= inode[i].size && off + |src| <= MAXBYTES
      ensures StoredTo(S(), logged, i, off, src, 0, Ops({}, false, 0, 0))
    {
      ProgressStart(S(), i, off, src, logged);
      assert EndBlock(off, 0) == off / BSIZE;
      hide Progress, Paced, IndOk, At, Inv, InodesLogged, BlocksLogged;
    }

    lemma StoredEnds(s: Fs, was: set<int>, i: int, off: int, src: seq<int>, good: int, w: Ops)
      requires Shape(s) && 0 <= i < |s.inode| && 0 <= off && off + |src| <= MAXBYTES && |src| <= good
      requires StoredTo(s, was, i, off, src, |src|, w)
      ensures Ended(s, was, i, off, src, good, |src|, 0, w)
    {
      hide Progress, Paced, IndOk, At, Inv, InodesLogged, BlocksLogged;
    }

    /** writei's loop and, when reading src stops inside a block, what that leaves in the block's buffer. */
    method WriteAll(i: int, off: int, src: seq<int>, good: int) returns (r: int, ghost w: Ops)
      requires Valid() && 0 <= i < |inode| && 0 <= off <= inode[i].size && off + |src| <= MAXBYTES && IsBytes(src)
      requires 0 <= good
      modifies this`disk, this`inode, this`role, this`logged
      ensures Sound() && 0 <= r <= |src| && r <= good
      ensures AllIn(old(S()), S(), i, off, src, good, r, if Torn(old(S()), i, off, |src|, good) then good else r)
      ensures Counted(w, old(logged), logged, old(NoHoles(S(), i)), |src|)
      ensures if Tears(old(S()), old(logged), i, off, src, good) then Strays() else Valid()
    {
      ghost var s := S();
      var b;
      r, b, w := WriteBlocks(i, off, src, good);
      LoopMeans(s, old(logged), i, off, src, good, r, b, w);
      if b != 0 {
        ghost var m := S();
        Spill(i, b, off, src, r, good);
        SpilledIn(s, m, S(), i, off, src, r, good);
      }
    }

    /** What the end of the loop means, in terms of the state s it began in. */
    lemma LoopMeans(s: Fs, was: set<int>, i: int, off: int, src: seq<int>, good: int, tot: int, b: int, w: Ops)
      requires Shape(s) && 0 <= i < |s.inode| && 0 <= off <= s.inode[i].size && off + |src| <= MAXBYTES
      requires Ended(s, was, i, off, src, good, tot, b, w)
      ensures AllIn(s, S(), i, off, src, good, tot, tot) && Counted(w, was, logged, NoHoles(s, i), |src|)
      ensures b != 0 <==> Torn(s, i, off, |src|, good)
      ensures b == 0 ==> !Tears(s, was, i, off, src, good)
      ensures b != 0 ==> tot < |src| && off + tot < MAXBYTES && (off + tot) % BSIZE + good - tot <= BSIZE
      ensures b != 0 ==> 0 < b == At(S(), i, SlotNo((off + tot) / BSIZE))
      ensures b != 0 ==> (Tears(s, was, i, off, src, good) <==> b !in logged && Differs(S(), i, off, src, tot, good))
    {
      hide Written, Grows, NoHoles, MappedTo, NoBlock, Reaches, Filled, IndTo, FreeCount, Need, EndBlock, At, Inv, StartOf,
        InodesLogged, BlocksLogged, Differs, Halted, TornLog, SlotsKept, Covers, Tears;
      ShapeOf(S());
      GrowsSize(s, S(), i);
      HaltMeans(s, S(), i, off, |src|, good, tot, b != 0);
      if b != 0 {
        TornMeans(s, S(), i, off, src, tot, good, b, was, logged);
        SlotAbove(S(), i, SlotNo((off + tot) / BSIZE));
      } else {
        NotTorn(s, was, i, off, src, good);
      }
    }

    /** A block of a file was changed behind the log's back. */
    ghost predicate Strays()
      reads this
    {
      && |base| == |disk| && 0 <= nmeta
      && exists b {:trigger disk[b]} :: nmeta <= b < |disk| && disk[b] != base[b] && b !in logged
    }

    /** Writes src at byte off of file i, as far as its bytes can be read (good of them) and the disk has room. A copy
        that stops inside a block leaves that block's first bytes in its buffer, uncounted and not logged. Every block it
        logs is in ops or was already logged. */
    method Writei(i: int, off: int, src: seq<int>, good: int) returns (r: int, ghost ops: set<int>)
      requires Valid() && 0 <= i < |inode| && 0 <= off < 0x1_0000_0000 && |src| < 0x1_0000_0000 && IsBytes(src) && 0 <= good
      modifies this`disk, this`inode, this`dinode, this`role, this`logged
      ensures Sound() && -1 <= r <= |src| && r <= good
      ensures r == -1 <==> off > old(inode[i].size) || off + |src| > MAXBYTES
      ensures r == -1 ==> S() == old(S()) && dinode == old(dinode) && logged == old(logged)
      ensures r == |src| <==>
                && off <= old(inode[i].size) && off + |src| <= MAXBYTES && |src| <= good
                && Needs(old(S()), i, off, |src|) <= FreeCount(old(S()))
      ensures r >= 0 ==> PartIn(old(S()), S(), i, off, src, good, r) && dinode == old(dinode)[i := inode[i]]
      ensures Valid() <==> !Tears(old(S()), old(logged), i, off, src, good)
      ensures forall b :: b in logged ==> b in old(logged) || b in ops
      ensures old(NoHoles(S(), i)) ==> NoHoles(S(), i) && (|src| <= 3 * BSIZE ==> |ops| <= 10)
    {
      ops := {};
      var n := |src|;
      if off > inode[i].size || (off + n) % 0x1_0000_0000 < off {
        return -1, {};
      }
      if (off + n) % 0x1_0000_0000 > MAXBYTES {
        return -1, {};
      }
      r, ops := WriteIn(i, off, src, good);
    }

    /** writei once its arguments are found good. */
    method WriteIn(i: int, off: int, src: seq<int>, good: int) returns (r: int, ghost ops: set<int>)
      requires Valid() && 0 <= i < |inode| && 0 <= off <= inode[i].size && off + |src| <= MAXBYTES && IsBytes(src)
      requires 0 <= good
      modifies this`disk, this`inode, this`dinode, this`role, this`logged
      ensures Sound() && 0 <= r <= |src| && r <= good
      ensures PartIn(old(S()), S(), i, off, src, good, r) && dinode == old(dinode)[i := inode[i]]
      ensures Valid() <==> !Tears(old(S()), old(logged), i, off, src, good)
      ensures forall b :: b in logged ==> b in old(logged) || b in ops
      ensures old(NoHoles(S(), i)) && |src| <= 3 * BSIZE ==> |ops| <= 10
    {
      ghost var s := S();
      ghost var w;
      r, w := WriteAll(i, off, src, good);
      SetSize(s, i, off, src, good, r);
      ops := w.blocks + {inodestart + i / IPB};
    }

    /** The end of writei, which began in s. */
    method SetSize(ghost s: Fs, i: int, off: int, src: seq<int>, ghost good: int, r: int)
      requires Sound() && Shape(s) && 0 <= i < |s.inode| && 0 <= off <= s.inode[i].size && off + r <= MAXBYTES
      requires 0 <= r <= |src| && r <= good && SameLayout(s, S())
      requires AllIn(s, S(), i, off, src, good, r, if Torn(s, i, off, |src|, good) then good else r)
      modifies this`inode, this`dinode, this`logged
      ensures Sound() && (old(Valid()) ==> Valid()) && (old(Strays()) ==> Strays()) && PartIn(s, S(), i, off, src, good, r)
      ensures dinode == old(dinode)[i := inode[i]] && logged == old(logged) + {inodestart + i / IPB}
    {
      ghost var m := S();
      Lengthen(i, off + r);
      Lengthened(s, m, S(), i, off, src, good, r, if Torn(s, i, off, |src|, good) then good else r);
    }

    /** The size, and the inode written back whether or not it changed. */
    method Lengthen(i: int, off: int)
      requires Sound() && 0 <= i < |inode| && 0 <= off <= MAXBYTES
      modifies this`inode, this`dinode, this`logged
      ensures Sound() && (old(Valid()) ==> Valid()) && (old(Strays()) ==> Strays()) && SameSlots(old(S()), S())
      ensures forall j, o {:trigger Byte(S(), j, o)} :: 0 <= j < |inode| && 0 <= o < MAXBYTES ==>
                Byte(S(), j, o) == Byte(old(S()), j, o)
      ensures inode == old(inode)[i := old(inode)[i].(size := Max(old(inode)[i].size, off))]
      ensures dinode == old(dinode)[i := inode[i]] && logged == old(logged) + {inodestart + i / IPB}
    {
      ResizeKeeps(S(), i, Max(inode[i].size, off));
      assert inode[i := inode[i].(size := inode[i].size)] == inode;
      if off > inode[i].size {
        inode := inode[i := inode[i].(size := off)];
      }
      Iupdate(i);
    }

    /** One turn of readi's loop: the bytes of a block from off + a on; none when the block is missing and cannot be
        had. */
    method ReadBlock(i: int, off: int, len: int, a: int) returns (out: seq<int>)
      requires Valid() && 0 <= i < |inode| && 0 <= off && 0 <= a < len && off + len <= MAXBYTES
      modifies this`disk, this`inode, this`role, this`logged
      ensures Valid() && SameFiles(old(S()), S()) && Reads(S(), i, off + a, out)
      ensures out == [] ==> DiskFull(S())
      ensures out != [] ==> |out| == Chunk(off, len, a)
      ensures out != [] <==> At(S(), i, SlotNo((off + a) / BSIZE)) != 0
      ensures SlotsKept(old(S()), S(), i) && Beyond(old(S()), S(), i, (off + a) / BSIZE)
      ensures Allotted(old(S()), S(), i, (off + a) / BSIZE)
      ensures old(Spared(S(), i, (off + a) / BSIZE)) ==> S() == old(S()) && logged == old(logged)
    {
      var o := off + a;
      var panicked, addr;
      ghost var bm;
      ghost var s := S();
      panicked, addr, bm := Bmap(i, o / BSIZE);
      assert !panicked;
      ExtendsKeeps(s, S(), i, o / BSIZE);
      out := [];
      if addr != 0 {
        var m := Min(len - a, BSIZE - o % BSIZE);
        assert SlotOk(S(), i, SlotNo(o / BSIZE));
        ReadsPiece(S(), i, o, m);
        out := disk[addr][o % BSIZE..o % BSIZE + m];
      }
    }

    /** Reads up to n bytes at off of file i, clipped to its size, into a buffer that takes good bytes; -1 when it is
        asked for more than that. It allocates the blocks that are missing in what it reads. */
    method Readi(i: int, off: int, n: int, good: int) returns (r: int, out: seq<int>)
      requires Valid() && 0 <= i < |inode| && 0 <= off < 0x1_0000_0000 && 0 <= n < 0x1_0000_0000 && 0 <= good
      modifies this`disk, this`inode, this`role, this`logged
      ensures Valid() && SameFiles(old(S()), S()) && |out| <= good && Reads(old(S()), i, off, out)
      ensures ReadGives(old(S()), S(), i, off, n, good, r, out, S() == old(S()) && logged == old(logged))
    {
      var ok, len := Clip(off, n, inode[i].size);
      if !ok {
        return 0, [];
      }
      r, out := ReadIn(i, off, len, good);
    }

    /** readi once its range is clipped. */
    method ReadIn(i: int, off: int, len: int, good: int) returns (r: int, out: seq<int>)
      requires Valid() && 0 <= i < |inode| && 0 <= off && 0 <= len && off + len <= inode[i].size && 0 <= good
      modifies this`disk, this`inode, this`role, this`logged
      ensures Valid() && SameFiles(old(S()), S()) && |out| <= good && Reads(old(S()), i, off, out)
      ensures ReadsTo(old(S()), S(), i, off, len, good, r, out, S() == old(S()) && logged == old(logged))
    {
      ghost var s := S();
      var bad;
      bad, out := ReadBlocks(i, off, len, good);
      r := if bad then -1 else |out|;
      ReadsWhole(s, S(), i, off, len, good, r, out, S() == s && logged == old(logged));
    }

    /** readi's loop. */
    method ReadBlocks(i: int, off: int, len: int, good: int) returns (bad: bool, out: seq<int>)
      requires Valid() && 0 <= i < |inode| && 0 <= off && 0 <= len && off + len <= inode[i].size && 0 <= good
      modifies this`disk, this`inode, this`role, this`logged
      ensures Valid() && SameFiles(old(S()), S()) && |out| <= len && |out| <= good && Reads(old(S()), i, off, out)
      ensures ReadsAs(old(S()), S(), i, off, len, good, if bad then -1 else |out|, out)
      ensures FreeCount(old(S())) == 0 || Needs(old(S()), i, off, Min(len, good + 1)) == 0 ==>
                S() == old(S()) && logged == old(logged)
    {
      ghost var s := S();
      bad, out := false, [];
      ReadStarts(i, off, len);
      while |out| < len
        invariant ReadSoFar(s, old(logged), i, off, len, out) && |out| <= good && !bad
        decreases len - |out|
      {
        var more;
        bad, more := ReadNext(s, old(logged), i, off, len, good, out);
        if bad || more == [] {
          ReadMeans(s, S(), i, off, len, good, out, bad);
          return;
        }
        out := out + more;
      }
      ReadMeans(s, S(), i, off, len, good, out, false);
    }

    /** Since s, the bytes in out have been read from off on; when nothing was missing, nothing has changed. */
    ghost predicate ReadSoFar(s: Fs, l: set<int>, i: int, off: int, len: int, out: seq<int>)
      reads this
      requires Shape(s) && 0 <= i < |s.inode| && 0 <= off
    {
      Valid() && ReadOn(s, S(), i, off, len, out) && (Needs(s, i, off, |out|) == 0 ==> S() == s && logged == l)
    }

    lemma ReadStarts(i: int, off: int, len: int)
      requires Valid() && 0 <= i < |inode| && 0 <= off && 0 <= len && off + len <= inode[i].size
      ensures ReadSoFar(S(), logged, i, off, len, [])
    {
      assert EndBlock(off, 0) == off / BSIZE;
      hide At, Inv, InodesLogged, BlocksLogged, Byte;
    }

    /** A turn of the loop; bad when the bytes of this block cannot all be delivered. */
    method ReadNext(ghost s: Fs, ghost l: set<int>, i: int, off: int, len: int, good: int, out: seq<int>)
      returns (bad: bool, more: seq<int>)
      requires Shape(s) && 0 <= i < |s.inode| && 0 <= off && |out| < len && off + len <= s.inode[i].size && |out| <= good
      requires ReadSoFar(s, l, i, off, len, out)
      modifies this`disk, this`inode, this`role, this`logged
      ensures Valid() && (if bad || more == [] then ReadDone(s, S(), i, off, len, good, out, bad)
                          else ReadSoFar(s, l, i, off, len, out + more) && |out + more| <= good)
      ensures (bad || more == []) && (FreeCount(s) == 0 || Needs(s, i, off, |out| + 1) == 0) ==> S() == s && logged == l
    {
      ghost var m := S();
      ghost var now := logged;
      more := ReadBlock(i, off, len, |out|);
      bad := |out| + |more| > good;
      ReadTurnEnds(s, l, m, now, i, off, len, good, out, more, bad);
    }

    lemma ReadTurnEnds(s: Fs, l: set<int>, m: Fs, now: set<int>, i: int, off: int, len: int, good: int, out: seq<int>,
                       more: seq<int>, bad: bool)
      requires Shape(s) && Shape(m) && 0 <= i < |s.inode| && 0 <= off && |out| < len && off + len <= s.inode[i].size
      requires |out| <= good && ReadOn(s, m, i, off, len, out) && (Needs(s, i, off, |out|) == 0 ==> m == s && now == l)
      requires Valid() && Shape(S()) && SameFiles(m, S()) && Reads(S(), i, off + |out|, more) && off + len <= MAXBYTES
      requires more == [] || |more| == Chunk(off, len, |out|)
      requires (off + |out|) / BSIZE < MAXFILE && (more != [] <==> At(S(), i, SlotNo((off + |out|) / BSIZE)) != 0)
      requires SlotsKept(m, S(), i) && Beyond(m, S(), i, (off + |out|) / BSIZE) &&
               Allotted(m, S(), i, (off + |out|) / BSIZE)
      requires Spared(m, i, (off + |out|) / BSIZE) ==> S() == m && logged == now
      requires bad <==> |out| + |more| > good
      ensures if bad || more == [] then ReadDone(s, S(), i, off, len, good, out, bad)
              else ReadSoFar(s, l, i, off, len, out + more) && |out + more| <= good
      ensures (bad || more == []) && (FreeCount(s) == 0 || Needs(s, i, off, |out| + 1) == 0) ==> S() == s && logged == l
    {
      hide ReadDone, Delivered, SlotsKept, Beyond, Allotted, At, FreeCount, Need, EndBlock, Chunk, Missing, Inv,
        InodesLogged, BlocksLogged, Reads, SameFiles;
      ReadTurn(s, m, S(), i, off, len, good, out, more);
      QuietTurn(s, m, i, off, len, out);
      assert |out + more| == |out| + |more|;
    }
  }
}

/** mkfs.c: the initial image. Blocks are handed out by a counter and the bitmap is written once at the end; what the
    image is worth on the way is judged with the bitmap it will have. */
module Mkfs {
  import opened Arith
  import opened BlockCount
  import opened BlockMap
  import opened FileCode
  import opened FsCode
  import opened Params

  const FSSIZE := 2000
  const NINODES := 200
  const INODESTART := 33
  const BMAPSTART := 46
  const NMETA := 47

  /** A byte with its low k bits set. */
  function LowBits(k: int): (x: int)
    ensures 0 <= x < 256
  {
    assert Pow2(7) == 128;
    Pow2Grows(k, 7);
    if k <= 0 then 0 else if k >= 8 then 255 else Pow2(k) - 1
  }

  /** The bitmap block with the first n bits set. */
  function Bitmap(n: int): (x: seq<int>)
    ensures IsBlock(x)
  {
    seq(BSIZE, j requires 0 <= j < BSIZE => LowBits(n - 8 * j))
  }

  lemma {:induction false} Pow2Grows(j: int, k: int)
    requires k >= 0
    ensures 0 < Pow2(j) && (j <= k ==> Pow2(j) <= Pow2(k))
    decreases k, j
  {
    if j > 0 { Pow2Grows(j - 1, if j <= k then k - 1 else k); }
    if k > 0 { Pow2Grows(0, k - 1); }
  }

  /** Below the top, setting bit k of Pow2(k) - 1 gives Pow2(k + 1) - 1. */
  lemma {:induction false} OnesStep(k: int)
    requires 0 <= k
    ensures SetBit(Pow2(k) - 1, k, true) == Pow2(k + 1) - 1
    decreases k
  {
    if k > 0 {
      OnesStep(k - 1);
      HalfOf(1, Pow2(k - 1) - 1);
    }
  }

  lemma {:induction false} OnesBits(k: int, b: int)
    requires 0 <= k && 0 <= b
    ensures TestBit(Pow2(k) - 1, b) <==> b < k
    decreases k
  {
    if k == 0 {
      ZeroHasNoBits(b);
    } else {
      HalfOf(1, Pow2(k - 1) - 1);
      if b > 0 { OnesBits(k - 1, b - 1); }
    }
  }

  lemma LowBitsOf(k: int, b: int)
    requires 0 <= b < 8
    ensures TestBit(LowBits(k), b) <==> b < k
  {
    assert Pow2(8) == 256 && Pow2(0) == 1;
    OnesBits(if k <= 0 then 0 else if k >= 8 then 8 else k, b);
  }

  lemma BitmapBits(n: int)
    ensures forall b :: 0 <= b < BPB ==> (TestBit(Bitmap(n)[b / 8], b % 8) <==> b < n)
  {
    forall b | 0 <= b < BPB ensures TestBit(Bitmap(n)[b / 8], b % 8) <==> b < n {
      LowBitsOf(n - 8 * (b / 8), b % 8);
    }
  }

  lemma BitmapStep(n: int)
    requires 0 <= n < BPB
    ensures Bitmap(n + 1) == Bitmap(n)[n / 8 := SetBit(Bitmap(n)[n / 8], n % 8, true)]
  {
    var x, y := Bitmap(n), Bitmap(n + 1);
    assert Pow2(8) == 256 && Pow2(0) == 1;
    OnesStep(n % 8);
    forall j | 0 <= j < BSIZE ensures y[j] == x[n / 8 := SetBit(x[n / 8], n % 8, true)][j] {
    }
  }

  /** balloc's loop over the bitmap block. */
  method FirstBits(used: int) returns (buf: seq<int>)
    requires 0 <= used <= BPB
    ensures |buf| == BSIZE && forall b :: 0 <= b < BPB ==> (TestBit(buf[b / 8], b % 8) <==> b < used)
    ensures buf == Bitmap(used)
  {
    buf := ZeroBlock();
    var i := 0;
    assert buf == Bitmap(0);
    while i < used
      invariant 0 <= i <= used && buf == Bitmap(i)
    {
      BitmapStep(i);
      buf := buf[i / 8 := SetBit(buf[i / 8], i % 8, true)];
      i := i + 1;
    }
    BitmapBits(used);
  }

  /** Nothing past the counter is used, and every inode is empty from freeinode on. */
  ghost predicate Fresh(s: Fs, fb: int) {
    && |s.role| == |s.disk| && (forall b :: 0 <= b < |s.disk| ==> (s.role[b] == Free <==> b >= fb))
    && (forall b :: 0 <= b < |s.disk| && b >= fb ==> s.disk[b] == ZeroBlock())
  }

  class Image {
    var freeinode: int
    var freeblock: int
    var disk: seq<seq<int>>
    var inode: seq<Inode>
    ghost var role: seq<Role>

    /** The image as it will be once the bitmap of the blocks handed out so far is in it. */
    ghost function S(): Fs
      reads this
      requires 0 <= freeblock <= BPB && |disk| == FSSIZE
    {
      Fs(BMAPSTART, NMETA, disk[BMAPSTART := Bitmap(freeblock)], inode, role)
    }

    ghost predicate Sound()
      reads this
    {
      && NMETA <= freeblock <= FSSIZE == |disk| && |inode| == NINODES && Inv(S()) && Fresh(S(), freeblock)
      && disk[BMAPSTART] == ZeroBlock()
    }

    /** Sound, and every file in exactly the blocks its size calls for. */
    ghost predicate Valid()
      reads this
    {
      Sound() && AllExact(S())
    }

    constructor ()
      ensures Valid() && freeinode == 1 && freeblock == NMETA
      ensures Blanks(S(), 0)
    {
      freeinode := 1;
      freeblock := NMETA;
      disk := seq(FSSIZE, _ => ZeroBlock());
      inode := seq(NINODES, _ => EmptyInode());
      role := seq(FSSIZE, b => if b < NMETA then Meta else Free);
      new;
      EmptyImage(S());
    }

    /** The image with din, the copy being worked on, for inode inum. */
    ghost function T(inum: int, din: Inode): Fs
      reads this
      requires 0 <= freeblock <= BPB && |disk| == FSSIZE && 0 <= inum < |inode|
    {
      S().(inode := inode[inum := din])
    }

    ghost predicate Building(inum: int, din: Inode)
      reads this
    {
      && NMETA <= freeblock <= FSSIZE == |disk| && 0 <= inum < |inode| == NINODES && Inv(T(inum, din))
      && Fresh(T(inum, din), freeblock) && disk[BMAPSTART] == ZeroBlock()
    }

    /** A slot of the inode copy, given the next block if it is empty. */
    method Fill(inum: int, din: Inode, k: int) returns (d: Inode)
      requires Building(inum, din) && 0 <= k <= NDIRECT
      modifies this`freeblock, this`role
      ensures freeblock <= FSSIZE ==>
                Building(inum, d) && Adds(old(T(inum, din)), T(inum, d), inum) && 0 < At(T(inum, d), inum, k) < FSSIZE
      ensures freeblock <= FSSIZE ==> Only(old(T(inum, din)), T(inum, d), inum, k)
      ensures freeblock > FSSIZE ==> |d.addrs| == NDIRECT + 1 && d.addrs[k] >= FSSIZE
      ensures freeblock == old(freeblock) + if At(old(T(inum, din)), inum, k) == 0 then 1 else 0
    {
      d := din;
      ghost var s := T(inum, din);
      AddsNothing(s, inum);
      SlotRange(s, inum, k);
      if d.addrs[k] == 0 {
        d := d.(addrs := d.addrs[k := freeblock]);
        freeblock := freeblock + 1;
        if freeblock <= FSSIZE {
          role := role[freeblock - 1 := Slot(inum, k)];
          SlotStep(s, T(inum, d), old(disk), inum, k, freeblock - 1);
        }
      }
    }

    /** An entry of the inode copy's indirect block, given the next block if it is empty. */
    method FillEntry(inum: int, din: Inode, j: int) returns (x: int)
      requires Building(inum, din) && 0 <= j < NINDIRECT && At(T(inum, din), inum, NDIRECT) != 0
      modifies this`freeblock, this`role, this`disk
      ensures freeblock <= FSSIZE ==>
                Building(inum, din) && Adds(old(T(inum, din)), T(inum, din), inum) &&
                x == At(T(inum, din), inum, NDIRECT + 1 + j) != 0
      ensures freeblock <= FSSIZE ==> Only(old(T(inum, din)), T(inum, din), inum, NDIRECT + 1 + j)
      ensures freeblock > FSSIZE ==> x >= FSSIZE == |disk|
      ensures freeblock == old(freeblock) + if old(At(T(inum, din), inum, NDIRECT + 1 + j)) == 0 then 1 else 0
    {
      ghost var s := T(inum, din);
      AddsNothing(s, inum);
      var a := din.addrs[NDIRECT];
      assert SlotOk(s, inum, NDIRECT);
      var indirect := disk[a];
      assert indirect == s.disk[a] && IsBlock(indirect);
      WordBack(indirect, j, freeblock);
      if Word(indirect, j) == 0 {
        indirect := PutWord(indirect, j, freeblock);
        freeblock := freeblock + 1;
        disk := disk[a := indirect];
        if freeblock <= FSSIZE {
          role := role[freeblock - 1 := Slot(inum, NDIRECT + 1 + j)];
          EntryStep(s, T(inum, din), old(disk), inum, j, freeblock - 1);
        }
      }
      x := Word(indirect, j);
    }

    /** The block for byte off of the inode copy, allocating what is missing. */
    method BlockFor(inum: int, din: Inode, fbn: int) returns (d: Inode, x: int)
      requires Building(inum, din) && 0 <= fbn < MAXFILE
      modifies this`freeblock, this`role, this`disk
      ensures x < FSSIZE ==> Building(inum, d) && Adds(old(T(inum, din)), T(inum, d), inum)
      ensures x < FSSIZE ==> x == At(T(inum, d), inum, SlotNo(fbn)) && x > 0
      ensures x < FSSIZE ==> Only(old(T(inum, din)), T(inum, d), inum, SlotNo(fbn))
      ensures x >= FSSIZE ==> old(freeblock) + Missing(old(T(inum, din)), inum, fbn) > FSSIZE
      ensures x < FSSIZE ==> freeblock == old(freeblock) + Missing(old(T(inum, din)), inum, fbn)
    {
      d := Fill(inum, din, if fbn < NDIRECT then fbn else NDIRECT);
      ghost var s := T(inum, din);
      x := if fbn < NDIRECT then d.addrs[fbn] else d.addrs[NDIRECT];
      if x >= FSSIZE {
        return;
      }
      if fbn >= NDIRECT {
        ghost var s1 := T(inum, d);
        x := FillEntry(inum, d, fbn - NDIRECT);
        if freeblock <= FSSIZE {
          AddsJoin(old(T(inum, din)), s1, T(inum, d), inum);
          OnlyJoin(old(T(inum, din)), s1, T(inum, d), inum, NDIRECT, SlotNo(fbn));
          assert SlotOk(T(inum, d), inum, SlotNo(fbn));
        }
      }
    }

    /** One turn of iappend's loop: p[a..] goes to byte off + a of the copy, up to the end of that block. The copy has
        exactly its blocks; base is what the counter would be without them. */
    method AppendBlock(ghost base: int, inum: int, din: Inode, off: int, p: seq<int>, a: int)
      returns (ok: bool, d: Inode, n1: int)
      requires Building(inum, din) && IsBytes(p) && 0 <= off && 0 <= a < |p| && off + a < MAXBYTES
      requires FilledTo(T(inum, din), inum, off + a) && freeblock == base + Blocks(off + a)
      modifies this`freeblock, this`role, this`disk
      ensures 0 < n1 == Chunk(off, |p|, a) <= |p| - a && off + a + n1 <= MAXBYTES
      ensures if ok then freeblock == base + Blocks(off + a + n1) else base + Blocks(off + |p|) > FSSIZE
      ensures ok ==> Building(inum, d) && ChunkIn(old(T(inum, din)), T(inum, d), inum, off, p, a, n1)
    {
      var fbn := (off + a) / BSIZE;
      n1 := Min(|p| - a, (fbn + 1) * BSIZE - (off + a));
      var x;
      d, x := BlockFor(inum, din, fbn);
      ok := x < FSSIZE;
      ChunkCounts(old(T(inum, din)), inum, off, |p|, a, n1, ok, base, freeblock);
      if ok {
        StoreChunk(inum, d, x, off, p, a, n1, old(T(inum, din)));
      }
    }

    /** The chunk's bytes go to the block found for them. */
    method StoreChunk(inum: int, din: Inode, x: int, off: int, p: seq<int>, a: int, n1: int, ghost s: Fs)
      requires Building(inum, din) && IsBytes(p) && 0 <= off && 0 <= a < a + n1 <= |p| && off + a < MAXBYTES
      requires (off + a) % BSIZE + n1 <= BSIZE && 0 < x == At(T(inum, din), inum, SlotNo((off + a) / BSIZE)) < FSSIZE
      requires Shape(s) && inum < |s.inode| == |inode| && Adds(s, T(inum, din), inum)
      requires Only(s, T(inum, din), inum, SlotNo((off + a) / BSIZE))
      modifies this`disk
      ensures Building(inum, din) && ChunkIn(s, T(inum, din), inum, off, p, a, n1)
    {
      var fbn := (off + a) / BSIZE;
      ghost var m := T(inum, din);
      StoreAfter(s, m, inum, off, p, a, n1);
      OnlyJoin(s, m, PutData(m, x, Splice(m.disk[x], (off + a) % BSIZE, p, a, n1)), inum, SlotNo(fbn), SlotNo(fbn));
      assert disk[x] == m.disk[x] && IsBlock(disk[x]);
      BitmapApart(disk, Bitmap(freeblock), x, Splice(disk[x], (off + a) % BSIZE, p, a, n1));
      disk := disk[x := Splice(disk[x], off + a - fbn * BSIZE, p, a, n1)];
      assert T(inum, din) == PutData(m, x, disk[x]);
    }

    /** Appends p to file inum; gives up when the file or the image has no room for it. */
    method Iappend(inum: int, p: seq<int>) returns (ok: bool)
      requires Valid() && 0 <= inum < NINODES && IsBytes(p)
      modifies this`freeblock, this`role, this`disk, this`inode
      ensures ok <==> Fits(old(inode[inum].size), |p|, old(freeblock))
      ensures ok ==> freeblock == old(freeblock) + Needed(old(inode[inum].size), |p|)
      ensures ok ==> Valid() && Appended(old(S()), S(), inum, p)
    {
      ghost var s := S();
      var din, off := inode[inum], inode[inum].size;
      assert T(inum, din) == s;
      ok, din := AppendBlocks(inum, din, p);
      if !ok {
        return;
      }
      ghost var m := T(inum, din);
      AppendDone(s, m, inum, p);
      din := din.(size := off + |p|);
      inode := inode[inum := din];
      assert S() == Resize(m, inum, off + |p|);
    }

    /** That turn in a loop that started in s. */
    method AppendNext(ghost s: Fs, ghost base: int, inum: int, din: Inode, off: int, p: seq<int>, a: int)
      returns (ok: bool, d: Inode, n1: int)
      requires Building(inum, din) && IsBytes(p) && 0 <= a < |p| && off + a < MAXBYTES
      requires Shape(s) && inum < |s.inode| && s.inode[inum].size == off
      requires Appending(s, T(inum, din), inum, p, a) && freeblock == base + Blocks(off + a)
      modifies this`freeblock, this`role, this`disk
      ensures 0 < n1 <= |p| - a && off + a + n1 <= MAXBYTES
      ensures if ok then freeblock == base + Blocks(off + a + n1) else base + Blocks(off + |p|) > FSSIZE
      ensures ok ==> Building(inum, d) && Appending(s, T(inum, d), inum, p, a + n1)
    {
      ghost var m := T(inum, din);
      ok, d, n1 := AppendBlock(base, inum, din, off, p, a);
      if ok {
        AppendTurn(s, m, T(inum, d), inum, p, a, n1);
      }
    }

    /** iappend's loop, on the inode copy. */
    method AppendBlocks(inum: int, din0: Inode, p: seq<int>) returns (ok: bool, din: Inode)
      requires Building(inum, din0) && IsBytes(p) && Exact(T(inum, din0), inum)
      modifies this`freeblock, this`role, this`disk
      ensures ok <==> Fits(din0.size, |p|, old(freeblock))
      ensures ok ==> freeblock == old(freeblock) + Needed(din0.size, |p|)
      ensures ok ==> Building(inum, din) && Appending(old(T(inum, din0)), T(inum, din), inum, p, |p|)
    {
      ghost var s := T(inum, din0);
      din := din0;
      var off, a := din.size, 0;
      ghost var base := freeblock - Blocks(off);
      NothingYet(s, inum, p);
      while a < |p|
        invariant 0 <= a <= |p| && off + a <= MAXBYTES && Building(inum, din)
        invariant Appending(s, T(inum, din), inum, p, a) && freeblock == base + Blocks(off + a)
      {
        if (off + a) / BSIZE >= MAXFILE {
          return false, din;
        }
        var live, d, n1 := AppendNext(s, base, inum, din, off, p, a);
        if !live {
          return false, d;
        }
        din := d;
        a := a + n1;
      }
      ok := true;
    }

    /** The image as it is on disk. */
    ghost function Real(): Fs
      reads this
    {
      Fs(BMAPSTART, NMETA, disk, inode, role)
    }

    /** The next inode, still empty. */
    method Ialloc() returns (inum: int)
      requires Valid() && 0 <= freeinode < NINODES && inode[freeinode] == EmptyInode()
      modifies this`freeinode, this`inode
      ensures inum == old(freeinode) && freeinode == inum + 1 && Valid() && S() == old(S())
    {
      inum := freeinode;
      freeinode := freeinode + 1;
      assert inode[inum := EmptyInode()] == inode;
      inode := inode[inum := EmptyInode()];
    }

    /** Writes the bitmap of the blocks handed out; from here on the image is a file system. */
    method Balloc()
      requires Sound()
      modifies this`disk
      ensures Real() == old(S()) && Inv(Real())
    {
      var buf := FirstBits(freeblock);
      disk := disk[BMAPSTART := buf];
    }

    /** Copies one host file, read piece by piece, into a new inode with an entry in the root directory. */
    method AddFile(h: HostFile, ghost root: seq<int>) returns (ok: bool)
      requires Valid() && 2 <= freeinode < NINODES && inode[freeinode] == EmptyInode()
      requires HostOk(h) && HasContents(S(), 1, root)
      modifies this`freeinode, this`freeblock, this`role, this`disk, this`inode
      ensures ok <==> FileFits(|root|, Length(h), old(freeblock))
      ensures ok ==> Valid() && freeinode == old(freeinode) + 1
      ensures ok ==> freeblock == old(freeblock) + Needed(|root|, 16) + Blocks(Length(h))
      ensures ok ==> HasContents(S(), 1, root + Dirent(old(freeinode), h.name))
      ensures ok ==> HasContents(S(), old(freeinode), Joined(h.pieces, |h.pieces|))
      ensures ok ==> forall j :: 0 <= j < NINODES && j != 1 && j != old(freeinode) ==> Untouched(old(S()), S(), j)
    {
      ghost var s := S();
      BlocksGrow(0, Length(h));
      var inum := Ialloc();
      ok := Iappend(1, Dirent(inum, h.name));
      if !ok {
        return false;
      }
      ghost var s1 := S();
      AppendContents(s, s1, 1, root, Dirent(inum, h.name));
      EmptyContents(s, inum);
      OtherContents(s, s1, 1, Dirent(inum, h.name), inum, []);
      AllUntouched(s, s1, 1, Dirent(inum, h.name));
      ok := CopyPieces(h, inum, root + Dirent(inum, h.name));
      if ok {
        UntouchedJoin(s, s1, S(), inum);
      }
    }

    /** The copying loop, into the empty file inum; the root directory keeps its contents. */
    method CopyPieces(h: HostFile, inum: int, ghost root: seq<int>) returns (ok: bool)
      requires Valid() && 1 < inum < NINODES && HostOk(h) && HasContents(S(), inum, []) && HasContents(S(), 1, root)
      modifies this`freeblock, this`role, this`disk, this`inode
      ensures ok <==> Length(h) <= MAXBYTES && old(freeblock) + Blocks(Length(h)) <= FSSIZE
      ensures ok ==> Valid() && freeblock == old(freeblock) + Blocks(Length(h))
      ensures ok ==> HasContents(S(), inum, Joined(h.pieces, |h.pieces|)) && HasContents(S(), 1, root)
      ensures ok ==> forall j :: 0 <= j < NINODES && j != 1 && j != inum ==> Untouched(old(S()), S(), j)
    {
      ghost var s := S();
      var k := 0;
      while k < |h.pieces|
        invariant 0 <= k <= |h.pieces| && Valid() && |inode| == NINODES
        invariant freeblock == old(freeblock) + Blocks(|Joined(h.pieces, k)|)
        invariant HasContents(S(), inum, Joined(h.pieces, k)) && HasContents(S(), 1, root)
        invariant forall j :: 0 <= j < NINODES && j != 1 && j != inum ==> Untouched(s, S(), j)
      {
        ghost var s2 := S();
        JoinedGrows(h.pieces, k + 1, |h.pieces|);
        BlocksGrow(|Joined(h.pieces, k + 1)|, Length(h));
        ok := Iappend(inum, h.pieces[k]);
        if !ok {
          return false;
        }
        PieceCopied(s, s2, S(), inum, Joined(h.pieces, k), h.pieces[k], root);
        k := k + 1;
      }
      ok := true;
    }

    /** The root directory with its first two entries. */
    method AddRoot() returns (ok: bool)
      requires Valid() && freeinode == 1 && Blanks(S(), 0)
      modifies this`freeinode, this`freeblock, this`role, this`disk, this`inode
      ensures (ok <==> old(freeblock) < FSSIZE) && (ok ==> freeblock == old(freeblock) + 1)
      ensures ok ==> Valid() && freeinode == 2 && HasContents(S(), 1, Dirent(1, [46]) + Dirent(1, [46, 46]))
      ensures ok ==> Blanks(S(), 2)
    {
      ghost var s := S();
      assert Blank(s, 1);
      var root := Ialloc();
      EmptyContents(s, 1);
      ok := Iappend(root, Dirent(root, [46]));
      if !ok {
        return false;
      }
      ghost var s1 := S();
      AppendContents(s, s1, 1, [], Dirent(1, [46]));
      ok := Iappend(root, Dirent(root, [46, 46]));
      if !ok {
        return false;
      }
      assert [] + Dirent(1, [46]) == Dirent(1, [46]);
      AppendContents(s1, S(), 1, Dirent(1, [46]), Dirent(1, [46, 46]));
      AllUntouched(s, s1, 1, Dirent(1, [46]));
      AllUntouched(s1, S(), 1, Dirent(1, [46, 46]));
      BlanksStay(s, s1, 2);
      BlanksStay(s1, S(), 2);
    }

    /** The first i files are in, and the counter, which started at fb, has moved by exactly their blocks. */
    ghost predicate Copied(files: seq<HostFile>, i: int, fb: int)
      reads this
      requires 0 <= i <= |files| <= NINODES - 2 && forall j :: 0 <= j < |files| ==> HostOk(files[j])
    {
      && Valid() && freeinode == 2 + i && HasContents(S(), 1, Entries(files, i)) && FilesIn(S(), files, i)
      && Blanks(S(), 2 + i) && freeblock == Handed(files, i, fb) && ShortEnough(files, i)
    }

    method AddNext(files: seq<HostFile>, i: int, ghost fb: int) returns (ok: bool, next: int)
      requires 0 <= i < |files| <= NINODES - 2 && (forall j :: 0 <= j < |files| ==> HostOk(files[j])) && Copied(files, i, fb)
      modifies this`freeinode, this`freeblock, this`role, this`disk, this`inode
      ensures next == i + 1 && if ok then Copied(files, next, fb) else !AllFit(files, fb)
    {
      next := i + 1;
      ghost var s := S();
      assert Blank(s, 2 + i);
      NextFits(files, i, fb);
      ok := AddFile(files[i], Entries(files, i));
      if ok {
        FileAdded(s, S(), files, i);
      }
    }

    /** The loop over the host's files. */
    method AddFiles(files: seq<HostFile>, ghost fb: int) returns (ok: bool)
      requires |files| <= NINODES - 2 && (forall j :: 0 <= j < |files| ==> HostOk(files[j])) && Copied(files, 0, fb)
      modifies this`freeinode, this`freeblock, this`role, this`disk, this`inode
      ensures ok <==> AllFit(files, fb)
      ensures ok ==> Copied(files, |files|, fb)
    {
      var i := 0;
      while i < |files|
        invariant 0 <= i <= |files| && Copied(files, i, fb)
      {
        var next;
        ok, next := AddNext(files, i, fb);
        if !ok {
          return false;
        }
        i := next;
      }
      ok := true;
    }

    /** mkfs: the root directory, the files, the padded directory size and the bitmap. */
    method Build(files: seq<HostFile>) returns (ok: bool)
      requires Valid() && freeinode == 1 && Blanks(S(), 0)
      requires |files| <= NINODES - 2 && forall j :: 0 <= j < |files| ==> HostOk(files[j])
      modifies this
      ensures ok <==> AllFit(files, old(freeblock))
      ensures ok ==> Inv(Real()) && freeblock <= FSSIZE
      ensures ok ==> FilesIn(Real(), files, |files|)
      ensures ok ==> |inode| == NINODES && Reads(Real(), 1, 0, Entries(files, |files|))
      ensures ok ==> inode[1].size == (16 * (|files| + 2) / BSIZE + 1) * BSIZE
      ensures ok ==> (NoHoles(Real(), 1) <==> |files| % 64 != 62)
    {
      BlocksGrow(16, 16 * (|files| + 2));
      TotalGrows(files, 0, |files|);
      ok := AddRoot();
      if !ok {
        return false;
      }
      assert Blocks(32) == 1 && Handed(files, 0, old(freeblock)) == freeblock;
      ok := AddFiles(files, old(freeblock));
      if !ok {
        return false;
      }
      ghost var s := S();
      PadRoot(files);
      FilesStay(s, S(), files, |files|, 1);
      Balloc();
    }

    /** Rounds the root directory's size up past its end to a block boundary. */
    method PadRoot(ghost files: seq<HostFile>)
      requires |files| <= NINODES - 2 && forall j :: 0 <= j < |files| ==> HostOk(files[j])
      requires Valid() && HasContents(S(), 1, Entries(files, |files|))
      modifies this`inode
      ensures Sound() && Reads(S(), 1, 0, Entries(files, |files|))
      ensures inode[1].size == (16 * (|files| + 2) / BSIZE + 1) * BSIZE
      ensures NoHoles(S(), 1) <==> |files| % 64 != 62
      ensures forall j :: 0 <= j < NINODES && j != 1 ==> Untouched(old(S()), S(), j)
    {
      ghost var s := S();
      var din := inode[1];
      var off := din.size;
      off := (off / BSIZE + 1) * BSIZE;
      din := din.(size := off);
      inode := inode[1 := din];
      Padded(s, 1, off, Entries(files, |files|));
      assert S() == Resize(s, 1, off);
      RootHole(|files|);
    }
  }

  /** The bytes of the root directory: itself twice, then one entry for each of the first k files. */
  function Entries(files: seq<HostFile>, k: int): (c: seq<int>)
    requires 0 <= k <= |files| <= NINODES - 2 && forall j :: 0 <= j < |files| ==> HostOk(files[j])
    ensures |c| == 16 * (k + 2)
    decreases k
  {
    if k == 0 then Dirent(1, [46]) + Dirent(1, [46, 46])
    else Entries(files, k - 1) + Dirent(k + 1, files[k - 1].name)
  }

  function EmptyInode(): Inode { Inode(0, seq(NDIRECT + 1, _ => 0)) }

  /** A file of the host: its name and what each read of it returned. */
  datatype HostFile = HostFile(name: seq<int>, pieces: seq<seq<int>>)

  const DIRSIZ := 14

  predicate HostOk(h: HostFile) {
    |h.name| <= DIRSIZ && IsBytes(h.name) && forall k :: 0 <= k < |h.pieces| ==> IsBytes(h.pieces[k])
  }

  /** A directory entry: a 16-bit inode number and a name padded with zeros. */
  function Dirent(inum: int, name: seq<int>): (e: seq<int>)
    requires 0 <= inum < 65536 && |name| <= DIRSIZ && IsBytes(name)
    ensures |e| == 16 && IsBytes(e)
  {
    [inum % 256, inum / 256] + name + seq(DIRSIZ - |name|, _ => 0)
  }

  /** What the kernel finds in a directory entry. */
  function InumOf(e: seq<int>): int
    requires |e| == 16
  {
    e[0] + 256 * e[1]
  }

  /** The name, from byte k of the entry on: up to a zero, or all there is room for. */
  function NameOf(e: seq<int>, k: int): seq<int>
    requires |e| == 16 && 0 <= k <= 16
    decreases 16 - k
  {
    if k == 16 || e[k] == 0 then [] else [e[k]] + NameOf(e, k + 1)
  }

  predicate NoZero(name: seq<int>) { forall k :: 0 <= k < |name| ==> name[k] != 0 }

  lemma {:induction false} NameBack(e: seq<int>, name: seq<int>, k: int)
    requires |e| == 16 && 0 <= k <= |name| <= DIRSIZ && NoZero(name)
    requires forall m :: 2 <= m < 16 ==> e[m] == if m - 2 < |name| then name[m - 2] else 0
    ensures NameOf(e, 2 + k) == name[k..]
    decreases |name| - k
  {
    if k < |name| {
      assert e[2 + k] == name[k];
      NameBack(e, name, k + 1);
    } else {
      assert 2 + k < 16 ==> e[2 + k] == 0;
    }
  }

  /** Inode number and name read back out of an entry. */
  lemma DirentReadsBack(inum: int, name: seq<int>)
    requires 0 <= inum < 65536 && |name| <= DIRSIZ && IsBytes(name) && NoZero(name)
    ensures InumOf(Dirent(inum, name)) == inum && NameOf(Dirent(inum, name), 2) == name
  {
    NameBack(Dirent(inum, name), name, 0);
    assert name[0..] == name;
  }

  /** The k-th entry of a directory. */
  function EntryAt(c: seq<int>, k: int): seq<int>
    requires 0 <= k && 16 * k + 16 <= |c|
  {
    c[16 * k..16 * k + 16]
  }

  lemma {:induction false} EntryIs(files: seq<HostFile>, k: int, j: int)
    requires 0 <= j < k <= |files| <= NINODES - 2 && forall m :: 0 <= m < |files| ==> HostOk(files[m])
    ensures EntryAt(Entries(files, k), j + 2) == Dirent(j + 2, files[j].name)
    decreases k
  {
    var before, last := Entries(files, k - 1), Dirent(k + 1, files[k - 1].name);
    if j == k - 1 {
      assert EntryAt(before + last, j + 2) == last;
    } else {
      EntryIs(files, k - 1, j);
      assert EntryAt(before + last, j + 2) == EntryAt(before, j + 2);
    }
    hide Dirent;
  }

  lemma {:induction false} FirstEntries(files: seq<HostFile>, k: int)
    requires 0 <= k <= |files| <= NINODES - 2 && forall m :: 0 <= m < |files| ==> HostOk(files[m])
    ensures var c := Entries(files, k); EntryAt(c, 0) == Dirent(1, [46]) && EntryAt(c, 1) == Dirent(1, [46, 46])
    decreases k
  {
    hide Dirent;
    if k > 0 {
      FirstEntries(files, k - 1);
      var before, last := Entries(files, k - 1), Dirent(k + 1, files[k - 1].name);
      assert EntryAt(before + last, 0) == EntryAt(before, 0) && EntryAt(before + last, 1) == EntryAt(before, 1);
    }
  }

  /** The root directory names itself twice and then every host file by the inode that holds its contents. */
  lemma RootNames(files: seq<HostFile>, j: int)
    requires |files| <= NINODES - 2 && forall m :: 0 <= m < |files| ==> HostOk(files[m])
    requires 0 <= j < |files| && NoZero(files[j].name)
    ensures var c := Entries(files, |files|);
            && InumOf(EntryAt(c, j + 2)) == 2 + j && NameOf(EntryAt(c, j + 2), 2) == files[j].name
            && InumOf(EntryAt(c, 0)) == 1 == InumOf(EntryAt(c, 1))
            && NameOf(EntryAt(c, 0), 2) == [46] && NameOf(EntryAt(c, 1), 2) == [46, 46]
  {
    hide Dirent, NameOf, InumOf;
    EntryIs(files, |files|, j);
    FirstEntries(files, |files|);
    DirentReadsBack(j + 2, files[j].name);
    DirentReadsBack(1, [46]);
    DirentReadsBack(1, [46, 46]);
  }

  function Joined(pieces: seq<seq<int>>, k: int): seq<int>
    requires 0 <= k <= |pieces|
    decreases k
  {
    if k == 0 then [] else Joined(pieces, k - 1) + pieces[k - 1]
  }

  /** File i is c, in exactly the blocks that takes. */
  ghost predicate HasContents(s: Fs, i: int, c: seq<int>)
    requires Shape(s)
  {
    0 <= i < |s.inode| && s.inode[i].size == |c| && Reads(s, i, 0, c) && Exact(s, i)
  }

  ghost predicate Untouched(s: Fs, t: Fs, j: int)
    requires Shape(s) && Shape(t)
  {
    0 <= j < |s.inode| == |t.inode| && t.inode[j] == s.inode[j] && (Exact(s, j) ==> Exact(t, j)) &&
    forall o {:trigger Byte(t, j, o)} :: 0 <= o < MAXBYTES ==> Byte(t, j, o) == Byte(s, j, o)
  }

  lemma EmptyContents(s: Fs, i: int)
    requires Shape(s) && 0 <= i < |s.inode| && s.inode[i] == EmptyInode() && Exact(s, i)
    ensures HasContents(s, i, [])
  {
  }

  lemma AppendContents(s: Fs, t: Fs, i: int, c: seq<int>, p: seq<int>)
    requires Shape(s) && Shape(t) && HasContents(s, i, c) && Appended(s, t, i, p)
    ensures HasContents(t, i, c + p)
  {
    hide Byte, Exact;
    forall k | 0 <= k < |c + p| ensures (c + p)[k] == Byte(t, i, 0 + k) {
      if k < |c| {
        assert c[k] == Byte(s, i, 0 + k);
      }
    }
  }

  lemma OtherContents(s: Fs, t: Fs, i: int, p: seq<int>, j: int, c: seq<int>)
    requires Shape(s) && Shape(t) && 0 <= i < |s.inode| && i != j && HasContents(s, j, c) && Appended(s, t, i, p)
    ensures HasContents(t, j, c)
  {
    hide Byte, Exact;
    forall k | 0 <= k < |c| ensures c[k] == Byte(t, j, 0 + k) {
      assert c[k] == Byte(s, j, 0 + k);
    }
  }

  lemma UntouchedContents(s: Fs, t: Fs, j: int, c: seq<int>)
    requires Shape(s) && Shape(t) && HasContents(s, j, c) && Untouched(s, t, j)
    ensures HasContents(t, j, c)
  {
    hide Byte, Exact;
    forall k | 0 <= k < |c| ensures c[k] == Byte(t, j, 0 + k) {
      assert c[k] == Byte(s, j, 0 + k);
    }
  }

  lemma AllUntouched(s: Fs, t: Fs, i: int, p: seq<int>)
    requires Shape(s) && Shape(t) && 0 <= i < |s.inode| && Appended(s, t, i, p)
    ensures forall j :: 0 <= j < |s.inode| && j != i ==> Untouched(s, t, j)
  {
    hide Byte, Exact;
  }

  lemma RootHole(n: int)
    requires 0 <= n
    ensures 16 * (n + 2) % BSIZE != 0 <==> n % 64 != 62
  {
  }

  lemma Padded(s: Fs, i: int, n: int, c: seq<int>)
    requires Inv(s) && HasContents(s, i, c) && n == (|c| / BSIZE + 1) * BSIZE <= MAXBYTES
    ensures var t := Resize(s, i, n); Inv(t) && Reads(t, i, 0, c) && (NoHoles(t, i) <==> |c| % BSIZE != 0)
    ensures var t := Resize(s, i, n); forall j :: 0 <= j < |s.inode| && j != i ==> Untouched(s, t, j)
  {
    var t := Resize(s, i, n);
    ResizeKeeps(s, i, n);
    hide Byte, At;
    forall j | 0 <= j < |s.inode| && j != i ensures Untouched(s, t, j) {
      if Exact(s, j) {
        OtherExact(s, t, j);
      }
    }
    forall k | 0 <= k < |c| ensures c[k] == Byte(t, i, 0 + k) {
      assert c[k] == Byte(s, i, 0 + k);
    }
    var last := |c| / BSIZE;
    assert At(t, i, SlotNo(last)) == At(s, i, SlotNo(last));
    if |c| % BSIZE != 0 {
      forall b | 0 <= b < MAXFILE && b * BSIZE < n ensures At(t, i, SlotNo(b)) != 0 {
        assert b * BSIZE < |c|;
        assert At(t, i, SlotNo(b)) == At(s, i, SlotNo(b));
      }
    } else {
      assert last * BSIZE == |c| < n;
      assert At(t, i, SlotNo(last)) == 0;
    }
  }

  ghost predicate Blank(s: Fs, i: int)
    requires Shape(s) && 0 <= i < |s.inode|
  {
    s.inode[i] == EmptyInode() && Exact(s, i)
  }

  ghost predicate Blanks(s: Fs, first: int) {
    Shape(s) && |s.inode| == NINODES && forall i :: 0 <= i < NINODES && first <= i ==> Blank(s, i)
  }

  /** The first k host files are in inodes 2, 3, ... */
  ghost predicate FilesIn(s: Fs, files: seq<HostFile>, k: int)
    requires 0 <= k <= |files|
  {
    Shape(s) && forall j :: 0 <= j < k ==> HasContents(s, 2 + j, Joined(files[j].pieces, |files[j].pieces|))
  }

  lemma BlanksStay(s: Fs, t: Fs, first: int)
    requires first >= 0 && Blanks(s, first) && Shape(t) && |t.inode| == NINODES
    requires forall j :: first <= j < NINODES ==> Untouched(s, t, j)
    ensures Blanks(t, first)
  {
    hide Exact;
    forall i | first <= i < NINODES ensures Blank(t, i) {
      assert Blank(s, i) && Untouched(s, t, i);
    }
  }

  lemma FilesStay(s: Fs, t: Fs, files: seq<HostFile>, k: int, x: int)
    requires 0 <= k <= |files| <= NINODES - 2 && FilesIn(s, files, k) && Shape(t) && (x == 1 || x == 2 + k)
    requires forall j :: 0 <= j < NINODES && j != 1 && j != x ==> Untouched(s, t, j)
    ensures FilesIn(t, files, k)
  {
    forall j | 0 <= j < k ensures HasContents(t, 2 + j, Joined(files[j].pieces, |files[j].pieces|)) {
      assert Untouched(s, t, 2 + j);
      UntouchedContents(s, t, 2 + j, Joined(files[j].pieces, |files[j].pieces|));
    }
  }

  lemma FileAdded(s: Fs, t: Fs, files: seq<HostFile>, k: int)
    requires 0 <= k < |files| <= NINODES - 2 && FilesIn(s, files, k) && Blanks(s, 2 + k) && Shape(t) && |t.inode| == NINODES
    requires forall j :: 0 <= j < NINODES && j != 1 && j != 2 + k ==> Untouched(s, t, j)
    requires HasContents(t, 2 + k, Joined(files[k].pieces, |files[k].pieces|))
    ensures FilesIn(t, files, k + 1) && Blanks(t, 3 + k)
  {
    FilesStay(s, t, files, k, 2 + k);
    BlanksStay(s, t, 3 + k);
  }

  lemma UntouchedJoin(s: Fs, m: Fs, t: Fs, i: int)
    requires Shape(s) && Shape(m) && Shape(t) && |s.inode| == |m.inode| == |t.inode| == NINODES
    requires forall j :: 0 <= j < NINODES && j != 1 && j != i ==> Untouched(s, m, j) && Untouched(m, t, j)
    ensures forall j :: 0 <= j < NINODES && j != 1 && j != i ==> Untouched(s, t, j)
  {
    hide Byte, Exact;
    forall j | 0 <= j < NINODES && j != 1 && j != i ensures Untouched(s, t, j) {
      assert Untouched(s, m, j) && Untouched(m, t, j);
      forall o | 0 <= o < MAXBYTES ensures Byte(t, j, o) == Byte(s, j, o) {
        assert Byte(m, j, o) == Byte(s, j, o);
      }
    }
  }

  lemma PieceCopied(s: Fs, m: Fs, t: Fs, i: int, c: seq<int>, p: seq<int>, root: seq<int>)
    requires Shape(s) && Shape(m) && Shape(t) && |s.inode| == |m.inode| == |t.inode| == NINODES && 1 < i < NINODES
    requires forall j :: 0 <= j < NINODES && j != 1 && j != i ==> Untouched(s, m, j)
    requires HasContents(m, i, c) && HasContents(m, 1, root) && Appended(m, t, i, p)
    ensures HasContents(t, i, c + p) && HasContents(t, 1, root)
    ensures forall j :: 0 <= j < NINODES && j != 1 && j != i ==> Untouched(s, t, j)
  {
    AppendContents(m, t, i, c, p);
    OtherContents(m, t, i, p, 1, root);
    AllUntouched(m, t, i, p);
    hide HasContents, Appended, Untouched;
    UntouchedJoin(s, m, t, i);
  }

  /** The blocks of file i are exactly those its size calls for. */
  ghost predicate Exact(s: Fs, i: int)
    requires Shape(s) && 0 <= i < |s.inode|
  {
    NoHoles(s, i) && FilledTo(s, i, s.inode[i].size)
  }

  /** The file has an indirect block exactly if o bytes need one. */
  ghost predicate IndAt(s: Fs, i: int, o: int)
    requires Shape(s) && 0 <= i < |s.inode|
  {
    At(s, i, NDIRECT) != 0 <==> o > NDIRECT * BSIZE
  }

  ghost predicate AllExact(s: Fs) {
    Shape(s) && forall i {:trigger Exact(s, i)} :: 0 <= i < |s.inode| ==> Exact(s, i)
  }

  lemma StillExact(s: Fs, t: Fs, i: int, p: seq<int>)
    requires AllExact(s) && Shape(t) && 0 <= i < |s.inode| && Appended(s, t, i, p)
    ensures AllExact(t)
  {
    hide Exact;
    forall j | 0 <= j < |t.inode| ensures Exact(t, j) {
      assert Exact(s, j);
    }
  }

  // Counting blocks.

  /** The data blocks of a file of n bytes. */
  function DataBlocks(n: int): int { if n <= 0 then 0 else 1 + DataBlocks(n - BSIZE) }

  /** All its blocks: an indirect one comes with the first byte past the direct ones. */
  function Blocks(n: int): int { DataBlocks(n) + if n > NDIRECT * BSIZE then 1 else 0 }

  /** The blocks an append of len bytes to size bytes takes. */
  function Needed(size: int, len: int): int { Blocks(size + len) - Blocks(size) }

  /** An append fits in the file and in the image. */
  predicate Fits(size: int, len: int, fb: int) { size + len <= MAXBYTES && fb + Needed(size, len) <= FSSIZE }

  function Length(h: HostFile): int { |Joined(h.pieces, |h.pieces|)| }

  /** So do a directory entry and then a whole file. */
  predicate FileFits(root: int, len: int, fb: int) {
    root + 16 <= MAXBYTES && len <= MAXBYTES && fb + Needed(root, 16) + Blocks(len) <= FSSIZE
  }

  function Total(files: seq<HostFile>, k: int): int
    requires 0 <= k <= |files|
    decreases k
  {
    if k == 0 then 0 else Total(files, k - 1) + Blocks(Length(files[k - 1]))
  }

  ghost predicate ShortEnough(files: seq<HostFile>, k: int)
    requires 0 <= k <= |files|
  {
    forall j :: 0 <= j < k ==> Length(files[j]) <= MAXBYTES
  }

  /** No file is too long, and the root directory and all files fit in the blocks from fb on. */
  ghost predicate AllFit(files: seq<HostFile>, fb: int) {
    ShortEnough(files, |files|) && Handed(files, |files|, fb) <= FSSIZE
  }

  /** The counter once the root directory and the first k files are in, when it started at fb. */
  function Handed(files: seq<HostFile>, k: int, fb: int): int
    requires 0 <= k <= |files|
  {
    fb + Blocks(16 * (k + 2)) + Total(files, k)
  }

  lemma NextFits(files: seq<HostFile>, i: int, fb: int)
    requires 0 <= i < |files| <= NINODES - 2 && ShortEnough(files, i)
    ensures var n, now := Length(files[i]), Handed(files, i, fb);
            && (!FileFits(16 * (i + 2), n, now) ==> !AllFit(files, fb))
            && (FileFits(16 * (i + 2), n, now) ==> ShortEnough(files, i + 1))
            && now + Needed(16 * (i + 2), 16) + Blocks(n) == Handed(files, i + 1, fb)
  {
    hide Blocks, DataBlocks, Length;
    BlocksGrow(16 * (i + 3), 16 * (|files| + 2));
    TotalGrows(files, i + 1, |files|);
    assert 16 * (i + 2) + 16 == 16 * (i + 3);
  }

  lemma BlocksGrow(a: int, b: int)
    requires 0 <= a <= b
    ensures 0 <= Blocks(a) <= Blocks(b) && (a == 0 ==> Blocks(a) == 0)
  {
    DataGrows(a, b);
  }

  lemma {:induction false} DataGrows(a: int, b: int)
    requires a <= b
    ensures 0 <= DataBlocks(a) <= DataBlocks(b)
    decreases b
  {
    if b > 0 { DataGrows(a - BSIZE, b - BSIZE); }
  }

  lemma {:induction false} DataStep(o: int, n: int)
    requires 0 <= o && 0 < n <= BSIZE - o % BSIZE
    ensures DataBlocks(o + n) == DataBlocks(o) + if o % BSIZE == 0 then 1 else 0
    decreases o
  {
    if o >= BSIZE {
      DivMod(o - BSIZE, BSIZE, o / BSIZE - 1, o % BSIZE);
      DataStep(o - BSIZE, n);
      assert o + n - BSIZE == o - BSIZE + n;
    }
  }

  /** Within a block only its first byte takes blocks: one, or two when it is the first beyond the direct ones. */
  lemma BlocksStep(o: int, n: int)
    requires 0 <= o && 0 < n <= BSIZE - o % BSIZE
    ensures Blocks(o + n) == Blocks(o) + (if o % BSIZE == 0 then 1 else 0) + if o == NDIRECT * BSIZE then 1 else 0
  {
    DataStep(o, n);
  }

  lemma {:induction false} JoinedGrows(pieces: seq<seq<int>>, j: int, k: int)
    requires 0 <= j <= k <= |pieces|
    ensures |Joined(pieces, j)| <= |Joined(pieces, k)|
    decreases k
  {
    if j < k { JoinedGrows(pieces, j, k - 1); }
  }

  lemma {:induction false} TotalGrows(files: seq<HostFile>, j: int, k: int)
    requires 0 <= j <= k <= |files|
    ensures 0 <= Total(files, j) <= Total(files, k)
    decreases k
  {
    if k > 0 {
      BlocksGrow(0, Length(files[k - 1]));
      TotalGrows(files, if j < k then j else k - 1, k - 1);
    }
  }

  /** In a file with exactly its blocks, what bmap would have to allocate next is what the byte counts say. */
  lemma ExactlyMissing(m: Fs, i: int, o: int, n: int)
    requires Shape(m) && 0 <= i < |m.inode| && FilledTo(m, i, o) && 0 <= o < MAXBYTES && 0 < n <= BSIZE - o % BSIZE
    ensures Missing(m, i, o / BSIZE) == Blocks(o + n) - Blocks(o)
  {
    var bn := o / BSIZE;
    BlocksStep(o, n);
    hide Blocks, DataBlocks;
    if o % BSIZE == 0 {
      assert At(m, i, SlotNo(bn)) == 0;
    } else {
      assert At(m, i, SlotNo(bn)) != 0;
    }
  }

  /** The counter has moved by what byte o was missing, or would have moved past the end. */
  ghost predicate Charged(ok: bool, m: Fs, i: int, o: int, fb0: int, fb1: int)
    requires Shape(m) && 0 <= i < |m.inode| && 0 <= o < MAXBYTES
  {
    if ok then fb1 == fb0 + Missing(m, i, o / BSIZE) else fb0 + Missing(m, i, o / BSIZE) > FSSIZE
  }

  lemma ChunkCounts(m: Fs, i: int, off: int, len: int, a: int, n: int, ok: bool, base: int, fb: int)
    requires Shape(m) && 0 <= i < |m.inode| && 0 <= off && 0 <= a < len && off + a < MAXBYTES
    requires FilledTo(m, i, off + a) && n == Chunk(off, len, a)
    requires Charged(ok, m, i, off + a, base + Blocks(off + a), fb)
    ensures 0 < n <= len - a && off + a + n <= MAXBYTES
    ensures if ok then fb == base + Blocks(off + a + n) else base + Blocks(off + len) > FSSIZE
  {
    assert off + a + n <= MAXBYTES && 0 < n <= BSIZE - (off + a) % BSIZE && n <= len - a;
    hide FilledTo, Missing, Blocks, DataBlocks, Chunk;
    ExactlyMissing(m, i, off + a, n);
    BlocksGrow(off + a + n, off + len);
  }

  /** The next chunk of p is in its block. */
  ghost predicate ChunkIn(m: Fs, t: Fs, i: int, off: int, p: seq<int>, a: int, n: int)
    requires Shape(m) && Shape(t) && 0 <= i < |m.inode| && 0 <= off && 0 <= a < |p| && off + a < MAXBYTES
    requires 0 < n <= |p| - a
  {
    && Keeps(m, t, i) && Written(m, t, i, off, p, a, a + n)
    && At(t, i, SlotNo((off + a) / BSIZE)) != 0 && Only(m, t, i, SlotNo((off + a) / BSIZE))
  }

  /** Inode i grew by p, and nothing else changed. */
  ghost predicate Appended(s: Fs, t: Fs, i: int, p: seq<int>)
    requires Shape(s) && Shape(t) && 0 <= i < |s.inode|
  {
    && Written(s, t, i, s.inode[i].size, p, 0, |p|) && t.inode[i].size == s.inode[i].size + |p|
    && (forall j :: 0 <= j < |s.inode| && j != i ==> t.inode[j] == s.inode[j])
    && (forall j :: 0 <= j < |s.inode| && Exact(s, j) ==> Exact(t, j))
  }

  /** a bytes of p are in, the inode's size not yet. */
  ghost predicate Appending(s: Fs, m: Fs, i: int, p: seq<int>, a: int)
    requires Shape(s) && Shape(m) && 0 <= i < |s.inode| && 0 <= a <= |p|
  {
    && Keeps(s, m, i) && Written(s, m, i, s.inode[i].size, p, 0, a)
    && FilledTo(m, i, s.inode[i].size + a)
  }

  /** The blocks of inode i are exactly those o bytes call for. */
  ghost predicate FilledTo(s: Fs, i: int, o: int)
    requires Shape(s) && 0 <= i < |s.inode|
  {
    MappedTo(s, i, o) && NoneFrom(s, i, o) && IndAt(s, i, o)
  }

  lemma NothingYet(s: Fs, i: int, p: seq<int>)
    requires Shape(s) && 0 <= i < |s.inode| && Exact(s, i)
    ensures Appending(s, s, i, p, 0)
  {
  }

  lemma AppendTurn(s: Fs, m: Fs, t: Fs, i: int, p: seq<int>, a: int, n0: int)
    requires Shape(s) && Shape(m) && Shape(t) && 0 <= i < |s.inode| == |m.inode| && 0 <= a < |p|
    requires s.inode[i].size + a < MAXBYTES && n0 == Chunk(s.inode[i].size, |p|, a)
    requires Appending(s, m, i, p, a) && ChunkIn(m, t, i, s.inode[i].size, p, a, n0)
    ensures Appending(s, t, i, p, a + n0)
  {
    var o := s.inode[i].size + a;
    KeepsJoin(s, m, t, i);
    WrittenJoin(s, m, t, i, s.inode[i].size, p, 0, a, a + n0);
    MappedTurn(m, t, i, o, n0);
    IndTurn(m, t, i, o, n0);
    NoneTurn(m, t, i, o, n0);
    hide Keeps, Written, MappedTo, IndAt, NoneFrom, Only;
  }

  lemma NoneTurn(m: Fs, t: Fs, i: int, o: int, n: int)
    requires Shape(m) && Shape(t) && 0 <= i < |m.inode| == |t.inode| && 0 <= o < MAXBYTES && 0 < n <= BSIZE - o % BSIZE
    requires Only(m, t, i, SlotNo(o / BSIZE))
    ensures NoneFrom(m, i, o) ==> NoneFrom(t, i, o + n)
  {
    if NoneFrom(m, i, o) {
      forall b | 0 <= b < MAXFILE && o + n <= b * BSIZE ensures At(t, i, SlotNo(b)) == 0 {
        assert At(m, i, SlotNo(b)) == 0;
      }
    }
  }

  lemma IndTurn(m: Fs, t: Fs, i: int, o: int, n: int)
    requires Shape(m) && Shape(t) && 0 <= i < |m.inode| == |t.inode| && 0 <= o < MAXBYTES && 0 < n <= BSIZE - o % BSIZE
    requires Only(m, t, i, SlotNo(o / BSIZE)) && At(t, i, SlotNo(o / BSIZE)) != 0
    ensures IndAt(m, i, o) ==> IndAt(t, i, o + n)
  {
    if o / BSIZE < NDIRECT {
      assert At(t, i, NDIRECT) == At(m, i, NDIRECT);
    }
  }

  lemma AppendDone(s: Fs, m: Fs, i: int, p: seq<int>)
    requires Shape(s) && Inv(m) && 0 <= i < |s.inode| && s.inode[i].size + |p| <= MAXBYTES
    requires Appending(s, m, i, p, |p|)
    ensures var t := Resize(m, i, s.inode[i].size + |p|); Inv(t) && Appended(s, t, i, p) && (AllExact(s) ==> AllExact(t))
  {
    var t := Resize(m, i, s.inode[i].size + |p|);
    ResizeKeeps(m, i, s.inode[i].size + |p|);
    hide Word, BitOn, At, Byte;
    forall j | 0 <= j < |s.inode| && Exact(s, j) ensures Exact(t, j) {
      if j == i {
        SlotsExact(m, t, i);
      } else {
        forall k | 0 <= k < SLOTS ensures At(t, j, k) == At(s, j, k) {
          assert At(t, j, k) == At(m, j, k);
        }
        OtherExact(s, t, j);
      }
    }
    if AllExact(s) {
      StillExact(s, t, i, p);
    }
  }

  lemma SlotsExact(m: Fs, t: Fs, i: int)
    requires Shape(m) && Shape(t) && SameSlots(m, t) && 0 <= i < |m.inode|
    requires FilledTo(m, i, t.inode[i].size)
    ensures Exact(t, i)
  {
    hide At;
    assert At(t, i, NDIRECT) == At(m, i, NDIRECT);
    forall n | 0 <= n < MAXFILE ensures At(t, i, SlotNo(n)) == At(m, i, SlotNo(n)) {
    }
  }

  lemma OtherExact(s: Fs, t: Fs, j: int)
    requires Shape(s) && Shape(t) && 0 <= j < |s.inode| == |t.inode| && t.inode[j].size == s.inode[j].size && Exact(s, j)
    requires forall k {:trigger At(t, j, k)} :: 0 <= k < SLOTS ==> At(t, j, k) == At(s, j, k)
    ensures Exact(t, j)
  {
    hide At;
    assert At(t, j, NDIRECT) == At(s, j, NDIRECT);
    forall n | 0 <= n < MAXFILE ensures At(t, j, SlotNo(n)) == At(s, j, SlotNo(n)) {
    }
  }

  /** Inode i keeps its blocks and may gain some, and every other inode keeps exactly its own. */
  ghost predicate Keeps(s: Fs, t: Fs, i: int)
    requires Shape(s) && Shape(t) && 0 <= i < |s.inode|
  {
    && Grows(s, t, i)
    && (forall j, k {:trigger At(t, j, k)} :: 0 <= j < |s.inode| && j != i && 0 <= k < SLOTS ==> At(t, j, k) == At(s, j, k))
  }

  /** Slot k apart, and the indirect slot when slot k needs it, the slots of inode i are as they were. */
  ghost predicate Only(s: Fs, t: Fs, i: int, k: int)
    requires Shape(s) && Shape(t) && 0 <= i < |s.inode| == |t.inode|
  {
    forall l {:trigger At(t, i, l)} :: 0 <= l < SLOTS && l != k && (l != NDIRECT || k < NDIRECT) ==>
      At(t, i, l) == At(s, i, l)
  }

  /** No block of file i lies wholly past byte o. */
  ghost predicate NoneFrom(s: Fs, i: int, o: int)
    requires Shape(s) && 0 <= i < |s.inode|
  {
    forall n {:trigger SlotNo(n)} :: 0 <= n < MAXFILE && o <= n * BSIZE ==> At(s, i, SlotNo(n)) == 0
  }

  ghost predicate Adds(s: Fs, t: Fs, i: int)
    requires Shape(s) && Shape(t) && 0 <= i < |s.inode|
  {
    SameFiles(s, t) && Keeps(s, t, i)
  }

  lemma KeepsJoin(s: Fs, m: Fs, t: Fs, i: int)
    requires Shape(s) && Shape(m) && Shape(t) && 0 <= i < |s.inode| && Keeps(s, m, i) && Keeps(m, t, i)
    ensures Keeps(s, t, i)
  {
    GrowsJoin(s, m, t, i);
    forall j, k | 0 <= j < |s.inode| && j != i && 0 <= k < SLOTS ensures At(t, j, k) == At(s, j, k) {
      assert At(m, j, k) == At(s, j, k);
    }
  }

  lemma AddsJoin(s: Fs, m: Fs, t: Fs, i: int)
    requires Shape(s) && Shape(m) && Shape(t) && 0 <= i < |s.inode| && Adds(s, m, i) && Adds(m, t, i)
    ensures Adds(s, t, i)
  {
    KeepsJoin(s, m, t, i);
    hide Keeps;
    forall j, o | 0 <= j < |s.inode| && 0 <= o < MAXBYTES ensures Byte(t, j, o) == Byte(s, j, o) {
      assert Byte(m, j, o) == Byte(s, j, o);
    }
  }

  lemma OnlyJoin(s: Fs, m: Fs, t: Fs, i: int, k: int, l: int)
    requires Shape(s) && Shape(m) && Shape(t) && 0 <= i < |s.inode| == |m.inode| == |t.inode|
    requires Only(s, m, i, k) && Only(m, t, i, l) && (k == l || (k == NDIRECT < l))
    ensures Only(s, t, i, l)
  {
    forall n | 0 <= n < SLOTS && n != l && (n != NDIRECT || l < NDIRECT) ensures At(t, i, n) == At(s, i, n) {
      assert At(m, i, n) == At(s, i, n);
    }
  }

  /** Storing bytes in a block of file i after its block map was extended. */
  lemma StoreAfter(s: Fs, m: Fs, i: int, off: int, p: seq<int>, a: int, n: int)
    requires Inv(m) && Shape(s) && 0 <= i < |s.inode| && Adds(s, m, i) && 0 <= off && 0 <= a && IsBytes(p)
    requires 0 <= n && a + n <= |p| && off + a < MAXBYTES && (off + a) % BSIZE + n <= BSIZE
    requires 0 < At(m, i, SlotNo((off + a) / BSIZE)) < |m.disk|
    ensures var b := At(m, i, SlotNo((off + a) / BSIZE));
            var t := PutData(m, b, Splice(m.disk[b], (off + a) % BSIZE, p, a, n));
            Inv(t) && Keeps(s, t, i) && Written(s, t, i, off, p, a, a + n) && SameSlots(m, t) && m.nmeta <= b &&
            m.role[b] != Free
  {
    var b := At(m, i, SlotNo((off + a) / BSIZE));
    SplicedBlock(m, i, off, p, a, n);
    var t := PutData(m, b, Splice(m.disk[b], (off + a) % BSIZE, p, a, n));
    assert SlotOk(m, i, SlotNo((off + a) / BSIZE));
    assert t.inode == m.inode && t.role == m.role;
    hide Word, BitOn, At, Byte, PutData, Splice;
    forall j, o | 0 <= j < |s.inode| && 0 <= o < MAXBYTES
      ensures Byte(t, j, o) == if j == i && off + a <= o < off + a + n then p[o - off] else Byte(s, j, o)
    {
      assert Byte(m, j, o) == Byte(s, j, o);
    }
  }

  lemma SlotRange(s: Fs, i: int, k: int)
    requires Inv(s) && 0 <= i < |s.inode| && 0 <= k < SLOTS
    ensures At(s, i, k) == 0 || s.nmeta <= At(s, i, k) < |s.disk|
  {
    assert SlotOk(s, i, k);
  }

  lemma AddsNothing(s: Fs, i: int)
    requires Shape(s) && 0 <= i < |s.inode|
    ensures Adds(s, s, i)
  {
  }

  /** The next block, in hand. */
  function Taken(s: Fs, fb: int): Fs
    requires 0 <= fb < BPB && 0 <= s.bmapstart < |s.disk| && fb < |s.role|
  {
    s.(disk := s.disk[s.bmapstart := Bitmap(fb + 1)], role := s.role[fb := Held])
  }

  lemma TakenIsTakeBlock(s: Fs, fb: int)
    requires Shape(s) && 0 <= s.bmapstart < fb < |s.disk| <= BPB && s.disk[s.bmapstart] == Bitmap(fb)
    requires s.disk[fb] == ZeroBlock()
    ensures Taken(s, fb) == TakeBlock(s, fb)
  {
    BitmapStep(fb);
    assert fb / BPB == 0 && fb % BPB == fb;
    assert TakeBlock(s, fb).disk == Taken(s, fb).disk;
  }

  lemma NextInSlot(s: Fs, i: int, k: int, fb: int)
    requires Inv(s) && 0 <= i < |s.inode| && 0 <= k <= NDIRECT && At(s, i, k) == 0
    requires 0 <= s.bmapstart < s.nmeta <= fb < |s.disk| <= BPB && Fresh(s, fb) && s.disk[s.bmapstart] == Bitmap(fb)
    ensures var t := Attach(Taken(s, fb), i, k, fb);
            Inv(t) && Fresh(t, fb + 1) && Adds(s, t, i) && Only(s, t, i, k) && At(t, i, k) == fb
  {
    TakenIsTakeBlock(s, fb);
    var m := Taken(s, fb);
    TakeBlockKeeps(s, fb);
    AttachKeeps(m, i, k, fb);
    var t := Attach(m, i, k, fb);
    hide Word, BitOn, At, Byte, Bitmap, TakeBlock;
    forall j, o | 0 <= j < |s.inode| && 0 <= o < MAXBYTES ensures Byte(t, j, o) == Byte(s, j, o) {
      assert Byte(m, j, o) == Byte(s, j, o);
    }
    forall j, l | 0 <= j < |s.inode| && 0 <= l < SLOTS && (j, l) != (i, k) ensures At(t, j, l) == At(s, j, l) {
      assert At(m, j, l) == At(s, j, l);
    }
  }

  lemma WordBack(x: seq<int>, j: int, v: int)
    requires IsBlock(x) && 0 <= j < NINDIRECT && 0 <= v <= FSSIZE
    ensures Word(PutWord(x, j, v), j) == v
  {
    WordOfPut(x, j, v);
  }

  lemma BitmapApart(d: seq<seq<int>>, x: seq<int>, a: int, z: seq<int>)
    requires 0 <= a < |d| == FSSIZE && a != BMAPSTART
    ensures d[a := z][BMAPSTART := x] == d[BMAPSTART := x][a := z]
  {
  }

  /** What Fill does to the image is what taking the next block for the slot does. */
  lemma SlotStep(s: Fs, t: Fs, d: seq<seq<int>>, i: int, k: int, fb: int)
    requires Inv(s) && 0 <= i < |s.inode| && 0 <= k <= NDIRECT && At(s, i, k) == 0
    requires s.bmapstart == BMAPSTART < s.nmeta <= fb < |s.disk| == FSSIZE == |d| && Fresh(s, fb)
    requires s.disk == d[BMAPSTART := Bitmap(fb)]
    requires t.bmapstart == s.bmapstart && t.nmeta == s.nmeta && t.disk == d[BMAPSTART := Bitmap(fb + 1)]
    requires t.role == s.role[fb := Slot(i, k)]
    requires t.inode == s.inode[i := s.inode[i].(addrs := s.inode[i].addrs[k := fb])]
    ensures Inv(t) && Fresh(t, fb + 1) && Adds(s, t, i) && Only(s, t, i, k) && At(t, i, k) == fb
  {
    NextInSlot(s, i, k, fb);
    assert t == Attach(Taken(s, fb), i, k, fb);
  }

  /** What FillEntry does to the image is what taking the next block for the entry does. */
  lemma EntryStep(s: Fs, t: Fs, d: seq<seq<int>>, i: int, j: int, fb: int)
    requires Inv(s) && 0 <= i < |s.inode| && 0 <= j < NINDIRECT && At(s, i, NDIRECT) != 0 == At(s, i, NDIRECT + 1 + j)
    requires s.bmapstart == BMAPSTART < s.nmeta <= fb < |s.disk| == FSSIZE == |d| && Fresh(s, fb)
    requires s.disk == d[BMAPSTART := Bitmap(fb)]
    requires var a := s.inode[i].addrs[NDIRECT];
             0 <= a < |d| && |d[a]| == BSIZE && a != BMAPSTART &&
             t == s.(disk := d[a := PutWord(d[a], j, fb)][BMAPSTART := Bitmap(fb + 1)],
                     role := s.role[fb := Slot(i, NDIRECT + 1 + j)])
    ensures Inv(t) && Fresh(t, fb + 1) && Adds(s, t, i) && Only(s, t, i, NDIRECT + 1 + j) && At(t, i, NDIRECT + 1 + j) == fb
  {
    var a := s.inode[i].addrs[NDIRECT];
    NextInEntry(s, i, j, fb);
    BitmapLast(d, Bitmap(fb), Bitmap(fb + 1), a, PutWord(d[a], j, fb));
    assert t == AttachEntry(Taken(s, fb), i, j, fb);
  }

  lemma BitmapLast(d: seq<seq<int>>, x: seq<int>, y: seq<int>, a: int, z: seq<int>)
    requires 0 <= a < |d| == FSSIZE && a != BMAPSTART
    ensures d[a := z][BMAPSTART := y] == d[BMAPSTART := x][BMAPSTART := y][a := z]
  {
  }

  lemma NextInEntry(s: Fs, i: int, j: int, fb: int)
    requires Inv(s) && 0 <= i < |s.inode| && 0 <= j < NINDIRECT && At(s, i, NDIRECT) != 0 == At(s, i, NDIRECT + 1 + j)
    requires 0 <= s.bmapstart < s.nmeta <= fb < |s.disk| <= BPB && Fresh(s, fb) && s.disk[s.bmapstart] == Bitmap(fb)
    ensures 0 < s.inode[i].addrs[NDIRECT] < |s.disk|
    ensures var t := AttachEntry(Taken(s, fb), i, j, fb);
            Inv(t) && Fresh(t, fb + 1) && Adds(s, t, i) && Only(s, t, i, NDIRECT + 1 + j) && At(t, i, NDIRECT + 1 + j) == fb
  {
    assert SlotOk(s, i, NDIRECT);
    TakenIsTakeBlock(s, fb);
    var m := Taken(s, fb);
    TakeBlockKeeps(s, fb);
    assert At(m, i, NDIRECT + 1 + j) == At(s, i, NDIRECT + 1 + j);
    AttachEntryKeeps(m, i, j, fb);
    var t := AttachEntry(m, i, j, fb);
    hide Word, PutWord, BitOn, At, Byte, Bitmap, TakeBlock;
    forall l, o | 0 <= l < |s.inode| && 0 <= o < MAXBYTES ensures Byte(t, l, o) == Byte(s, l, o) {
      assert Byte(m, l, o) == Byte(s, l, o);
    }
    forall l, k | 0 <= l < |s.inode| && 0 <= k < SLOTS && (l, k) != (i, NDIRECT + 1 + j) ensures At(t, l, k) == At(s, l, k) {
      assert At(m, l, k) == At(s, l, k);
    }
  }

  lemma EmptyImage(s: Fs)
    requires s.bmapstart == BMAPSTART && s.nmeta == NMETA && |s.disk| == |s.role| == FSSIZE && |s.inode| == NINODES
    requires forall b :: 0 <= b < FSSIZE ==> s.disk[b] == if b == BMAPSTART then Bitmap(NMETA) else ZeroBlock()
    requires forall b :: 0 <= b < FSSIZE ==> s.role[b] == if b < NMETA then Meta else Free
    requires forall i :: 0 <= i < NINODES ==> s.inode[i] == EmptyInode()
    ensures Inv(s) && Fresh(s, NMETA) && Blanks(s, 0) && AllExact(s)
  {
    EmptyShape(s);
    EmptyInodes(s);
    BitmapBits(NMETA);
    hide Bitmap, TestBit, Word, IsBlock, Shape;
    forall b | 0 <= b < FSSIZE ensures BlockOk(s, 0, b) {
      assert b / BPB == 0 && b % BPB == b;
    }
  }

  lemma EmptyShape(s: Fs)
    requires s.bmapstart == BMAPSTART && s.nmeta == NMETA && |s.disk| == |s.role| == FSSIZE && |s.inode| == NINODES
    requires forall b :: 0 <= b < FSSIZE ==> s.disk[b] == if b == BMAPSTART then Bitmap(NMETA) else ZeroBlock()
    requires forall i :: 0 <= i < NINODES ==> s.inode[i] == EmptyInode()
    ensures Shape(s)
  {
    hide Bitmap;
  }

  lemma EmptyInodes(s: Fs)
    requires Shape(s) && |s.inode| == NINODES && forall i :: 0 <= i < NINODES ==> s.inode[i] == EmptyInode()
    ensures forall i, k :: 0 <= i < NINODES && 0 <= k < SLOTS ==> SlotOk(s, i, k)
    ensures Blanks(s, 0) && AllExact(s)
  {
    hide Word;
    forall i, k | 0 <= i < NINODES && 0 <= k < SLOTS ensures At(s, i, k) == 0 && SlotOk(s, i, k) {
      assert s.inode[i].addrs[NDIRECT] == 0;
    }
    hide At, SlotOk;
    forall i | 0 <= i < NINODES ensures Exact(s, i) {
      assert At(s, i, NDIRECT) == 0;
      forall n | 0 <= n < MAXFILE ensures At(s, i, SlotNo(n)) == 0 {
      }
    }
  }

  /** Boots a kernel on a new image: the file system invariant holds from the start, and the files are there. */
  method MakeAndMount(files: seq<HostFile>) returns (fs: FileSystem?)
    requires |files| <= NINODES - 2 && forall j :: 0 <= j < |files| ==> HostOk(files[j])
    ensures fs != null <==> AllFit(files, NMETA)
    ensures fs != null ==> fresh(fs) && fs.Valid() && fs.dinode == fs.inode && fs.logged == {} && |fs.inode| == NINODES
    ensures fs != null ==> FilesIn(fs.S(), files, |files|) && (NoHoles(fs.S(), 1) <==> |files| % 64 != 62)
    ensures fs != null ==> Reads(fs.S(), 1, 0, Entries(files, |files|))
  {
    var image := new Image();
    var ok := image.Build(files);
    fs := null;
    if ok {
      fs := new FileSystem(INODESTART, BMAPSTART, NMETA, image.disk, image.inode, image.role);
    }
  }

  /** Reads the whole root directory of a new image, as a listing does. No transaction is open then, so that it logs a
      block is a panic: it happens exactly when the number of files is 62 modulo 64 and the disk is not full. */
  method ListNewRoot(files: seq<HostFile>) returns (fs: FileSystem?, ghost s: Fs)
    requires |files| <= NINODES - 2 && forall j :: 0 <= j < |files| ==> HostOk(files[j])
    ensures fs != null <==> AllFit(files, NMETA)
    ensures fs != null ==> Inv(s) && |s.inode| == NINODES && FilesIn(s, files, |files|)
    ensures fs != null ==> (fs.logged != {} <==> |files| % 64 == 62 && FreeCount(s) > 0)
  {
    fs := MakeAndMount(files);
    s := Fs(0, 0, [], [], []);
    if fs != null {
      s := fs.S();
      ReadRoot(fs);
    }
  }

  method ReadRoot(fs: FileSystem)
    requires fs.Valid() && |fs.inode| == NINODES && fs.logged == {}
    modifies fs`disk, fs`inode, fs`role, fs`logged
    ensures fs.logged != {} <==> !old(NoHoles(fs.S(), 1)) && old(FreeCount(fs.S())) > 0
  {
    var f := new File(0);
    var size := fs.inode[1].size;
    RootNeeds(fs.S(), size);
    var r, out := Fileread(fs, f, 1, size, size);
  }

  lemma RootNeeds(s: Fs, size: int)
    requires Shape(s) && |s.inode| == NINODES && size == s.inode[1].size
    ensures 0 <= size <= MAXBYTES && (Needs(s, 1, 0, size) == 0 <==> NoHoles(s, 1)) && Needs(s, 1, 0, size) >= 0
  {
    EndBlocks(0, 0, size);
    NoHolesNoNeed(s, 1, 0, EndBlock(0, size));
    NeedsGrow(s, 1, 0, 0, size);
    forall n | 0 <= n < MAXFILE ensures n < EndBlock(0, size) <==> n * BSIZE < size {
    }
    hide At, EndBlock, Need;
  }
}

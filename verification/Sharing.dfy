/** Several processes inside fs.c at once: each holds the locks of the inodes it works on, balloc and bfree of different
    processes interleave on the bitmap, and a block may be in a process's hand, or be free already while a slot still
    names it. A step is one update of a buffer or an inode, except that balloc marks and zeroes its block in one. */
module Sharing {
  import opened BlockMap
  import opened Params

  /** lock: inode to process; hand: process to the block it has from balloc; loose: slots whose block is free already. */
  datatype Sys = Sys(s: Fs, lock: map<int, int>, hand: map<int, int>, loose: set<(int, int)>)

  datatype Step =
    | Lock(p: int, i: int)
    | Unlock(p: int, i: int)
    | Take(p: int, b: int)
    | Enter(p: int, i: int, k: int)
    | EnterIndirect(p: int, i: int, j: int)
    | Write(p: int, i: int, n: int, x: seq<int>)
    | Drop(p: int, i: int, k: int)
    | Clear(p: int, i: int, k: int)

  predicate Locked(y: Sys, p: int, i: int) { i in y.lock && y.lock[i] == p && 0 <= i < |y.s.inode| }

  /** Slot k of inode i holds what it says: it is not loose, and neither is the indirect block it may be in. */
  predicate Firm(y: Sys, i: int, k: int) { (i, k) !in y.loose && (k > NDIRECT ==> (i, NDIRECT) !in y.loose) }

  /** No entry of inode i's indirect block is in use any more. */
  ghost predicate EntriesDone(y: Sys, i: int)
    requires Shape(y.s) && 0 <= i < |y.s.inode|
  {
    forall k {:trigger At(y.s, i, k)} :: NDIRECT < k < SLOTS ==> (i, k) in y.loose || At(y.s, i, k) == 0
  }

  ghost function Entries(i: int): set<(int, int)> { set k | NDIRECT < k < SLOTS :: (i, k) }

  ghost predicate Enabled(y: Sys, t: Step) {
    && Shape(y.s)
    && match t
       case Lock(p, i) => i !in y.lock && 0 <= i < |y.s.inode|
       case Unlock(p, i) => Locked(y, p, i) && p !in y.hand && forall k :: (i, k) !in y.loose
       case Take(p, b) => p !in y.hand && 0 <= b < |y.s.disk| && y.s.role[b] == Free
       case Enter(p, i, k) =>
         && Locked(y, p, i) && p in y.hand && 0 <= k <= NDIRECT && Firm(y, i, k) && At(y.s, i, k) == 0
         && 0 <= y.hand[p] < |y.s.disk|
       case EnterIndirect(p, i, j) =>
         && Locked(y, p, i) && p in y.hand && 0 <= j < NINDIRECT && Firm(y, i, NDIRECT + 1 + j)
         && 0 < At(y.s, i, NDIRECT) < |y.s.disk| && At(y.s, i, NDIRECT + 1 + j) == 0 && 0 <= y.hand[p] < |y.s.disk|
       case Write(p, i, n, x) =>
         && Locked(y, p, i) && 0 <= n < MAXFILE && IsBlock(x) && Firm(y, i, SlotNo(n))
         && 0 < At(y.s, i, SlotNo(n)) < |y.s.disk|
       case Drop(p, i, k) =>
         && Locked(y, p, i) && 0 <= k < SLOTS && Firm(y, i, k) && 0 < At(y.s, i, k) < |y.s.disk|
         && (k == NDIRECT ==> EntriesDone(y, i))
       case Clear(p, i, k) => Locked(y, p, i) && 0 <= k <= NDIRECT && (i, k) in y.loose
  }

  ghost function Do(y: Sys, t: Step): Sys
    requires Enabled(y, t)
  {
    match t
    case Lock(p, i) => y.(lock := y.lock[i := p])
    case Unlock(p, i) => y.(lock := y.lock - {i})
    case Take(p, b) => y.(s := TakeBlock(y.s, b), hand := y.hand[p := b])
    case Enter(p, i, k) => y.(s := Attach(y.s, i, k, y.hand[p]), hand := y.hand - {p})
    case EnterIndirect(p, i, j) => y.(s := AttachEntry(y.s, i, j, y.hand[p]), hand := y.hand - {p})
    case Write(p, i, n, x) => y.(s := PutData(y.s, At(y.s, i, SlotNo(n)), x))
    case Drop(p, i, k) =>
      y.(s := DropBlock(y.s, At(y.s, i, k)), loose := y.loose + {(i, k)} + if k == NDIRECT then Entries(i) else {})
    case Clear(p, i, k) =>
      y.(s := ClearAddr(y.s, i, k), loose := y.loose - {(i, k)} - if k == NDIRECT then Entries(i) else {})
  }

  // The invariant.

  ghost predicate InHand(y: Sys, b: int) { exists p :: p in y.hand && y.hand[p] == b }

  ghost predicate BlockFine(y: Sys, b: int)
    requires Shape(y.s) && 0 <= b < |y.s.disk|
  {
    var u := y.s.role[b];
    && (BitOn(y.s, b) <==> u != Free) && (b < y.s.nmeta <==> u == Meta) && (u == Held ==> InHand(y, b))
    && (u.Slot? ==> 0 <= u.inum < |y.s.inode| && 0 <= u.k < SLOTS && Firm(y, u.inum, u.k) && At(y.s, u.inum, u.k) == b)
  }

  ghost predicate SlotFine(y: Sys, i: int, k: int)
    requires Shape(y.s) && 0 <= i < |y.s.inode| && 0 <= k < SLOTS
  {
    Firm(y, i, k) ==> SlotOk(y.s, i, k)
  }

  ghost predicate HandFine(y: Sys, p: int)
    requires Shape(y.s) && p in y.hand
  {
    && 0 <= y.hand[p] < |y.s.disk| && y.s.role[y.hand[p]] == Held && y.s.disk[y.hand[p]] == ZeroBlock()
    && forall q :: q in y.hand && y.hand[q] == y.hand[p] ==> q == p
  }

  ghost predicate LooseFine(y: Sys, i: int, k: int) {
    && 0 <= i < |y.s.inode| && 0 <= k < SLOTS && i in y.lock
    && (k == NDIRECT ==> forall l :: NDIRECT < l < SLOTS ==> (i, l) in y.loose)
  }

  ghost predicate Fine(y: Sys) {
    && Shape(y.s)
    && (forall b {:trigger BlockFine(y, b)} :: 0 <= b < |y.s.disk| ==> BlockFine(y, b))
    && (forall i, k {:trigger SlotFine(y, i, k)} :: 0 <= i < |y.s.inode| && 0 <= k < SLOTS ==> SlotFine(y, i, k))
    && (forall p {:trigger HandFine(y, p)} :: p in y.hand ==> HandFine(y, p))
    && (forall i, k {:trigger LooseFine(y, i, k)} :: (i, k) in y.loose ==> LooseFine(y, i, k))
  }

  /** Every slot that was firm, except slot k of inode i, reads as before. */
  ghost predicate FirmKept(y: Sys, z: Sys, i: int, k: int)
    requires Shape(y.s) && Shape(z.s)
  {
    && SameLayout(y.s, z.s)
    && forall j, l {:trigger At(z.s, j, l)} :: 0 <= j < |z.s.inode| && 0 <= l < SLOTS && (j, l) != (i, k) && Firm(y, j, l) ==>
         At(z.s, j, l) == At(y.s, j, l)
  }

  // Each step keeps it.

  /** Firm slots read the same when no inode and no indirect block in use changes. */
  lemma SameFirm(y: Sys, t: Fs)
    requires Fine(y) && Shape(t) && SameLayout(y.s, t) && t.inode == y.s.inode
    requires forall i {:trigger y.s.inode[i]} ::
               0 <= i < |y.s.inode| && Firm(y, i, NDIRECT) && 0 < y.s.inode[i].addrs[NDIRECT] < |t.disk| ==>
               t.disk[y.s.inode[i].addrs[NDIRECT]] == y.s.disk[y.s.inode[i].addrs[NDIRECT]]
    ensures forall i, k {:trigger At(t, i, k)} :: 0 <= i < |t.inode| && 0 <= k < SLOTS && Firm(y, i, k) ==>
              At(t, i, k) == At(y.s, i, k)
  {
    hide Word;
    forall i, k | 0 <= i < |t.inode| && 0 <= k < SLOTS && Firm(y, i, k) ensures At(t, i, k) == At(y.s, i, k) {
      assert y.s.inode[i] == t.inode[i];
    }
  }

  lemma FirmIndirect(y: Sys, i: int)
    requires Fine(y) && 0 <= i < |y.s.inode| && Firm(y, i, NDIRECT) && y.s.inode[i].addrs[NDIRECT] != 0
    ensures var a := y.s.inode[i].addrs[NDIRECT]; y.s.nmeta <= a < |y.s.disk| && y.s.role[a] == Slot(i, NDIRECT)
  {
    assert SlotFine(y, i, NDIRECT);
  }

  /** The blocks in hand stay so when none of them is touched. */
  lemma HandsStay(y: Sys, z: Sys)
    requires Fine(y) && Shape(z.s) && |z.s.disk| == |y.s.disk|
    requires forall q :: q in z.hand ==> q in y.hand && z.hand[q] == y.hand[q]
    requires forall q {:trigger HandFine(y, q)} :: q in z.hand && HandFine(y, q) ==>
               z.s.role[y.hand[q]] == Held && z.s.disk[y.hand[q]] == y.s.disk[y.hand[q]]
    ensures forall q {:trigger HandFine(z, q)} :: q in z.hand ==> HandFine(z, q)
  {
    forall q | q in z.hand ensures HandFine(z, q) {
      assert HandFine(y, q);
    }
  }

  lemma TakeKeeps(y: Sys, p: int, b: int)
    requires Fine(y) && Enabled(y, Take(p, b))
    ensures Fine(Do(y, Take(p, b))) && FirmKept(y, Do(y, Take(p, b)), -1, 0)
  {
    var m, z := WithBit(y.s, b, true), Do(y, Take(p, b));
    WithBitSets(y.s, b, true);
    assert BlockFine(y, b);
    hide Word, TestBit, WithBit;
    assert Shape(z.s);
    SameBits(m, z.s);
    forall i | 0 <= i < |y.s.inode| && Firm(y, i, NDIRECT) && 0 < y.s.inode[i].addrs[NDIRECT] < |z.s.disk|
      ensures z.s.disk[y.s.inode[i].addrs[NDIRECT]] == y.s.disk[y.s.inode[i].addrs[NDIRECT]]
    {
      FirmIndirect(y, i);
    }
    SameFirm(y, z.s);
    TakeHands(y, z, p, b);
    hide BitOn, At, IsBlock, HandFine;
    forall c | 0 <= c < |z.s.disk| ensures BlockFine(z, c) {
      assert BlockFine(y, c);
      TakeInHand(y, z, p, b, c);
    }
    forall i, k | 0 <= i < |z.s.inode| && 0 <= k < SLOTS ensures SlotFine(z, i, k) {
      assert SlotFine(y, i, k);
    }
    forall i, k | (i, k) in z.loose ensures LooseFine(z, i, k) { assert LooseFine(y, i, k); }
  }

  lemma TakeInHand(y: Sys, z: Sys, p: int, b: int, c: int)
    requires p !in y.hand && z.hand == y.hand[p := b]
    ensures InHand(y, c) || c == b ==> InHand(z, c)
  {
    if c == b {
      assert p in z.hand && z.hand[p] == c;
    } else if InHand(y, c) {
      var q :| q in y.hand && y.hand[q] == c;
      assert q in z.hand && z.hand[q] == c;
    }
  }

  lemma TakeHands(y: Sys, z: Sys, p: int, b: int)
    requires Fine(y) && Enabled(y, Take(p, b))
    requires z == Do(y, Take(p, b)) && Shape(z.s)
    ensures forall q {:trigger HandFine(z, q)} :: q in z.hand ==> HandFine(z, q)
  {
    WithBitSets(y.s, b, true);
    BitBlockRange(y.s, b);
    hide WithBit, At, BitOn;
    forall q | q in y.hand ensures y.hand[q] != b && y.s.nmeta <= y.hand[q] < |y.s.disk| {
      assert HandFine(y, q);
      assert BlockFine(y, y.hand[q]);
    }
    forall q | q in z.hand ensures HandFine(z, q) {
      if q != p { assert HandFine(y, q); }
    }
  }

  lemma StillInHand(y: Sys, z: Sys, p: int, c: int)
    requires p in y.hand && z.hand == y.hand - {p} && c != y.hand[p] && InHand(y, c)
    ensures InHand(z, c)
  {
    var q :| q in y.hand && y.hand[q] == c;
    assert q in z.hand && z.hand[q] == c;
  }

  lemma EnterKeeps(y: Sys, p: int, i: int, k: int)
    requires Fine(y) && Enabled(y, Enter(p, i, k))
    ensures var z := Do(y, Enter(p, i, k)); Fine(z) && FirmKept(y, z, i, k) && At(z.s, i, k) == y.hand[p]
  {
    var h, z := y.hand[p], Do(y, Enter(p, i, k));
    assert HandFine(y, p) && BlockFine(y, h);
    assert Shape(z.s);
    SameBits(y.s, z.s);
    hide BitOn, Word, IsBlock;
    forall j, l | 0 <= j < |z.s.inode| && 0 <= l < SLOTS && Firm(y, j, l)
      ensures At(z.s, j, l) == if (j, l) == (i, k) then h else At(y.s, j, l)
    {
      if j == i && k == NDIRECT < l {
        WordBounds(y.s.disk[h], l - NDIRECT - 1);
      }
    }
    hide At;
    forall c | 0 <= c < |z.s.disk| ensures BlockFine(z, c) {
      assert BlockFine(y, c);
      if c != h && y.s.role[c] == Held {
        StillInHand(y, z, p, c);
      }
    }
    forall j, l | 0 <= j < |z.s.inode| && 0 <= l < SLOTS ensures SlotFine(z, j, l) {
      assert SlotFine(y, j, l);
    }
    HandsStay(y, z);
    forall j, l | (j, l) in z.loose ensures LooseFine(z, j, l) { assert LooseFine(y, j, l); }
  }

  lemma EntryAts(y: Sys, z: Sys, i: int, e: int, h: int)
    requires Fine(y) && Shape(z.s) && 0 <= i < |y.s.inode| && 0 <= e < NINDIRECT && 0 <= h < |y.s.disk|
    requires Firm(y, i, NDIRECT) && 0 < y.s.inode[i].addrs[NDIRECT] < |y.s.disk| && z.s == AttachEntry(y.s, i, e, h)
    ensures forall j, l {:trigger At(z.s, j, l)} :: 0 <= j < |z.s.inode| && 0 <= l < SLOTS && Firm(y, j, l) ==>
              At(z.s, j, l) == if (j, l) == (i, NDIRECT + 1 + e) then h else At(y.s, j, l)
  {
    WordOfPut(y.s.disk[y.s.inode[i].addrs[NDIRECT]], e, h);
    FirmIndirect(y, i);
    hide Word, PutWord;
    forall j, l | 0 <= j < |z.s.inode| && 0 <= l < SLOTS && Firm(y, j, l)
      ensures At(z.s, j, l) == if (j, l) == (i, NDIRECT + 1 + e) then h else At(y.s, j, l)
    {
      if j != i && l > NDIRECT && y.s.inode[j].addrs[NDIRECT] != 0 {
        FirmIndirect(y, j);
      }
    }
  }

  lemma EntryShape(y: Sys, i: int, e: int, h: int)
    requires Fine(y) && 0 <= i < |y.s.inode| && 0 <= e < NINDIRECT && 0 <= h < |y.s.disk| && Firm(y, i, NDIRECT)
    requires 0 < y.s.inode[i].addrs[NDIRECT] < |y.s.disk|
    ensures var t := AttachEntry(y.s, i, e, h);
            Shape(t) && forall c {:trigger BitOn(t, c)} :: 0 <= c < |t.disk| ==> BitOn(t, c) == BitOn(y.s, c)
  {
    FirmIndirect(y, i);
    WordOfPut(y.s.disk[y.s.inode[i].addrs[NDIRECT]], e, h);
    hide Word, PutWord;
    SameBits(y.s, AttachEntry(y.s, i, e, h));
  }

  lemma EnterIndirectKeeps(y: Sys, p: int, i: int, e: int)
    requires Fine(y) && Enabled(y, EnterIndirect(p, i, e))
    ensures var z := Do(y, EnterIndirect(p, i, e));
            Fine(z) && FirmKept(y, z, i, NDIRECT + 1 + e) && At(z.s, i, NDIRECT + 1 + e) == y.hand[p]
  {
    var h, z := y.hand[p], Do(y, EnterIndirect(p, i, e));
    assert HandFine(y, p) && BlockFine(y, h);
    FirmIndirect(y, i);
    EntryShape(y, i, e, h);
    hide Word, PutWord, BitOn, IsBlock;
    EntryAts(y, z, i, e, h);
    hide At;
    HandsStay(y, z);
    hide HandFine;
    forall c | 0 <= c < |z.s.disk| ensures BlockFine(z, c) {
      assert BlockFine(y, c);
      if c != h && y.s.role[c] == Held {
        StillInHand(y, z, p, c);
      }
    }
    forall j, l | 0 <= j < |z.s.inode| && 0 <= l < SLOTS ensures SlotFine(z, j, l) {
      assert SlotFine(y, j, l);
    }
    forall j, l | (j, l) in z.loose ensures LooseFine(z, j, l) { assert LooseFine(y, j, l); }
  }

  lemma WriteKeeps(y: Sys, p: int, i: int, n: int, x: seq<int>)
    requires Fine(y) && Enabled(y, Write(p, i, n, x))
    ensures Fine(Do(y, Write(p, i, n, x))) && FirmKept(y, Do(y, Write(p, i, n, x)), -1, 0)
  {
    var z, b := Do(y, Write(p, i, n, x)), At(y.s, i, SlotNo(n));
    assert SlotFine(y, i, SlotNo(n));
    assert Shape(z.s);
    SameBits(y.s, z.s);
    hide Word;
    forall j | 0 <= j < |y.s.inode| && Firm(y, j, NDIRECT) && 0 < y.s.inode[j].addrs[NDIRECT] < |z.s.disk|
      ensures z.s.disk[y.s.inode[j].addrs[NDIRECT]] == y.s.disk[y.s.inode[j].addrs[NDIRECT]]
    {
      FirmIndirect(y, j);
    }
    SameFirm(y, z.s);
    hide BitOn, At, IsBlock;
    forall c | 0 <= c < |z.s.disk| ensures BlockFine(z, c) { assert BlockFine(y, c); }
    forall j, l | 0 <= j < |z.s.inode| && 0 <= l < SLOTS ensures SlotFine(z, j, l) { assert SlotFine(y, j, l); }
    HandsStay(y, z);
    forall j, l | (j, l) in z.loose ensures LooseFine(z, j, l) { assert LooseFine(y, j, l); }
  }

  lemma DropKeeps(y: Sys, p: int, i: int, k: int)
    requires Fine(y) && Enabled(y, Drop(p, i, k))
    ensures Fine(Do(y, Drop(p, i, k))) && FirmKept(y, Do(y, Drop(p, i, k)), -1, 0)
  {
    var z, b := Do(y, Drop(p, i, k)), At(y.s, i, k);
    assert SlotFine(y, i, k) && BlockFine(y, b);
    DropBits(y, b);
    hide BitOn, IsBlock, At, DropBlock;
    forall c | 0 <= c < |z.s.disk| ensures BlockFine(z, c) {
      assert BlockFine(y, c);
      if c != b { DroppedRole(y, z, i, k, c); }
    }
    forall j, l | 0 <= j < |z.s.inode| && 0 <= l < SLOTS ensures SlotFine(z, j, l) { assert SlotFine(y, j, l); }
    DropHands(y, z, b);
    hide HandFine;
    forall j, l | (j, l) in z.loose ensures LooseFine(z, j, l) { if (j, l) in y.loose { assert LooseFine(y, j, l); } }
  }

  /** Freeing block b clears its bit and no other, and every firm slot reads as before. */
  lemma DropBits(y: Sys, b: int)
    requires Fine(y) && y.s.nmeta <= b < |y.s.disk|
    ensures var t := DropBlock(y.s, b);
            && Shape(t) && SameLayout(y.s, t) && t.inode == y.s.inode && t.role == y.s.role[b := Free]
            && (forall c :: 0 <= c < |t.disk| ==> (BitOn(t, c) <==> c != b && BitOn(y.s, c)))
            && (forall j, l {:trigger At(t, j, l)} :: 0 <= j < |t.inode| && 0 <= l < SLOTS && Firm(y, j, l) ==>
                  At(t, j, l) == At(y.s, j, l))
  {
    var t := DropBlock(y.s, b);
    WithBitSets(y.s, b, false);
    BitBlockRange(y.s, b);
    var m := WithBit(y.s, b, false);
    hide Word, TestBit, WithBit;
    assert Shape(t);
    SameBits(m, t);
    forall j | 0 <= j < |y.s.inode| && Firm(y, j, NDIRECT) && 0 < y.s.inode[j].addrs[NDIRECT] < |t.disk|
      ensures t.disk[y.s.inode[j].addrs[NDIRECT]] == y.s.disk[y.s.inode[j].addrs[NDIRECT]]
    {
      FirmIndirect(y, j);
    }
    SameFirm(y, t);
  }

  lemma DropHands(y: Sys, z: Sys, b: int)
    requires Fine(y) && 0 <= b < |y.s.disk| && y.s.role[b] != Held
    requires z.s == DropBlock(y.s, b) && Shape(z.s) && z.hand == y.hand
    ensures forall q {:trigger HandFine(z, q)} :: q in z.hand ==> HandFine(z, q)
  {
    WithBitSets(y.s, b, false);
    hide WithBit, At, BitOn;
    forall q | q in y.hand && HandFine(y, q) ensures y.s.nmeta <= y.hand[q] && y.hand[q] != b { assert BlockFine(y, y.hand[q]); }
    HandsStay(y, z);
  }

  /** A block in a slot other than the one dropped is still in a firm one. */
  lemma DroppedRole(y: Sys, z: Sys, i: int, k: int, c: int)
    requires Fine(y) && 0 <= i < |y.s.inode| && 0 <= k < SLOTS && Firm(y, i, k) && 0 <= c < |y.s.disk| && c != At(y.s, i, k)
    requires k == NDIRECT ==> EntriesDone(y, i)
    requires z.loose == y.loose + {(i, k)} + if k == NDIRECT then Entries(i) else {}
    ensures y.s.role[c].Slot? ==> Firm(z, y.s.role[c].inum, y.s.role[c].k)
  {
    assert BlockFine(y, c) && BlockFine(y, 0);
    hide At, BitOn;
  }

  lemma ClearKeeps(y: Sys, p: int, i: int, k: int)
    requires Fine(y) && Enabled(y, Clear(p, i, k))
    ensures Fine(Do(y, Clear(p, i, k))) && FirmKept(y, Do(y, Clear(p, i, k)), -1, 0)
  {
    var z := Do(y, Clear(p, i, k));
    assert LooseFine(y, i, k);
    assert Shape(z.s);
    SameBits(y.s, z.s);
    hide BitOn, Word, IsBlock;
    forall j, l | 0 <= j < |z.s.inode| && 0 <= l < SLOTS && Firm(y, j, l) ensures At(z.s, j, l) == At(y.s, j, l) {
    }
    forall c | 0 <= c < |z.s.disk| ensures BlockFine(z, c) { assert BlockFine(y, c); }
    forall j, l | 0 <= j < |z.s.inode| && 0 <= l < SLOTS ensures SlotFine(z, j, l) {
      assert SlotFine(y, j, l);
      if (j, NDIRECT) in y.loose { assert LooseFine(y, j, NDIRECT); }
    }
    hide At;
    HandsStay(y, z);
    forall j, l | (j, l) in z.loose ensures LooseFine(z, j, l) { assert LooseFine(y, j, l); }
  }

  lemma LockKeeps(y: Sys, t: Step)
    requires Fine(y) && Enabled(y, t) && (t.Lock? || t.Unlock?)
    ensures Fine(Do(y, t)) && FirmKept(y, Do(y, t), -1, 0)
  {
    var z := Do(y, t);
    hide BitOn, At;
    forall c | 0 <= c < |z.s.disk| ensures BlockFine(z, c) { assert BlockFine(y, c); }
    forall j, l | 0 <= j < |z.s.inode| && 0 <= l < SLOTS ensures SlotFine(z, j, l) { assert SlotFine(y, j, l); }
    HandsStay(y, z);
    forall j, l | (j, l) in z.loose ensures LooseFine(z, j, l) { assert LooseFine(y, j, l); }
  }

  /** The slot a step fills. */
  function Filled(t: Step): (int, int) {
    if t.Enter? then (t.i, t.k) else if t.EnterIndirect? then (t.i, NDIRECT + 1 + t.j) else (-1, 0)
  }

  /** Every step of every process keeps the invariant, and changes no firm slot but the one it fills. */
  lemma StepKeeps(y: Sys, t: Step)
    requires Fine(y) && Enabled(y, t)
    ensures Fine(Do(y, t)) && FirmKept(y, Do(y, t), Filled(t).0, Filled(t).1)
  {
    hide Fine, FirmKept, Shape, At;
    match t
    case Lock(p, i) => LockKeeps(y, t);
    case Unlock(p, i) => LockKeeps(y, t);
    case Take(p, b) => TakeKeeps(y, p, b);
    case Enter(p, i, k) => EnterKeeps(y, p, i, k);
    case EnterIndirect(p, i, j) => EnterIndirectKeeps(y, p, i, j);
    case Write(p, i, n, x) => WriteKeeps(y, p, i, n, x);
    case Drop(p, i, k) => DropKeeps(y, p, i, k);
    case Clear(p, i, k) => ClearKeeps(y, p, i, k);
  }

  // What the steps are for.

  /** A process with the inode's lock can take any free block and enter it in an empty slot, which then holds it. */
  lemma TakesAndEnters(y: Sys, p: int, i: int, k: int, b: int)
    requires Fine(y) && Locked(y, p, i) && p !in y.hand && 0 <= b < |y.s.disk| && y.s.role[b] == Free
    requires 0 <= k <= NDIRECT && Firm(y, i, k) && At(y.s, i, k) == 0
    ensures Enabled(y, Take(p, b))
    ensures var y1 := Do(y, Take(p, b));
            Enabled(y1, Enter(p, i, k)) && var z := Do(y1, Enter(p, i, k)); Fine(z) && At(z.s, i, k) == b && p !in z.hand
  {
    StepKeeps(y, Take(p, b));
    var y1 := Do(y, Take(p, b));
    assert Shape(y1.s) && At(y1.s, i, k) == At(y.s, i, k);
    StepKeeps(y1, Enter(p, i, k));
  }

  /** And can free a block it has and clear the slot; the block is free at once, the slot empty at the end. */
  lemma DropsAndClears(y: Sys, p: int, i: int, k: int)
    requires Fine(y) && Locked(y, p, i) && 0 <= k <= NDIRECT && Firm(y, i, k) && At(y.s, i, k) != 0
    requires k == NDIRECT ==> EntriesDone(y, i)
    ensures Enabled(y, Drop(p, i, k))
    ensures var y1 := Do(y, Drop(p, i, k));
            && y1.s.role[At(y.s, i, k)] == Free && Enabled(y1, Clear(p, i, k))
            && var z := Do(y1, Clear(p, i, k)); Fine(z) && At(z.s, i, k) == 0 && Firm(z, i, k)
  {
    assert SlotFine(y, i, k);
    StepKeeps(y, Drop(p, i, k));
    var y1 := Do(y, Drop(p, i, k));
    StepKeeps(y1, Clear(p, i, k));
  }

  /** New contents are what the file reads as from then on. */
  lemma WriteSeen(y: Sys, p: int, i: int, n: int, x: seq<int>, o: int)
    requires Fine(y) && Enabled(y, Write(p, i, n, x)) && 0 <= o < BSIZE
    ensures var z := Do(y, Write(p, i, n, x)); Shape(z.s) && n * BSIZE + o < MAXBYTES && Byte(z.s, i, n * BSIZE + o) == x[o]
  {
    var z := Do(y, Write(p, i, n, x));
    StepKeeps(y, Write(p, i, n, x));
    assert SlotFine(y, i, SlotNo(n));
    assert At(z.s, i, SlotNo(n)) == At(y.s, i, SlotNo(n));
    assert MAXBYTES == MAXFILE * BSIZE;
    assert (n * BSIZE + o) / BSIZE == n && (n * BSIZE + o) % BSIZE == o;
    hide At;
  }

  /** A lock gives the inode to one process until it is released. */
  lemma LocksInode(y: Sys, p: int, i: int)
    requires Fine(y) && 0 <= i < |y.s.inode|
    ensures Enabled(y, Lock(p, i)) <==> i !in y.lock
    ensures i !in y.lock ==> Locked(Do(y, Lock(p, i)), p, i)
    ensures Enabled(y, Unlock(p, i)) ==> i !in Do(y, Unlock(p, i)).lock
  {
  }

  // Whole runs.

  ghost predicate StepAt(ys: seq<Sys>, ts: seq<Step>, n: int)
    requires 0 <= n < |ts| && |ys| == |ts| + 1
  {
    Enabled(ys[n], ts[n]) && ys[n + 1] == Do(ys[n], ts[n])
  }

  /** Any interleaving of any processes' steps, from a file system nobody is using. */
  ghost predicate IsRun(s: Fs, ys: seq<Sys>, ts: seq<Step>) {
    && |ys| == |ts| + 1 && ys[0] == Sys(s, map[], map[], {}) && forall n :: 0 <= n < |ts| ==> StepAt(ys, ts, n)
  }

  lemma StartFine(s: Fs)
    requires Inv(s)
    ensures Fine(Sys(s, map[], map[], {}))
  {
    var y := Sys(s, map[], map[], {});
    hide BitOn, At;
    forall c | 0 <= c < |s.disk| ensures BlockFine(y, c) { assert BlockOk(s, 0, c); }
    forall i, k | 0 <= i < |s.inode| && 0 <= k < SLOTS ensures SlotFine(y, i, k) { assert SlotOk(s, i, k); }
  }

  lemma {:induction false} RunFine(s: Fs, ys: seq<Sys>, ts: seq<Step>, n: int)
    requires Inv(s) && IsRun(s, ys, ts) && 0 <= n < |ys|
    ensures Fine(ys[n])
    decreases n
  {
    if n == 0 {
      StartFine(s);
    } else {
      RunFine(s, ys, ts, n - 1);
      assert StepAt(ys, ts, n - 1);
      StepKeeps(ys[n - 1], ts[n - 1]);
    }
  }

  /** Over every run no two firm slots name the same block, whoever works on their inodes, and the block's bit is set. */
  lemma OneSlot(s: Fs, ys: seq<Sys>, ts: seq<Step>, n: int, i: int, k: int, j: int, l: int)
    requires Inv(s) && IsRun(s, ys, ts) && 0 <= n < |ys| && Shape(ys[n].s)
    requires 0 <= i < |ys[n].s.inode| && 0 <= k < SLOTS && Firm(ys[n], i, k)
    requires 0 <= j < |ys[n].s.inode| && 0 <= l < SLOTS && Firm(ys[n], j, l)
    requires At(ys[n].s, i, k) == At(ys[n].s, j, l) != 0
    ensures (i, k) == (j, l) && ys[n].s.nmeta <= At(ys[n].s, i, k) < |ys[n].s.disk| && BitOn(ys[n].s, At(ys[n].s, i, k))
  {
    RunFine(s, ys, ts, n);
    assert SlotFine(ys[n], i, k) && SlotFine(ys[n], j, l);
    assert BlockFine(ys[n], At(ys[n].s, i, k));
  }

  /** Over every run a block in a process's hand is in no other hand and in no firm slot, and its bit is set. */
  lemma OneHand(s: Fs, ys: seq<Sys>, ts: seq<Step>, n: int, p: int)
    requires Inv(s) && IsRun(s, ys, ts) && 0 <= n < |ys| && p in ys[n].hand
    ensures Shape(ys[n].s) && ys[n].s.nmeta <= ys[n].hand[p] < |ys[n].s.disk| && BitOn(ys[n].s, ys[n].hand[p])
    ensures forall q :: q in ys[n].hand && q != p ==> ys[n].hand[q] != ys[n].hand[p]
    ensures forall i, k :: 0 <= i < |ys[n].s.inode| && 0 <= k < SLOTS && Firm(ys[n], i, k) ==>
                             At(ys[n].s, i, k) != ys[n].hand[p]
  {
    RunFine(s, ys, ts, n);
    var y := ys[n];
    assert HandFine(y, p) && BlockFine(y, y.hand[p]);
    forall i, k | 0 <= i < |y.s.inode| && 0 <= k < SLOTS && Firm(y, i, k) ensures At(y.s, i, k) != y.hand[p] {
      assert SlotFine(y, i, k);
    }
  }

  /** Whenever no block is in hand and no slot is loose, the file system is as one process alone would leave it. */
  lemma QuietIsInv(s: Fs, ys: seq<Sys>, ts: seq<Step>, n: int)
    requires Inv(s) && IsRun(s, ys, ts) && 0 <= n < |ys| && ys[n].hand == map[] && ys[n].loose == {}
    ensures Inv(ys[n].s)
  {
    RunFine(s, ys, ts, n);
    var y := ys[n];
    hide BitOn, At;
    forall c | 0 <= c < |y.s.disk| ensures BlockOk(y.s, 0, c) { assert BlockFine(y, c); }
    forall i, k | 0 <= i < |y.s.inode| && 0 <= k < SLOTS ensures SlotOk(y.s, i, k) { assert SlotFine(y, i, k); }
  }

  /** A file none of whose slots is loose reads the same after every step but a write to it or a drop of its blocks,
      whichever process takes it. */
  lemma OthersDoNotSee(y: Sys, t: Step, j: int, o: int)
    requires Fine(y) && Enabled(y, t) && 0 <= j < |y.s.inode| && 0 <= o < MAXBYTES && forall k :: (j, k) !in y.loose
    requires (t.Write? || t.Drop?) ==> t.i != j
    ensures Fine(Do(y, t)) && |Do(y, t).s.inode| == |y.s.inode| && Byte(Do(y, t).s, j, o) == Byte(y.s, j, o)
  {
    StepKeeps(y, t);
    var z, k := Do(y, t), SlotNo(o / BSIZE);
    var b := At(y.s, j, k);
    assert SlotFine(y, j, k);
    if (j, k) == Filled(t) {
      EnteredZero(y, t);
    } else if b != 0 {
      assert At(z.s, j, k) == b;
      DataStays(y, t, j, k);
    }
  }

  lemma EnteredZero(y: Sys, t: Step)
    requires Fine(y) && Enabled(y, t) && (t.Enter? || t.EnterIndirect?)
    ensures var h, z := y.hand[t.p], Do(y, t);
            Shape(z.s) && 0 < h < |y.s.disk| == |z.s.disk| && z.s.disk[h] == ZeroBlock() && |z.s.inode| == |y.s.inode| &&
            At(y.s, Filled(t).0, Filled(t).1) == 0 && At(z.s, Filled(t).0, Filled(t).1) == h
  {
    assert HandFine(y, t.p) && BlockFine(y, y.hand[t.p]);
    if t.Enter? {
      EnterKeeps(y, t.p, t.i, t.k);
    } else {
      EnterIndirectKeeps(y, t.p, t.i, t.j);
      FirmIndirect(y, t.i);
    }
  }

  lemma DataStays(y: Sys, t: Step, j: int, k: int)
    requires Fine(y) && Enabled(y, t) && 0 <= j < |y.s.inode| && 0 <= k < SLOTS && k != NDIRECT
    requires Firm(y, j, k) && At(y.s, j, k) != 0
    requires t.Write? ==> t.i != j
    ensures var b := At(y.s, j, k); 0 < b < |y.s.disk| == |Do(y, t).s.disk| && Do(y, t).s.disk[b] == y.s.disk[b]
  {
    assert SlotFine(y, j, k);
    var b := At(y.s, j, k);
    match t
    case Take(p, c) => WithBitSets(y.s, c, true);
    case EnterIndirect(p, i, e) => FirmIndirect(y, i);
    case Write(p, i, n, x) => assert SlotFine(y, i, SlotNo(n));
    case Drop(p, i, l) => assert SlotFine(y, i, l); WithBitSets(y.s, At(y.s, i, l), false);
    case _ =>
  }
}

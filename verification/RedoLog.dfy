/** The on-disk redo log of kernel/log.c: header block, log blocks, commit and recovery.
    A block is its sequence of 32-bit words, because the header block is read and
    written as an array of ints. */
module RedoLog {
  import opened Params

  const LOGBLOCKS := 30
  const BWORDS := 256      // BSIZE / sizeof(int)
  const LOGSTART := 2      // superblock.logstart, as mkfs sets it

  datatype Block = Block(words: seq<int>)
  type Disk = seq<Block>

  /** Home contents: block number to block, for every block outside the log area. */
  type Image = map<int, Block>

  predicate InLog(b: int) { LOGSTART <= b <= LOGSTART + LOGBLOCKS }

  /** No earlier entry equals the k-th. */
  predicate NewAt(s: seq<int>, k: nat)
    requires k < |s|
  {
    forall i :: 0 <= i < k ==> s[i] != s[k]
  }

  predicate Distinct(s: seq<int>)
  {
    forall k :: 0 <= k < |s| ==> NewAt(s, k)
  }

  /** What every list of logged block numbers satisfies. */
  predicate GoodIds(ids: seq<int>, size: nat)
  {
    && |ids| <= LOGBLOCKS
    && Distinct(ids)
    && forall i :: 0 <= i < |ids| ==> 0 <= ids[i] < size && !InLog(ids[i])
  }

  /** mem holds contents for every listed block. */
  predicate Has(mem: map<int, Block>, ids: seq<int>)
  {
    forall i :: 0 <= i < |ids| ==> ids[i] in mem
  }

  function Elems(ids: seq<int>): set<int>
  {
    set b | b in ids
  }

  lemma HomeBlocksOnly(ids: seq<int>, size: nat)
    requires GoodIds(ids, size)
    ensures forall b :: b in Elems(ids) ==> 0 <= b < size && !InLog(b)
  {
  }

  /** mem holds contents for the listed blocks and no others. */
  predicate Covers(mem: map<int, Block>, ids: seq<int>)
  {
    mem.Keys == Elems(ids)
  }

  /** Logging one more block. */
  lemma AddBlock(ids: seq<int>, b: int, size: nat)
    requires GoodIds(ids, size) && b !in ids && |ids| < LOGBLOCKS && 0 <= b < size && !InLog(b)
    ensures GoodIds(ids + [b], size) && Elems(ids + [b]) == Elems(ids) + {b}
  {
    var more := ids + [b];
    forall k | 0 <= k < |more| ensures NewAt(more, k) {
      if k < |ids| { assert NewAt(ids, k); }
    }
  }

  predicate GoodHeader(h: Block)
  {
    |h.words| == BWORDS && 0 <= h.words[0] <= LOGBLOCKS
  }

  /** Header words after write_head has stored n and the first k entries; the rest of
      the block keeps what it held. */
  function Filled(ids: seq<int>, w: seq<int>, k: nat): (r: seq<int>)
    requires k <= |ids| <= LOGBLOCKS && |w| == BWORDS
    ensures |r| == BWORDS && r[0] == |ids|
  {
    if k == 0 then w[0 := |ids|] else Filled(ids, w, k - 1)[k := ids[k - 1]]
  }

  /** The first k entries of a header block, as read_head copies them. */
  function Entries(w: seq<int>, k: nat): (r: seq<int>)
    requires k < |w|
    ensures |r| == k
  {
    if k == 0 then [] else Entries(w, k - 1) + [w[k]]
  }

  lemma {:induction false} EntriesFrame(w: seq<int>, k: nat, j: nat, v: int)
    requires k < j < |w|
    ensures Entries(w[j := v], k) == Entries(w, k)
  {
    if k > 0 { EntriesFrame(w, k - 1, j, v); }
  }

  lemma {:induction false} EntriesFilled(ids: seq<int>, w: seq<int>, k: nat)
    requires k <= |ids| <= LOGBLOCKS && |w| == BWORDS
    ensures Entries(Filled(ids, w, k), k) == ids[..k]
  {
    if k > 0 {
      EntriesFilled(ids, w, k - 1);
      EntriesFrame(Filled(ids, w, k - 1), k - 1, k, ids[k - 1]);
    }
  }

  /** The logged block numbers a header block holds. */
  function HeaderIds(h: Block): (ids: seq<int>)
    ensures GoodHeader(h) ==> |ids| == h.words[0]
  {
    if GoodHeader(h) then Entries(h.words, h.words[0]) else []
  }

  /** The header block write_head produces from the one it read. */
  function Header(ids: seq<int>, prev: Block): (h: Block)
    requires |ids| <= LOGBLOCKS && GoodHeader(prev)
    ensures GoodHeader(h) && HeaderIds(h) == ids
  {
    EntriesFilled(ids, prev.words, |ids|);
    Block(Filled(ids, prev.words, |ids|))
  }

  function DiskIds(d: Disk): seq<int>
    requires |d| > LOGSTART
  {
    HeaderIds(d[LOGSTART])
  }

  function LogBlock(d: Disk, i: nat): Block
    requires LOGSTART + 1 + i < |d|
  {
    d[LOGSTART + 1 + i]
  }

  predicate WellFormed(d: Disk)
  {
    && |d| > LOGSTART + LOGBLOCKS
    && GoodHeader(d[LOGSTART])
    && GoodIds(DiskIds(d), |d|)
  }

  /** The reference meaning of a disk: a home block named by the header has the
      contents of its log block, every other home block its own. */
  ghost function LogicalBlock(d: Disk, b: nat): Block
    requires WellFormed(d) && b < |d|
  {
    var ids := DiskIds(d);
    if exists i :: 0 <= i < |ids| && ids[i] == b
    then var i :| 0 <= i < |ids| && ids[i] == b; LogBlock(d, i)
    else d[b]
  }

  ghost function Logical(d: Disk): Image
    requires WellFormed(d)
  {
    map b: int | 0 <= b < |d| && !InLog(b) :: LogicalBlock(d, b)
  }

  ghost predicate Means(d: Disk, img: Image) { WellFormed(d) && Logical(d) == img }

  /** The home blocks as they lie on the disk, whatever the header says. */
  ghost function Home(d: Disk): Image
  {
    map b: int | 0 <= b < |d| && !InLog(b) :: d[b]
  }

  lemma EmptyLogIsHome(d: Disk)
    requires WellFormed(d) && DiskIds(d) == []
    ensures Logical(d) == Home(d)
  {
  }

  // ---- single-block writes, in the order the code issues them ----

  /** A block write: where and what. */
  type Write = (int, Block)

  function Put(d: Disk, w: Write): Disk
    requires 0 <= w.0 < |d|
  {
    d[w.0 := w.1]
  }

  predicate InRange(ws: seq<Write>, size: nat)
  {
    forall i :: 0 <= i < |ws| ==> 0 <= ws[i].0 < size
  }

  /** The disk after the first k of a list of writes. */
  function PutAll(d: Disk, ws: seq<Write>, k: nat): (e: Disk)
    requires InRange(ws, |d|) && k <= |ws|
    ensures |e| == |d|
  {
    if k == 0 then d else Put(PutAll(d, ws, k - 1), ws[k - 1])
  }

  /** The pc-th block write of commit() with n > 0, given the header block h found on
      disk: n log blocks, the header, n home blocks, the empty header. */
  function CommitWrite(h: Block, ids: seq<int>, mem: map<int, Block>, pc: nat): Write
    requires GoodHeader(h) && |ids| <= LOGBLOCKS && Has(mem, ids) && pc < 2 * |ids| + 2
  {
    var n := |ids|;
    if pc < n then (LOGSTART + 1 + pc, mem[ids[pc]])
    else if pc == n then (LOGSTART, Header(ids, h))
    else if pc <= 2 * n then (ids[pc - n - 1], mem[ids[pc - n - 1]])
    else (LOGSTART, Header([], Header(ids, h)))
  }

  function CommitWrites(h: Block, ids: seq<int>, mem: map<int, Block>): (ws: seq<Write>)
    requires GoodHeader(h) && |ids| <= LOGBLOCKS && Has(mem, ids)
  {
    seq(2 * |ids| + 2, pc requires 0 <= pc < 2 * |ids| + 2 => CommitWrite(h, ids, mem, pc))
  }

  /** The pc-th block write of recover_from_log() on disk d. */
  function RecoverWrite(d: Disk, pc: nat): Write
    requires WellFormed(d) && pc <= |DiskIds(d)|
  {
    if pc < |DiskIds(d)| then (DiskIds(d)[pc], LogBlock(d, pc)) else (LOGSTART, Header([], d[LOGSTART]))
  }

  function RecoverWrites(d: Disk): (ws: seq<Write>)
    requires WellFormed(d)
  {
    seq(|DiskIds(d)| + 1, pc requires 0 <= pc <= |DiskIds(d)| => RecoverWrite(d, pc))
  }

  /** What holds of the disk after pc writes of a commit. */
  ghost predicate CommitInv(d: Disk, ids: seq<int>, mem: map<int, Block>, pc: nat)
  {
    && WellFormed(d) && GoodIds(ids, |d|) && |ids| > 0 && pc <= 2 * |ids| + 2
    && Has(mem, ids)
    && (forall i :: 0 <= i < |ids| && i < pc ==> LogBlock(d, i) == mem[ids[i]])
    && DiskIds(d) == (if |ids| < pc < 2 * |ids| + 2 then ids else [])
    && (forall i :: 0 <= i < pc - |ids| - 1 && i < |ids| ==> d[ids[i]] == mem[ids[i]])
  }

  /** What holds of the disk after pc writes of a recovery begun on disk start. */
  ghost predicate RecoverInv(d: Disk, start: Disk, pc: nat)
  {
    && WellFormed(start) && WellFormed(d) && |d| == |start|
    && var ids := DiskIds(start);
       && pc <= |ids| + 1
       && DiskIds(d) == (if pc <= |ids| then ids else [])
       && (forall i :: 0 <= i < |ids| ==> LogBlock(d, i) == LogBlock(start, i))
       && (forall i :: 0 <= i < |ids| && i < pc ==> d[ids[i]] == LogBlock(d, i))
  }

  lemma LogicalAt(d: Disk, ids: seq<int>, i: nat)
    requires WellFormed(d) && DiskIds(d) == ids && i < |ids|
    ensures LogicalBlock(d, ids[i]) == LogBlock(d, i)
  {
    var j :| 0 <= j < |ids| && ids[j] == ids[i] && LogicalBlock(d, ids[i]) == LogBlock(d, j);
    assert NewAt(ids, i) && NewAt(ids, j);
  }

  /** Writing a home block with its own log contents, or a log block the header does
      not name, does not change the meaning of the disk. */
  lemma HarmlessWrite(d: Disk, b: nat, v: Block)
    requires WellFormed(d) && b < |d| && b != LOGSTART
    requires InLog(b) ==> b >= LOGSTART + 1 + |DiskIds(d)|
    requires !InLog(b) ==> LogicalBlock(d, b) == v
    ensures WellFormed(d[b := v]) && DiskIds(d[b := v]) == DiskIds(d)
    ensures Logical(d[b := v]) == Logical(d)
  {
    var e := d[b := v];
    forall c: int | 0 <= c < |d| && !InLog(c) ensures LogicalBlock(e, c) == LogicalBlock(d, c) {
      if i :| 0 <= i < |DiskIds(d)| && DiskIds(d)[i] == c {
        LogicalAt(d, DiskIds(d), i);
        LogicalAt(e, DiskIds(d), i);
      }
    }
  }

  /** Emptying the header is harmless once every named home block holds its log contents. */
  lemma HarmlessClear(d: Disk, h: Block)
    requires WellFormed(d) && GoodHeader(h) && h.words[0] == 0
    requires forall i :: 0 <= i < |DiskIds(d)| ==> d[DiskIds(d)[i]] == LogBlock(d, i)
    ensures var e := d[LOGSTART := h];
            WellFormed(e) && DiskIds(e) == [] && Logical(e) == Logical(d) == Home(e)
  {
    var e := d[LOGSTART := h];
    forall c: int | 0 <= c < |d| && !InLog(c) ensures LogicalBlock(e, c) == LogicalBlock(d, c) == d[c] {
      if i :| 0 <= i < |DiskIds(d)| && DiskIds(d)[i] == c {
        LogicalAt(d, DiskIds(d), i);
      }
    }
  }

  /** Each write keeps the bookkeeping of how far the commit has come. */
  lemma CommitStepInv(d: Disk, h: Block, ids: seq<int>, mem: map<int, Block>, pc: nat)
    requires GoodHeader(h) && CommitInv(d, ids, mem, pc) && pc < 2 * |ids| + 2
    ensures 0 <= CommitWrite(h, ids, mem, pc).0 < |d|
    ensures CommitInv(Put(d, CommitWrite(h, ids, mem, pc)), ids, mem, pc + 1)
  {
    hide Header, HeaderIds;
    var n, w := |ids|, CommitWrite(h, ids, mem, pc);
    if pc < n {
      assert w == (LOGSTART + 1 + pc, mem[ids[pc]]);
    } else if pc == n {
      assert w.0 == LOGSTART && HeaderIds(w.1) == ids;
    } else if pc <= 2 * n {
      assert w == (ids[pc - n - 1], mem[ids[pc - n - 1]]);
    } else {
      assert w.0 == LOGSTART && HeaderIds(w.1) == [];
    }
    assert DiskIds(Put(d, w)) == if n <= pc < 2 * n + 1 then ids else [];
  }

  lemma HeaderWriteBlock(d: Disk, h: Block, ids: seq<int>, mem: map<int, Block>, c: nat)
    requires GoodHeader(h) && WellFormed(d) && DiskIds(d) == [] && GoodIds(ids, |d|) && Has(mem, ids)
    requires forall i :: 0 <= i < |ids| ==> LogBlock(d, i) == mem[ids[i]]
    requires c < |d| && !InLog(c)
    ensures var e := d[LOGSTART := Header(ids, h)];
            WellFormed(e) && LogicalBlock(e, c) == if c in ids then mem[c] else LogicalBlock(d, c)
  {
    var e := d[LOGSTART := Header(ids, h)];
    assert DiskIds(e) == ids;
    if c in ids {
      var i :| 0 <= i < |ids| && ids[i] == c;
      LogicalAt(e, ids, i);
      assert LogBlock(d, i) == mem[ids[i]];
    }
  }

  lemma Overlay(before: Image, after: Image, ids: seq<int>, mem: map<int, Block>)
    requires Has(mem, ids) && Covers(mem, ids) && before.Keys == after.Keys
    requires forall i :: 0 <= i < |ids| ==> ids[i] in before
    requires forall c :: c in after ==> after[c] == if c in ids then mem[c] else before[c]
    ensures after == before + mem
  {
    var both := before + mem;
    assert forall c :: c in mem <==> c in ids;
    assert both.Keys == after.Keys;
    assert forall c :: c in after ==> after[c] == both[c];
  }

  /** The commit point: the header write changes the meaning to the new contents, all at once. */
  lemma HeaderWriteCommits(d: Disk, h: Block, ids: seq<int>, mem: map<int, Block>)
    requires GoodHeader(h) && WellFormed(d) && DiskIds(d) == [] && GoodIds(ids, |d|) && Has(mem, ids) && Covers(mem, ids)
    requires forall i :: 0 <= i < |ids| ==> LogBlock(d, i) == mem[ids[i]]
    ensures var e := d[LOGSTART := Header(ids, h)];
            WellFormed(e) && Logical(e) == Logical(d) + mem
  {
    hide LogicalBlock;
    var e := d[LOGSTART := Header(ids, h)];
    assert DiskIds(e) == ids;
    forall c: int | 0 <= c < |d| && !InLog(c)
      ensures LogicalBlock(e, c) == if c in ids then mem[c] else LogicalBlock(d, c)
    {
      HeaderWriteBlock(d, h, ids, mem, c);
    }
    Overlay(Logical(d), Logical(e), ids, mem);
  }

  lemma CopyMeaning(d: Disk, h: Block, ids: seq<int>, mem: map<int, Block>, pc: nat)
    requires GoodHeader(h) && CommitInv(d, ids, mem, pc) && pc < |ids|
    ensures var w := CommitWrite(h, ids, mem, pc);
            0 <= w.0 < |d| && WellFormed(Put(d, w)) && Logical(Put(d, w)) == Logical(d)
  {
    HarmlessWrite(d, LOGSTART + 1 + pc, mem[ids[pc]]);
    hide Logical, WellFormed;
  }

  lemma InstallMeaning(d: Disk, h: Block, ids: seq<int>, mem: map<int, Block>, pc: nat)
    requires GoodHeader(h) && CommitInv(d, ids, mem, pc) && |ids| < pc <= 2 * |ids|
    ensures var w := CommitWrite(h, ids, mem, pc);
            0 <= w.0 < |d| && WellFormed(Put(d, w)) && Logical(Put(d, w)) == Logical(d)
  {
    var k := pc - |ids| - 1;
    LogicalAt(d, ids, k);
    HarmlessWrite(d, ids[k], mem[ids[k]]);
    hide Logical, WellFormed;
  }

  lemma ClearMeaning(d: Disk, h: Block, ids: seq<int>, mem: map<int, Block>)
    requires GoodHeader(h) && CommitInv(d, ids, mem, 2 * |ids| + 1)
    ensures var w := CommitWrite(h, ids, mem, 2 * |ids| + 1);
            0 <= w.0 < |d| && WellFormed(Put(d, w)) && Logical(Put(d, w)) == Logical(d)
  {
    HarmlessClear(d, Header([], Header(ids, h)));
    hide Logical, WellFormed;
  }

  lemma CommitMeaning(d: Disk, h: Block, ids: seq<int>, mem: map<int, Block>)
    requires GoodHeader(h) && CommitInv(d, ids, mem, |ids|) && Covers(mem, ids)
    ensures var w := CommitWrite(h, ids, mem, |ids|);
            0 <= w.0 < |d| && WellFormed(Put(d, w)) && Logical(Put(d, w)) == Logical(d) + mem
  {
    HeaderWriteCommits(d, h, ids, mem);
    hide Logical, WellFormed, Covers;
  }

  /** Every write of a commit keeps the meaning, except the header write, which
      replaces exactly the logged blocks. */
  lemma CommitStepMeaning(d: Disk, h: Block, ids: seq<int>, mem: map<int, Block>, pc: nat)
    requires GoodHeader(h) && CommitInv(d, ids, mem, pc) && pc < 2 * |ids| + 2 && Covers(mem, ids)
    ensures var w := CommitWrite(h, ids, mem, pc);
            0 <= w.0 < |d| && WellFormed(Put(d, w))
            && Logical(Put(d, w)) == if pc == |ids| then Logical(d) + mem else Logical(d)
  {
    hide Logical, WellFormed, Covers, CommitInv, CommitWrite, GoodHeader;
    var n := |ids|;
    if pc < n {
      CopyMeaning(d, h, ids, mem, pc);
    } else if pc == n {
      CommitMeaning(d, h, ids, mem);
    } else if pc <= 2 * n {
      InstallMeaning(d, h, ids, mem, pc);
    } else {
      ClearMeaning(d, h, ids, mem);
    }
  }

  lemma RecoverStepMeaning(d: Disk, start: Disk, pc: nat)
    requires RecoverInv(d, start, pc) && pc <= |DiskIds(start)|
    ensures var w := RecoverWrite(start, pc);
            0 <= w.0 < |d| && RecoverInv(Put(d, w), start, pc + 1) && Logical(Put(d, w)) == Logical(d)
  {
    var ids := DiskIds(start);
    if pc < |ids| {
      assert NewAt(ids, pc);
      LogicalAt(d, ids, pc);
      HarmlessWrite(d, ids[pc], LogBlock(d, pc));
    } else {
      HarmlessClear(d, Header([], start[LOGSTART]));
    }
  }

  // ---- whole commits and recoveries ----

  lemma CommitWritesInRange(h: Block, ids: seq<int>, mem: map<int, Block>, size: nat)
    requires GoodHeader(h) && GoodIds(ids, size) && size > LOGSTART + LOGBLOCKS && Has(mem, ids)
    ensures InRange(CommitWrites(h, ids, mem), size)
  {
  }

  /** The disk a commit leaves when it is cut off after j block writes. */
  function CommitCutOff(d: Disk, ids: seq<int>, mem: map<int, Block>, j: nat): Disk
    requires WellFormed(d) && GoodIds(ids, |d|) && Has(mem, ids) && j <= 2 * |ids| + 2
  {
    CommitWritesInRange(d[LOGSTART], ids, mem, |d|);
    PutAll(d, CommitWrites(d[LOGSTART], ids, mem), j)
  }

  /** The disk a recovery leaves when it is cut off after j block writes. */
  function RecoverCutOff(d: Disk, j: nat): Disk
    requires WellFormed(d) && j <= |DiskIds(d)| + 1
  {
    PutAll(d, RecoverWrites(d), j)
  }

  lemma CommitCutOffStep(d: Disk, ids: seq<int>, mem: map<int, Block>, j: nat)
    requires CommitInv(d, ids, mem, 0) && j < 2 * |ids| + 2
    ensures 0 <= CommitWrite(d[LOGSTART], ids, mem, j).0 < |CommitCutOff(d, ids, mem, j)|
    ensures CommitCutOff(d, ids, mem, j + 1)
         == Put(CommitCutOff(d, ids, mem, j), CommitWrite(d[LOGSTART], ids, mem, j))
  {
  }

  lemma CommitCutOffNext(d: Disk, ids: seq<int>, mem: map<int, Block>, j: nat)
    requires CommitInv(d, ids, mem, 0) && j < 2 * |ids| + 2 && CommitInv(CommitCutOff(d, ids, mem, j), ids, mem, j)
    ensures CommitInv(CommitCutOff(d, ids, mem, j + 1), ids, mem, j + 1)
  {
    var h := d[LOGSTART];
    assert GoodHeader(h);
    CommitCutOffStep(d, ids, mem, j);
    hide CommitInv, CommitCutOff, CommitWrite, GoodHeader, Put;
    CommitStepInv(CommitCutOff(d, ids, mem, j), h, ids, mem, j);
  }

  lemma {:induction false} CommitCutOffInv(d: Disk, ids: seq<int>, mem: map<int, Block>, j: nat)
    requires CommitInv(d, ids, mem, 0) && j <= 2 * |ids| + 2
    ensures CommitInv(CommitCutOff(d, ids, mem, j), ids, mem, j)
  {
    if j > 0 {
      CommitCutOffInv(d, ids, mem, j - 1);
      CommitCutOffNext(d, ids, mem, j - 1);
      hide CommitInv, CommitCutOff;
    }
  }

  lemma CommitCutOffMeaning(d: Disk, ids: seq<int>, mem: map<int, Block>, j: nat, img: Image)
    requires CommitInv(d, ids, mem, 0) && Covers(mem, ids) && j < 2 * |ids| + 2
    requires Means(CommitCutOff(d, ids, mem, j), img)
    ensures Means(CommitCutOff(d, ids, mem, j + 1), if j == |ids| then img + mem else img)
  {
    CommitCutOffStep(d, ids, mem, j);
    CommitCutOffInv(d, ids, mem, j);
    var e, h := CommitCutOff(d, ids, mem, j), d[LOGSTART];
    hide CommitInv, CommitCutOff, CommitWrite, Logical, WellFormed, Covers, Put;
    CommitStepMeaning(e, h, ids, mem, j);
  }

  /** Crash atomicity: wherever a commit is cut off, the disk means all old before the
      header write and all new from it on. */
  lemma {:induction false} CommitIsAtomic(d: Disk, ids: seq<int>, mem: map<int, Block>, j: nat, img: Image)
    requires CommitInv(d, ids, mem, 0) && Covers(mem, ids) && Means(d, img) && j <= 2 * |ids| + 2
    ensures Means(CommitCutOff(d, ids, mem, j), if j <= |ids| then img else img + mem)
  {
    if j == 0 {
      assert CommitCutOff(d, ids, mem, 0) == d;
    } else {
      CommitIsAtomic(d, ids, mem, j - 1, img);
      CommitCutOffMeaning(d, ids, mem, j - 1, if j - 1 <= |ids| then img else img + mem);
      hide Means;
    }
  }

  /** Recovery can be cut off anywhere without changing what the disk means. */
  lemma {:induction false} RecoveryKeepsMeaning(d: Disk, j: nat)
    requires WellFormed(d) && j <= |DiskIds(d)| + 1
    ensures RecoverInv(RecoverCutOff(d, j), d, j) && Logical(RecoverCutOff(d, j)) == Logical(d)
  {
    if j > 0 {
      RecoveryKeepsMeaning(d, j - 1);
      RecoverStepMeaning(RecoverCutOff(d, j - 1), d, j - 1);
    }
  }

  /** Recoveries cut off one after another: the i-th after cuts[i] writes. */
  ghost predicate CutOffRecoveries(ds: seq<Disk>, cuts: seq<nat>)
  {
    && |ds| == |cuts| + 1
    && forall i :: 0 <= i < |cuts| ==> CutOffRecovery(ds, cuts, i)
  }

  ghost predicate CutOffRecovery(ds: seq<Disk>, cuts: seq<nat>, i: nat)
  {
    && i + 1 < |ds| && i < |cuts| && WellFormed(ds[i]) && cuts[i] <= |DiskIds(ds[i])| + 1
    && ds[i + 1] == RecoverCutOff(ds[i], cuts[i])
  }

  lemma {:induction false} RepeatedCrashesAreHarmless(ds: seq<Disk>, cuts: seq<nat>, k: nat)
    requires CutOffRecoveries(ds, cuts) && k < |ds| && WellFormed(ds[0])
    ensures WellFormed(ds[k]) && Logical(ds[k]) == Logical(ds[0])
  {
    if k > 0 {
      RepeatedCrashesAreHarmless(ds, cuts, k - 1);
      assert CutOffRecovery(ds, cuts, k - 1);
      RecoveryKeepsMeaning(ds[k - 1], cuts[k - 1]);
      hide *;
    }
  }

  /** A commit cut off after j writes, then any number of cut-off recoveries, then a
      completed one: the home blocks are all old or all new, and all new exactly when
      the header write had completed. */
  lemma CrashRecoveryIsAtomic(d: Disk, ids: seq<int>, mem: map<int, Block>, j: nat, ds: seq<Disk>, cuts: seq<nat>)
    requires CommitInv(d, ids, mem, 0) && Covers(mem, ids) && j <= 2 * |ids| + 2
    requires CutOffRecoveries(ds, cuts) && ds[0] == CommitCutOff(d, ids, mem, j)
    ensures var last := ds[|ds| - 1];
            && WellFormed(last)
            && var r := RecoverCutOff(last, |DiskIds(last)| + 1);
               && WellFormed(r) && DiskIds(r) == []
               && Home(r) == if j <= |ids| then Home(d) else Home(d) + mem
  {
    CommitIsAtomic(d, ids, mem, j, Logical(d));
    RepeatedCrashesAreHarmless(ds, cuts, |ds| - 1);
    var last := ds[|ds| - 1];
    RecoveryKeepsMeaning(last, |DiskIds(last)| + 1);
    EmptyLogIsHome(d);
    EmptyLogIsHome(RecoverCutOff(last, |DiskIds(last)| + 1));
  }
}

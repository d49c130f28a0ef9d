/** The in-memory log of kernel/log.c over the disk of RedoLog. */
module LogCode {
  import opened Params
  import opened RedoLog
  import SleepWake

  datatype Outcome = Done | Asleep | Panicked

  // Who waits for the log, on its one channel &log.

  /** What log.lock protects of it. lh.n is set to 0 by commit() without the lock, but nobody looks at it while committing
      is set; here it changes in the section that clears committing. */
  datatype Gate = Gate(n: int, outstanding: int, committing: bool)

  const CHAN := 0

  predicate May(g: Gate, c: int) { c == CHAN && (g.committing || !Room(g)) }

  /** There is room for one more operation. */
  predicate Room(g: Gate) { g.n + (g.outstanding + 1) * MAXOPBLOCKS <= LOGBLOCKS }

  /** The ways the critical sections of begin_op, log_write and end_op end. */
  ghost predicate Ends(g0: Gate, g: Gate, woken: set<int>, p: int, x: SleepWake.Exit) {
    match x
    case SleepsOn(c) => c == CHAN && g == g0 && May(g, c) && woken == {}
    case Returns =>
      || (!g0.committing && Room(g0) && g == g0.(outstanding := g0.outstanding + 1) && woken == {})
      || (g0.outstanding >= 1 && g0.n <= g.n <= g0.n + 1 && g == g0.(n := g.n) && woken == {})
      || (!g0.committing && g0.outstanding > 1 && g == g0.(outstanding := g0.outstanding - 1) && woken == {CHAN})
      || (!g0.committing && g0.outstanding == 1 && g == g0.(outstanding := 0, committing := true) && woken == {})
      || (g0.committing && g == Gate(0, g0.outstanding, false) && woken == {CHAN})
  }

  predicate Orderly(g: Gate) {
    g.n >= 0 && g.outstanding >= 0 && (g.outstanding == 0 && !g.committing ==> g.n == 0)
  }

  /** Over every run from an empty log, while the lock is free nobody sleeps in begin_op unless a commit is under way or
      the log may fill up, and then an operation is in progress whose end_op will wake the sleeper. */
  lemma NoLostWakeup(ss: seq<SleepWake.State<Gate>>, ts: seq<SleepWake.Step<Gate>>, k: int, q: int)
    requires SleepWake.ClientRun(Ends, ss, ts) && ss[0].data == Gate(0, 0, false) && 0 <= k < |ss| && ss[k].lk == -1
    requires 0 <= q < |ss[k].phase| && ss[k].phase[q].Asleep?
    ensures ss[k].data.committing || (!Room(ss[k].data) && ss[k].data.outstanding >= 1)
  {
    assert SleepWake.EndsWell(May, Ends);
    SleepWake.ClientLosesNoWakeup(May, Ends, ss, ts, k, q);
    SleepWake.ClientKeeps(Orderly, Ends, ss, ts, k);
  }

  class Log {
    var disk: Disk
    var pinned: map<int, Block>    // buffers log_write has pinned, with their data
    var lh: seq<int>               // lh.block[0..lh.n]
    var outstanding: int
    var committing: bool

    // The block writes of the commit or recovery under way: the disk it began on, all
    // the writes it is to issue, and how many of them have been issued.
    ghost var base: Disk
    ghost var plan: seq<Write>
    ghost var issued: nat

    /** Holds whenever no commit or recovery is under way. */
    ghost predicate Valid()
      reads this
    {
      && WellFormed(disk) && DiskIds(disk) == []
      && GoodIds(lh, |disk|)
      && Has(pinned, lh) && Covers(pinned, lh)
    }

    /** The disk holds exactly the writes issued so far, a prefix of the plan. */
    ghost predicate OnPlan()
      reads this
    {
      && issued <= |plan| && InRange(plan, |base|) && |disk| == |base|
      && disk == PutAll(base, plan, issued)
    }

    constructor (d: Disk)
      requires WellFormed(d)
      ensures disk == d && lh == [] && pinned == map[] && outstanding == 0 && !committing
    {
      disk, pinned, lh, outstanding, committing := d, map[], [], 0, false;
    }

    method Bread(b: int) returns (v: Block)
      requires 0 <= b < |disk|
      ensures v == if b in pinned then pinned[b] else disk[b]
    {
      v := if b in pinned then pinned[b] else disk[b];
    }

    /** Writes one block; it must be the next one of the plan. */
    method Bwrite(b: int, v: Block)
      requires OnPlan() && issued < |plan| && plan[issued] == (b, v)
      modifies this`disk, this`issued
      ensures OnPlan() && issued == old(issued) + 1
      ensures 0 <= b < |disk| && disk == old(disk)[b := v]
    {
      disk := disk[b := v];
      issued := issued + 1;
    }

    method WriteHead()
      requires |lh| <= LOGBLOCKS && |disk| > LOGSTART && GoodHeader(disk[LOGSTART]) && LOGSTART !in pinned
      requires OnPlan() && issued < |plan| && plan[issued] == (LOGSTART, Header(lh, disk[LOGSTART]))
      modifies this`disk, this`issued
      ensures OnPlan() && issued == old(issued) + 1
      ensures disk == old(disk)[LOGSTART := Header(lh, old(disk)[LOGSTART])]
    {
      var hb := Bread(LOGSTART);
      var h := hb.words[0 := |lh|];
      var i := 0;
      while i < |lh|
        invariant 0 <= i <= |lh| && h == Filled(lh, hb.words, i)
      {
        h := h[1 + i := lh[i]];
        i := i + 1;
      }
      Bwrite(LOGSTART, Block(h));
    }

    method ReadHead()
      requires WellFormed(disk) && pinned == map[]
      modifies this`lh
      ensures lh == DiskIds(disk)
    {
      var hb := Bread(LOGSTART);
      lh := [];
      var i := 0;
      while i < hb.words[0]
        invariant 0 <= i <= hb.words[0] && lh == Entries(hb.words, i)
      {
        lh := lh + [hb.words[1 + i]];
        i := i + 1;
      }
    }

    /** Copies every logged block from its pinned buffer to its log block. */
    method WriteLog()
      requires |disk| > LOGSTART + LOGBLOCKS && |lh| <= LOGBLOCKS
      requires forall i :: 0 <= i < |lh| ==> 0 <= lh[i] < |disk| && lh[i] in pinned
      requires OnPlan() && issued + |lh| <= |plan|
      requires forall i :: 0 <= i < |lh| ==> Planned(plan, issued, i, LOGSTART + 1 + i, pinned[lh[i]])
      modifies this`disk, this`issued
      ensures OnPlan() && issued == old(issued) + |lh|
      ensures |disk| == old(|disk|) && disk[LOGSTART] == old(disk[LOGSTART])
      ensures forall i :: 0 <= i < |lh| ==> LogBlock(disk, i) == pinned[lh[i]]
    {
      var tail := 0;
      while tail < |lh|
        invariant 0 <= tail <= |lh| && |disk| == old(|disk|) && disk[LOGSTART] == old(disk[LOGSTART])
        invariant forall i :: 0 <= i < tail ==> LogBlock(disk, i) == pinned[lh[i]]
        invariant OnPlan() && issued == old(issued) + tail
      {
        var from := Bread(lh[tail]);
        assert Planned(plan, old(issued), tail, LOGSTART + 1 + tail, pinned[lh[tail]]);
        Bwrite(LOGSTART + tail + 1, from);
        tail := tail + 1;
      }
    }

    /** Copies every log block to its home block; a commit also unpins the buffers. */
    method InstallTrans(recovering: bool)
      requires |disk| > LOGSTART + LOGBLOCKS && |lh| <= LOGBLOCKS
      requires forall i :: 0 <= i < |lh| ==> 0 <= lh[i] < |disk| && !InLog(lh[i])
      requires forall b :: b in pinned ==> !InLog(b)
      requires OnPlan() && issued + |lh| <= |plan|
      requires forall i :: 0 <= i < |lh| ==> Planned(plan, issued, i, lh[i], LogBlock(disk, i))
      modifies this`disk, this`issued, this`pinned
      ensures OnPlan() && issued == old(issued) + |lh|
      ensures pinned == if recovering then old(pinned) else old(pinned) - Elems(lh)
      ensures |disk| == old(|disk|) && disk[LOGSTART] == old(disk[LOGSTART])
    {
      ghost var d, mem := disk, pinned;
      var tail := 0;
      while tail < |lh|
        invariant 0 <= tail <= |lh| && |disk| == |d| && disk[LOGSTART] == d[LOGSTART]
        invariant forall i :: 0 <= i < |lh| ==> LogBlock(disk, i) == LogBlock(d, i)
        invariant pinned == if recovering then mem else mem - Elems(lh[..tail])
        invariant OnPlan() && issued == old(issued) + tail
      {
        var lbuf := Bread(LOGSTART + tail + 1);
        assert lbuf == LogBlock(disk, tail);
        assert Planned(plan, old(issued), tail, lh[tail], LogBlock(d, tail));
        Bwrite(lh[tail], lbuf);
        if !recovering {
          pinned := pinned - {lh[tail]};
          assert lh[..tail + 1] == lh[..tail] + [lh[tail]];
        }
        tail := tail + 1;
      }
      assert lh[..|lh|] == lh;
    }

    ghost method PlanCommit()
      requires Valid()
      modifies this`base, this`plan, this`issued
      ensures OnPlan() && base == disk && issued == 0 && |plan| == 2 * |lh| + 2
      ensures plan == CommitWrites(disk[LOGSTART], lh, pinned)
      ensures forall i :: 0 <= i < |lh| ==> Planned(plan, 0, i, LOGSTART + 1 + i, pinned[lh[i]])
      ensures plan[|lh|] == (LOGSTART, Header(lh, disk[LOGSTART]))
      ensures forall i :: 0 <= i < |lh| ==> Planned(plan, |lh| + 1, i, lh[i], pinned[lh[i]])
      ensures plan[2 * |lh| + 1] == (LOGSTART, Header([], Header(lh, disk[LOGSTART])))
      ensures forall b :: b in pinned ==> !InLog(b)
    {
      HomeBlocksOnly(lh, |disk|);
      PlanShape(disk[LOGSTART], lh, pinned);
      CommitWritesInRange(disk[LOGSTART], lh, pinned, |disk|);
      base, plan, issued := disk, CommitWrites(disk[LOGSTART], lh, pinned), 0;
    }

    /** Commits. The block writes issued are exactly CommitWrites, in order, so a crash
        after j of them leaves CommitCutOff(base, lh, pinned, j). */
    method Commit()
      requires Valid()
      modifies this`disk, this`pinned, this`lh, this`base, this`plan, this`issued
      ensures Valid() && lh == [] && pinned == map[]
      ensures OnPlan() && issued == |plan| && base == old(disk)
      ensures plan == if old(lh) == [] then [] else CommitWrites(old(disk)[LOGSTART], old(lh), old(pinned))
    {
      if |lh| > 0 {
        PlanCommit();
        CommitPlanned();
      } else {
        base, plan, issued := disk, [], 0;
      }
    }

    /** The body of commit() when something was logged. */
    method CommitPlanned()
      requires Valid() && OnPlan() && base == disk && issued == 0
      requires |plan| == 2 * |lh| + 2 && plan[|lh|] == (LOGSTART, Header(lh, disk[LOGSTART]))
      requires plan[2 * |lh| + 1] == (LOGSTART, Header([], Header(lh, disk[LOGSTART])))
      requires forall i :: 0 <= i < |lh| ==> Planned(plan, 0, i, LOGSTART + 1 + i, pinned[lh[i]])
      requires forall i :: 0 <= i < |lh| ==> Planned(plan, |lh| + 1, i, lh[i], pinned[lh[i]])
      requires forall b :: b in pinned ==> !InLog(b)
      modifies this`disk, this`pinned, this`lh, this`issued
      ensures Valid() && lh == [] && pinned == map[]
      ensures OnPlan() && issued == |plan|
    {
      LogAndCommit();
      InstallAndClear();
    }

    /** The part of commit() up to the commit point. */
    method LogAndCommit()
      requires |disk| > LOGSTART + LOGBLOCKS && |lh| <= LOGBLOCKS && GoodHeader(disk[LOGSTART])
      requires forall i :: 0 <= i < |lh| ==> 0 <= lh[i] < |disk| && lh[i] in pinned
      requires OnPlan() && issued == 0 && |plan| > |lh| && plan[|lh|] == (LOGSTART, Header(lh, disk[LOGSTART]))
      requires forall i :: 0 <= i < |lh| ==> Planned(plan, 0, i, LOGSTART + 1 + i, pinned[lh[i]])
      requires LOGSTART !in pinned
      modifies this`disk, this`issued
      ensures OnPlan() && issued == |lh| + 1
      ensures |disk| == old(|disk|) && disk[LOGSTART] == Header(lh, old(disk)[LOGSTART])
      ensures forall i :: 0 <= i < |lh| ==> LogBlock(disk, i) == pinned[lh[i]]
    {
      WriteLog();
      WriteHead();
    }

    /** The part of commit() after the commit point. */
    method InstallAndClear()
      requires |disk| > LOGSTART + LOGBLOCKS && |lh| <= LOGBLOCKS && GoodHeader(disk[LOGSTART])
      requires forall i :: 0 <= i < |lh| ==> 0 <= lh[i] < |disk| && !InLog(lh[i])
      requires Covers(pinned, lh) && forall b :: b in pinned ==> !InLog(b)
      requires OnPlan() && |plan| == issued + |lh| + 1
      requires forall i :: 0 <= i < |lh| ==> Planned(plan, issued, i, lh[i], LogBlock(disk, i))
      requires plan[issued + |lh|] == (LOGSTART, Header([], disk[LOGSTART]))
      modifies this`disk, this`pinned, this`lh, this`issued
      ensures Valid() && lh == [] && pinned == map[]
      ensures OnPlan() && issued == |plan|
    {
      InstallTrans(false);
      lh := [];
      WriteHead();
    }

    /** Recovers. The block writes issued are exactly RecoverWrites, in order. */
    method RecoverFromLog()
      requires WellFormed(disk) && pinned == map[]
      modifies this`disk, this`pinned, this`lh, this`base, this`plan, this`issued
      ensures Valid() && lh == [] && pinned == map[]
      ensures OnPlan() && issued == |plan| && base == old(disk) && plan == RecoverWrites(old(disk))
      ensures Home(disk) == Logical(old(disk))
    {
      ReplayLog();
      RecoveryKeepsMeaning(base, |plan|);
      EmptyLogIsHome(disk);
    }

    /** The statements of recover_from_log. */
    method ReplayLog()
      requires WellFormed(disk) && pinned == map[]
      modifies this`disk, this`pinned, this`lh, this`base, this`plan, this`issued
      ensures lh == [] && pinned == map[]
      ensures OnPlan() && issued == |plan| && base == old(disk) && plan == RecoverWrites(old(disk))
    {
      ReadHead();
      base, plan, issued := disk, RecoverWrites(disk), 0;
      assert forall i :: 0 <= i < |lh| ==> Planned(plan, 0, i, lh[i], LogBlock(disk, i));
      InstallTrans(true);
      lh := [];
      WriteHead();
    }

    ghost function G(): Gate
      reads this
    {
      Gate(|lh|, outstanding, committing)
    }

    /** One attempt of begin_op: admitted, or asleep until a commit or an end_op. */
    method BeginOp() returns (r: Outcome)
      modifies this`outstanding
      ensures Ends(old(G()), G(), {}, 0, if r == Done then SleepWake.Returns else SleepWake.SleepsOn(CHAN))
      ensures r == Done <==> !committing && |lh| + (old(outstanding) + 1) * MAXOPBLOCKS <= LOGBLOCKS
      ensures r == Done || r == Asleep
      ensures outstanding == old(outstanding) + (if r == Done then 1 else 0)
    {
      if committing {
        r := Asleep;
      } else if |lh| + (outstanding + 1) * MAXOPBLOCKS > LOGBLOCKS {
        r := Asleep;
      } else {
        outstanding := outstanding + 1;
        r := Done;
      }
    }

    /** Records a modified buffer: at most once in the log, with its latest data pinned. */
    method LogWrite(b: int, v: Block) returns (r: Outcome)
      requires Valid() && 0 <= b < |disk| && !InLog(b)
      modifies this`lh, this`pinned
      ensures r == Panicked <==> old(|lh|) >= LOGBLOCKS || outstanding < 1
      ensures r == Panicked ==> lh == old(lh) && pinned == old(pinned)
      ensures r != Panicked ==>
        && r == Done && lh == (if b in old(lh) then old(lh) else old(lh) + [b])
        && pinned == old(pinned)[b := v]
      ensures Valid() && (r != Panicked ==> Ends(old(G()), G(), {}, 0, SleepWake.Returns))
    {
      if |lh| >= LOGBLOCKS || outstanding < 1 {
        return Panicked;
      }
      var i := 0;
      while i < |lh| && lh[i] != b
        invariant 0 <= i <= |lh| && b !in lh[..i]
      {
        i := i + 1;
      }
      ghost var before := lh;
      if i == |lh| {
        lh := lh + [b];
        AddBlock(before, b, |disk|);
      } else {
        lh := lh[i := b];
        assert lh == before;
      }
      pinned := pinned[b := v];
      r := Done;
    }

    /** end_op: the last operation out commits everything logged. */
    method EndOp() returns (r: Outcome)
      requires Valid() && outstanding >= 1
      modifies this
      ensures r == Panicked <==> old(committing)
      ensures outstanding == old(outstanding) - 1 && committing == old(committing) && Valid()
      ensures !committing && outstanding == 0 ==>
        && OnPlan() && issued == |plan| && base == old(disk)
        && plan == (if old(lh) == [] then [] else CommitWrites(old(disk)[LOGSTART], old(lh), old(pinned)))
        && lh == []
      ensures committing || outstanding > 0 ==> disk == old(disk) && lh == old(lh) && pinned == old(pinned)
    {
      var doCommit;
      ghost var woken;
      r, doCommit, woken := LeaveOp();
      if doCommit {
        ghost var g := G();
        Commit();
        woken := CommitOver(g);
      }
    }

    /** The first critical section of end_op: the last operation out is to commit, any other wakes those who wait. */
    method LeaveOp() returns (r: Outcome, doCommit: bool, ghost woken: set<int>)
      requires outstanding >= 1
      modifies this`outstanding, this`committing
      ensures (r == Panicked <==> old(committing)) && (r == Panicked || r == Done)
      ensures outstanding == old(outstanding) - 1 && (doCommit <==> !old(committing) && outstanding == 0)
      ensures committing == (old(committing) || doCommit)
      ensures r == Done ==> Ends(old(G()), G(), woken, 0, SleepWake.Returns)
    {
      doCommit, woken := false, {};
      outstanding := outstanding - 1;
      if committing {
        return Panicked, false, {};
      }
      if outstanding == 0 {
        doCommit := true;
        committing := true;
      } else {
        woken := {CHAN};
      }
      r := Done;
    }

    /** The last critical section of end_op, after the commit that began with the gate at g. */
    method CommitOver(ghost g: Gate) returns (ghost woken: set<int>)
      requires lh == [] && g.committing && g.outstanding == outstanding
      modifies this`committing
      ensures !committing && Ends(g, G(), woken, 0, SleepWake.Returns)
    {
      committing := false;
      woken := {CHAN};
    }
  }

  ghost predicate Planned(plan: seq<Write>, start: nat, i: nat, b: int, v: Block)
  {
    start + i < |plan| && plan[start + i] == (b, v)
  }

  lemma PlanShape(h: Block, ids: seq<int>, mem: map<int, Block>)
    requires GoodHeader(h) && |ids| <= LOGBLOCKS && Has(mem, ids)
    ensures var ws := CommitWrites(h, ids, mem);
            && (forall i :: 0 <= i < |ids| ==> Planned(ws, 0, i, LOGSTART + 1 + i, mem[ids[i]]))
            && (forall i :: 0 <= i < |ids| ==> Planned(ws, |ids| + 1, i, ids[i], mem[ids[i]]))
  {
  }
}

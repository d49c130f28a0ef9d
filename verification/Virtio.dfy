/** virtio_disk.c: the driver's sections under vdisk_lock, and the device, which takes posted chains and completes each
    once, in any order. Each method is one atomic step; any interleaving is a sequence of calls. */
module Virtio {
  import opened Params
  import opened VirtQueue
  import SleepWake

  // Who waits under vdisk_lock: for descriptors, on &disk.free[0], and for the disk to be done with a buffer, on it.

  datatype Gate = Gate(nfree: int, busy: set<int>)

  /** The channel &disk.free[0]; a buffer's channel is the buffer. */
  const FREE := -1

  predicate May(g: Gate, c: int) { if c == FREE then g.nfree < 3 else c in g.busy }

  /** The ways the critical sections of virtio_disk_rw and virtio_disk_intr end. */
  ghost predicate Ends(g0: Gate, g: Gate, woken: set<int>, p: int, x: SleepWake.Exit) {
    match x
    case SleepsOn(c) =>
      || (c == FREE && g == g0 && g.nfree < 3 && woken <= {FREE})
      || (c != FREE && c in g.busy && g.nfree <= g0.nfree && g0.busy <= g.busy && woken == {})
    case Returns =>
      || (g.busy == g0.busy && FREE in woken)
      || (g.nfree == g0.nfree && g.busy <= g0.busy && g0.busy - g.busy <= woken)
  }

  /** Over every run, while the lock is free a process sleeps for descriptors only when fewer than three are free, and for
      a buffer only while the disk has it. */
  lemma NoLostWakeup(ss: seq<SleepWake.State<Gate>>, ts: seq<SleepWake.Step<Gate>>, k: int, q: int)
    requires SleepWake.ClientRun(Ends, ss, ts) && 0 <= k < |ss| && ss[k].lk == -1
    requires 0 <= q < |ss[k].phase| && ss[k].phase[q].Asleep?
    ensures if ss[k].phase[q].c == FREE then ss[k].data.nfree < 3 else ss[k].phase[q].c in ss[k].data.busy
  {
    assert SleepWake.EndsWell(May, Ends);
    SleepWake.ClientLosesNoWakeup(May, Ends, ss, ts, k, q);
  }

  class Disk {
    var free: seq<bool>
    var desc: seq<Desc>
    var ops: seq<BlkReq>
    var owner: seq<int>         // info[].b, -1 for none
    var status: seq<int>        // info[].status
    var avail: seq<int>
    var availIdx: int
    var used: seq<int>
    var usedIdx: int            // used->idx, the device's
    var seenIdx: int            // used_idx, the driver's
    var devIdx: int             // how far the device has read the available ring
    var busy: set<int>          // the buffers b with b->disk set
    ghost var use: seq<Use>
    ghost var req: map<int, Req>
    ghost var holder: map<int, int>
    ghost var A: seq<int>
    ghost var U: seq<int>
    ghost var taken: int
    ghost var seen: int

    ghost function Q(): Queue
      reads this
    {
      Queue(free, desc, ops, owner, use, req, holder, busy, avail, used, A, U, taken, seen)
    }

    ghost function G(): Gate
      reads this
    {
      Gate(|FreeSet(free)|, busy)
    }

    ghost predicate Valid()
      reads this
    {
      && Inv(Q()) && |status| == NUM
      && availIdx == |A| % WRAP && usedIdx == |U| % WRAP && seenIdx == seen % WRAP && devIdx == taken % WRAP
    }

    constructor ()
      ensures Valid() && req == map[] && forall d :: 0 <= d < NUM ==> free[d]
    {
      free, desc := seq(NUM, _ => true), seq(NUM, _ => NODESC);
      ops, owner, status := seq(NUM, _ => BlkReq(0, 0)), seq(NUM, _ => -1), seq(NUM, _ => 0);
      avail, availIdx, used, usedIdx, seenIdx, devIdx, busy := seq(NUM, _ => 0), 0, seq(NUM, _ => 0), 0, 0, 0, {};
      use, req, holder, A, U, taken, seen := seq(NUM, _ => Free), map[], map[], [], [], 0, 0;
      new;
      assert forall d :: 0 <= d < NUM ==> DescOk(Q(), d);
    }

    /** The first free descriptor, taken; -1 when there is none. */
    method AllocDesc() returns (i: int)
      requires |free| == |use| == NUM && forall d :: 0 <= d < NUM ==> (free[d] <==> use[d] == Free)
      modifies this`free, this`use
      ensures i == -1 <==> forall d :: 0 <= d < NUM ==> !old(free)[d]
      ensures i == -1 ==> free == old(free) && use == old(use)
      ensures i != -1 ==> 0 <= i < NUM && old(free)[i] && free == old(free)[i := false] && use == old(use)[i := Held]
    {
      i := 0;
      while i < NUM
        invariant 0 <= i <= NUM && free == old(free) && use == old(use) && forall d :: 0 <= d < i ==> !free[d]
      {
        if free[i] {
          free := free[i := false];
          use := use[i := Held];
          return;
        }
        i := i + 1;
      }
      i := -1;
    }

    /** Gives a descriptor back; refuses (panic) one out of range or free already. */
    method FreeDesc(i: int) returns (ok: bool)
      requires |free| == |desc| == |use| == NUM && 0 <= i
      modifies this`free, this`desc, this`use
      ensures ok <==> i < NUM && !old(free)[i]
      ensures ok ==> free == old(free)[i := true] && desc == old(desc)[i := NODESC] && use == old(use)[i := Free]
      ensures !ok ==> free == old(free) && desc == old(desc) && use == old(use)
    {
      if i >= NUM {
        return false;
      }
      if free[i] {
        return false;
      }
      desc := desc[i := NODESC];
      free := free[i := true];
      use := use[i := Free];
      ok := true;
    }

    /** Frees the descriptors linked from i on: for a chain of three, exactly those. */
    method FreeChain(i: int, ghost i1: int, ghost i2: int)
      requires |free| == |desc| == |use| == NUM && Distinct3(i, i1, i2) && !free[i] && !free[i1] && !free[i2]
      requires desc[i].flags % 2 == 1 && desc[i].next == i1 && desc[i1].flags % 2 == 1 && desc[i1].next == i2
      requires desc[i2].flags % 2 == 0
      modifies this`free, this`desc, this`use
      ensures free == old(free)[i := true][i1 := true][i2 := true]
      ensures desc == old(desc)[i := NODESC][i1 := NODESC][i2 := NODESC]
      ensures use == old(use)[i := Free][i1 := Free][i2 := Free]
    {
      var k := i;
      ghost var pos := 0;
      while true
        invariant 0 <= pos < 3 && k == (if pos == 0 then i else if pos == 1 then i1 else i2)
        invariant pos == 0 ==> free == old(free) && desc == old(desc) && use == old(use)
        invariant pos == 1 ==> free == old(free)[i := true] && desc == old(desc)[i := NODESC] && use == old(use)[i := Free]
        invariant pos == 2 ==> free == old(free)[i := true][i1 := true] && desc == old(desc)[i := NODESC][i1 := NODESC] &&
                               use == old(use)[i := Free][i1 := Free]
        decreases 3 - pos
      {
        var flags, next := desc[k].flags, desc[k].next;
        var ok := FreeDesc(k);
        assert ok;
        if flags % 2 == 1 {
          k := next;
          pos := pos + 1;
        } else {
          break;
        }
      }
    }

    /** The descriptors of set x are taken, everything else is as in s. */
    ghost predicate TookFrom(s: Queue, x: set<int>)
      reads this
    {
      && Q() == s.(free := free, use := use, desc := desc) && |free| == |use| == |desc| == NUM == |s.free| == |s.use| == |s.desc|
      && (forall d :: 0 <= d < NUM ==> free[d] == (s.free[d] && d !in x))
      && (forall d :: 0 <= d < NUM ==> use[d] == if d in x then Held else s.use[d])
      && (forall d :: 0 <= d < NUM && !s.free[d] ==> desc[d] == s.desc[d])
      && (forall d :: d in x ==> 0 <= d < NUM && s.free[d])
    }

    /** The undoing loop of alloc3_desc. */
    method GiveBack(idx: seq<int>, ghost s: Queue)
      requires Inv(s) && TookFrom(s, Tail(idx, 0)) && NoRepeat(idx)
      modifies this`free, this`use, this`desc
      ensures TookFrom(s, {})
    {
      UsesMatch(s);
      var j := 0;
      while j < |idx|
        invariant 0 <= j <= |idx| && TookFrom(s, Tail(idx, j))
      {
        TailStep(idx, j);
        var ok := FreeDesc(idx[j]);
        assert ok;
        j := j + 1;
      }
    }

    /** Three free descriptors, or none taken when there are fewer. */
    method Alloc3() returns (ok: bool, idx: seq<int>)
      requires Inv(Q())
      modifies this`free, this`use, this`desc
      ensures Inv(Q()) && (!ok ==> TookFrom(old(Q()), {}) && free == old(free))
      ensures ok ==> |idx| == 3 && Distinct3(idx[0], idx[1], idx[2]) && TookFrom(old(Q()), {idx[0], idx[1], idx[2]})
      ensures ok <==> |FreeSet(old(free))| >= 3
    {
      ghost var s := Q();
      UsesMatch(s);
      idx := [];
      while |idx| < 3
        invariant |idx| <= 3 && TookFrom(s, Tail(idx, 0)) && NoRepeat(idx)
        decreases 3 - |idx|
      {
        var d := AllocDesc();
        if d == -1 {
          FewFree(s.free, idx);
          GiveBack(idx, s);
          assert free == s.free;
          LooseKeeps(s, Q());
          return false, idx;
        }
        TailAdd(idx, d);
        idx := idx + [d];
      }
      ThreeFree(s.free, idx);
      LooseKeeps(s, Q());
      ok := true;
    }

    /** virtio_disk_rw up to its wait: posts a request for buffer b, whose holder has no other in flight; false when it
        has to sleep for descriptors. */
    method Submit(b: int, blockno: int, write: bool) returns (ok: bool, h: int, ghost woken: set<int>)
      requires Valid() && b !in holder && 0 <= b
      modifies this
      ensures Valid() && (ok <==> |FreeSet(old(free))| >= 3)
      ensures !ok ==> req == old(req) && A == old(A) && U == old(U) && free == old(free) && busy == old(busy)
      ensures ok ==> h !in old(req) && U == old(U) && A == old(A) + [h] && seen == old(seen) && taken == old(taken)
      ensures ok ==> exists i1, i2 ::
                && Distinct3(h, i1, i2) && old(free)[h] && old(free)[i1] && old(free)[i2]
                && req == old(req)[h := Req(i1, i2, b, blockno * 2, write, |U|, Posted(|old(A)|))]
      ensures ok ==> DeviceView(desc, ops, h) == Request(if write then T_OUT else T_IN, blockno * 2, b, write, h)
      ensures Ends(old(G()), G(), woken, 0, SleepWake.SleepsOn(if ok then b else FREE))
    {
      var sector := blockno * (BSIZE / 512);
      var idx;
      ok, idx := Alloc3();
      h, woken := -1, if ok || FreeSet(old(free)) == {} then {} else {FREE};   // free_desc wakes
      if ok {
        FreeShrinks(old(free), free);
        h := idx[0];
        Post(idx[0], idx[1], idx[2], b, sector, write);
        ChainIsRequest(Q(), h);
      }
    }

    /** Puts the head of a formatted chain on the available ring. */
    method Post(h: int, i1: int, i2: int, b: int, sector: int, write: bool)
      requires Valid() && Distinct3(h, i1, i2) && use[h] == use[i1] == use[i2] == Held && b !in holder
      modifies this`ops, this`desc, this`status, this`owner, this`busy, this`avail, this`availIdx, this`use, this`req,
        this`holder, this`A
      ensures Valid() && Q() == Submitted(old(Q()), h, i1, i2, b, sector, write) && h !in old(req)
    {
      SubmitKeeps(Q(), h, i1, i2, b, sector, write);
      Enter(h, i1, i2, b, sector, write);
    }

    method Enter(h: int, i1: int, i2: int, b: int, sector: int, write: bool)
      requires Sized(Q()) && |status| == NUM && availIdx == |A| % WRAP && Distinct3(h, i1, i2)
      modifies this`ops, this`desc, this`status, this`owner, this`busy, this`avail, this`availIdx, this`use, this`req,
        this`holder, this`A
      ensures Q() == Submitted(old(Q()), h, i1, i2, b, sector, write) && |status| == NUM && availIdx == |A| % WRAP
    {
      Format(h, i1, i2, b, sector, write);
      Announce(h, b, Req(i1, i2, b, sector, write, |U|, Posted(|A|)));
    }

    /** Puts head h on the available ring and counts it. */
    method Announce(h: int, b: int, ghost r: Req)
      requires |avail| == NUM && availIdx == |A| % WRAP && |use| == NUM && Distinct3(h, r.i1, r.i2)
      modifies this`busy, this`avail, this`availIdx, this`use, this`req, this`holder, this`A
      ensures availIdx == |A| % WRAP && avail == old(avail)[|old(A)| % NUM := h] && busy == old(busy) + {b}
      ensures use == old(use)[h := Chain(h, 0)][r.i1 := Chain(h, 1)][r.i2 := Chain(h, 2)]
      ensures req == old(req)[h := r] && holder == old(holder)[b := h] && A == old(A) + [h]
    {
      Index(|A|);
      busy := busy + {b};
      avail := avail[availIdx % NUM := h];
      availIdx := (availIdx + 1) % WRAP;
      use := use[h := Chain(h, 0)][r.i1 := Chain(h, 1)][r.i2 := Chain(h, 2)];
      req, holder, A := req[h := r], holder[b := h], A + [h];
    }

    /** Formats the three descriptors of a request. */
    method Format(h: int, i1: int, i2: int, b: int, sector: int, write: bool)
      requires |ops| == |desc| == |owner| == |status| == NUM && Distinct3(h, i1, i2)
      modifies this`ops, this`desc, this`status, this`owner
      ensures ops == old(ops)[h := BlkReq(if write then T_OUT else T_IN, sector)] && owner == old(owner)[h := b] && |status| == NUM
      ensures desc == old(desc)[h := Desc(Header(h), 16, F_NEXT, i1)]
                               [i1 := Desc(Data(b), BSIZE, if write then F_NEXT else F_WRITE + F_NEXT, i2)]
                               [i2 := Desc(Status(h), 1, F_WRITE, 0)]
      ensures status == old(status)[h := 0xff]
    {
      ops := ops[h := BlkReq(if write then T_OUT else T_IN, sector)];
      desc := desc[h := Desc(Header(h), 16, F_NEXT, i1)];
      desc := desc[i1 := Desc(Data(b), BSIZE, if write then F_NEXT else F_WRITE + F_NEXT, i2)];
      status := status[h := 0xff];
      desc := desc[i2 := Desc(Status(h), 1, F_WRITE, 0)];
      owner := owner[h := b];
    }

    /** The device: takes the next posted chain, if there is one. */
    method Take() returns (more: bool, h: int)
      requires Valid()
      modifies this`req, this`taken, this`devIdx
      ensures Valid() && (more <==> old(taken) < |A|)
      ensures more ==> Q() == TakenNext(old(Q())) && h == old(A)[old(taken)] && h in req
      ensures more ==> DeviceView(desc, ops, h) == var r := req[h];
                       Request(if r.write then T_OUT else T_IN, r.sector, r.buf, r.write, h)
      ensures !more ==> Q() == old(Q())
    {
      AvailAtMost(Q());
      Compare(taken, |A|);
      more, h := devIdx != availIdx, -1;
      if more {
        TakeKeeps(Q());
        ChainIsRequest(Q(), A[taken]);
        Index(taken);
        h := avail[devIdx % NUM];
        req, taken := req[h := req[h].(phase := Taken)], taken + 1;
        devIdx := (devIdx + 1) % WRAP;
      }
    }

    /** The device: completes a chain it has taken, with some status. */
    method Complete(h: int, st: int)
      requires Valid() && h in req && req[h].phase == Taken
      modifies this`req, this`used, this`usedIdx, this`U, this`status
      ensures Valid() && Q() == Completed(old(Q()), h) && 0 <= h < NUM && status == old(status)[h := st]
    {
      CompleteKeeps(Q(), h);
      Record(h, st);
    }

    /** The device's writes for a completion: the status byte, the used ring entry and the count. */
    method Record(h: int, st: int)
      requires Sized(Q()) && |status| == NUM && h in req && 0 <= h < NUM && usedIdx == |U| % WRAP
      modifies this`req, this`used, this`usedIdx, this`U, this`status
      ensures Q() == Completed(old(Q()), h) && usedIdx == |U| % WRAP && status == old(status)[h := st]
    {
      Index(|U|);
      status := status[h := st];
      used := used[usedIdx % NUM := h];
      req, U := req[h := req[h].(phase := Done(|U|))], U + [h];
      usedIdx := (usedIdx + 1) % WRAP;
    }

    /** One turn of virtio_disk_intr's loop; no turn when there is nothing new, and a panic on a bad status. */
    method IntrTurn() returns (more: bool, panic: bool)
      requires Valid()
      modifies this`busy, this`seenIdx, this`req, this`seen
      ensures Valid() && (more <==> old(seen) < |U|)
      ensures !more ==> Q() == old(Q()) && !panic
      ensures more ==> 0 <= U[old(seen)] < NUM && (panic <==> status[U[old(seen)]] != 0)
      ensures panic ==> Q() == old(Q())
      ensures more && !panic ==> Q() == SeenNext(old(Q()))
    {
      UsedAtMost(Q());
      Compare(seen, |U|);
      more, panic := seenIdx != usedIdx, false;
      if more {
        SeeKeeps(Q());
        Index(seen);
        var id := used[seenIdx % NUM];
        if status[id] != 0 {
          return true, true;
        }
        Release(id);
      }
    }

    /** The buffer of request id is no longer the disk's. */
    method Release(id: int)
      requires Sized(Q()) && 0 <= seen < |U| && id == U[seen] && id in req && 0 <= id < NUM && owner[id] == req[id].buf
      requires seenIdx == seen % WRAP
      modifies this`busy, this`seenIdx, this`req, this`seen
      ensures Q() == SeenNext(old(Q())) && seenIdx == seen % WRAP
    {
      Index(seen);
      var b := owner[id];
      busy := busy - {b};
      req, seen := req[id := req[id].(phase := Seen(seen))], seen + 1;
      seenIdx := (seenIdx + 1) % WRAP;
    }

    /** virtio_disk_intr with no completion arriving meanwhile: every buffer completed so far is released, up to the
        first one with a bad status, and no other request changes. */
    method Intr() returns (panic: bool, ghost woken: set<int>)
      requires Valid()
      modifies this`busy, this`seenIdx, this`req, this`seen
      ensures Valid() && old(seen) <= seen <= |U|
      ensures forall k :: old(seen) <= k < seen ==> 0 <= U[k] < NUM && status[U[k]] == 0
      ensures if panic then seen < |U| && 0 <= U[seen] < NUM && status[U[seen]] != 0 else seen == |U|
      ensures AllSeen(old(req), req, seen)
      ensures !panic ==> (forall h :: h in req ==> !req[h].phase.Done?) && Ends(old(G()), G(), woken, 0, SleepWake.Returns)
    {
      var more := true;
      panic, woken := false, {};
      SeenNothing(Q());
      while more
        invariant !panic && (!more ==> seen == |U|) && Answered(old(Q()), woken)
        decreases |U| - seen, more
      {
        more, panic, woken := IntrNext(old(Q()), woken);
        if panic {
          return;
        }
      }
      NoneDone(Q());
    }

    /** Since s, requests completed well have been seen and their buffers released; woken holds those. */
    ghost predicate Answered(s: Queue, woken: set<int>)
      reads this
    {
      && Valid() && U == s.U && 0 <= s.seen <= seen <= |U| && AllSeen(s.req, req, seen) && busy <= s.busy && s.busy - busy <= woken
      && forall k :: s.seen <= k < seen ==> 0 <= U[k] < NUM && status[U[k]] == 0
    }

    /** A turn of the loop that began in s. */
    method IntrNext(ghost s: Queue, ghost was: set<int>) returns (more: bool, panic: bool, ghost woken: set<int>)
      requires Answered(s, was)
      modifies this`busy, this`seenIdx, this`req, this`seen
      ensures Answered(s, woken) && (more <==> old(seen) < |U|) && (!more ==> seen == |U| && !panic)
      ensures panic ==> seen < |U| && 0 <= U[seen] < NUM && status[U[seen]] != 0
      ensures more && !panic ==> seen == old(seen) + 1
    {
      ghost var q := Q();
      if q.seen < |q.U| {
        SeenOne(q, s.req);
      }
      more, panic := IntrTurn();
      woken := was + (q.busy - busy);
    }

    /** The end of virtio_disk_rw: goes on only when the disk is done with b, and that is after the device completed
        this very request; then frees exactly its three descriptors. */
    method Finish(b: int, h: int) returns (ok: bool, ghost woken: set<int>)
      requires Valid() && h in req && req[h].buf == b && 0 <= b
      modifies this`owner, this`free, this`desc, this`use, this`req, this`holder
      ensures Valid() && (ok <==> old(req)[h].phase.Seen?)
      ensures !ok ==> Q() == old(Q())
      ensures ok ==> var k := old(req)[h].phase.k; 0 <= old(req)[h].born <= k < |U| && U[k] == h
      ensures ok ==> Distinct3(h, old(req)[h].i1, old(req)[h].i2) && Q() == Finished(old(Q()), h)
      ensures ok ==> FreeSet(free) == FreeSet(old(free)) + {h, old(req)[h].i1, old(req)[h].i2}
      ensures Ends(old(G()), G(), woken, 0, if ok then SleepWake.Returns else SleepWake.SleepsOn(b))
    {
      assert ChainOk(Q(), h);
      assert PlaceOk(Q(), h);
      ok, woken := b !in busy, {};
      if ok {
        woken := {FREE};
        FinishFrees(Q(), h);
        Retire(b, h);
      }
    }

    /** Takes a finished request off the books and frees its chain. */
    method Retire(b: int, h: int)
      requires Valid() && h in req && req[h].buf == b && req[h].phase.Seen?
      modifies this`owner, this`free, this`desc, this`use, this`req, this`holder
      ensures Valid() && Distinct3(h, old(req)[h].i1, old(req)[h].i2) && Q() == Finished(old(Q()), h)
    {
      FinishKeeps(Q(), h);
      Clear(b, h);
    }

    method Clear(b: int, h: int)
      requires Sized(Q()) && h in req && req[h].buf == b && Distinct3(h, req[h].i1, req[h].i2) && ChainOk(Q(), h)
      requires !free[h] && !free[req[h].i1] && !free[req[h].i2]
      modifies this`owner, this`free, this`desc, this`use, this`req, this`holder
      ensures Q() == Finished(old(Q()), h)
    {
      ghost var r := req[h];
      owner := owner[h := -1];
      FreeChain(h, r.i1, r.i2);
      req, holder := req - {h}, holder - {b};
    }
  }

  /** The elements of idx from place j on. */
  ghost function Tail(idx: seq<int>, j: int): set<int>
    requires 0 <= j <= |idx|
    decreases |idx| - j
  {
    if j == |idx| then {} else {idx[j]} + Tail(idx, j + 1)
  }

  ghost predicate NoRepeat(idx: seq<int>) {
    forall j {:trigger NotAfter(idx, j)} :: 0 <= j < |idx| ==> NotAfter(idx, j)
  }

  ghost predicate NotAfter(idx: seq<int>, j: int)
    requires 0 <= j < |idx|
  {
    idx[j] !in Tail(idx, j + 1)
  }

  lemma TailStep(idx: seq<int>, j: int)
    requires 0 <= j < |idx| && NoRepeat(idx)
    ensures idx[j] in Tail(idx, j) && Tail(idx, j + 1) == Tail(idx, j) - {idx[j]}
  {
    assert NotAfter(idx, j);
  }

  lemma {:induction false} TailOfSum(idx: seq<int>, d: int, j: int)
    requires 0 <= j <= |idx|
    ensures Tail(idx + [d], j) == Tail(idx, j) + {d}
    decreases |idx| - j
  {
    if j < |idx| {
      TailOfSum(idx, d, j + 1);
    }
  }

  lemma {:induction false} TailShrinks(idx: seq<int>, i: int, j: int)
    requires 0 <= i <= j <= |idx|
    ensures Tail(idx, j) <= Tail(idx, i)
    decreases j - i
  {
    if i < j {
      TailShrinks(idx, i + 1, j);
    }
  }

  lemma TailAdd(idx: seq<int>, d: int)
    requires NoRepeat(idx) && d !in Tail(idx, 0)
    ensures Tail(idx + [d], 0) == Tail(idx, 0) + {d} && NoRepeat(idx + [d])
  {
    TailOfSum(idx, d, 0);
    forall j | 0 <= j < |idx + [d]| ensures NotAfter(idx + [d], j) {
      if j < |idx| {
        assert NotAfter(idx, j);
        TailOfSum(idx, d, j + 1);
        TailShrinks(idx, 0, j);
      }
    }
  }

  lemma OneMore(x: int, s: set<int>)
    requires x !in s
    ensures |{x} + s| == |s| + 1
  {
  }

  lemma {:induction false} TailSize(idx: seq<int>, j: int)
    requires 0 <= j <= |idx| && NoRepeat(idx)
    ensures |Tail(idx, j)| == |idx| - j
    decreases |idx| - j
  {
    if j < |idx| {
      TailSize(idx, j + 1);
      assert NotAfter(idx, j);
      OneMore(idx[j], Tail(idx, j + 1));
    }
  }

  ghost function FreeSet(free: seq<bool>): set<int> {
    set d | 0 <= d < |free| && free[d]
  }

  lemma FreeShrinks(was: seq<bool>, now: seq<bool>)
    requires |was| == |now| && forall d :: 0 <= d < |now| && now[d] ==> was[d]
    ensures |FreeSet(now)| <= |FreeSet(was)|
  {
    var a, b := FreeSet(now), FreeSet(was);
    assert b == a + (b - a);
  }

  lemma FinishFrees(s: Queue, h: int)
    requires Sized(s) && h in s.req && ChainOk(s, h)
    ensures FreeSet(Finished(s, h).free) == FreeSet(s.free) + {h, s.req[h].i1, s.req[h].i2}
  {
  }

  lemma FewFree(free: seq<bool>, idx: seq<int>)
    requires |idx| < 3 && NoRepeat(idx) && forall d :: 0 <= d < |free| && free[d] ==> d in Tail(idx, 0)
    ensures |FreeSet(free)| < 3
  {
    var s, f := Tail(idx, 0), FreeSet(free);
    TailSize(idx, 0);
    assert s == f + (s - f);
  }

  lemma ThreeFree(free: seq<bool>, idx: seq<int>)
    requires |idx| == 3 && NoRepeat(idx) && |free| == NUM && forall d :: d in Tail(idx, 0) ==> 0 <= d < NUM && free[d]
    ensures |FreeSet(free)| >= 3 && Distinct3(idx[0], idx[1], idx[2]) && Tail(idx, 0) == {idx[0], idx[1], idx[2]}
  {
    TailSize(idx, 0);
    assert Tail(idx, 2) == {idx[2]};
    assert Tail(idx, 1) == {idx[1], idx[2]};
    assert NotAfter(idx, 0) && NotAfter(idx, 1);
    var s, f := Tail(idx, 0), FreeSet(free);
    assert f == s + (f - s);
  }

  lemma NoneDone(s: Queue)
    requires Inv(s) && s.seen == |s.U|
    ensures forall h :: h in s.req ==> !s.req[h].phase.Done?
  {
    forall h | h in s.req ensures !s.req[h].phase.Done? {
      assert ChainOk(s, h) && PlaceOk(s, h);
    }
  }

  lemma UsesMatch(s: Queue)
    requires Inv(s)
    ensures forall d :: 0 <= d < NUM ==> (s.free[d] <==> s.use[d] == Free)
  {
    forall d | 0 <= d < NUM ensures s.free[d] <==> s.use[d] == Free { assert DescOk(s, d); }
  }

  /** Taking and giving back descriptors outside the chains touches no request. */
  lemma LooseKeeps(s: Queue, t: Queue)
    requires Inv(s) && t == s.(free := t.free, use := t.use, desc := t.desc) && |t.free| == |t.use| == |t.desc| == NUM
    requires forall d :: 0 <= d < NUM && !s.free[d] ==> t.free[d] == s.free[d] && t.use[d] == s.use[d] && t.desc[d] == s.desc[d]
    requires forall d :: 0 <= d < NUM && s.free[d] ==> t.use[d] == if t.free[d] then Free else Held
    ensures Inv(t)
  {
    forall d | 0 <= d < NUM ensures DescOk(t, d) { assert DescOk(s, d); }
    forall h | h in t.req ensures ChainOk(t, h) {
      assert ChainOk(s, h);
      assert DescOk(s, h) && DescOk(s, s.req[h].i1) && DescOk(s, s.req[h].i2);
    }
    forall h | h in t.req ensures 0 <= h < NUM && PlaceOk(t, h) { assert PlaceOk(s, h); }
    forall k | t.taken <= k < |t.A| ensures AvailOk(t, k) { assert AvailOk(s, k); }
    forall k | t.seen <= k < |t.U| ensures UsedOk(t, k) { assert UsedOk(s, k); }
  }
}

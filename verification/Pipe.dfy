/** pipe.c. Each method is what one process does between acquiring the pipe lock and releasing it or sleeping, so any
    interleaving of readers and writers is a sequence of these calls. */
module Pipe {
  import opened Arith
  import SleepWake

  const PIPESIZE := 512
  const WRAP := 0x1_0000_0000

  // The channels &pi->nread and &pi->nwrite.
  const NREAD := 0
  const NWRITE := 1

  datatype Shared = Shared(nread: int, nwrite: int, readopen: bool, writeopen: bool)

  /** Readers may wait on an empty pipe that has a writer, writers on a full one that has a reader. */
  predicate May(d: Shared, c: int) {
    || (c == NREAD && d.nread == d.nwrite && d.writeopen)
    || (c == NWRITE && d.nwrite == (d.nread + PIPESIZE) % WRAP && d.readopen)
  }

  /** How a critical section ends: with the result of the call, or asleep on a channel. */
  datatype Exit = Returned(r: int) | Sleeps(c: int)

  // Counters modulo 2^32.

  lemma Counters(r: int, w: int)
    requires 0 <= r <= w <= r + PIPESIZE
    ensures r % WRAP == w % WRAP <==> r == w
    ensures w % WRAP == (r % WRAP + PIPESIZE) % WRAP <==> w == r + PIPESIZE
  {
    var q := r / WRAP;
    var a, b := r - q * WRAP, w - q * WRAP;
    DivMod(r, WRAP, q, a);
    if b < WRAP { DivMod(w, WRAP, q, b); } else { DivMod(w, WRAP, q + 1, b - WRAP); }
    if a + PIPESIZE < WRAP { DivMod(a + PIPESIZE, WRAP, 0, a + PIPESIZE); }
    else { DivMod(a + PIPESIZE, WRAP, 1, a + PIPESIZE - WRAP); }
  }

  lemma Counted(x: int)
    requires 0 <= x
    ensures (x % WRAP + 1) % WRAP == (x + 1) % WRAP && x % WRAP % PIPESIZE == x % PIPESIZE
  {
    var q, m := x / WRAP, x % WRAP;
    if m + 1 < WRAP { DivMod(x + 1, WRAP, q, m + 1); } else { DivMod(x + 1, WRAP, q + 1, 0); }
    DivMod(x, PIPESIZE, q * (WRAP / PIPESIZE) + m / PIPESIZE, m % PIPESIZE);
  }

  lemma SlotsApart(a: int, b: int)
    requires 0 <= a < b < a + PIPESIZE
    ensures a % PIPESIZE != b % PIPESIZE
  {
    var d := b / PIPESIZE - a / PIPESIZE;
    assert b - a == d * PIPESIZE + (b % PIPESIZE - a % PIPESIZE);
  }

  /** Where pipewrite stops when it goes on from byte i0 of n with the lock held: at the end, at once without a reader,
      at the byte from which killed() answers true, when room more bytes fill the pipe, or at the byte copyin faults on;
      whichever comes first. */
  function StopsAt(n: int, i0: int, readopen: bool, killedAt: int, faultAt: int, room: int): int {
    var a := if !readopen || killedAt <= i0 then Min(n, i0) else Min(n, killedAt);
    var b := Min(a, i0 + room);
    if i0 <= faultAt then Min(b, faultAt) else b
  }

  /** How it leaves when it stops at byte i. */
  function WriteExit(n: int, i0: int, readopen: bool, killedAt: int, room: int, i: int): Exit {
    if i >= n then Returned(i)
    else if !readopen || killedAt <= i then Returned(-1)
    else if i == i0 + room then Sleeps(NWRITE)
    else Returned(i)
  }

  /** The bytes piperead delivers of the bytes there are: no more than asked for, and none from the faulting one on. */
  function Deliverable(n: int, there: int, faultAt: int): int {
    var a := Min(if n < 0 then 0 else n, there);
    if 0 <= faultAt then Min(a, faultAt) else a
  }

  /** Nothing stopped it before byte i. */
  predicate NotBefore(i0: int, i: int, readopen: bool, killedAt: int, faultAt: int, room: int) {
    (i > i0 ==> readopen && i <= killedAt) && i <= i0 + room && (i0 <= faultAt ==> i <= faultAt)
  }

  lemma StopsHere(n: int, i0: int, readopen: bool, killedAt: int, faultAt: int, room: int, i: int)
    requires 0 <= i0 <= i <= n && NotBefore(i0, i, readopen, killedAt, faultAt, room)
    requires i == n || !readopen || killedAt <= i || i == i0 + room || i == faultAt
    ensures i == StopsAt(n, i0, readopen, killedAt, faultAt, room)
    ensures (i < n && (!readopen || killedAt <= i)) <==> WriteExit(n, i0, readopen, killedAt, room, i) == Returned(-1)
  {
  }

  // What the sections do to the shared state; r and w count the bytes ever read and written.

  /** pipewrite from byte i0 of n on. */
  ghost predicate WriteOutcome(r: int, w: int, n: int, i0: int, killedAt: int, faultAt: int, d0: Shared, d: Shared,
                               woken: set<int>, exit: Exit)
  {
    var room := r + PIPESIZE - w;
    var i := StopsAt(n, i0, d0.readopen, killedAt, faultAt, room);
    && 0 <= r <= w <= r + PIPESIZE && 0 <= i0 <= n && d0.nread == r % WRAP && d0.nwrite == w % WRAP
    && d == d0.(nwrite := (w + i - i0) % WRAP) && exit == WriteExit(n, i0, d0.readopen, killedAt, room, i)
    && woken == if exit == Returned(-1) then {} else {NREAD}
  }

  ghost predicate ReadOutcome(r0: int, r: int, w: int, d0: Shared, d: Shared, woken: set<int>, exit: Exit) {
    && 0 <= r0 <= r <= w <= r0 + PIPESIZE && d0 == d.(nread := r0 % WRAP) && d.nread == r % WRAP && d.nwrite == w % WRAP
    && (woken == {NWRITE} || (woken == {} && r == r0))
    && (exit.Sleeps? ==> exit.c == NREAD && r == w && d.writeopen)
  }

  ghost predicate CloseOutcome(d0: Shared, d: Shared, woken: set<int>, writable: bool) {
    if writable then d == d0.(writeopen := false) && woken == {NREAD} else d == d0.(readopen := false) && woken == {NWRITE}
  }

  /** The writes that lose a wakeup, told before the call: into an empty pipe with both ends open, killed after at least
      one byte and no more than the pipe holds, before the end and before any fault. */
  predicate LosesWakeup(d: Shared, n: int, i0: int, killedAt: int, faultAt: int) {
    && d.nread == d.nwrite && d.readopen && d.writeopen
    && i0 < killedAt < n && killedAt - i0 <= PIPESIZE && !(i0 <= faultAt < killedAt)
  }

  /** A write section wakes what it must exactly unless it is one of those. */
  lemma WriteSettles(r: int, w: int, n: int, i0: int, killedAt: int, faultAt: int, d0: Shared, d: Shared, woken: set<int>,
                     exit: Exit)
    requires WriteOutcome(r, w, n, i0, killedAt, faultAt, d0, d, woken, exit)
    ensures SleepWake.Settled(May, d0, d, woken) <==> !LosesWakeup(d0, n, i0, killedAt, faultAt)
    ensures exit.Sleeps? ==> May(d, exit.c)
  {
    var i := StopsAt(n, i0, d0.readopen, killedAt, faultAt, r + PIPESIZE - w);
    Counters(r, w);
    Counters(r, w + i - i0);
    if LosesWakeup(d0, n, i0, killedAt, faultAt) {
      assert May(d0, NREAD) && !May(d, NREAD) && NREAD !in woken;
    }
  }

  lemma ReadSettles(r0: int, r: int, w: int, d0: Shared, d: Shared, woken: set<int>, exit: Exit)
    requires ReadOutcome(r0, r, w, d0, d, woken, exit)
    ensures SleepWake.Settled(May, d0, d, woken) && (exit.Sleeps? ==> May(d, exit.c))
  {
    Counters(r0, w);
    Counters(r, w);
  }

  lemma CloseSettles(d0: Shared, d: Shared, woken: set<int>, writable: bool)
    requires CloseOutcome(d0, d, woken, writable)
    ensures SleepWake.Settled(May, d0, d, woken)
  {
  }

  predicate Same(e: Exit, x: SleepWake.Exit) {
    match e case Returned(r) => x == SleepWake.Returns case Sleeps(c) => x == SleepWake.SleepsOn(c)
  }

  ghost predicate WriteEnds(d0: Shared, d: Shared, woken: set<int>, x: SleepWake.Exit) {
    exists r, w, n, i0, killedAt, faultAt, e :: WriteOutcome(r, w, n, i0, killedAt, faultAt, d0, d, woken, e) && Same(e, x) &&
                                                !LosesWakeup(d0, n, i0, killedAt, faultAt)
  }

  ghost predicate ReadEnds(d0: Shared, d: Shared, woken: set<int>, x: SleepWake.Exit) {
    exists r0, r, w, e :: ReadOutcome(r0, r, w, d0, d, woken, e) && Same(e, x)
  }

  /** The ways a critical section of a pipe ends, but for the writes that lose a wakeup. */
  ghost predicate Ends(d0: Shared, d: Shared, woken: set<int>, p: int, x: SleepWake.Exit) {
    || WriteEnds(d0, d, woken, x)
    || ReadEnds(d0, d, woken, x)
    || (x == SleepWake.Returns && exists writable :: CloseOutcome(d0, d, woken, writable))
  }

  lemma EndsSettle(d0: Shared, d: Shared, woken: set<int>, p: int, x: SleepWake.Exit)
    requires Ends(d0, d, woken, p, x)
    ensures SleepWake.Settled(May, d0, d, woken) && (x.SleepsOn? ==> May(d, x.c))
  {
    if WriteEnds(d0, d, woken, x) {
      var r, w, n, i0, killedAt, faultAt, e :| WriteOutcome(r, w, n, i0, killedAt, faultAt, d0, d, woken, e) && Same(e, x) &&
                                                !LosesWakeup(d0, n, i0, killedAt, faultAt);
      WriteSettles(r, w, n, i0, killedAt, faultAt, d0, d, woken, e);
    } else if ReadEnds(d0, d, woken, x) {
      var r0, r, w, e :| ReadOutcome(r0, r, w, d0, d, woken, e) && Same(e, x);
      ReadSettles(r0, r, w, d0, d, woken, e);
    } else {
      var writable :| CloseOutcome(d0, d, woken, writable);
      CloseSettles(d0, d, woken, writable);
    }
  }

  /** No lost wakeup: while the pipe lock is free, a sleeping writer faces a full pipe with a reader, a sleeping reader
      an empty pipe with a writer. */
  lemma NoLostWakeup(ss: seq<SleepWake.State<Shared>>, ts: seq<SleepWake.Step<Shared>>, k: int, q: int)
    requires SleepWake.ClientRun(Ends, ss, ts) && 0 <= k < |ss| && ss[k].lk == -1
    requires 0 <= q < |ss[k].phase| && ss[k].phase[q].Asleep?
    ensures var d := ss[k].data;
            || (ss[k].phase[q].c == NWRITE && d.nwrite == (d.nread + PIPESIZE) % WRAP && d.readopen)
            || (ss[k].phase[q].c == NREAD && d.nread == d.nwrite && d.writeopen)
  {
    forall d0, d, woken, p, x | Ends(d0, d, woken, p, x)
      ensures SleepWake.Settled(May, d0, d, woken) && (x.SleepsOn? ==> May(d, x.c))
    {
      EndsSettle(d0, d, woken, p, x);
    }
    SleepWake.ClientLosesNoWakeup(May, Ends, ss, ts, k, q);
  }

  /** A reader (process 0) sleeps; then a writer (process 1) leaves the pipe as d and wakes nobody. */
  function LostRun(d: Shared): seq<SleepWake.Step<Shared>> {
    [SleepWake.Acquire(0), SleepWake.SleepLock(0, NREAD), SleepWake.SleepRelease(0), SleepWake.SleepMark(0),
     SleepWake.Acquire(1), SleepWake.Set(1, d), SleepWake.Release(1)]
  }

  ghost function After(s: SleepWake.State<Shared>, ts: seq<SleepWake.Step<Shared>>, k: int): (r: SleepWake.State<Shared>)
    requires 0 <= k <= |ts|
    decreases k
  {
    if k == 0 then s
    else
      var m := After(s, ts, k - 1);
      if SleepWake.Enabled(m, ts[k - 1]) then SleepWake.Do(m, ts[k - 1]) else m.(lk := -2)
  }

  function AtRest(d: Shared): SleepWake.State<Shared> {
    SleepWake.State(-1, [SleepWake.Outside, SleepWake.Outside], d, d, {})
  }

  /** That run can happen, and leaves the reader asleep with the lock free. */
  lemma SleeperLeftBehind(d0: Shared, d: Shared)
    ensures var e := After(AtRest(d0), LostRun(d), 7);
            e.lk == -1 && |e.phase| == 2 && e.phase[0] == SleepWake.Asleep(NREAD) && e.data == d
  {
    var s, ts := AtRest(d0), LostRun(d);
    assert After(s, ts, 1) == s.(lk := 0, phase := [SleepWake.Holds, SleepWake.Outside]);
    assert After(s, ts, 2) == s.(lk := 0, phase := [SleepWake.Falling(NREAD), SleepWake.Outside]);
    assert After(s, ts, 3) == s.(lk := -1, phase := [SleepWake.Marking(NREAD), SleepWake.Outside]);
    assert After(s, ts, 4) == s.(lk := -1, phase := [SleepWake.Asleep(NREAD), SleepWake.Outside]);
    assert After(s, ts, 5) == s.(lk := 1, phase := [SleepWake.Asleep(NREAD), SleepWake.Holds]);
    assert After(s, ts, 6) == s.(lk := 1, phase := [SleepWake.Asleep(NREAD), SleepWake.Holds], data := d);
  }

  /** Every write that loses a wakeup does: with a reader asleep before it, the reader sleeps on with bytes to read. */
  method KilledWriterLosesWakeup(p: Pipe, n: int, src: seq<int>, i0: int, killedAt: int, faultAt: int)
    returns (ghost e: SleepWake.State<Shared>)
    requires p.Valid() && 0 <= i0 <= |src| == (if n < 0 then 0 else n) && LosesWakeup(p.D(), n, i0, killedAt, faultAt)
    modifies p`data, p`nwrite, p`stored
    ensures p.Valid() && p.stored == old(p.stored) + src[i0..killedAt] && May(old(p.D()), NREAD)
    ensures e == After(AtRest(old(p.D())), LostRun(p.D()), 7) && e.lk == -1 && |e.phase| == 2
    ensures e.phase[0] == SleepWake.Asleep(NREAD) && e.data.nread != e.data.nwrite
  {
    ghost var d0 := p.D();
    Counters(|p.delivered|, |p.stored|);
    var i, exit;
    ghost var woken;
    i, exit, woken := p.WriteSection(n, src, i0, killedAt, faultAt);
    assert i == killedAt && exit == Returned(-1) && woken == {};
    Counters(|p.delivered|, |p.stored|);
    SleeperLeftBehind(d0, p.D());
    e := After(AtRest(d0), LostRun(p.D()), 7);
  }

  /** The smallest one: a new pipe, two bytes to write, killed after the first. */
  method LostWakeupExample() returns (p: Pipe, ghost e: SleepWake.State<Shared>)
    ensures p.Valid() && p.stored == [7] && p.delivered == []
    ensures e.lk == -1 && |e.phase| == 2 && e.phase[0] == SleepWake.Asleep(NREAD) && e.data.nread != e.data.nwrite
  {
    p := new Pipe();
    e := KilledWriterLosesWakeup(p, 2, [7, 8], 0, 1, -1);
    assert [7, 8][0..1] == [7];
  }

  class Pipe {
    var data: seq<int>
    var nread: int
    var nwrite: int
    var readopen: bool
    var writeopen: bool
    ghost var stored: seq<int>
    ghost var delivered: seq<int>

    ghost function D(): Shared
      reads this
    {
      Shared(nread, nwrite, readopen, writeopen)
    }

    /** The bytes delivered are a prefix of the bytes stored, and the rest are in the ring, in order. */
    ghost predicate Valid()
      reads this
    {
      && |data| == PIPESIZE && |delivered| <= |stored| <= |delivered| + PIPESIZE
      && nread == |delivered| % WRAP && nwrite == |stored| % WRAP
      && delivered == stored[..|delivered|]
      && forall k :: |delivered| <= k < |stored| ==> data[k % PIPESIZE] == stored[k]
    }

    constructor ()
      ensures Valid() && stored == [] && delivered == [] && readopen && writeopen
    {
      data := seq(PIPESIZE, _ => 0);
      nread, nwrite, readopen, writeopen := 0, 0, true, true;
      stored, delivered := [], [];
    }

    method Put(ch: int)
      requires Valid() && |stored| < |delivered| + PIPESIZE
      modifies this`data, this`nwrite, this`stored
      ensures Valid() && stored == old(stored) + [ch]
    {
      Counted(|stored|);
      data := data[nwrite % PIPESIZE := ch];
      nwrite := (nwrite + 1) % WRAP;
      stored := stored + [ch];
      forall k | |delivered| <= k < |stored| ensures data[k % PIPESIZE] == stored[k] {
        if k < |old(stored)| { SlotsApart(k, |old(stored)|); }
      }
    }

    method Get() returns (ch: int)
      requires Valid() && |delivered| < |stored|
      modifies this`nread, this`delivered
      ensures Valid() && ch == stored[|old(delivered)|] && delivered == old(delivered) + [ch]
    {
      Counted(|delivered|);
      ch := data[nread % PIPESIZE];
      nread := (nread + 1) % WRAP;
      delivered := delivered + [ch];
    }

    /** pipewrite from byte i0 of n on, with the lock held: killed() answers true from byte killedAt on, and copyin
        fails at byte faultAt. woken has the channels this section calls wakeup on. */
    method WriteSection(n: int, src: seq<int>, i0: int, killedAt: int, faultAt: int)
      returns (i: int, exit: Exit, ghost woken: set<int>)
      requires Valid() && 0 <= i0 <= |src| == (if n < 0 then 0 else n)
      modifies this`data, this`nwrite, this`stored
      ensures Valid() && i0 <= i <= |src| && stored == old(stored) + src[i0..i]
      ensures i0 < i ==> readopen && i <= killedAt && !(i0 <= faultAt < i)
      ensures i < |src| ==> !readopen || killedAt <= i || i == faultAt || |stored| == |delivered| + PIPESIZE
      ensures exit == Returned(-1) <==> i < |src| && (!readopen || killedAt <= i)
      ensures exit == Sleeps(NWRITE) <==> i < |src| && readopen && i < killedAt && |stored| == |delivered| + PIPESIZE
      ensures exit == Returned(-1) || exit == Sleeps(NWRITE) || exit == Returned(i)
      ensures woken == if exit == Returned(-1) then {} else {NREAD}
      ensures i == StopsAt(|src|, i0, readopen, killedAt, faultAt, |delivered| + PIPESIZE - |old(stored)|)
      ensures WriteOutcome(|delivered|, |old(stored)|, |src|, i0, killedAt, faultAt, old(D()), D(), woken, exit)
      ensures SleepWake.Settled(May, old(D()), D(), woken) <==> !LosesWakeup(old(D()), |src|, i0, killedAt, faultAt)
    {
      ghost var w := |stored|;
      i, exit, woken := WriteLoop(n, src, i0, killedAt, faultAt);
      WriteSettles(|delivered|, w, |src|, i0, killedAt, faultAt, old(D()), D(), woken, exit);
    }

    /** The statements of that section. */
    method WriteLoop(n: int, src: seq<int>, i0: int, killedAt: int, faultAt: int)
      returns (i: int, exit: Exit, ghost woken: set<int>)
      requires Valid() && 0 <= i0 <= |src| == (if n < 0 then 0 else n)
      modifies this`data, this`nwrite, this`stored
      ensures Valid() && i0 <= i <= |src| && stored == old(stored) + src[i0..i]
      ensures i == StopsAt(|src|, i0, readopen, killedAt, faultAt, |delivered| + PIPESIZE - |old(stored)|)
      ensures WriteOutcome(|delivered|, |old(stored)|, |src|, i0, killedAt, faultAt, old(D()), D(), woken, exit)
    {
      ghost var room := |delivered| + PIPESIZE - |stored|;
      i := i0;
      woken := {};
      while i < n
        invariant i0 <= i <= |src| && Valid() && stored == old(stored) + src[i0..i]
        invariant NotBefore(i0, i, readopen, killedAt, faultAt, room)
      {
        if !readopen || i >= killedAt {
          exit := Returned(-1);
          StopsHere(|src|, i0, readopen, killedAt, faultAt, room, i);
          return;
        }
        Counters(|delivered|, |stored|);
        if nwrite == (nread + PIPESIZE) % WRAP {
          woken := {NREAD};
          exit := Sleeps(NWRITE);
          StopsHere(|src|, i0, readopen, killedAt, faultAt, room, i);
          return;
        }
        if i == faultAt {
          break;
        }
        Put(src[i]);
        i := i + 1;
      }
      woken := {NREAD};
      exit := Returned(i);
      StopsHere(|src|, i0, readopen, killedAt, faultAt, room, i);
    }

    /** piperead, with the lock held; copyout fails at byte faultAt. */
    method ReadSection(n: int, isKilled: bool, faultAt: int) returns (out: seq<int>, exit: Exit, ghost woken: set<int>)
      requires Valid()
      modifies this`nread, this`delivered
      ensures Valid() && delivered == old(delivered) + out
      ensures exit.Sleeps? <==> |old(delivered)| == |stored| && writeopen && !isKilled
      ensures exit.Sleeps? ==> exit.c == NREAD && May(D(), NREAD) && out == [] && woken == {}
      ensures |old(delivered)| == |stored| && writeopen && isKilled ==> exit == Returned(-1) && out == [] && woken == {}
      ensures |old(delivered)| < |stored| || !writeopen ==>
                && woken == {NWRITE} && |out| == Deliverable(n, |stored| - |old(delivered)|, faultAt)
                && (|out| < n ==> |delivered| == |stored| || |out| == faultAt)
                && |out| <= Max(n, 0) && !(0 <= faultAt < |out|)
                && exit == Returned(if out == [] && n > 0 && faultAt == 0 && |old(delivered)| < |stored| then -1 else |out|)
      ensures ReadOutcome(|old(delivered)|, |delivered|, |stored|, old(D()), D(), woken, exit)
    {
      out, woken := [], {};
      Counters(|delivered|, |stored|);
      if nread == nwrite && writeopen {
        exit := if isKilled then Returned(-1) else Sleeps(NREAD);
        return;
      }
      ghost var there := |stored| - |delivered|;
      var i := 0;
      while i < n
        invariant 0 <= i == |out| <= Deliverable(n, there, faultAt) && Valid() && delivered == old(delivered) + out
        invariant i > 0 ==> faultAt != 0
      {
        Counters(|delivered|, |stored|);
        if nread == nwrite {
          break;
        }
        if i == faultAt {
          if i == 0 {
            i := -1;
          }
          break;
        }
        var ch := Get();
        out := out + [ch];
        i := i + 1;
      }
      woken := {NWRITE};
      exit := Returned(i);
    }

    /** pipeclose, up to the release of the lock. */
    method Close(writable: bool) returns (ghost woken: set<int>)
      requires Valid()
      modifies this`readopen, this`writeopen
      ensures Valid() && (if writable then !writeopen && readopen == old(readopen) else !readopen && writeopen == old(writeopen))
      ensures CloseOutcome(old(D()), D(), woken, writable)
    {
      if writable {
        writeopen := false;
        woken := {NREAD};
      } else {
        readopen := false;
        woken := {NWRITE};
      }
    }
  }
}

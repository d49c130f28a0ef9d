/** proc.c: sleep and wakeup under a condition lock, step by step, with the lock lk and each process's own lock. The
    shared data is anything; may(data, c) says that waiting on channel c is in order for that data. */
module SleepWake {
  /** Where a process is. Holding lk: Holds, Scans (inside wakeup(c), at entry k of the table) and Falling (in sleep,
      own lock taken too). Holding its own lock only: Marking (lk released, not yet SLEEPING). Asleep is SLEEPING on c
      with no lock; Awake has been made RUNNABLE. */
  datatype Phase = Outside | Holds | Scans(c: int, k: int) | Falling(c: int) | Marking(c: int) | Asleep(c: int) | Awake

  /** entry is the data as it was when lk was acquired; drained has the channels woken since. */
  datatype State<D> = State(lk: int, phase: seq<Phase>, data: D, entry: D, drained: set<int>)

  datatype Step<D> =
    | Acquire(p: int)
    | Set(p: int, d: D)
    | Wake(p: int, c: int)
    | Visit(p: int)
    | Woken(p: int)
    | Release(p: int)
    | SleepLock(p: int, c: int)
    | SleepRelease(p: int)
    | SleepMark(p: int)
    | Kill(p: int)
    | Resume(p: int)

  predicate HasLk(f: Phase) { f.Holds? || f.Scans? || f.Falling? }

  predicate OwnLock(f: Phase) { f.Falling? || f.Marking? }

  predicate WaitsOn(f: Phase, c: int) { f == Marking(c) || f == Asleep(c) }

  predicate Enabled<D(!new)>(s: State<D>, t: Step<D>) {
    && 0 <= t.p < |s.phase|
    && var f := s.phase[t.p];
       match t
       case Acquire(p) => s.lk == -1 && (f == Outside || f == Awake)
       case Set(p, d) => f == Holds
       case Wake(p, c) => f == Holds
       // wakeup takes the lock of every process but its own.
       case Visit(p) => f.Scans? && 0 <= f.k < |s.phase| && (f.k == p || !OwnLock(s.phase[f.k]))
       case Woken(p) => f.Scans? && f.k == |s.phase|
       case Release(p) => f == Holds
       case SleepLock(p, c) => f == Holds
       case SleepRelease(p) => f.Falling?
       case SleepMark(p) => f.Marking?
       case Kill(p) => f.Asleep?
       case Resume(p) => f == Awake
  }

  function Do<D(!new)>(s: State<D>, t: Step<D>): State<D>
    requires Enabled(s, t)
  {
    var f := s.phase[t.p];
    match t
    case Acquire(p) => s.(lk := p, phase := s.phase[p := Holds], entry := s.data, drained := {})
    case Set(p, d) => s.(data := d)
    case Wake(p, c) => s.(phase := s.phase[p := Scans(c, 0)])
    case Visit(p) =>
      var ph := if f.k != p && s.phase[f.k] == Asleep(f.c) then s.phase[f.k := Awake] else s.phase;
      s.(phase := ph[p := Scans(f.c, f.k + 1)])
    case Woken(p) => s.(phase := s.phase[p := Holds], drained := s.drained + {f.c})
    case Release(p) => s.(lk := -1, phase := s.phase[p := Outside])
    case SleepLock(p, c) => s.(phase := s.phase[p := Falling(c)])
    case SleepRelease(p) => s.(lk := -1, phase := s.phase[p := Marking(f.c)])
    case SleepMark(p) => s.(phase := s.phase[p := Asleep(f.c)])
    case Kill(p) => s.(phase := s.phase[p := Awake])
    case Resume(p) => s.(phase := s.phase[p := Outside])
  }

  /** What a process owes when it lets go of lk: whoever could wait before can still wait, or was woken. */
  ghost predicate Settled<D(!new)>(may: (D, int) -> bool, d0: D, d: D, drained: set<int>) {
    forall c :: may(d0, c) && c !in drained ==> may(d, c)
  }

  /** ... and it goes to sleep only where waiting is in order. */
  ghost predicate Disciplined<D(!new)>(may: (D, int) -> bool, s: State<D>, t: Step<D>)
    requires Enabled(s, t)
  {
    && (t.Release? || t.SleepRelease? ==> Settled(may, s.entry, s.data, s.drained))
    && (t.SleepRelease? ==> may(s.data, s.phase[t.p].c))
  }

  /** One process against the lock holder. */
  ghost predicate ProcOk<D(!new)>(may: (D, int) -> bool, s: State<D>, q: int)
    requires 0 <= q < |s.phase| && -1 <= s.lk < |s.phase|
  {
    var f := s.phase[q];
    && (HasLk(f) <==> s.lk == q)
    && (f.Scans? ==> 0 <= f.k <= |s.phase|)
    && (f.Marking? || f.Asleep? ==>
          if s.lk == -1 then may(s.data, f.c)
          else may(s.entry, f.c) && f.c !in s.drained &&
               (s.phase[s.lk].Scans? && s.phase[s.lk].c == f.c ==> q >= s.phase[s.lk].k))
  }

  ghost predicate Inv<D(!new)>(may: (D, int) -> bool, s: State<D>) {
    -1 <= s.lk < |s.phase| && forall q {:trigger ProcOk(may, s, q)} :: 0 <= q < |s.phase| ==> ProcOk(may, s, q)
  }

  /** A step moves the process that takes it and no other, but that a wakeup makes a sleeper on its channel ready. */
  lemma StepTouches<D(!new)>(s: State<D>, t: Step<D>, q: int)
    requires Enabled(s, t) && 0 <= q < |s.phase| && q != t.p
    ensures |Do(s, t).phase| == |s.phase|
    ensures var f := s.phase[t.p];
            Do(s, t).phase[q] == if t.Visit? && q == f.k && s.phase[q] == Asleep(f.c) then Awake else s.phase[q]
  {
  }

  lemma StepKeepsInv<D(!new)>(may: (D, int) -> bool, s: State<D>, t: Step<D>)
    requires Inv(may, s) && Enabled(s, t) && Disciplined(may, s, t)
    ensures Inv(may, Do(s, t))
  {
    var s' := Do(s, t);
    assert ProcOk(may, s, t.p);
    forall q | 0 <= q < |s'.phase| ensures ProcOk(may, s', q) {
      assert ProcOk(may, s, q);
      if s.lk != -1 { assert ProcOk(may, s, s.lk); }
    }
  }

  ghost predicate StepAt<D(!new)>(may: (D, int) -> bool, ss: seq<State<D>>, ts: seq<Step<D>>, i: int)
    requires 0 <= i < |ts| && |ss| == |ts| + 1
  {
    Enabled(ss[i], ts[i]) && Disciplined(may, ss[i], ts[i]) && ss[i + 1] == Do(ss[i], ts[i])
  }

  /** A run from a state in which nobody is in a critical section or asleep. */
  ghost predicate IsRun<D(!new)>(may: (D, int) -> bool, ss: seq<State<D>>, ts: seq<Step<D>>) {
    && |ss| == |ts| + 1 && ss[0].lk == -1 && (forall q :: 0 <= q < |ss[0].phase| ==> ss[0].phase[q] == Outside)
    && (forall i :: 0 <= i < |ts| ==> StepAt(may, ss, ts, i))
  }

  lemma {:induction false} RunKeepsInv<D(!new)>(may: (D, int) -> bool, ss: seq<State<D>>, ts: seq<Step<D>>, k: int)
    requires IsRun(may, ss, ts) && 0 <= k < |ss|
    ensures Inv(may, ss[k])
    decreases k
  {
    if k == 0 {
      forall q | 0 <= q < |ss[0].phase| ensures ProcOk(may, ss[0], q) {
      }
    } else {
      RunKeepsInv(may, ss, ts, k - 1);
      assert StepAt(may, ss, ts, k - 1);
      StepKeepsInv(may, ss[k - 1], ts[k - 1]);
    }
  }

  /** No lost wakeup: whenever the lock is free, whoever is asleep may be. */
  lemma NoLostWakeup<D(!new)>(may: (D, int) -> bool, ss: seq<State<D>>, ts: seq<Step<D>>, k: int, q: int)
    requires IsRun(may, ss, ts) && 0 <= k < |ss| && ss[k].lk == -1
    requires 0 <= q < |ss[k].phase| && ss[k].phase[q].Asleep?
    ensures may(ss[k].data, ss[k].phase[q].c)
  {
    RunKeepsInv(may, ss, ts, k);
    assert ProcOk(may, ss[k], q);
  }

  // Clients: code whose critical sections end in known ways.

  /** How a critical section ends: it releases lk, or sleeps on a channel. */
  datatype Exit = Returns | SleepsOn(c: int)

  /** Whenever a section of process p that began on d0 ends on d with the channels woken and that exit, it has woken what
      it must and sleeps only where it may. */
  ghost predicate EndsWell<D(!new)>(may: (D, int) -> bool, ends: (D, D, set<int>, int, Exit) -> bool) {
    forall d0, d, woken, p, exit :: ends(d0, d, woken, p, exit) ==>
      Settled(may, d0, d, woken) && (exit.SleepsOn? ==> may(d, exit.c))
  }

  ghost predicate ClientStep<D(!new)>(ends: (D, D, set<int>, int, Exit) -> bool, ss: seq<State<D>>, ts: seq<Step<D>>, i: int)
    requires 0 <= i < |ts| && |ss| == |ts| + 1
  {
    var s := ss[i];
    && Enabled(s, ts[i]) && ss[i + 1] == Do(s, ts[i])
    && (ts[i].Release? ==> ends(s.entry, s.data, s.drained, ts[i].p, Returns))
    && (ts[i].SleepRelease? ==> ends(s.entry, s.data, s.drained, ts[i].p, SleepsOn(s.phase[ts[i].p].c)))
  }

  /** A run in which every critical section ends in one of the client's ways. */
  ghost predicate ClientRun<D(!new)>(ends: (D, D, set<int>, int, Exit) -> bool, ss: seq<State<D>>, ts: seq<Step<D>>) {
    && |ss| == |ts| + 1 && ss[0].lk == -1 && (forall q :: 0 <= q < |ss[0].phase| ==> ss[0].phase[q] == Outside)
    && (forall i :: 0 <= i < |ts| ==> ClientStep(ends, ss, ts, i))
  }

  /** No client that ends well loses a wakeup. */
  lemma ClientLosesNoWakeup<D(!new)>(may: (D, int) -> bool, ends: (D, D, set<int>, int, Exit) -> bool, ss: seq<State<D>>,
                                     ts: seq<Step<D>>, k: int, q: int)
    requires EndsWell(may, ends) && ClientRun(ends, ss, ts) && 0 <= k < |ss| && ss[k].lk == -1
    requires 0 <= q < |ss[k].phase| && ss[k].phase[q].Asleep?
    ensures may(ss[k].data, ss[k].phase[q].c)
  {
    forall i | 0 <= i < |ts| ensures StepAt(may, ss, ts, i) {
      assert ClientStep(ends, ss, ts, i);
    }
    NoLostWakeup(may, ss, ts, k, q);
  }

  /** What every section of a client keeps of the data holds whenever the lock is free. */
  lemma {:induction false} ClientKeeps<D(!new)>(good: D -> bool, ends: (D, D, set<int>, int, Exit) -> bool,
                                               ss: seq<State<D>>, ts: seq<Step<D>>, k: int)
    requires ClientRun(ends, ss, ts) && 0 <= k < |ss| && good(ss[0].data)
    requires forall d0, d, woken, p, exit :: good(d0) && ends(d0, d, woken, p, exit) ==> good(d)
    ensures good(if ss[k].lk == -1 then ss[k].data else ss[k].entry)
    decreases k
  {
    if k > 0 {
      ClientKeeps(good, ends, ss, ts, k - 1);
      var any := (d: D, c: int) => true;
      forall i | 0 <= i < |ts| ensures StepAt(any, ss, ts, i) {
        assert ClientStep(ends, ss, ts, i);
      }
      RunKeepsInv(any, ss, ts, k - 1);
      assert ClientStep(ends, ss, ts, k - 1) && ProcOk(any, ss[k - 1], ts[k - 1].p);
    }
  }

  /** A finished wakeup has left nobody waiting on its channel, not even one that was just falling asleep. */
  lemma WakeupIsComplete<D(!new)>(may: (D, int) -> bool, s: State<D>, p: int, q: int)
    requires Inv(may, s) && Enabled(s, Woken(p)) && 0 <= q < |s.phase|
    ensures !WaitsOn(s.phase[q], s.phase[p].c)
  {
    assert ProcOk(may, s, p) && ProcOk(may, s, q);
  }

  /** The discipline is needed: letting go of the lock unsettled leaves exactly the waiters of that channel behind. */
  lemma UnsettledLoses<D(!new)>(may: (D, int) -> bool, s: State<D>, p: int)
    requires Inv(may, s) && Enabled(s, Release(p))
    ensures Inv(may, Do(s, Release(p))) <==>
              forall q :: 0 <= q < |s.phase| && (s.phase[q].Marking? || s.phase[q].Asleep?) ==> may(s.data, s.phase[q].c)
  {
    var s' := Do(s, Release(p));
    assert ProcOk(may, s, p);
    if forall q :: 0 <= q < |s.phase| && (s.phase[q].Marking? || s.phase[q].Asleep?) ==> may(s.data, s.phase[q].c) {
      forall q | 0 <= q < |s.phase| ensures ProcOk(may, s', q) {
        assert ProcOk(may, s, q);
      }
    }
    if Inv(may, s') {
      forall q | 0 <= q < |s.phase| && (s.phase[q].Marking? || s.phase[q].Asleep?) ensures may(s.data, s.phase[q].c) {
        assert ProcOk(may, s', q) && ProcOk(may, s, q);
      }
    }
  }

  /** A wakeup held up by a process falling asleep can go on after that process's next step. */
  lemma ScanGoesOn<D(!new)>(may: (D, int) -> bool, s: State<D>, p: int)
    requires Inv(may, s) && 0 <= p < |s.phase| && s.phase[p].Scans? && s.phase[p].k < |s.phase|
    ensures Enabled(s, Visit(p)) || (Enabled(s, SleepMark(s.phase[p].k)) && Enabled(Do(s, SleepMark(s.phase[p].k)), Visit(p)))
  {
    assert ProcOk(may, s, p) && ProcOk(may, s, s.phase[p].k);
  }
}

/** Group commit (kernel/log.c) as a machine over single block writes: any number of
    operations interleave, and a crash may happen between any two writes. */
module GroupCommit {
  import opened Params
  import opened RedoLog

  /** What file-system operations did, in the order it happened. */
  datatype Event =
    | Begin(op: nat)
    | Wrote(op: nat, b: int, v: Block)
    | End(op: nat)

  datatype Phase =
    | Running
    | Committing(head: Block, pc: nat)     // pc block writes of commit() done
    | Down                                 // crashed or panicked, not yet rebooted
    | Recovering(start: Disk, pc: nat)     // pc block writes of recover_from_log() done

  datatype State = State(
    disk: Disk,
    phase: Phase,
    lh: seq<int>,               // lh.block[0..lh.n]
    pinned: map<int, Block>,    // pinned buffers with their data
    outstanding: int,
    active: map<nat, nat>,      // operations in progress, with the number of blocks each has added to lh
    nextOp: nat,
    events: seq<Event>,         // everything done since mkfs and not lost in a crash
    cuts: seq<nat>)             // lengths of events at which a commit became durable

  datatype Step =
    | BeginOp
    | LogWrite(op: nat, b: int, v: Block)
    | EndOp(op: nat)
    | CommitIO
    | CommitDone
    | Crash
    | Boot
    | RecoverIO
    | RecoverDone

  /** The checks of log_write that panic. */
  predicate LogWritePanics(s: State) { |s.lh| >= LOGBLOCKS || s.outstanding < 1 }

  /** A step some process, the device or the environment can take. A panic stops the
      machine, which Crash covers. An operation calls log_write and end_op only between
      its begin_op and its end_op. */
  predicate Enabled(s: State, t: Step)
  {
    match t
    case BeginOp => s.phase.Running? && |s.lh| + (s.outstanding + 1) * MAXOPBLOCKS <= LOGBLOCKS
    case LogWrite(op, b, v) =>
      && (s.phase.Running? || s.phase.Committing?)
      && op in s.active && 0 <= b < |s.disk| && !InLog(b)
      && !LogWritePanics(s)
    case EndOp(op) => (s.phase.Running? || s.phase.Committing?) && op in s.active && |s.disk| > LOGSTART
    case CommitIO =>
      && s.phase.Committing? && s.phase.pc < 2 * |s.lh| + 2 && s.lh != []
      && |s.disk| > LOGSTART + LOGBLOCKS && GoodHeader(s.phase.head) && GoodIds(s.lh, |s.disk|) && Has(s.pinned, s.lh)
    case CommitDone => s.phase.Committing? && (s.lh == [] || s.phase.pc == 2 * |s.lh| + 2)
    case Crash => !s.phase.Down? && s.cuts != [] && Durable(s) <= |s.events|
    case Boot => s.phase.Down?
    case RecoverIO =>
      && s.phase.Recovering? && WellFormed(s.phase.start) && |s.disk| == |s.phase.start|
      && s.phase.pc <= |DiskIds(s.phase.start)|
    case RecoverDone =>
      && s.phase.Recovering? && |s.phase.start| > LOGSTART && s.phase.pc == |DiskIds(s.phase.start)| + 1
  }

  function Durable(s: State): nat
    requires s.cuts != []
  {
    s.cuts[|s.cuts| - 1]
  }

  function Do(s: State, t: Step): State
    requires Enabled(s, t)
  {
    match t
    case BeginOp =>
      s.(outstanding := s.outstanding + 1, active := s.active[s.nextOp := 0], nextOp := s.nextOp + 1,
         events := s.events + [Begin(s.nextOp)])
    case LogWrite(op, b, v) =>
      var added := if b in s.lh then 0 else 1;
      s.(lh := if b in s.lh then s.lh else s.lh + [b], pinned := s.pinned[b := v],
         active := s.active[op := s.active[op] + added], events := s.events + [Wrote(op, b, v)])
    case EndOp(op) =>
      s.(outstanding := s.outstanding - 1, active := s.active - {op}, events := s.events + [End(op)],
         phase := if s.phase.Committing? then Down                 // panic("log.committing")
                  else if s.outstanding == 1 then Committing(s.disk[LOGSTART], 0)
                  else s.phase)
    case CommitIO =>
      var pc := s.phase.pc;
      s.(disk := Put(s.disk, CommitWrite(s.phase.head, s.lh, s.pinned, pc)),
         phase := Committing(s.phase.head, pc + 1),
         cuts := if pc == |s.lh| then s.cuts + [|s.events|] else s.cuts)
    case CommitDone =>
      s.(phase := Running, lh := [], pinned := map[],
         cuts := if s.lh == [] then s.cuts + [|s.events|] else s.cuts)
    case Crash =>
      s.(phase := Down, lh := [], pinned := map[], outstanding := 0, active := map[],
         events := s.events[..Durable(s)])
    case Boot => s.(phase := Recovering(s.disk, 0))
    case RecoverIO =>
      s.(disk := Put(s.disk, RecoverWrite(s.phase.start, s.phase.pc)),
         phase := Recovering(s.phase.start, s.phase.pc + 1))
    case RecoverDone => s.(phase := Running)
  }

  // ---- what the events mean ----

  /** The home contents after the first k events. */
  function Replay(img: Image, ev: seq<Event>, k: nat): (r: Image)
    requires k <= |ev|
  {
    if k == 0 then img
    else if ev[k - 1].Wrote? then Replay(img, ev, k - 1)[ev[k - 1].b := ev[k - 1].v]
    else Replay(img, ev, k - 1)
  }

  lemma {:induction false} ReplayPrefix(img: Image, a: seq<Event>, b: seq<Event>, k: nat)
    requires k <= |a| && k <= |b| && forall i :: 0 <= i < k ==> a[i] == b[i]
    ensures Replay(img, a, k) == Replay(img, b, k)
  {
    if k > 0 { ReplayPrefix(img, a, b, k - 1); }
  }

  ghost predicate Ended(ev: seq<Event>, c: nat, op: nat)
    requires c <= |ev|
  {
    exists k :: 0 <= k < c && ev[k] == End(op)
  }

  /** Cutting the events at c splits no operation: each one with an event before c has
      ended before c and has no event from c on. */
  ghost predicate Whole(ev: seq<Event>, c: nat)
  {
    c <= |ev| && forall i :: 0 <= i < c ==> WholeAt(ev, c, i)
  }

  ghost predicate WholeAt(ev: seq<Event>, c: nat, i: nat)
    requires i < c <= |ev|
  {
    && Ended(ev, c, ev[i].op)
    && forall j :: c <= j < |ev| ==> ev[j].op != ev[i].op
  }

  // ---- invariant ----

  ghost predicate CutsInv(s: State)
  {
    && s.cuts != [] && Durable(s) <= |s.events|
    && (forall i :: 0 <= i < |s.cuts| ==> s.cuts[i] <= Durable(s) && Whole(s.events, s.cuts[i]))
  }

  /** An operation in progress has not ended and began after the cut at c. */
  ghost predicate Open(ev: seq<Event>, c: nat, op: nat)
  {
    forall i :: 0 <= i < |ev| ==> ev[i] != End(op) && (i < c ==> ev[i].op != op)
  }

  ghost predicate KnownOp(s: State, op: nat)
  {
    op < s.nextOp && (op in s.active || Ended(s.events, |s.events|, op))
  }

  ghost predicate OpsInv(s: State)
  {
    && s.cuts != []
    && s.outstanding == |s.active|
    && (forall i :: 0 <= i < |s.events| ==> KnownOp(s, s.events[i].op))
    && (forall op :: op in s.active ==> op < s.nextOp && Open(s.events, Durable(s), op))
  }

  /** The pinned buffers are exactly what the events since the last commit add. */
  ghost predicate Current(s: State, init: Image)
    requires s.cuts != [] && Durable(s) <= |s.events|
  {
    Replay(init, s.events, |s.events|) == Replay(init, s.events, Durable(s)) + s.pinned
  }

  ghost predicate LogInv(s: State)
  {
    && GoodIds(s.lh, |s.disk|) && Has(s.pinned, s.lh) && Covers(s.pinned, s.lh)
  }

  /** No operation in progress, nothing logged, nothing since the last commit. */
  ghost predicate Quiet(s: State)
    requires s.cuts != []
  {
    s.lh == [] && s.pinned == map[] && s.active == map[] && Durable(s) == |s.events|
  }

  ghost predicate PhaseInv(s: State, init: Image)
    requires s.cuts != [] && Durable(s) <= |s.events|
  {
    match s.phase
    case Running => WellFormed(s.disk) && DiskIds(s.disk) == [] && LogInv(s) && Current(s, init)
    case Committing(head, pc) =>
      && GoodHeader(head) && s.active == map[] && LogInv(s) && WellFormed(s.disk)
      && (s.lh == [] ==> DiskIds(s.disk) == [])
      && (s.lh != [] ==> CommitInv(s.disk, s.lh, s.pinned, pc))
      && (if s.lh == [] || pc <= |s.lh| then Current(s, init) else Durable(s) == |s.events|)
    case Down => Quiet(s)
    case Recovering(start, pc) => Quiet(s) && RecoverInv(s.disk, start, pc)
  }

  ghost predicate Inv(s: State, init: Image)
  {
    && CutsInv(s) && OpsInv(s)
    && Means(s.disk, Replay(init, s.events, Durable(s)))
    && PhaseInv(s, init)
  }

  // ---- each kind of step keeps it ----

  lemma Append(init: Image, ev: seq<Event>, e: Event, c: nat, pinned: map<int, Block>)
    requires c <= |ev| && Replay(init, ev, |ev|) == Replay(init, ev, c) + pinned
    ensures Replay(init, ev + [e], c) == Replay(init, ev, c)
    ensures Replay(init, ev + [e], |ev| + 1)
         == Replay(init, ev + [e], c) + (if e.Wrote? then pinned[e.b := e.v] else pinned)
  {
    ReplayPrefix(init, ev, ev + [e], c);
    ReplayPrefix(init, ev, ev + [e], |ev|);
  }

  lemma AppendWhole(ev: seq<Event>, e: Event, c: nat)
    requires Whole(ev, c) && forall i :: 0 <= i < c ==> ev[i].op != e.op
    ensures Whole(ev + [e], c)
  {
    var ev' := ev + [e];
    forall i | 0 <= i < c ensures WholeAt(ev', c, i) {
      assert WholeAt(ev, c, i);
      var k :| 0 <= k < c && ev[k] == End(ev[i].op);
      assert ev'[k] == End(ev'[i].op);
    }
  }

  lemma AppendCuts(s: State, e: Event, s': State)
    requires CutsInv(s) && s'.events == s.events + [e] && s'.cuts == s.cuts
    requires forall i :: 0 <= i < Durable(s) ==> s.events[i].op != e.op
    ensures CutsInv(s')
  {
    forall i | 0 <= i < |s.cuts| ensures Whole(s'.events, s.cuts[i]) {
      AppendWhole(s.events, e, s.cuts[i]);
    }
  }

  lemma EndedMono(ev: seq<Event>, e: Event, op: nat)
    requires Ended(ev, |ev|, op)
    ensures Ended(ev + [e], |ev| + 1, op)
  {
    var k :| 0 <= k < |ev| && ev[k] == End(op);
    assert (ev + [e])[k] == End(op);
  }

  lemma BeginOpOps(s: State)
    requires CutsInv(s) && OpsInv(s) && Enabled(s, BeginOp)
    ensures CutsInv(Do(s, BeginOp)) && OpsInv(Do(s, BeginOp))
  {
    var s' := Do(s, BeginOp);
    AppendCuts(s, Begin(s.nextOp), s');
    assert s.nextOp !in s.active;
    forall i | 0 <= i < |s.events| ensures KnownOp(s', s.events[i].op) {
      assert KnownOp(s, s.events[i].op);
      if s.events[i].op !in s.active { EndedMono(s.events, Begin(s.nextOp), s.events[i].op); }
    }
    forall op | op in s'.active ensures Open(s'.events, Durable(s), op) {
      if op in s.active { assert Open(s.events, Durable(s), op); }
    }
  }

  lemma LogWriteOps(s: State, op: nat, b: int, v: Block)
    requires CutsInv(s) && OpsInv(s) && Enabled(s, LogWrite(op, b, v))
    ensures CutsInv(Do(s, LogWrite(op, b, v))) && OpsInv(Do(s, LogWrite(op, b, v)))
  {
    var s' := Do(s, LogWrite(op, b, v));
    assert Open(s.events, Durable(s), op);
    AppendCuts(s, Wrote(op, b, v), s');
    assert s'.active.Keys == s.active.Keys;
    forall i | 0 <= i < |s.events| ensures KnownOp(s', s.events[i].op) {
      assert KnownOp(s, s.events[i].op);
      if s.events[i].op !in s.active { EndedMono(s.events, Wrote(op, b, v), s.events[i].op); }
    }
    forall o | o in s'.active ensures Open(s'.events, Durable(s), o) {
      assert Open(s.events, Durable(s), o);
    }
  }

  lemma EndOpOps(s: State, op: nat)
    requires CutsInv(s) && OpsInv(s) && Enabled(s, EndOp(op))
    ensures CutsInv(Do(s, EndOp(op))) && OpsInv(Do(s, EndOp(op)))
  {
    var s' := Do(s, EndOp(op));
    assert Open(s.events, Durable(s), op);
    AppendCuts(s, End(op), s');
    assert s'.active.Keys == s.active.Keys - {op};
    forall i | 0 <= i < |s'.events| ensures KnownOp(s', s'.events[i].op) {
      if s'.events[i].op == op {
        assert s'.events[|s.events|] == End(op);
      } else {
        assert KnownOp(s, s.events[i].op);
        if s.events[i].op !in s.active { EndedMono(s.events, End(op), s.events[i].op); }
      }
    }
    forall o | o in s'.active ensures Open(s'.events, Durable(s), o) {
      assert Open(s.events, Durable(s), o);
    }
  }

  lemma NewCut(s: State, s': State)
    requires CutsInv(s) && OpsInv(s) && s.active == map[]
    requires s'.cuts == s.cuts + [|s.events|] && s'.events == s.events
    requires s'.active == map[] && s'.outstanding == s.outstanding && s'.nextOp == s.nextOp
    ensures CutsInv(s') && OpsInv(s')
  {
    forall i | 0 <= i < |s.events| ensures WholeAt(s.events, |s.events|, i) && KnownOp(s', s.events[i].op) {
      assert KnownOp(s, s.events[i].op);
    }
    forall i | 0 <= i < |s'.cuts| ensures s'.cuts[i] <= Durable(s') && Whole(s'.events, s'.cuts[i]) {
      if i < |s.cuts| { assert Whole(s.events, s.cuts[i]); }
    }
  }

  lemma TruncatedWhole(ev: seq<Event>, d: nat, c: nat)
    requires c <= d <= |ev| && Whole(ev, c)
    ensures Whole(ev[..d], c)
  {
    forall i | 0 <= i < c ensures WholeAt(ev[..d], c, i) {
      assert WholeAt(ev, c, i);
      var k :| 0 <= k < c && ev[k] == End(ev[i].op);
      assert ev[..d][k] == End(ev[..d][i].op);
    }
  }

  lemma CrashOps(s: State)
    requires CutsInv(s) && OpsInv(s) && Enabled(s, Crash)
    ensures CutsInv(Do(s, Crash)) && OpsInv(Do(s, Crash))
  {
    var s', d := Do(s, Crash), Durable(s);
    forall i | 0 <= i < |s.cuts| ensures Whole(s'.events, s.cuts[i]) {
      TruncatedWhole(s.events, d, s.cuts[i]);
    }
    forall i | 0 <= i < |s'.events| ensures KnownOp(s', s'.events[i].op) {
      assert WholeAt(s'.events, d, i) && KnownOp(s, s.events[i].op);
    }
  }

  lemma SameOps(s: State, s': State)
    requires CutsInv(s) && OpsInv(s)
    requires s'.events == s.events && s'.cuts == s.cuts
    requires s'.active == s.active && s'.outstanding == s.outstanding && s'.nextOp == s.nextOp
    ensures CutsInv(s') && OpsInv(s')
  {
    forall i | 0 <= i < |s.events| ensures KnownOp(s', s.events[i].op) {
      assert KnownOp(s, s.events[i].op);
    }
  }

  /** The part of the invariant about contents, apart from the operations. */
  ghost predicate DataInv(s: State, init: Image)
  {
    && s.cuts != [] && Durable(s) <= |s.events|
    && Means(s.disk, Replay(init, s.events, Durable(s)))
    && PhaseInv(s, init)
  }

  lemma CommitIOData(s: State, init: Image)
    requires DataInv(s, init) && Enabled(s, CommitIO)
    ensures DataInv(Do(s, CommitIO), init)
  {
    CommitIOMeans(s, init);
    CommitIOPhase(s, init);
    hide PhaseInv, Means, CommitWrite, Put;
  }

  lemma CommitIOMeans(s: State, init: Image)
    requires DataInv(s, init) && Enabled(s, CommitIO)
    ensures var s' := Do(s, CommitIO);
            s'.cuts != [] && Durable(s') <= |s'.events| && Means(s'.disk, Replay(init, s'.events, Durable(s')))
  {
    assert s.phase.pc == |s.lh| ==> Current(s, init);
    assert CommitInv(s.disk, s.lh, s.pinned, s.phase.pc) && Covers(s.pinned, s.lh) && GoodHeader(s.phase.head);
    hide PhaseInv, CommitInv, Covers, GoodHeader, CommitWrite, Logical, WellFormed, Replay, Put;
    CommitStepMeaning(s.disk, s.phase.head, s.lh, s.pinned, s.phase.pc);
  }

  /** What the invariant says in the middle of a commit. */
  lemma CommitFacts(s: State, init: Image)
    requires DataInv(s, init) && s.phase.Committing? && s.lh != []
    ensures GoodHeader(s.phase.head) && s.active == map[] && LogInv(s) && Covers(s.pinned, s.lh)
    ensures CommitInv(s.disk, s.lh, s.pinned, s.phase.pc)
    ensures if s.phase.pc <= |s.lh| then Current(s, init) else Durable(s) == |s.events|
  {
    hide Means, CommitInv, GoodHeader, Replay;
  }

  lemma CommitPhaseHolds(s: State, init: Image)
    requires s.cuts != [] && Durable(s) <= |s.events| && s.phase.Committing? && s.lh != []
    requires GoodHeader(s.phase.head) && s.active == map[] && LogInv(s) && WellFormed(s.disk)
    requires CommitInv(s.disk, s.lh, s.pinned, s.phase.pc)
    requires if s.phase.pc <= |s.lh| then Current(s, init) else Durable(s) == |s.events|
    ensures PhaseInv(s, init)
  {
    hide CommitInv, WellFormed, LogInv, GoodHeader, Current;
  }

  lemma LogInvSame(s: State, s': State)
    requires LogInv(s) && s'.lh == s.lh && s'.pinned == s.pinned && |s'.disk| == |s.disk|
    ensures LogInv(s')
  {
  }

  /** The disk after the write. */
  lemma CommitIODisk(s: State)
    requires Enabled(s, CommitIO) && GoodHeader(s.phase.head) && Covers(s.pinned, s.lh)
    requires CommitInv(s.disk, s.lh, s.pinned, s.phase.pc)
    ensures var s' := Do(s, CommitIO);
            CommitInv(s'.disk, s.lh, s.pinned, s.phase.pc + 1) && WellFormed(s'.disk) && |s'.disk| == |s.disk|
  {
    hide CommitInv, WellFormed, GoodHeader, Logical, CommitWrite, Covers, GoodIds, Has;
    CommitStepInv(s.disk, s.phase.head, s.lh, s.pinned, s.phase.pc);
    CommitStepMeaning(s.disk, s.phase.head, s.lh, s.pinned, s.phase.pc);
  }

  /** Everything but the disk. */
  lemma CommitIORest(s: State)
    requires Enabled(s, CommitIO) && s.cuts != [] && Durable(s) <= |s.events|
    ensures var s' := Do(s, CommitIO);
            && s'.phase == Committing(s.phase.head, s.phase.pc + 1) && s'.lh == s.lh && s'.pinned == s.pinned
            && s'.active == s.active && s'.events == s.events && s'.cuts != []
            && Durable(s') == if s.phase.pc == |s.lh| then |s.events| else Durable(s)
  {
    hide GoodHeader, GoodIds, Has, CommitWrite, Put;
  }

  lemma CommitIOPhase(s: State, init: Image)
    requires DataInv(s, init) && Enabled(s, CommitIO)
    ensures var s' := Do(s, CommitIO); s'.cuts != [] && Durable(s') <= |s'.events| && PhaseInv(s', init)
  {
    assert s.phase.Committing? && s.lh != [] && s.cuts != [] && Durable(s) <= |s.events|;
    hide DataInv, Enabled, Do, PhaseInv, CommitInv, WellFormed, LogInv, GoodHeader, Replay, Covers;
    var s' := Do(s, CommitIO);
    CommitFacts(s, init);
    CommitIODisk(s);
    CommitIORest(s);
    LogInvSame(s, s');
    CommitPhaseHolds(s', init);
  }

  lemma CommitIOKeeps(s: State, init: Image)
    requires Inv(s, init) && Enabled(s, CommitIO)
    ensures Inv(Do(s, CommitIO), init)
  {
    if s.phase.pc == |s.lh| {
      NewCut(s, Do(s, CommitIO));
    } else {
      SameOps(s, Do(s, CommitIO));
    }
    CommitIOData(s, init);
    hide CutsInv, OpsInv, PhaseInv, Means;
  }

  lemma CommitDoneData(s: State, init: Image)
    requires DataInv(s, init) && Enabled(s, CommitDone)
    ensures DataInv(Do(s, CommitDone), init)
  {
    var s' := Do(s, CommitDone);
    assert s.lh == [] ==> s.pinned == map[];
    assert DiskIds(s.disk) == [];
    hide CommitInv, HeaderIds, Logical;
  }

  lemma CommitDoneKeeps(s: State, init: Image)
    requires Inv(s, init) && Enabled(s, CommitDone)
    ensures Inv(Do(s, CommitDone), init)
  {
    if s.lh == [] {
      NewCut(s, Do(s, CommitDone));
    } else {
      SameOps(s, Do(s, CommitDone));
    }
    CommitDoneData(s, init);
    hide CutsInv, OpsInv, PhaseInv, Means;
  }

  lemma CrashKeeps(s: State, init: Image)
    requires Inv(s, init) && Enabled(s, Crash)
    ensures Inv(Do(s, Crash), init)
  {
    CrashOps(s);
    ReplayPrefix(init, s.events, Do(s, Crash).events, Durable(s));
  }

  lemma RecoverIOData(s: State, init: Image)
    requires DataInv(s, init) && Enabled(s, RecoverIO)
    ensures DataInv(Do(s, RecoverIO), init)
  {
    RecoverStepMeaning(s.disk, s.phase.start, s.phase.pc);
    hide Logical, RecoverInv, WellFormed, RecoverWrite, Put;
  }

  lemma RecoverDoneData(s: State, init: Image)
    requires DataInv(s, init) && Enabled(s, RecoverDone)
    ensures DataInv(Do(s, RecoverDone), init)
  {
  }

  lemma RecoveryKeeps(s: State, init: Image, t: Step)
    requires Inv(s, init) && Enabled(s, t) && (t.Boot? || t.RecoverIO? || t.RecoverDone?)
    ensures Inv(Do(s, t), init)
  {
    SameOps(s, Do(s, t));
    if t.RecoverIO? {
      RecoverIOData(s, init);
    } else if t.RecoverDone? {
      RecoverDoneData(s, init);
    }
    hide CutsInv, OpsInv;
  }

  lemma BeginOpKeeps(s: State, init: Image)
    requires Inv(s, init) && Enabled(s, BeginOp)
    ensures Inv(Do(s, BeginOp), init)
  {
    BeginOpOps(s);
    BeginOpData(s, init);
    hide CutsInv, OpsInv, PhaseInv, Means;
  }

  lemma BeginOpData(s: State, init: Image)
    requires DataInv(s, init) && Enabled(s, BeginOp)
    ensures DataInv(Do(s, BeginOp), init)
  {
    hide Means, WellFormed, DiskIds;
    Append(init, s.events, Begin(s.nextOp), Durable(s), s.pinned);
  }

  /** Every log_write happens outside a commit. */
  lemma NoLogWriteWhileCommitting(s: State, init: Image, op: nat)
    requires Inv(s, init) && s.phase.Committing?
    ensures LogWritePanics(s) && op !in s.active
  {
  }

  lemma LogWriteLog(s: State, op: nat, b: int, v: Block)
    requires LogInv(s) && Enabled(s, LogWrite(op, b, v))
    ensures LogInv(Do(s, LogWrite(op, b, v)))
  {
    if b !in s.lh {
      AddBlock(s.lh, b, |s.disk|);
    }
  }

  lemma LogWriteKeeps(s: State, init: Image, op: nat, b: int, v: Block)
    requires Inv(s, init) && Enabled(s, LogWrite(op, b, v))
    ensures Inv(Do(s, LogWrite(op, b, v)), init)
  {
    assert s.phase.Running?;
    LogWriteOps(s, op, b, v);
    LogWriteLog(s, op, b, v);
    Append(init, s.events, Wrote(op, b, v), Durable(s), s.pinned);
    hide CutsInv, OpsInv, LogInv, Means, WellFormed, DiskIds;
  }

  lemma EndOpKeeps(s: State, init: Image, op: nat)
    requires Inv(s, init) && Enabled(s, EndOp(op))
    ensures Inv(Do(s, EndOp(op)), init)
  {
    assert s.phase.Running?;
    EndOpOps(s, op);
    LastOut(Do(s, EndOp(op)));
    EndOpData(s, init, op);
    hide CutsInv, OpsInv, PhaseInv, Means;
  }

  lemma LastOut(s: State)
    requires OpsInv(s)
    ensures s.outstanding == 0 ==> s.active == map[]
  {
    hide KnownOp, Open;
  }

  lemma EndOpData(s: State, init: Image, op: nat)
    requires DataInv(s, init) && s.phase.Running? && Enabled(s, EndOp(op))
    requires s.outstanding == 1 ==> Do(s, EndOp(op)).active == map[]
    ensures DataInv(Do(s, EndOp(op)), init)
  {
    Append(init, s.events, End(op), Durable(s), s.pinned);
    assert s.lh != [] ==> CommitInv(s.disk, s.lh, s.pinned, 0);
    hide CommitInv, LogInv, Means, WellFormed, DiskIds, HeaderIds;
  }

  lemma StepKeepsInv(s: State, init: Image, t: Step)
    requires Inv(s, init) && Enabled(s, t)
    ensures Inv(Do(s, t), init)
  {
    match t
    case BeginOp => BeginOpKeeps(s, init);
    case LogWrite(op, b, v) => LogWriteKeeps(s, init, op, b, v);
    case EndOp(op) => EndOpKeeps(s, init, op);
    case CommitIO => CommitIOKeeps(s, init);
    case CommitDone => CommitDoneKeeps(s, init);
    case Crash => CrashKeeps(s, init);
    case Boot => RecoveryKeeps(s, init, t);
    case RecoverIO => RecoveryKeeps(s, init, t);
    case RecoverDone => RecoveryKeeps(s, init, t);
  }

  // ---- whole runs ----

  /** The machine before its first boot, on a disk as mkfs or an earlier crash left it. */
  function Start(d: Disk): State
  {
    State(d, Down, [], map[], 0, map[], 0, [], [0])
  }

  ghost predicate StepAt(ss: seq<State>, ts: seq<Step>, i: nat)
    requires i < |ts| && |ss| == |ts| + 1
  {
    Enabled(ss[i], ts[i]) && ss[i + 1] == Do(ss[i], ts[i])
  }

  ghost predicate IsRun(d: Disk, ss: seq<State>, ts: seq<Step>)
  {
    && |ss| == |ts| + 1 && ss[0] == Start(d)
    && forall i :: 0 <= i < |ts| ==> StepAt(ss, ts, i)
  }

  lemma StartInv(d: Disk)
    requires WellFormed(d)
    ensures Inv(Start(d), Logical(d))
  {
  }

  lemma {:induction false} RunKeepsInv(d: Disk, ss: seq<State>, ts: seq<Step>, k: nat)
    requires WellFormed(d) && IsRun(d, ss, ts) && k < |ss|
    ensures Inv(ss[k], Logical(d))
  {
    if k > 0 {
      RunKeepsInv(d, ss, ts, k - 1);
      assert StepAt(ss, ts, k - 1);
      hide Inv, Enabled, Do;
      StepKeepsInv(ss[k - 1], Logical(d), ts[k - 1]);
    } else {
      StartInv(d);
    }
  }

  /** In every reachable state, whatever has crashed so far, the disk means the result
      of the committed events, and every commit point splits the events between whole
      operations. */
  lemma RecoverableStateIsCommittedGroups(d: Disk, ss: seq<State>, ts: seq<Step>, k: nat)
    requires WellFormed(d) && IsRun(d, ss, ts) && k < |ss|
    ensures var s := ss[k];
            && s.cuts != [] && Durable(s) <= |s.events|
            && Means(s.disk, Replay(Logical(d), s.events, Durable(s)))
            && forall i :: 0 <= i < |s.cuts| ==> s.cuts[i] <= Durable(s) && Whole(s.events, s.cuts[i])
  {
    RunKeepsInv(d, ss, ts, k);
  }

  /** When recovery is done, the home blocks hold exactly the committed events. */
  lemma RecoveredDisk(d: Disk, ss: seq<State>, ts: seq<Step>, k: nat)
    requires WellFormed(d) && IsRun(d, ss, ts) && k < |ts| && ts[k] == RecoverDone
    ensures var s := ss[k + 1];
            s.cuts != [] && Durable(s) == |s.events| && Home(s.disk) == Replay(Logical(d), s.events, |s.events|)
  {
    RunKeepsInv(d, ss, ts, k);
    RunKeepsInv(d, ss, ts, k + 1);
    assert StepAt(ss, ts, k);
    EmptyLogIsHome(ss[k + 1].disk);
    hide Logical, Home, CutsInv, OpsInv;
  }

  /** No step, a crash included, ever takes back a committed event. */
  lemma CommittedStays(s: State, init: Image, t: Step)
    requires Inv(s, init) && Enabled(s, t)
    ensures var s' := Do(s, t);
            && s'.cuts != [] && Durable(s) <= Durable(s') && Durable(s) <= |s'.events|
            && s'.events[..Durable(s)] == s.events[..Durable(s)]
  {
    assert CutsInv(s);
    hide PhaseInv, OpsInv, Means;
    EventsStay(s, t);
    hide CutsInv;
  }

  lemma EventsStay(s: State, t: Step)
    requires CutsInv(s) && Enabled(s, t)
    ensures var s' := Do(s, t);
            && s'.cuts != [] && Durable(s) <= Durable(s') && Durable(s) <= |s'.events|
            && s'.events[..Durable(s)] == s.events[..Durable(s)]
  {
    hide Whole, RecoverWrite, CommitWrite, Put, WellFormed, DiskIds;
    var n := Durable(s);
    match t
    case BeginOp => assert (s.events + [Begin(s.nextOp)])[..n] == s.events[..n];
    case LogWrite(op, b, v) => assert (s.events + [Wrote(op, b, v)])[..n] == s.events[..n];
    case EndOp(op) => assert (s.events + [End(op)])[..n] == s.events[..n];
    case Crash => assert s.events[..n][..n] == s.events[..n];
    case _ =>
  }

  /** Once a commit is done, everything every operation did is durable. */
  lemma CommitDoneIsDurable(s: State, init: Image)
    requires Inv(s, init) && Enabled(s, CommitDone)
    ensures var s' := Do(s, CommitDone); s'.cuts != [] && Durable(s') == |s'.events|
  {
  }

  /** With no operation in progress and no commit under way, nothing waits to be committed. */
  ghost predicate NothingWaits(s: State)
    requires s.cuts != []
  {
    s.phase.Running? && s.active == map[] ==> Quiet(s)
  }

  lemma StepKeepsNothingWaits(s: State, init: Image, t: Step)
    requires Inv(s, init) && NothingWaits(s) && Enabled(s, t)
    ensures var s' := Do(s, t); s'.cuts != [] && NothingWaits(s')
  {
    match t
    case BeginOp => assert s.nextOp in Do(s, t).active;
    case LogWrite(op, b, v) => assert op in Do(s, t).active;
    case EndOp(op) => LastOneOut(s, op);
    case CommitDone => CommitDoneIsDurable(s, init);
    case RecoverDone => assert Quiet(s);
    case _ =>
  }

  /** The last operation out starts the commit; before it, somebody is still in. */
  lemma LastOneOut(s: State, op: nat)
    requires OpsInv(s) && Enabled(s, EndOp(op))
    ensures s.outstanding != 1 ==> Do(s, EndOp(op)).active != map[]
  {
    var rest := OneLess(s.active, op);
    assert s.active - {op} == rest;
  }

  /** In every reachable state with no operation in progress and no commit or recovery under way, everything ever done,
      and not lost in a crash, is durable, the log is empty and the home blocks hold it. */
  lemma IdleMeansDurable(d: Disk, ss: seq<State>, ts: seq<Step>, k: nat)
    requires WellFormed(d) && IsRun(d, ss, ts) && k < |ss| && ss[k].phase.Running? && ss[k].active == map[]
    ensures var s := ss[k];
            && s.lh == [] && s.pinned == map[] && s.cuts != [] && Durable(s) == |s.events|
            && Home(s.disk) == Replay(Logical(d), s.events, |s.events|)
  {
    RunKeepsInv(d, ss, ts, k);
    RunKeepsNothingWaits(d, ss, ts, k);
    EmptyLogIsHome(ss[k].disk);
    hide Logical, Home, CutsInv, OpsInv, Replay;
  }

  lemma {:induction false} RunKeepsNothingWaits(d: Disk, ss: seq<State>, ts: seq<Step>, k: nat)
    requires WellFormed(d) && IsRun(d, ss, ts) && k < |ss|
    ensures ss[k].cuts != [] && NothingWaits(ss[k])
  {
    if k > 0 {
      RunKeepsNothingWaits(d, ss, ts, k - 1);
      RunKeepsInv(d, ss, ts, k - 1);
      assert StepAt(ss, ts, k - 1);
      hide Inv, Enabled, Do, NothingWaits;
      StepKeepsNothingWaits(ss[k - 1], Logical(d), ts[k - 1]);
    }
  }

  /** A commit under way, left alone: its remaining block writes, and the end. */
  ghost function Finished(s: State): State
    requires s.phase.Committing? && s.phase.pc <= 2 * |s.lh| + 2
    decreases 2 * |s.lh| + 2 - s.phase.pc
  {
    if Enabled(s, CommitIO) then Finished(Do(s, CommitIO)) else if Enabled(s, CommitDone) then Do(s, CommitDone) else s
  }

  lemma CommitCounts(s: State, init: Image)
    requires Inv(s, init) && s.phase.Committing?
    ensures s.lh != [] ==> s.phase.pc <= 2 * |s.lh| + 2 && (s.phase.pc < 2 * |s.lh| + 2 ==> Enabled(s, CommitIO))
    ensures s.active == map[] && (s.lh == [] || s.phase.pc == 2 * |s.lh| + 2 ==> Enabled(s, CommitDone) && !Enabled(s, CommitIO))
  {
  }

  /** Unless a crash cuts it off, a commit comes to its end, and everything done so far is then durable and at home. */
  lemma {:induction false} CommitsFinish(s: State, init: Image)
    requires Inv(s, init) && s.phase.Committing? && s.phase.pc <= 2 * |s.lh| + 2
    ensures var f := Finished(s);
            && Inv(f, init) && f.phase.Running? && f.active == map[] && Quiet(f) && f.events == s.events
            && Home(f.disk) == Replay(init, s.events, |s.events|)
    decreases 2 * |s.lh| + 2 - s.phase.pc
  {
    CommitCounts(s, init);
    if Enabled(s, CommitIO) {
      StepKeepsInv(s, init, CommitIO);
      CommitIOMoves(s);
      hide Inv, Enabled, Do, Quiet;
      CommitsFinish(Do(s, CommitIO), init);
    } else {
      CommitDoneIsDurable(s, init);
      StepKeepsInv(s, init, CommitDone);
      var f := Do(s, CommitDone);
      assert f.lh == [] && f.pinned == map[] && f.active == map[] && f.events == s.events && f.phase.Running?;
      hide Enabled, Do, CutsInv, OpsInv;
      HomeWhenRunning(f, init);
    }
  }

  lemma CommitIOMoves(s: State)
    requires Enabled(s, CommitIO)
    ensures var t := Do(s, CommitIO);
            t.phase.Committing? && t.phase.pc == s.phase.pc + 1 && t.lh == s.lh && t.events == s.events
  {
  }

  lemma HomeWhenRunning(s: State, init: Image)
    requires Inv(s, init) && s.phase.Running? && Durable(s) == |s.events|
    ensures Home(s.disk) == Replay(init, s.events, |s.events|)
  {
    EmptyLogIsHome(s.disk);
    hide Home, Logical, CutsInv, OpsInv, Replay;
  }

  /** The last operation out starts that commit. */
  lemma LastOutCommits(s: State, init: Image, op: nat)
    requires Inv(s, init) && s.phase.Running? && s.outstanding == 1 && op in s.active
    ensures Enabled(s, EndOp(op))
    ensures var t := Do(s, EndOp(op));
            && t.phase.Committing? && t.phase.pc == 0 && t.events == s.events + [End(op)]
            && Home(Finished(t).disk) == Replay(init, t.events, |t.events|)
  {
    assert WellFormed(s.disk);
    StepKeepsInv(s, init, EndOp(op));
    var t := Do(s, EndOp(op));
    assert t.phase == Committing(s.disk[LOGSTART], 0);
    hide Inv, Finished, Home, Replay;
    CommitsFinish(t, init);
  }

  /** And with nobody in, begin_op lets the next one in. */
  lemma IdleAdmits(s: State, init: Image)
    requires Inv(s, init) && s.phase.Running? && s.active == map[] && NothingWaits(s)
    ensures Enabled(s, BeginOp)
  {
  }

  // ---- log space ----

  /** Blocks the operations in progress may still add to the log. */
  function Reserve(active: map<nat, nat>, k: nat): int
  {
    if k == 0 then 0
    else Reserve(active, k - 1) + (if k - 1 in active then MAXOPBLOCKS - active[k - 1] else 0)
  }

  /** No operation has added more than MAXOPBLOCKS blocks, and the rest of every share fits. */
  ghost predicate Budget(s: State)
  {
    && (forall op :: op in s.active ==> op < s.nextOp && s.active[op] <= MAXOPBLOCKS)
    && |s.lh| + Reserve(s.active, s.nextOp) <= LOGBLOCKS
  }

  /** The step respects the limit: an operation adds at most MAXOPBLOCKS blocks. */
  predicate Disciplined(s: State, t: Step)
  {
    t.LogWrite? && t.b !in s.lh && t.op in s.active ==> s.active[t.op] < MAXOPBLOCKS
  }

  lemma {:induction false} ReserveChanges(a: map<nat, nat>, b: map<nat, nat>, op: nat, k: nat)
    requires forall o :: o != op ==> (o in a <==> o in b) && (o in a ==> a[o] == b[o])
    ensures Reserve(b, k) - Reserve(a, k)
         == if op < k then (if op in b then MAXOPBLOCKS - b[op] else 0) - (if op in a then MAXOPBLOCKS - a[op] else 0)
            else 0
  {
    if k > 0 { ReserveChanges(a, b, op, k - 1); }
  }

  lemma {:induction false} ReserveBounds(a: map<nat, nat>, k: nat)
    requires forall op :: op in a ==> a[op] <= MAXOPBLOCKS
    ensures 0 <= Reserve(a, k)
    ensures forall op :: op in a && op < k ==> MAXOPBLOCKS - a[op] <= Reserve(a, k)
  {
    if k > 0 { ReserveBounds(a, k - 1); }
  }

  lemma OneLess(a: map<nat, nat>, op: nat) returns (rest: map<nat, nat>)
    ensures |rest| == |a| - (if op in a then 1 else 0) && op !in rest
    ensures forall o :: o != op ==> (o in a <==> o in rest) && (o in a ==> a[o] == rest[o])
  {
    rest := a - {op};
    assert op in a ==> a.Keys == rest.Keys + {op};
    assert op !in a ==> rest == a;
  }

  lemma {:induction false} ReserveAtMost(a: map<nat, nat>, k: nat)
    requires forall op :: op in a ==> op < k
    ensures Reserve(a, k) <= |a| * MAXOPBLOCKS
    decreases k
  {
    if k > 0 {
      var rest := OneLess(a, k - 1);
      ReserveAtMost(rest, k - 1);
      ReserveChanges(a, rest, k - 1, k - 1);
    }
  }

  /** Log budget: if no operation adds more than MAXOPBLOCKS blocks, the log never overflows. */
  lemma BudgetIsKept(s: State, t: Step)
    requires s.outstanding == |s.active| && Budget(s) && Enabled(s, t) && Disciplined(s, t)
    ensures Budget(Do(s, t))
  {
    var s' := Do(s, t);
    match t
    case BeginOp =>
      ReserveAtMost(s.active, s.nextOp);
      ReserveChanges(s.active, s'.active, s.nextOp, s.nextOp);
    case LogWrite(op, b, v) =>
      ReserveChanges(s.active, s'.active, op, s.nextOp);
    case EndOp(op) =>
      ReserveChanges(s.active, s'.active, op, s.nextOp);
    case Crash =>
      ReserveEmpty(s.nextOp);
    case _ =>
  }

  lemma {:induction false} ReserveEmpty(k: nat)
    ensures Reserve(map[], k) == 0
  {
    if k > 0 { ReserveEmpty(k - 1); }
  }

  /** Within budget a log_write that adds a block cannot panic, and any log_write by an
      operation in progress panics exactly when the log is full, which takes every
      operation in progress having used up its whole share. */
  lemma NoOverflow(s: State, op: nat, b: int)
    requires s.outstanding == |s.active| && Budget(s) && op in s.active
    ensures |s.lh| <= LOGBLOCKS
    ensures b !in s.lh && s.active[op] < MAXOPBLOCKS ==> !LogWritePanics(s)
    ensures LogWritePanics(s) <==> |s.lh| == LOGBLOCKS
    ensures LogWritePanics(s) ==> forall o :: o in s.active ==> s.active[o] == MAXOPBLOCKS
  {
    ReserveBounds(s.active, s.nextOp);
    assert s.active.Keys != {} && |s.active| >= 1;
  }

  lemma CountsOps(s: State, init: Image)
    requires Inv(s, init)
    ensures s.outstanding == |s.active|
  {
  }

  lemma StartBudget(d: Disk)
    ensures Budget(Start(d))
  {
    ReserveEmpty(0);
  }

  lemma BudgetFits(s: State)
    requires Budget(s)
    ensures |s.lh| <= LOGBLOCKS
  {
    ReserveBounds(s.active, s.nextOp);
  }

  lemma {:induction false} DisciplinedRunNeverOverflows(d: Disk, ss: seq<State>, ts: seq<Step>, k: nat)
    requires WellFormed(d) && IsRun(d, ss, ts) && k < |ss|
    requires forall i :: 0 <= i < |ts| ==> Disciplined(ss[i], ts[i])
    ensures Budget(ss[k]) && |ss[k].lh| <= LOGBLOCKS
  {
    if k > 0 {
      DisciplinedRunNeverOverflows(d, ss, ts, k - 1);
      RunKeepsInv(d, ss, ts, k - 1);
      assert StepAt(ss, ts, k - 1) && Disciplined(ss[k - 1], ts[k - 1]);
      CountsOps(ss[k - 1], Logical(d));
      hide Inv, Enabled, Disciplined, Do, Budget, IsRun, WellFormed, Logical;
      BudgetIsKept(ss[k - 1], ts[k - 1]);
    } else {
      StartBudget(d);
    }
    BudgetFits(ss[k]);
  }

  /** In a reachable state nothing but the phase decides whether a commit or recovery can
      go on and whether a crash can happen. */
  lemma NothingElseBlocks(s: State, init: Image)
    requires Inv(s, init)
    ensures !s.phase.Down? ==> Enabled(s, Crash)
    ensures s.phase.Committing? ==> Enabled(s, CommitIO) || Enabled(s, CommitDone)
    ensures s.phase.Recovering? ==> Enabled(s, RecoverIO) || Enabled(s, RecoverDone)
  {
    hide OpsInv, Means, Whole;
    if s.phase.Committing? && s.lh != [] {
      CommitGoesOn(s, init);
    }
    if s.phase.Recovering? {
      RecoveryGoesOn(s, init);
    }
    hide PhaseInv;
  }

  lemma CommitGoesOn(s: State, init: Image)
    requires DataInv(s, init) && s.phase.Committing? && s.lh != []
    ensures Enabled(s, CommitIO) || Enabled(s, CommitDone)
  {
    hide Means, PhaseInv, GoodHeader;
    CommitFacts(s, init);
    hide DataInv;
    CommitReady(s.disk, s.lh, s.pinned, s.phase.pc);
    hide CommitInv, LogInv;
  }

  lemma CommitReady(d: Disk, ids: seq<int>, mem: map<int, Block>, pc: nat)
    requires CommitInv(d, ids, mem, pc)
    ensures |d| > LOGSTART + LOGBLOCKS && GoodIds(ids, |d|) && Has(mem, ids) && pc <= 2 * |ids| + 2
  {
  }

  lemma RecoveryGoesOn(s: State, init: Image)
    requires DataInv(s, init) && s.phase.Recovering?
    ensures Enabled(s, RecoverIO) || Enabled(s, RecoverDone)
  {
    hide Means, Current, RecoverInv, Replay;
    assert RecoverInv(s.disk, s.phase.start, s.phase.pc);
    RecoverReady(s.disk, s.phase.start, s.phase.pc);
    hide DataInv, WellFormed, HeaderIds;
  }

  lemma RecoverReady(d: Disk, start: Disk, pc: nat)
    requires RecoverInv(d, start, pc)
    ensures WellFormed(start) && |start| > LOGSTART && |d| == |start| && pc <= |DiskIds(start)| + 1
  {
    hide HeaderIds, GoodIds;
  }
}

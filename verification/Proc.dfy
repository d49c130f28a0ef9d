/** proc.c: fork, exit, wait and kill on the process table. Each method is what one process does under the locks it
    takes, so any interleaving is a sequence of these calls. Process numbers are table indices; -1 stands for none. */
module Proc {
  import SleepWake

  datatype PState = Unused | Used | Runnable | Running | Sleeping | Zombie

  predicate Live(st: PState) { st == Runnable || st == Running || st == Sleeping }

  /** The table, and for each entry the process inside kfork that is making it, if any. */
  datatype Table = Table(state: seq<PState>, chan: seq<int>, parent: seq<int>, pid: seq<int>, maker: seq<int>,
                         init: int, nextpid: int, reaped: set<int>)

  ghost predicate Sized(s: Table) {
    && |s.state| == |s.chan| == |s.parent| == |s.pid| == |s.maker| && 0 <= s.init < |s.state|
    && Live(s.state[s.init])
  }

  /** A parent is always live; every process but init that ran has one; an entry in the making belongs to a live
      process that is in kfork; process ids tell processes apart, dead ones included. */
  ghost predicate EntryOk(s: Table, q: int)
    requires Sized(s) && 0 <= q < |s.state|
  {
    && (s.parent[q] != -1 ==> 0 <= s.parent[q] < |s.state| && Live(s.state[s.parent[q]]) && s.parent[q] != q && q != s.init)
    && (s.state[q] == Unused ==> s.parent[q] == -1 && s.pid[q] == 0)
    && (s.state[q] == Used ==> 0 <= s.maker[q] < |s.state| && Live(s.state[s.maker[q]]) && s.parent[q] in {-1, s.maker[q]})
    && (s.state[q] != Used ==> s.maker[q] == -1)
    && (s.state[q] != Unused && s.state[q] != Used && q != s.init ==> s.parent[q] != -1)
    && (s.state[q] != Unused ==> 0 < s.pid[q] < s.nextpid && s.pid[q] !in s.reaped)
  }

  /** k is the place of the first x in s, -1 when there is none. */
  predicate IsFirst<T(==)>(s: seq<T>, x: T, k: int)
  {
    if k == -1 then x !in s else 0 <= k < |s| && s[k] == x && forall q :: 0 <= q < k ==> s[q] != x
  }

  /** Nobody asleep in kwait has a zombie child. */
  ghost predicate WaitOk(s: Table, q: int)
    requires Sized(s) && 0 <= q < |s.state|
  {
    s.state[q] == Zombie && 0 <= s.parent[q] < |s.state| ==>
      !(s.state[s.parent[q]] == Sleeping && s.chan[s.parent[q]] == s.parent[q])
  }

  ghost predicate PidsDiffer(s: Table) {
    && |s.pid| == |s.state|
    && forall a, b {:trigger s.pid[a], s.pid[b]} ::
         0 <= a < b < |s.state| && s.state[a] != Unused && s.state[b] != Unused ==> s.pid[a] != s.pid[b]
  }

  ghost predicate Inv(s: Table) {
    && Sized(s) && 0 < s.nextpid && (forall x :: x in s.reaped ==> x < s.nextpid) && PidsDiffer(s)
    && (forall q {:trigger EntryOk(s, q)} :: 0 <= q < |s.state| ==> EntryOk(s, q))
    && (forall q {:trigger WaitOk(s, q)} :: 0 <= q < |s.state| ==> WaitOk(s, q))
  }

  /** A sleeper may have been made runnable; nothing else about q's entry changed. */
  predicate Stirred(s: Table, t: Table, q: int)
    requires 0 <= q < |s.state| && 0 <= q < |t.state|
  {
    t.state[q] == s.state[q] || (s.state[q] == Sleeping && t.state[q] == Runnable)
  }

  predicate SameRest(s: Table, t: Table) {
    |t.state| == |s.state| && t.chan == s.chan && t.pid == s.pid && t.maker == s.maker && t.init == s.init &&
    t.nextpid == s.nextpid && t.reaped == s.reaped
  }

  lemma WakeKeeps(s: Table, t: Table)
    requires Inv(s) && SameRest(s, t) && t.parent == s.parent && forall q :: 0 <= q < |s.state| ==> Stirred(s, t, q)
    ensures Inv(t)
  {
    assert Stirred(s, t, s.init);
    forall q | 0 <= q < |t.state| ensures EntryOk(t, q) && WaitOk(t, q) {
      assert EntryOk(s, q) && WaitOk(s, q) && Stirred(s, t, q);
      if s.parent[q] != -1 { assert Stirred(s, t, s.parent[q]); }
      if s.state[q] == Used { assert Stirred(s, t, s.maker[q]); }
    }
    forall a, b | 0 <= a < b < |t.state| && t.state[a] != Unused && t.state[b] != Unused ensures t.pid[a] != t.pid[b] {
      assert Stirred(s, t, a) && Stirred(s, t, b);
    }
  }

  /** kexit: p's children are init's, p is a zombie, and p's parent, and init if it got a child, are not asleep in
      kwait. */
  ghost predicate Exited(s: Table, t: Table, p: int) {
    && |t.parent| == |s.parent| == |s.state| == |s.chan| == |t.state| && 0 <= p < |s.state|
    && (forall q :: 0 <= q < |s.parent| ==> t.parent[q] == if s.parent[q] == p then s.init else s.parent[q])
    && t.state[p] == Zombie && (forall q :: 0 <= q < |s.state| && q != p ==> Stirred(s, t, q))
    && (forall q :: 0 <= q < |s.state| && q != p && s.chan[q] == q && (q == s.parent[p] || (q == s.init && p in s.parent)) ==>
          t.state[q] != Sleeping)
  }

  lemma ExitKeeps(s: Table, t: Table, p: int)
    requires Inv(s) && SameRest(s, t) && Exited(s, t, p) && p != s.init && Live(s.state[p])
    requires forall q :: 0 <= q < |s.state| ==> s.maker[q] != p
    ensures Inv(t)
  {
    assert Stirred(s, t, s.init);
    forall q | 0 <= q < |t.state| ensures EntryOk(t, q) && WaitOk(t, q) {
      assert EntryOk(s, q) && WaitOk(s, q) && EntryOk(s, p);
      if q != p { assert Stirred(s, t, q); }
      var x := s.parent[q];
      if x != -1 && x != p { assert Stirred(s, t, x); }
      if s.state[q] == Used { assert Stirred(s, t, s.maker[q]); }
    }
    forall a, b | 0 <= a < b < |t.state| && t.state[a] != Unused && t.state[b] != Unused ensures t.pid[a] != t.pid[b] {
      if a != p { assert Stirred(s, t, a); }
      if b != p { assert Stirred(s, t, b); }
    }
  }

  /** freeproc on a zombie, by its parent. */
  function Reaped(s: Table, k: int): Table
    requires 0 <= k < |s.state| == |s.parent| == |s.pid| == |s.chan|
  {
    s.(state := s.state[k := Unused], parent := s.parent[k := -1], pid := s.pid[k := 0], chan := s.chan[k := 0],
       reaped := s.reaped + {s.pid[k]})
  }

  lemma ReapKeeps(s: Table, k: int)
    requires Inv(s) && 0 <= k < |s.state| && s.state[k] == Zombie
    ensures Inv(Reaped(s, k)) && s.pid[k] !in s.reaped
  {
    var t := Reaped(s, k);
    assert EntryOk(s, k);
    forall q | 0 <= q < |t.state| ensures EntryOk(t, q) && WaitOk(t, q) {
      assert EntryOk(s, q) && WaitOk(s, q);
      if s.state[q] != Unused && q != k { assert s.pid[q] != s.pid[k]; }
    }
  }

  /** An entry other than a live or zombie one changes, or one goes from one live state to another: what kfork, the
      scheduler and sleep do. */
  lemma LocalKeeps(s: Table, t: Table, k: int)
    requires Inv(s) && Sized(t) && |t.state| == |s.state| && 0 <= k < |s.state| && t.init == s.init && t.reaped == s.reaped
    requires s.nextpid <= t.nextpid && EntryOk(t, k)
    requires forall q :: 0 <= q < |s.state| && q != k ==>
               t.state[q] == s.state[q] && t.parent[q] == s.parent[q] && t.pid[q] == s.pid[q] && t.maker[q] == s.maker[q] &&
               t.chan[q] == s.chan[q]
    requires Live(s.state[k]) ==> Live(t.state[k])
    requires t.state[k] != Zombie && (t.state[k] == Sleeping && t.chan[k] == k ==> NoZombieChild(s, k))
    requires t.state[k] != Unused ==> t.pid[k] == if s.state[k] == Unused then s.nextpid else s.pid[k]
    ensures Inv(t)
  {
    forall q | 0 <= q < |t.state| ensures EntryOk(t, q) && WaitOk(t, q) {
      assert EntryOk(s, q) && WaitOk(s, q);
    }
    forall a, b | 0 <= a < b < |t.state| && t.state[a] != Unused && t.state[b] != Unused ensures t.pid[a] != t.pid[b] {
      assert EntryOk(s, a) && EntryOk(s, b);
    }
  }

  /** allocproc for kfork by p. */
  function Claimed(s: Table, np: int, p: int): Table
    requires 0 <= np < |s.state| == |s.pid| == |s.maker|
  {
    s.(state := s.state[np := Used], pid := s.pid[np := s.nextpid], maker := s.maker[np := p], nextpid := s.nextpid + 1)
  }

  lemma ClaimKeeps(s: Table, np: int, p: int)
    requires Inv(s) && 0 <= np < |s.state| && s.state[np] == Unused && 0 <= p < |s.state| && Live(s.state[p])
    ensures Inv(Claimed(s, np, p)) && Inv(s.(nextpid := s.nextpid + 1)) && s.parent[np] == -1
  {
    var t, u := Claimed(s, np, p), s.(nextpid := s.nextpid + 1);
    assert EntryOk(s, np) && EntryOk(s, p);
    assert EntryOk(t, np) && EntryOk(u, np);
    LocalKeeps(s, t, np);
    LocalKeeps(s, u, np);
  }

  ghost predicate NoZombieChild(s: Table, p: int)
    requires |s.state| == |s.parent|
  {
    forall q :: 0 <= q < |s.state| && s.parent[q] == p ==> s.state[q] != Zombie
  }

  /** Whoever has run, init apart, has a parent that is neither unused nor a zombie. */
  lemma ParentsAreLive(s: Table, q: int)
    requires Inv(s) && 0 <= q < |s.state| && q != s.init && s.state[q] != Unused && s.state[q] != Used
    ensures 0 <= s.parent[q] < |s.state| && s.state[s.parent[q]] != Unused && s.state[s.parent[q]] != Zombie
  {
    assert EntryOk(s, q);
  }

  /** A zombie has no children left. */
  lemma ZombiesAreChildless(s: Table, z: int, q: int)
    requires Inv(s) && 0 <= q < |s.state| && 0 <= z < |s.state| && s.state[z] == Zombie
    ensures s.parent[q] != z
  {
    assert EntryOk(s, q);
  }

  // kwait as a client of sleep and wakeup. Who is whose parent and who is a zombie changes only under wait_lock.

  datatype Family = Family(zombies: set<int>, parent: seq<int>)

  ghost function FamilyOf(s: Table): Family {
    var zombies := set q | 0 <= q < |s.state| && s.state[q] == Zombie;
    Family(zombies, s.parent)
  }

  /** Waiting on the channel of process c is in order while c has no zombie child. */
  ghost predicate May(d: Family, c: int) {
    forall z :: z in d.zombies && 0 <= z < |d.parent| ==> d.parent[z] != c
  }

  /** The channels kexit wakes. */
  ghost function ExitWakes(s: Table, p: int): set<int>
    requires 0 <= p < |s.parent|
  {
    {s.parent[p]} + if p in s.parent then {s.init} else {}
  }

  lemma ExitSettles(s: Table, t: Table, p: int)
    requires Inv(s) && Inv(t) && SameRest(s, t) && Exited(s, t, p) && p != s.init
    ensures SleepWake.Settled(May, FamilyOf(s), FamilyOf(t), ExitWakes(s, p))
  {
    var d0, d := FamilyOf(s), FamilyOf(t);
    forall c | May(d0, c) && c !in ExitWakes(s, p) ensures May(d, c) {
      forall z | z in d.zombies && 0 <= z < |d.parent| ensures d.parent[z] != c {
        if z != p {
          assert Stirred(s, t, z);
          assert z in d0.zombies;
        }
      }
    }
  }

  lemma ReapSettles(s: Table, k: int)
    requires Inv(s) && 0 <= k < |s.state| && s.state[k] == Zombie
    ensures SleepWake.Settled(May, FamilyOf(s), FamilyOf(Reaped(s, k)), {})
  {
    var d0, d := FamilyOf(s), FamilyOf(Reaped(s, k));
    forall c | May(d0, c) ensures May(d, c) {
      forall z | z in d.zombies && 0 <= z < |d.parent| ensures d.parent[z] != c {
        assert z in d0.zombies;
      }
    }
  }

  lemma SetParentSettles(s: Table, np: int, p: int)
    requires Inv(s) && 0 <= np < |s.state| && s.state[np] == Used
    ensures SleepWake.Settled(May, FamilyOf(s), FamilyOf(s.(parent := s.parent[np := p])), {})
  {
    var d0, d := FamilyOf(s), FamilyOf(s.(parent := s.parent[np := p]));
    forall c | May(d0, c) ensures May(d, c) {
      forall z | z in d.zombies && 0 <= z < |d.parent| ensures d.parent[z] != c {
        assert z in d0.zombies;
      }
    }
  }

  /** The ways a section under wait_lock ends; it sleeps only in kwait, without a zombie child. */
  ghost predicate SectionEnds(d0: Family, d: Family, woken: set<int>, p: int, sleeps: bool) {
    || (exists s, t :: Inv(s) && Inv(t) && SameRest(s, t) && Exited(s, t, p) && p != s.init && !sleeps &&
                       d0 == FamilyOf(s) && d == FamilyOf(t) && woken == ExitWakes(s, p))
    || (exists s, k :: Inv(s) && 0 <= k < |s.state| && s.state[k] == Zombie && s.parent[k] == p && !sleeps &&
                       d0 == FamilyOf(s) && d == FamilyOf(Reaped(s, k)) && woken == {})
    || (exists s, np :: Inv(s) && 0 <= np < |s.state| && s.state[np] == Used && !sleeps &&
                        d0 == FamilyOf(s) && d == FamilyOf(s.(parent := s.parent[np := p])) && woken == {})
    || (d == d0 && woken == {} && (sleeps ==> May(d, p)))
  }

  lemma SectionSettles(d0: Family, d: Family, woken: set<int>, p: int, sleeps: bool)
    requires SectionEnds(d0, d, woken, p, sleeps)
    ensures SleepWake.Settled(May, d0, d, woken) && (sleeps ==> May(d, p))
  {
    if s, t :| Inv(s) && Inv(t) && SameRest(s, t) && Exited(s, t, p) && p != s.init && !sleeps &&
               d0 == FamilyOf(s) && d == FamilyOf(t) && woken == ExitWakes(s, p) {
      ExitSettles(s, t, p);
    } else if s, k :| Inv(s) && 0 <= k < |s.state| && s.state[k] == Zombie && s.parent[k] == p && !sleeps &&
                      d0 == FamilyOf(s) && d == FamilyOf(Reaped(s, k)) && woken == {} {
      ReapSettles(s, k);
    } else if s, np :| Inv(s) && 0 <= np < |s.state| && s.state[np] == Used && !sleeps &&
                       d0 == FamilyOf(s) && d == FamilyOf(s.(parent := s.parent[np := p])) && woken == {} {
      SetParentSettles(s, np, p);
    }
  }

  ghost predicate Ends(d0: Family, d: Family, woken: set<int>, p: int, x: SleepWake.Exit) {
    match x
    case Returns => SectionEnds(d0, d, woken, p, false)
    case SleepsOn(c) => c == p && SectionEnds(d0, d, woken, p, true)
  }

  /** Over every run, while wait_lock is free, no process sleeps in kwait on a channel whose process has a zombie
      child. */
  lemma NoZombieMissed(ss: seq<SleepWake.State<Family>>, ts: seq<SleepWake.Step<Family>>, k: int, q: int, z: int)
    requires SleepWake.ClientRun(Ends, ss, ts) && 0 <= k < |ss| && ss[k].lk == -1
    requires 0 <= q < |ss[k].phase| && ss[k].phase[q].Asleep?
    requires z in ss[k].data.zombies && 0 <= z < |ss[k].data.parent|
    ensures ss[k].data.parent[z] != ss[k].phase[q].c
  {
    forall d0, d, woken, p, x | Ends(d0, d, woken, p, x)
      ensures SleepWake.Settled(May, d0, d, woken) && (x.SleepsOn? ==> May(d, x.c))
    {
      SectionSettles(d0, d, woken, p, x.SleepsOn?);
    }
    SleepWake.ClientLosesNoWakeup(May, Ends, ss, ts, k, q);
  }

  class ProcTable {
    const initproc: int
    var state: seq<PState>
    var chan: seq<int>
    var parent: seq<int>
    var pid: seq<int>
    var killed: seq<bool>
    var xstate: seq<int>
    var nextpid: int
    ghost var maker: seq<int>
    ghost var reaped: set<int>

    ghost function S(): Table
      reads this
    {
      Table(state, chan, parent, pid, maker, initproc, nextpid, reaped)
    }

    ghost predicate Valid()
      reads this
    {
      Inv(S()) && |killed| == |state| == |xstate|
    }

    /** The table after userinit: init alone, ready to run. */
    constructor (nproc: int)
      requires nproc > 0
      ensures Valid() && initproc == 0 && |state| == nproc && state[0] == Runnable && Clean()
      ensures forall q :: 1 <= q < nproc ==> state[q] == Unused
    {
      initproc := 0;
      state := seq(nproc, q => if q == 0 then Runnable else Unused);
      chan, parent, maker := seq(nproc, _ => 0), seq(nproc, _ => -1), seq(nproc, _ => -1);
      pid := seq(nproc, q => if q == 0 then 1 else 0);
      killed, xstate := seq(nproc, _ => false), seq(nproc, _ => 0);
      nextpid, reaped := 2, {};
      new;
      forall q | 0 <= q < nproc ensures EntryOk(S(), q) && WaitOk(S(), q) {
      }
    }

    /** No unused entry is marked killed: the next process to get it starts unmarked. */
    predicate Clean()
      requires |killed| == |state|
      reads this
    {
      forall q :: 0 <= q < |state| && state[q] == Unused ==> !killed[q]
    }

    /** wakeup(c), with nobody changing state in between. */
    method Wakeup(c: int, me: int)
      requires |chan| == |state|
      modifies this`state
      ensures |state| == |old(state)|
      ensures forall q :: 0 <= q < |state| ==>
                state[q] == if q != me && old(state)[q] == Sleeping && chan[q] == c then Runnable else old(state)[q]
    {
      var k := 0;
      while k < |state|
        invariant 0 <= k <= |state| == |old(state)|
        invariant forall q :: 0 <= q < |state| ==>
                    state[q] == if q < k && q != me && old(state)[q] == Sleeping && chan[q] == c then Runnable else old(state)[q]
      {
        if k != me && state[k] == Sleeping && chan[k] == c {
          state := state[k := Runnable];
        }
        k := k + 1;
      }
    }

    /** reparent(p): p's children become init's, and init is woken if there are any. */
    method Reparent(p: int)
      requires 0 <= p < |state| == |chan| == |parent| && 0 <= initproc < |state| && p != initproc
      modifies this`state, this`parent
      ensures |state| == |old(state)| && |parent| == |old(parent)|
      ensures forall q :: 0 <= q < |parent| ==> parent[q] == if old(parent)[q] == p then initproc else old(parent)[q]
      ensures forall q :: 0 <= q < |state| ==>
                state[q] == if q != p && old(state)[q] == Sleeping && chan[q] == initproc && p in old(parent) then Runnable
                            else old(state)[q]
    {
      var k := 0;
      while k < |parent|
        invariant 0 <= k <= |parent| == |old(parent)| && |state| == |old(state)|
        invariant forall q :: 0 <= q < |parent| ==>
                    parent[q] == if q < k && old(parent)[q] == p then initproc else old(parent)[q]
        invariant forall q :: 0 <= q < |state| ==>
                    state[q] == if q != p && old(state)[q] == Sleeping && chan[q] == initproc && p in old(parent)[..k]
                                then Runnable else old(state)[q]
      {
        if parent[k] == p {
          parent := parent[k := initproc];
          Wakeup(initproc, p);
        }
        assert old(parent)[..k + 1] == old(parent)[..k] + [old(parent)[k]];
        k := k + 1;
      }
      assert old(parent)[..k] == old(parent);
    }

    /** kexit by p: false (panic) for init. */
    method Kexit(p: int, status: int) returns (ok: bool)
      requires Valid() && 0 <= p < |state| && state[p] == Running && forall q :: 0 <= q < |state| ==> maker[q] != p
      modifies this`state, this`parent, this`xstate
      ensures Valid() && (ok <==> p != initproc) && (old(Clean()) ==> Clean())
      ensures !ok ==> S() == old(S())
      ensures ok ==> state[p] == Zombie && xstate == old(xstate)[p := status] && Exited(old(S()), S(), p)
      ensures ok ==> forall q :: 0 <= q < |state| && q != p ==>
                state[q] == if old(state)[q] == Sleeping &&
                               (chan[q] == old(parent)[p] || (chan[q] == initproc && p in old(parent)))
                            then Runnable else old(state)[q]
    {
      if p == initproc {
        return false;
      }
      ghost var s := S();
      Reparent(p);
      assert EntryOk(s, p) && parent[p] == s.parent[p];
      Wakeup(parent[p], p);
      xstate := xstate[p := status];
      state := state[p := Zombie];
      assert Exited(s, S(), p);
      ExitKeeps(s, S(), p);
      ok := true;
    }

    method Freeproc(k: int)
      requires Inv(S()) && 0 <= k < |state| == |killed| == |xstate| && state[k] == Zombie
      modifies this`state, this`parent, this`pid, this`chan, this`killed, this`xstate, this`reaped
      ensures Valid() && S() == Reaped(old(S()), k) && pid[k] == 0 && old(pid)[k] !in old(reaped) && (old(Clean()) ==> Clean())
      ensures state == old(state)[k := Unused] && parent == old(parent)[k := -1] && chan == old(chan)[k := 0]
      ensures pid == old(pid)[k := 0] && killed == old(killed)[k := false] && xstate == old(xstate)[k := 0]
    {
      ReapKeeps(S(), k);
      reaped := reaped + {pid[k]};
      pid := pid[k := 0];
      parent := parent[k := -1];
      chan := chan[k := 0];
      killed := killed[k := false];
      xstate := xstate[k := 0];
      state := state[k := Unused];
    }

    /** One turn of kwait's loop by p, under wait_lock: reaps the first zombie child, or returns -1 without children or
        when killed (or when copyout fails), or sleeps. */
    method Kwait(p: int, isKilled: bool, faults: bool) returns (sleeps: bool, r: int, ghost who: int)
      requires Valid() && 0 <= p < |state| && state[p] == Running && forall q :: 0 <= q < |state| ==> maker[q] != p
      modifies this`state, this`parent, this`pid, this`chan, this`killed, this`xstate, this`reaped
      ensures Valid() && (old(Clean()) ==> Clean())
      ensures sleeps <==> (exists q :: 0 <= q < |state| && old(parent)[q] == p) && NoZombieChild(old(S()), p) && !isKilled
      ensures sleeps ==> S() == old(S()).(state := state, chan := chan)
      ensures sleeps ==> state == old(state)[p := Sleeping] && chan == old(chan)[p := p]
      ensures !sleeps && r != -1 ==>
                && 0 <= who < |state| && old(parent)[who] == p && old(state)[who] == Zombie && r == old(pid)[who]
                && (forall q :: 0 <= q < who && old(parent)[q] == p ==> old(state)[q] != Zombie)
                && r !in old(reaped) && S() == Reaped(old(S()), who)
      ensures !sleeps && r == -1 ==> S() == old(S())
      ensures !sleeps && !NoZombieChild(old(S()), p) ==> (r == -1 <==> faults)
      ensures r == -1 || sleeps ==> killed == old(killed) && xstate == old(xstate)
      ensures !sleeps && r != -1 ==> killed == old(killed)[who := false] && xstate == old(xstate)[who := 0]
    {
      ghost var s := S();
      sleeps, r, who := false, -1, -1;
      var havekids, k := false, 0;
      while k < |state|
        invariant 0 <= k <= |state| && S() == s && |killed| == |state| == |xstate|
        invariant havekids <==> exists q :: 0 <= q < k && s.parent[q] == p
        invariant forall q :: 0 <= q < k && s.parent[q] == p ==> s.state[q] != Zombie
      {
        if parent[k] == p {
          havekids := true;
          if state[k] == Zombie {
            assert EntryOk(s, k);
            if faults {
              return false, -1, -1;
            }
            r, who := pid[k], k;
            Freeproc(k);
            return;
          }
        }
        k := k + 1;
      }
      if !havekids || isKilled {
        return;
      }
      sleeps := true;
      chan := chan[p := p];
      state := state[p := Sleeping];
      assert EntryOk(s, p) && EntryOk(S(), p);
      LocalKeeps(s, S(), p);
    }

    /** allocproc for kfork by p: the first unused entry, or -1 when there is none or memory runs out; then the entry
        found is reset. Otherwise nothing is: the new process is killed already if its entry was. */
    method Alloc(p: int, enough: bool) returns (np: int, ghost found: int)
      requires Valid() && 0 <= p < |state| && state[p] == Running
      modifies this`state, this`pid, this`nextpid, this`maker, this`killed
      ensures Valid() && |state| == |old(state)| && IsFirst(old(state), Unused, found) && np == if enough then found else -1
      ensures old(Clean()) ==> Clean() && (np != -1 ==> !killed[np])
      ensures nextpid == old(nextpid) + if found == -1 then 0 else 1
      ensures np != -1 ==> state == old(state)[np := Used] && maker == old(maker)[np := p] && parent[np] == -1
      ensures np != -1 ==> pid == old(pid)[np := old(nextpid)] && killed == old(killed)
      ensures np == -1 ==> state == old(state) && pid == old(pid) && maker == old(maker)
      ensures np == -1 ==> killed == if found == -1 then old(killed) else old(killed)[found := false]
    {
      ghost var s := S();
      np := FindUnused();
      found := np;
      if np == -1 {
        return;
      }
      ClaimKeeps(s, np, p);
      nextpid := nextpid + 1;
      if !enough {
        killed := killed[np := false];
        return -1, found;
      }
      pid := pid[np := nextpid - 1];
      state := state[np := Used];
      maker := maker[np := p];
      assert S() == Claimed(s, np, p);
    }

    /** The search of allocproc. */
    method FindUnused() returns (np: int)
      ensures IsFirst(state, Unused, np)
    {
      np := 0;
      while np < |state|
        invariant 0 <= np <= |state| && forall q :: 0 <= q < np ==> state[q] != Unused
      {
        if state[np] == Unused {
          return;
        }
        np := np + 1;
      }
      np := -1;
    }

    /** kfork, under wait_lock. */
    method SetParent(p: int, np: int)
      requires Valid() && 0 <= np < |state| && state[np] == Used && maker[np] == p
      modifies this`parent
      ensures Valid() && parent == old(parent)[np := p]
    {
      ghost var s := S();
      assert EntryOk(s, np);
      parent := parent[np := p];
      assert EntryOk(S(), np);
      LocalKeeps(s, S(), np);
    }

    /** The end of kfork: the child can run. */
    method MakeRunnable(p: int, np: int)
      requires Valid() && 0 <= np < |state| && state[np] == Used && maker[np] == p && parent[np] == p
      modifies this`state, this`maker
      ensures Valid() && state == old(state)[np := Runnable] && maker == old(maker)[np := -1] && (old(Clean()) ==> Clean())
    {
      ghost var s := S();
      assert EntryOk(s, np);
      state := state[np := Runnable];
      maker := maker[np := -1];
      assert EntryOk(S(), np);
      LocalKeeps(s, S(), np);
    }

    /** The scheduler runs p, p yields, or p sleeps on a channel that is not a process. */
    method Reschedule(p: int, to: PState, c: int)
      requires Valid() && 0 <= p < |state| && Live(state[p]) && Live(to) && (to == Sleeping ==> !(0 <= c < |state|))
      requires state[p] == Sleeping ==> to == Sleeping
      modifies this`state, this`chan
      ensures Valid() && state == old(state)[p := to] && (old(Clean()) ==> Clean())
      ensures chan == if old(state)[p] == Sleeping then old(chan) else old(chan)[p := if to == Sleeping then c else 0]
    {
      ghost var s := S();
      if state[p] == Sleeping {
        assert state == state[p := to];
        return;
      }
      assert EntryOk(s, p);
      chan := chan[p := if to == Sleeping then c else 0];
      state := state[p := to];
      assert EntryOk(S(), p);
      LocalKeeps(s, S(), p);
    }

    /** kkill: marks the first entry with that pid, and wakes it from sleep. Unused entries have pid 0, so kkill(0) marks
        the first of them. */
    method Kkill(id: int) returns (r: int, ghost k: int)
      requires Valid()
      modifies this`state, this`killed
      ensures Valid() && IsFirst(pid, id, k) && r == if k == -1 then -1 else 0
      ensures r == -1 ==> state == old(state) && killed == old(killed)
      ensures r == 0 ==> killed == old(killed)[k := true]
      ensures r == 0 ==> state == old(state)[k := if old(state)[k] == Sleeping then Runnable else old(state)[k]]
      ensures id == 0 ==> IsFirst(old(state), Unused, k) && state == old(state)
      ensures old(Clean()) ==> (Clean() <==> id != 0 || r == -1)
    {
      ghost var s := S();
      r, k := KillFirst(id);
      if r == 0 {
        assert EntryOk(s, k);
        WakeKeeps(s, S());
      }
      if id == 0 {
        forall q | 0 <= q < |s.state| ensures s.state[q] == Unused <==> pid[q] == 0 {
          assert EntryOk(s, q);
        }
        assert r == 0 ==> state == s.state;
      }
    }

    /** kkill's loop. */
    method KillFirst(id: int) returns (r: int, k: int)
      requires |state| == |pid| == |killed|
      modifies this`state, this`killed
      ensures IsFirst(pid, id, k) && r == if k == -1 then -1 else 0
      ensures r == -1 ==> state == old(state) && killed == old(killed)
      ensures r == 0 ==> killed == old(killed)[k := true]
      ensures r == 0 ==> state == old(state)[k := if old(state)[k] == Sleeping then Runnable else old(state)[k]]
    {
      ghost var s := S();
      k := 0;
      while k < |state|
        invariant 0 <= k <= |state| && S() == s && killed == old(killed) && forall q :: 0 <= q < k ==> pid[q] != id
      {
        if pid[k] == id {
          killed := killed[k := true];
          if state[k] == Sleeping {
            state := state[k := Runnable];
          }
          assert state == s.state[k := if s.state[k] == Sleeping then Runnable else s.state[k]];
          return 0, k;
        }
        k := k + 1;
      }
      r, k := -1, -1;
    }

    /** kkill and then an allocproc with memory enough: the new process is killed already exactly when its entry was, or
        when it is the one kkill(0) marked. */
    method KillThenAlloc(id: int, p: int) returns (r: int, np: int)
      requires Valid() && 0 <= p < |state| && state[p] == Running
      modifies this`state, this`killed, this`pid, this`nextpid, this`maker
      ensures Valid() && IsFirst(old(state), Unused, np)
      ensures np != -1 ==> (killed[np] <==> old(killed)[np] || id == 0)
    {
      ghost var s, k, found := S(), 0, 0;
      r, k := Kkill(id);
      assert r == 0 ==> EntryOk(s, k);
      assert forall q :: 0 <= q < |state| ==> (state[q] == Unused <==> s.state[q] == Unused);
      np, found := Alloc(p, true);
    }

    /** wakeup of a whole channel by process me. */
    method WakeAll(c: int, me: int)
      requires Valid()
      modifies this`state
      ensures Valid() && |state| == |old(state)| && (old(Clean()) ==> Clean())
      ensures forall q :: 0 <= q < |state| ==>
                state[q] == if q != me && old(state)[q] == Sleeping && chan[q] == c then Runnable else old(state)[q]
    {
      ghost var s := S();
      Wakeup(c, me);
      WakeKeeps(s, S());
    }
  }
}

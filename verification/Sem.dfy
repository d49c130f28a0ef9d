/** sem.c. Each method is one critical section of a call: from acquiring the lock to releasing it or sleeping. */
module Sem {
  import SleepWake

  const NSEM := 16
  const INT_MAX := 0x7fff_ffff

  datatype Slot = Slot(key: int, value: int, used: bool, nwaiting: int)

  /** What happened to a semaphore since sem_get: posts, waits begun, waits that returned 0, and the processes between
      the increment and the decrement of nwaiting. */
  datatype Life = Life(initval: int, posts: int, begun: int, completed: int, waiters: set<int>)

  datatype Exit = Returned(r: int) | Sleeps

  /** A semaphore has one channel, its own address. */
  const CHAN := 0

  /** Waiting is in order on a semaphore in use whose value is negative. */
  predicate May(s: Slot, c: int) { c == CHAN && s.used && s.value < 0 }

  ghost predicate LifeOk(s: Slot, g: Life) {
    s.used ==>
      && s.value == g.initval + g.posts - g.begun
      && s.nwaiting == |g.waiters|
      && g.begun == g.completed + |g.waiters|
      && g.completed <= g.initval + g.posts && 0 <= g.completed && 0 <= g.posts && 0 <= g.initval
  }

  /** The ways a critical section on a semaphore ends. */
  ghost predicate SectionEnds(s0: Slot, s: Slot, woken: set<int>, exit: Exit) {
    || (s == s0 && exit.Returned? && woken == {})
    || (s0.used && s.used && s.value == s0.value - 1 && woken == {} && (exit == Sleeps <==> s.value < 0))
    || (s.used == s0.used && s.value == s0.value && woken == {} && (exit == Sleeps <==> s.used && s.value < 0))
    || (s0.used && s == s0.(value := s0.value + 1) && woken == {CHAN} && exit.Returned?)
    || (s == s0.(used := false) && woken == {CHAN} && exit.Returned?)
  }

  ghost predicate Ends(s0: Slot, s: Slot, woken: set<int>, p: int, x: SleepWake.Exit) {
    match x
    case Returns => exists v :: SectionEnds(s0, s, woken, Returned(v))
    case SleepsOn(c) => c == CHAN && SectionEnds(s0, s, woken, Sleeps)
  }

  /** Over every run, while the lock is free nobody sleeps on a semaphore that is not negative, or that is closed. */
  lemma NoLostWakeup(ss: seq<SleepWake.State<Slot>>, ts: seq<SleepWake.Step<Slot>>, k: int, q: int)
    requires SleepWake.ClientRun(Ends, ss, ts) && 0 <= k < |ss| && ss[k].lk == -1
    requires 0 <= q < |ss[k].phase| && ss[k].phase[q].Asleep?
    ensures ss[k].data.used && ss[k].data.value < 0
  {
    assert SleepWake.EndsWell(May, Ends);
    SleepWake.ClientLosesNoWakeup(May, Ends, ss, ts, k, q);
  }

  /** With two processes waiting on a semaphore that began at 0, one post lets neither through. */
  method OnePostTwoWaiters(t: SemTable, id: int) returns (first: Exit, second: Exit)
    requires t.Valid() && 0 <= id < NSEM && t.slot[id].used && t.slot[id].value == 0 && t.life[id].waiters == {}
    modifies t`slot, t`life
    ensures t.Valid() && first == Sleeps && second == Sleeps && t.life[id].waiters == {1, 2}
  {
    var a := t.Wait(id, 1);
    var b := t.Wait(id, 2);
    var r;
    ghost var woken;
    r, woken := t.Post(id);
    first := t.WaitAgain(id, 1);
    second := t.WaitAgain(id, 2);
  }

  class SemTable {
    var slot: seq<Slot>
    ghost var life: seq<Life>

    ghost predicate Valid()
      reads this
    {
      |slot| == NSEM == |life| && forall i :: 0 <= i < NSEM ==> LifeOk(slot[i], life[i])
    }

    constructor ()
      ensures Valid() && forall i :: 0 <= i < NSEM ==> !slot[i].used && life[i].waiters == {}
    {
      slot := seq(NSEM, _ => Slot(0, 0, false, 0));
      life := seq(NSEM, _ => Life(0, 0, 0, 0, {}));
    }

    /** sem_get: the first free slot, if there is one and the initial value is not negative. */
    method Get(key: int, initval: int) returns (id: int)
      requires Valid() && initval <= INT_MAX
      requires forall i :: 0 <= i < NSEM && !slot[i].used ==> life[i].waiters == {}
      modifies this`slot, this`life
      ensures Valid()
      ensures id == -1 <==> initval < 0 || forall i :: 0 <= i < NSEM ==> old(slot)[i].used
      ensures id == -1 ==> slot == old(slot) && life == old(life)
      ensures id != -1 ==>
                && 0 <= id < NSEM && !old(slot)[id].used && (forall i :: 0 <= i < id ==> old(slot)[i].used)
                && slot == old(slot)[id := Slot(key, initval, true, 0)] && life == old(life)[id := Life(initval, 0, 0, 0, {})]
    {
      if initval < 0 {
        return -1;
      }
      var i := 0;
      while i < NSEM
        invariant 0 <= i <= NSEM && slot == old(slot) && life == old(life)
        invariant forall j :: 0 <= j < i ==> slot[j].used
      {
        if !slot[i].used {
          slot := slot[i := Slot(key, initval, true, 0)];
          life := life[i := Life(initval, 0, 0, 0, {})];
          return i;
        }
        i := i + 1;
      }
      id := -1;
    }

    /** The end of every turn of sem_wait's loop: p returns 0, or waits. */
    method WaitTurn(id: int, ghost p: int) returns (exit: Exit)
      requires 0 <= id < |slot| == |life| && p !in life[id].waiters
      modifies this`slot, this`life
      ensures slot == if exit == Sleeps then old(slot)[id := old(slot)[id].(nwaiting := old(slot)[id].nwaiting + 1)] else old(slot)
      ensures life == old(life)[id := if exit == Sleeps then old(life)[id].(waiters := old(life)[id].waiters + {p})
                                       else old(life)[id].(completed := old(life)[id].completed + 1)]
      ensures exit == if old(slot)[id].value < 0 then Sleeps else Returned(0)
    {
      if slot[id].value < 0 {
        slot := slot[id := slot[id].(nwaiting := slot[id].nwaiting + 1)];
        life := life[id := life[id].(waiters := life[id].waiters + {p})];
        exit := Sleeps;
      } else {
        life := life[id := life[id].(completed := life[id].completed + 1)];
        exit := Returned(0);
      }
    }

    /** sem_wait by process p, up to its return or its first sleep. */
    method Wait(id: int, ghost p: int) returns (exit: Exit)
      requires Valid() && (0 <= id < NSEM ==> p !in life[id].waiters && slot[id].value > -INT_MAX)
      modifies this`slot, this`life
      ensures Valid() && (exit == Returned(-1) <==> !(0 <= id < NSEM) || !old(slot)[id].used)
      ensures exit == Returned(-1) ==> slot == old(slot) && life == old(life)
      ensures exit != Returned(-1) ==>
                && exit == (if old(slot)[id].value > 0 then Returned(0) else Sleeps)
                && slot == old(slot)[id := slot[id]] && life == old(life)[id := life[id]]
                && slot[id].value == old(slot)[id].value - 1 && slot[id].used && slot[id].key == old(slot)[id].key
                && life[id].begun == old(life)[id].begun + 1 && life[id].posts == old(life)[id].posts
                && life[id].completed == old(life)[id].completed + (if exit == Sleeps then 0 else 1)
                && life[id].waiters == old(life)[id].waiters + (if exit == Sleeps then {p} else {})
      ensures 0 <= id < NSEM ==> SectionEnds(old(slot)[id], slot[id], {}, exit)
    {
      if id < 0 || id >= NSEM {
        return Returned(-1);
      }
      if !slot[id].used {
        return Returned(-1);
      }
      slot := slot[id := slot[id].(value := slot[id].value - 1)];
      life := life[id := life[id].(begun := life[id].begun + 1)];
      exit := WaitTurn(id, p);
    }

    /** sem_wait after its sleep: p returns 0 when the value is no longer negative, and -1 when the semaphore is gone. */
    method WaitAgain(id: int, ghost p: int) returns (exit: Exit)
      requires Valid() && 0 <= id < NSEM && p in life[id].waiters
      modifies this`slot, this`life
      ensures Valid() && exit == if !old(slot)[id].used then Returned(-1) else if old(slot)[id].value < 0 then Sleeps else Returned(0)
      ensures slot == old(slot)[id := slot[id]] && life == old(life)[id := life[id]]
      ensures slot[id] == old(slot)[id].(nwaiting := slot[id].nwaiting)
      ensures exit != Sleeps ==> life[id].waiters == old(life)[id].waiters - {p}
      ensures exit == Sleeps ==> slot == old(slot) && life == old(life)
      ensures exit == Returned(0) ==> life[id].completed == old(life)[id].completed + 1
      ensures exit == Returned(0) <==> slot[id].used && life[id].initval + life[id].posts >= life[id].begun
      ensures SectionEnds(old(slot)[id], slot[id], {}, exit)
    {
      slot := slot[id := slot[id].(nwaiting := slot[id].nwaiting - 1)];
      life := life[id := life[id].(waiters := life[id].waiters - {p})];
      if !slot[id].used {
        return Returned(-1);
      }
      assert old(life)[id].waiters == old(life)[id].waiters - {p} + {p};
      exit := WaitTurn(id, p);
    }

    /** sem_post: one more, and a wakeup for everybody who waits. */
    method Post(id: int) returns (r: int, ghost woken: set<int>)
      requires Valid() && (0 <= id < NSEM ==> slot[id].value < INT_MAX)
      modifies this`slot, this`life
      ensures Valid() && (r == 0 || r == -1) && (r == -1 <==> !(0 <= id < NSEM) || !old(slot)[id].used)
      ensures r == -1 ==> slot == old(slot) && life == old(life)
      ensures r == 0 ==> slot == old(slot)[id := old(slot)[id].(value := old(slot)[id].value + 1)]
      ensures r == 0 ==> life == old(life)[id := old(life)[id].(posts := old(life)[id].posts + 1)]
      ensures 0 <= id < NSEM ==> SectionEnds(old(slot)[id], slot[id], woken, Returned(r))
    {
      woken := {};
      if id < 0 || id >= NSEM {
        return -1, {};
      }
      if !slot[id].used {
        return -1, {};
      }
      slot := slot[id := slot[id].(value := slot[id].value + 1)];
      life := life[id := life[id].(posts := life[id].posts + 1)];
      woken := {CHAN};
      r := 0;
    }

    /** sem_close: the slot is free again, and everybody who waits is woken to find that out. */
    method Close(id: int) returns (r: int, ghost woken: set<int>)
      requires Valid()
      modifies this`slot
      ensures Valid() && (r == 0 || r == -1) && (r == -1 <==> !(0 <= id < NSEM) || !old(slot)[id].used)
      ensures slot == if r == -1 then old(slot) else old(slot)[id := old(slot)[id].(used := false)]
      ensures 0 <= id < NSEM ==> SectionEnds(old(slot)[id], slot[id], woken, Returned(r))
    {
      woken := {};
      if id < 0 || id >= NSEM {
        return -1, {};
      }
      if !slot[id].used {
        return -1, {};
      }
      slot := slot[id := slot[id].(used := false)];
      woken := {CHAN};
      r := 0;
    }
  }
}

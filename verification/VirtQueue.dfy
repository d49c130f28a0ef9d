/** The split virtqueue of virtio_disk.c (VIRTIO 1.1 sections 2.6 and 5.2) as a value: descriptors with one use each,
    requests in flight, and the two rings against what was ever put on them. */
module VirtQueue {
  import opened Arith
  import opened Params

  const NUM := 8
  const WRAP := 65536
  const F_NEXT := 1
  const F_WRITE := 2
  const T_IN := 0
  const T_OUT := 1

  datatype Addr = Null | Header(h: int) | Data(buf: int) | Status(h: int)
  datatype Desc = Desc(addr: Addr, len: int, flags: int, next: int)
  datatype BlkReq = BlkReq(kind: int, sector: int)
  datatype Use = Free | Held | Chain(h: int, pos: int)

  /** On the available ring at place k, taken by the device, on the used ring at place k, or seen there by the driver. */
  datatype Phase = Posted(k: int) | Taken | Done(k: int) | Seen(k: int)

  /** born is the number of completions there had been when the request was posted. */
  datatype Req = Req(i1: int, i2: int, buf: int, sector: int, write: bool, born: int, phase: Phase)

  /** A and U are the heads ever posted and ever completed, taken and seen how far the other side has got. */
  datatype Queue = Queue(free: seq<bool>, desc: seq<Desc>, ops: seq<BlkReq>, owner: seq<int>, use: seq<Use>,
                         req: map<int, Req>, holder: map<int, int>, busy: set<int>,
                         avail: seq<int>, used: seq<int>, A: seq<int>, U: seq<int>, taken: int, seen: int)

  predicate Sized(s: Queue) {
    && |s.free| == |s.desc| == |s.ops| == |s.owner| == |s.use| == NUM == |s.avail| == |s.used|
    && 0 <= s.taken <= |s.A| && 0 <= s.seen <= |s.U|
  }

  predicate DescOk(s: Queue, d: int)
    requires Sized(s) && 0 <= d < NUM
  {
    && (s.free[d] <==> s.use[d] == Free)
    && (s.use[d].Chain? ==>
          var u := s.use[d];
          u.h in s.req && 0 <= u.pos < 3 && d == (if u.pos == 0 then u.h else if u.pos == 1 then s.req[u.h].i1 else s.req[u.h].i2))
  }

  /** The chain of request h is as section 5.2 has it: a header, the block, a status byte. */
  predicate ChainOk(s: Queue, h: int)
    requires Sized(s) && h in s.req
  {
    var r := s.req[h];
    && 0 <= h < NUM && 0 <= r.i1 < NUM && 0 <= r.i2 < NUM
    && s.use[h] == Chain(h, 0) && s.use[r.i1] == Chain(h, 1) && s.use[r.i2] == Chain(h, 2)
    && s.desc[h] == Desc(Header(h), 16, F_NEXT, r.i1)
    && s.desc[r.i1] == Desc(Data(r.buf), BSIZE, if r.write then F_NEXT else F_WRITE + F_NEXT, r.i2)
    && s.desc[r.i2] == Desc(Status(h), 1, F_WRITE, 0)
    && s.ops[h] == BlkReq(if r.write then T_OUT else T_IN, r.sector)
  }

  /** Where request h is, and that its buffer is its own and marked busy until the driver has seen the completion. */
  predicate PlaceOk(s: Queue, h: int)
    requires Sized(s) && h in s.req && 0 <= h < NUM
  {
    var r := s.req[h];
    && s.owner[h] == r.buf && r.buf in s.holder && s.holder[r.buf] == h
    && (r.buf in s.busy <==> !r.phase.Seen?) && 0 <= r.born <= |s.U|
    && (r.phase.Posted? ==> s.taken <= r.phase.k < |s.A| && s.A[r.phase.k] == h)
    && (r.phase.Done? ==> s.seen <= r.phase.k < |s.U| && r.born <= r.phase.k && s.U[r.phase.k] == h)
    && (r.phase.Seen? ==> r.born <= r.phase.k < s.seen && 0 <= r.phase.k && s.U[r.phase.k] == h)
  }

  predicate AvailOk(s: Queue, k: int)
    requires Sized(s) && 0 <= k < |s.A|
  {
    s.A[k] in s.req && s.req[s.A[k]].phase == Posted(k) && s.avail[k % NUM] == s.A[k]
  }

  predicate UsedOk(s: Queue, k: int)
    requires Sized(s) && 0 <= k < |s.U|
  {
    s.U[k] in s.req && s.req[s.U[k]].phase == Done(k) && s.used[k % NUM] == s.U[k]
  }

  ghost predicate Inv(s: Queue) {
    && Sized(s)
    && (forall d {:trigger DescOk(s, d)} :: 0 <= d < NUM ==> DescOk(s, d))
    && (forall h {:trigger ChainOk(s, h)} :: h in s.req ==> ChainOk(s, h))
    && (forall h {:trigger PlaceOk(s, h)} :: h in s.req ==> 0 <= h < NUM && PlaceOk(s, h))
    && (forall k {:trigger AvailOk(s, k)} :: s.taken <= k < |s.A| ==> AvailOk(s, k))
    && (forall k {:trigger UsedOk(s, k)} :: s.seen <= k < |s.U| ==> UsedOk(s, k))
    && (forall b :: b in s.busy ==> b in s.holder && s.holder[b] in s.req && s.req[s.holder[b]].buf == b)
    && (forall b :: b in s.holder ==> s.holder[b] in s.req && s.req[s.holder[b]].buf == b)
  }

  // What the device finds at a head: section 5.2.6 of VIRTIO 1.1, with the flag bits of section 2.6.5.

  /** A block request as the device reads it: what to do, where on the disk, which buffer to read (toDevice) or fill, and
      whose status byte to write. */
  datatype View = NoRequest | Request(kind: int, sector: int, buf: int, toDevice: bool, status: int)

  predicate HasNext(d: Desc) { d.flags % 2 == 1 }

  predicate DeviceWrites(d: Desc) { d.flags / 2 % 2 == 1 }

  /** The three descriptors of the chain at h: a 16-byte header the device reads, one block of data it reads or writes as
      the header says, and a status byte it writes. Anything else is no request. */
  function DeviceView(desc: seq<Desc>, ops: seq<BlkReq>, h: int): View {
    if !(0 <= h < |desc| && 0 <= desc[h].next < |desc|) then NoRequest
    else
      var head, data := desc[h], desc[desc[h].next];
      if !(0 <= data.next < |desc| && head.addr.Header? && 0 <= head.addr.h < |ops| && data.addr.Data?) then NoRequest
      else
        var tail, op := desc[data.next], ops[head.addr.h];
        if !(HasNext(head) && HasNext(data) && !HasNext(tail) && head.len == 16 && data.len == BSIZE && tail.len == 1)
        then NoRequest
        else if DeviceWrites(head) || !DeviceWrites(tail) || !tail.addr.Status? then NoRequest
        else if op.kind != (if DeviceWrites(data) then T_IN else T_OUT) then NoRequest
        else Request(op.kind, op.sector, data.addr.buf, !DeviceWrites(data), tail.addr.h)
  }

  /** At any time the chain of a request in flight reads as that request, for its own buffer and its own status byte. */
  lemma ChainIsRequest(s: Queue, h: int)
    requires Inv(s) && h in s.req
    ensures var r := s.req[h];
            DeviceView(s.desc, s.ops, h) == Request(if r.write then T_OUT else T_IN, r.sector, r.buf, r.write, h)
    ensures forall g :: g in s.req && g != h ==> s.req[g].buf != s.req[h].buf
  {
    assert ChainOk(s, h) && PlaceOk(s, h);
    forall g | g in s.req && g != h ensures s.req[g].buf != s.req[h].buf {
      assert ChainOk(s, g) && PlaceOk(s, g);
    }
  }

  // Counting: the places of a ring that are in use belong to different chains.

  lemma {:induction false} Room(q: seq<int>, lo: int, hi: int, out: set<int>)
    requires 0 <= lo <= hi <= |q| && forall x :: x in out ==> 0 <= x < NUM
    requires forall j :: lo <= j < hi ==> 0 <= q[j] < NUM && q[j] !in out
    requires forall i, j {:trigger q[i], q[j]} :: lo <= i < j < hi ==> q[i] != q[j]
    ensures hi - lo + |out| <= NUM
    decreases hi - lo
  {
    if lo == hi {
      Within8(out);
    } else {
      Room(q, lo, hi - 1, out + {q[hi - 1]});
    }
  }

  lemma Within8(out: set<int>)
    requires forall x :: x in out ==> 0 <= x < NUM
    ensures |out| <= NUM
  {
    var all := {0, 1, 2, 3, 4, 5, 6, 7};
    forall x | x in out ensures x in all {
    }
    assert all == out + (all - out);
  }

  /** Fewer than NUM heads wait on the available ring beside a descriptor that is no posted head. */
  lemma AvailRoom(s: Queue, x: int)
    requires Inv(s) && 0 <= x < NUM && (x in s.req ==> !s.req[x].phase.Posted?)
    ensures |s.A| - s.taken < NUM
  {
    forall j | s.taken <= j < |s.A| ensures 0 <= s.A[j] < NUM && s.A[j] !in {x} {
      assert AvailOk(s, j);
      assert ChainOk(s, s.A[j]);
    }
    forall i, j | s.taken <= i < j < |s.A| ensures s.A[i] != s.A[j] {
      assert AvailOk(s, i) && AvailOk(s, j);
    }
    Room(s.A, s.taken, |s.A|, {x});
  }

  lemma UsedRoom(s: Queue, x: int)
    requires Inv(s) && 0 <= x < NUM && (x in s.req ==> !s.req[x].phase.Done?)
    ensures |s.U| - s.seen < NUM
  {
    forall j | s.seen <= j < |s.U| ensures 0 <= s.U[j] < NUM && s.U[j] !in {x} {
      assert UsedOk(s, j);
      assert ChainOk(s, s.U[j]);
    }
    forall i, j | s.seen <= i < j < |s.U| ensures s.U[i] != s.U[j] {
      assert UsedOk(s, i) && UsedOk(s, j);
    }
    Room(s.U, s.seen, |s.U|, {x});
  }

  lemma UsedAtMost(s: Queue)
    requires Inv(s)
    ensures |s.U| - s.seen <= NUM
  {
    forall j | s.seen <= j < |s.U| ensures 0 <= s.U[j] < NUM && s.U[j] !in {} {
      assert UsedOk(s, j);
      assert ChainOk(s, s.U[j]);
    }
    forall i, j | s.seen <= i < j < |s.U| ensures s.U[i] != s.U[j] {
      assert UsedOk(s, i) && UsedOk(s, j);
    }
    Room(s.U, s.seen, |s.U|, {});
  }

  lemma AvailAtMost(s: Queue)
    requires Inv(s)
    ensures |s.A| - s.taken <= NUM
  {
    forall j | s.taken <= j < |s.A| ensures 0 <= s.A[j] < NUM && s.A[j] !in {} {
      assert AvailOk(s, j);
      assert ChainOk(s, s.A[j]);
    }
    forall i, j | s.taken <= i < j < |s.A| ensures s.A[i] != s.A[j] {
      assert AvailOk(s, i) && AvailOk(s, j);
    }
    Room(s.A, s.taken, |s.A|, {});
  }

  lemma PlacesApart(a: int, b: int)
    requires 0 <= a < b < a + NUM
    ensures a % NUM != b % NUM
  {
    var d := b / NUM - a / NUM;
    assert b - a == d * NUM + (b % NUM - a % NUM);
  }

  /** 16-bit indices: the place in the ring is that of the full count, and near counts compare as they are. */
  lemma Index(x: int)
    requires 0 <= x
    ensures x % WRAP % NUM == x % NUM && (x % WRAP + 1) % WRAP == (x + 1) % WRAP
  {
    var q, m := x / WRAP, x % WRAP;
    if m + 1 < WRAP { DivMod(x + 1, WRAP, q, m + 1); } else { DivMod(x + 1, WRAP, q + 1, 0); }
    DivMod(x, NUM, q * (WRAP / NUM) + m / NUM, m % NUM);
  }

  lemma Compare(a: int, b: int)
    requires 0 <= a <= b <= a + NUM
    ensures a % WRAP == b % WRAP <==> a == b
  {
    var q := a / WRAP;
    var x, y := a - q * WRAP, b - q * WRAP;
    DivMod(a, WRAP, q, x);
    if y < WRAP { DivMod(b, WRAP, q, y); } else { DivMod(b, WRAP, q + 1, y - WRAP); }
  }

  // The steps.

  predicate Distinct3(a: int, b: int, c: int) {
    0 <= a < NUM && 0 <= b < NUM && 0 <= c < NUM && a != b && a != c && b != c
  }

  /** The driver formats three descriptors it holds and posts their head. */
  function Submitted(s: Queue, h: int, i1: int, i2: int, b: int, sector: int, write: bool): Queue
    requires Sized(s) && Distinct3(h, i1, i2)
  {
    s.(desc := s.desc[h := Desc(Header(h), 16, F_NEXT, i1)]
                     [i1 := Desc(Data(b), BSIZE, if write then F_NEXT else F_WRITE + F_NEXT, i2)]
                     [i2 := Desc(Status(h), 1, F_WRITE, 0)],
       ops := s.ops[h := BlkReq(if write then T_OUT else T_IN, sector)], owner := s.owner[h := b],
       use := s.use[h := Chain(h, 0)][i1 := Chain(h, 1)][i2 := Chain(h, 2)],
       req := s.req[h := Req(i1, i2, b, sector, write, |s.U|, Posted(|s.A|))], holder := s.holder[b := h], busy := s.busy + {b},
       avail := s.avail[|s.A| % NUM := h], A := s.A + [h])
  }

  lemma SubmitKeeps(s: Queue, h: int, i1: int, i2: int, b: int, sector: int, write: bool)
    requires Inv(s) && Distinct3(h, i1, i2) && s.use[h] == s.use[i1] == s.use[i2] == Held && b !in s.holder
    ensures Inv(Submitted(s, h, i1, i2, b, sector, write)) && |s.A| - s.taken < NUM && h !in s.req
  {
    var t := Submitted(s, h, i1, i2, b, sector, write);
    forall g | g in s.req ensures g != h { assert ChainOk(s, g); }
    AvailRoom(s, h);
    SubmitChains(s, h, i1, i2, b, sector, write);
    forall g | g in t.req ensures 0 <= g < NUM && PlaceOk(t, g) { if g != h { assert PlaceOk(s, g); } }
    forall k | t.taken <= k < |t.A| ensures AvailOk(t, k) {
      if k < |s.A| {
        assert AvailOk(s, k);
        PlacesApart(k, |s.A|);
      }
    }
    forall k | t.seen <= k < |t.U| ensures UsedOk(t, k) { assert UsedOk(s, k); }
  }

  lemma SubmitChains(s: Queue, h: int, i1: int, i2: int, b: int, sector: int, write: bool)
    requires Inv(s) && Distinct3(h, i1, i2) && s.use[h] == s.use[i1] == s.use[i2] == Held && h !in s.req
    ensures var t := Submitted(s, h, i1, i2, b, sector, write);
            (forall d :: 0 <= d < NUM ==> DescOk(t, d)) && forall g :: g in t.req ==> ChainOk(t, g)
  {
    var t := Submitted(s, h, i1, i2, b, sector, write);
    forall d | 0 <= d < NUM ensures DescOk(t, d) { assert DescOk(s, d); }
    forall g | g in t.req ensures ChainOk(t, g) { if g != h { assert ChainOk(s, g); } }
  }

  function Moved(s: Queue, h: int, p: Phase): Queue {
    if h in s.req then s.(req := s.req[h := s.req[h].(phase := p)]) else s
  }

  /** The device takes the next head off the available ring. */
  function TakenNext(s: Queue): Queue
    requires 0 <= s.taken < |s.A|
  {
    Moved(s, s.A[s.taken], Taken).(taken := s.taken + 1)
  }

  lemma MovedChains(s: Queue, h: int, p: Phase)
    requires Inv(s) && h in s.req
    ensures var t := Moved(s, h, p);
            (forall d :: 0 <= d < NUM ==> DescOk(t, d)) && forall g :: g in t.req ==> ChainOk(t, g)
  {
    var t := Moved(s, h, p);
    forall d | 0 <= d < NUM ensures DescOk(t, d) { assert DescOk(s, d); }
    forall g | g in t.req ensures ChainOk(t, g) { assert ChainOk(s, g); }
  }

  lemma TakeKeeps(s: Queue)
    requires Inv(s) && s.taken < |s.A|
    ensures s.A[s.taken] in s.req && s.avail[s.taken % NUM] == s.A[s.taken] && Inv(TakenNext(s))
  {
    assert AvailOk(s, s.taken);
    var h, t := s.A[s.taken], TakenNext(s);
    MovedChains(s, h, Taken);
    var m := Moved(s, h, Taken);
    forall d | 0 <= d < NUM ensures DescOk(t, d) { assert DescOk(m, d); }
    forall g | g in t.req ensures ChainOk(t, g) { assert ChainOk(m, g); }
    forall g | g in t.req ensures 0 <= g < NUM && PlaceOk(t, g) { assert PlaceOk(s, g); }
    forall k | t.taken <= k < |t.A| ensures AvailOk(t, k) { assert AvailOk(s, k); }
    forall k | t.seen <= k < |t.U| ensures UsedOk(t, k) { assert UsedOk(s, k); }
  }

  /** The device completes a request it has taken. */
  function Completed(s: Queue, h: int): Queue
    requires Sized(s) && h in s.req
  {
    Moved(s, h, Done(|s.U|)).(used := s.used[|s.U| % NUM := h], U := s.U + [h])
  }

  lemma CompleteKeeps(s: Queue, h: int)
    requires Inv(s) && h in s.req && s.req[h].phase == Taken
    ensures Inv(Completed(s, h)) && |s.U| - s.seen < NUM && 0 <= h < NUM
  {
    assert ChainOk(s, h);
    UsedRoom(s, h);
    var t, m := Completed(s, h), Moved(s, h, Done(|s.U|));
    MovedChains(s, h, Done(|s.U|));
    forall d | 0 <= d < NUM ensures DescOk(t, d) { assert DescOk(m, d); }
    forall g | g in t.req ensures ChainOk(t, g) { assert ChainOk(m, g); }
    forall g | g in t.req ensures 0 <= g < NUM && PlaceOk(t, g) { assert PlaceOk(s, g); }
    forall k | t.taken <= k < |t.A| ensures AvailOk(t, k) { assert AvailOk(s, k); }
    forall k | t.seen <= k < |t.U| ensures UsedOk(t, k) {
      if k < |s.U| {
        assert UsedOk(s, k);
        PlacesApart(k, |s.U|);
      }
    }
  }

  /** The driver sees the next completion: the buffer is no longer the disk's. */
  function SeenNext(s: Queue): Queue
    requires 0 <= s.seen < |s.U|
  {
    var h := s.U[s.seen];
    Moved(s, h, Seen(s.seen)).(seen := s.seen + 1, busy := if h in s.req then s.busy - {s.req[h].buf} else s.busy)
  }

  lemma SeeKeeps(s: Queue)
    requires Inv(s) && s.seen < |s.U|
    ensures s.U[s.seen] in s.req && s.used[s.seen % NUM] == s.U[s.seen] && 0 <= s.U[s.seen] < NUM
    ensures s.owner[s.U[s.seen]] == s.req[s.U[s.seen]].buf && Inv(SeenNext(s))
  {
    assert UsedOk(s, s.seen);
    var h, t := s.U[s.seen], SeenNext(s);
    assert ChainOk(s, h);
    assert PlaceOk(s, h);
    MovedChains(s, h, Seen(s.seen));
    var m := Moved(s, h, Seen(s.seen));
    forall d | 0 <= d < NUM ensures DescOk(t, d) { assert DescOk(m, d); }
    forall g | g in t.req ensures ChainOk(t, g) { assert ChainOk(m, g); }
    forall g | g in t.req ensures 0 <= g < NUM && PlaceOk(t, g) { assert PlaceOk(s, g); }
    forall k | t.taken <= k < |t.A| ensures AvailOk(t, k) { assert AvailOk(s, k); }
    forall k | t.seen <= k < |t.U| ensures UsedOk(t, k) { assert UsedOk(s, k); }
  }

  /** A request once the driver has seen the first n completions. */
  function SeenTo(r: Req, n: int): Req {
    if r.phase.Done? && r.phase.k < n then r.(phase := Seen(r.phase.k)) else r
  }

  /** now is was after n completions were seen. */
  ghost predicate AllSeen(was: map<int, Req>, now: map<int, Req>, n: int) {
    now.Keys == was.Keys && forall h :: h in now ==> now[h] == SeenTo(was[h], n)
  }

  lemma SeenNothing(s: Queue)
    requires Inv(s)
    ensures AllSeen(s.req, s.req, s.seen)
  {
    forall h | h in s.req ensures s.req[h] == SeenTo(s.req[h], s.seen) {
      assert ChainOk(s, h) && PlaceOk(s, h);
    }
  }

  lemma SeenOne(s: Queue, was: map<int, Req>)
    requires Inv(s) && s.seen < |s.U| && AllSeen(was, s.req, s.seen)
    ensures AllSeen(was, SeenNext(s).req, s.seen + 1)
  {
    assert UsedOk(s, s.seen);
    forall h | h in s.req ensures SeenNext(s).req[h] == SeenTo(was[h], s.seen + 1) {
      assert ChainOk(s, h) && PlaceOk(s, h);
    }
  }

  const NODESC := Desc(Null, 0, 0, 0)

  /** The driver gives back the three descriptors of a finished request. */
  function Finished(s: Queue, h: int): Queue
    requires Sized(s) && h in s.req && Distinct3(h, s.req[h].i1, s.req[h].i2)
  {
    var i1, i2 := s.req[h].i1, s.req[h].i2;
    s.(free := s.free[h := true][i1 := true][i2 := true], desc := s.desc[h := NODESC][i1 := NODESC][i2 := NODESC],
       use := s.use[h := Free][i1 := Free][i2 := Free], owner := s.owner[h := -1],
       req := s.req - {h}, holder := s.holder - {s.req[h].buf})
  }

  lemma FinishKeeps(s: Queue, h: int)
    requires Inv(s) && h in s.req && s.req[h].phase.Seen?
    ensures ChainOk(s, h) && Distinct3(h, s.req[h].i1, s.req[h].i2) && Inv(Finished(s, h))
    ensures !s.free[h] && !s.free[s.req[h].i1] && !s.free[s.req[h].i2]
  {
    assert ChainOk(s, h) && PlaceOk(s, h);
    assert DescOk(s, h) && DescOk(s, s.req[h].i1) && DescOk(s, s.req[h].i2);
    var t := Finished(s, h);
    forall d | 0 <= d < NUM ensures DescOk(t, d) { assert DescOk(s, d); }
    forall g | g in t.req ensures ChainOk(t, g) { assert ChainOk(s, g); }
    forall g | g in t.req ensures 0 <= g < NUM && PlaceOk(t, g) { assert PlaceOk(s, g); }
    forall k | t.taken <= k < |t.A| ensures AvailOk(t, k) { assert AvailOk(s, k); }
    forall k | t.seen <= k < |t.U| ensures UsedOk(t, k) { assert UsedOk(s, k); }
  }

  /** Every descriptor is free, in hand, or in one place of one chain, and chains do not share any. */
  lemma ChainsPartition(s: Queue, g: int, h: int)
    requires Inv(s) && g in s.req && h in s.req && g != h
    ensures {g, s.req[g].i1, s.req[g].i2} !! {h, s.req[h].i1, s.req[h].i2}
    ensures forall d :: d in {g, s.req[g].i1, s.req[g].i2} ==> 0 <= d < NUM && !s.free[d]
  {
    assert ChainOk(s, g) && ChainOk(s, h);
    forall d | d in {g, s.req[g].i1, s.req[g].i2} ensures 0 <= d < NUM && !s.free[d] {
      assert DescOk(s, d);
    }
  }

  lemma EveryDescHasItsUse(s: Queue, d: int)
    requires Inv(s) && 0 <= d < NUM && !s.free[d] && s.use[d] != Held
    ensures exists h :: h in s.req && d in {h, s.req[h].i1, s.req[h].i2}
  {
    assert DescOk(s, d);
  }
}

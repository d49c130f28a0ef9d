/** The doubly linked ring of bio.c. Node 0 is the list head and nodes 1..n are buffers; every buffer carries the time it
    was last moved to the front, and the ring is in that order. */
module BufRing {
  datatype Ring = Ring(n: int, next: seq<int>, prev: seq<int>, stamp: seq<int>, clock: int, at: map<int, int>)

  function Hi(r: Ring, x: int): int
    requires 0 <= x < |r.stamp|
  {
    if x == 0 then r.clock else r.stamp[x]
  }

  function Lo(r: Ring, x: int): int
    requires 0 <= x < |r.stamp|
  {
    if x == 0 then -1 else r.stamp[x]
  }

  ghost predicate Sized(r: Ring) {
    0 <= r.n < |r.next| == |r.prev| == |r.stamp| && 0 <= r.clock
  }

  /** Stamps lie in the past and tell the buffers apart. */
  ghost predicate StampOk(r: Ring, c: int)
    requires Sized(r) && 1 <= c <= r.n
  {
    0 <= r.stamp[c] < r.clock && r.stamp[c] in r.at && r.at[r.stamp[c]] == c
  }

  /** next of x is the buffer stamped last before x, or the head when there is none; and prev leads back. */
  ghost predicate NextOk(r: Ring, x: int)
    requires Sized(r) && 0 <= x <= r.n
  {
    var y := r.next[x];
    && 0 <= y <= r.n && r.prev[y] == x && Lo(r, y) < Hi(r, x)
    && forall c :: 1 <= c <= r.n ==> r.stamp[c] <= Lo(r, y) || r.stamp[c] >= Hi(r, x)
  }

  ghost predicate PrevOk(r: Ring, y: int)
    requires Sized(r) && 0 <= y <= r.n
  {
    0 <= r.prev[y] <= r.n && r.next[r.prev[y]] == y
  }

  ghost predicate RingOk(r: Ring) {
    && Sized(r)
    && (forall c {:trigger StampOk(r, c)} :: 1 <= c <= r.n ==> StampOk(r, c))
    && (forall x {:trigger NextOk(r, x)} :: 0 <= x <= r.n ==> NextOk(r, x))
    && (forall x {:trigger PrevOk(r, x)} :: 0 <= x <= r.n ==> PrevOk(r, x))
  }

  /** Node x linked in between the head and the first buffer. */
  function Front(r: Ring, x: int): Ring
    requires 0 < x < |r.next| == |r.prev| == |r.stamp| && 0 <= r.next[0] < |r.prev|
  {
    var f := r.next[0];
    r.(next := r.next[x := f][0 := x], prev := r.prev[x := 0][f := x],
       stamp := r.stamp[x := r.clock], clock := r.clock + 1, at := r.at[r.clock := x])
  }

  /** Node x taken out of the list. */
  function Unlinked(r: Ring, x: int): Ring
    requires 0 < x < |r.next| == |r.prev| && 0 <= r.next[x] < |r.prev| && 0 <= r.prev[x] < |r.next|
  {
    r.(next := r.next[r.prev[x] := r.next[x]], prev := r.prev[r.next[x] := r.prev[x]])
  }

  /** Linking in one more buffer keeps the ring. */
  lemma AddKeeps(r: Ring)
    requires RingOk(r) && r.n + 1 < |r.next|
    ensures 0 <= r.next[0] <= r.n && RingOk(Front(r.(n := r.n + 1), r.n + 1))
  {
    assert NextOk(r, 0) && PrevOk(r, 0);
    var t := Front(r.(n := r.n + 1), r.n + 1);
    forall c | 1 <= c <= t.n ensures StampOk(t, c) {
      if c <= r.n { assert StampOk(r, c); }
    }
    forall z | 0 <= z <= t.n ensures NextOk(t, z) && PrevOk(t, z) {
      if z <= r.n { assert NextOk(r, z) && PrevOk(r, z); }
      forall c | 1 <= c <= r.n ensures 0 <= r.stamp[c] < r.clock { assert StampOk(r, c); }
    }
  }

  /** Moving a buffer to the front keeps the ring and makes that buffer the latest. */
  lemma ToFrontKeeps(r: Ring, b: int)
    requires RingOk(r) && 1 <= b <= r.n
    ensures NextOk(r, b) && PrevOk(r, b) && 0 <= Unlinked(r, b).next[0] <= r.n
    ensures RingOk(Front(Unlinked(r, b), b))
  {
    assert NextOk(r, b) && PrevOk(r, b) && NextOk(r, 0) && StampOk(r, b);
    var x, y := r.prev[b], r.next[b];
    assert NextOk(r, x) && PrevOk(r, y);
    var t := Front(Unlinked(r, b), b);
    forall c | 1 <= c <= t.n ensures StampOk(t, c) { assert StampOk(r, c); }
    forall z | 0 <= z <= t.n ensures NextOk(t, z) { FrontNext(r, b, z); }
    forall z | 0 <= z <= t.n ensures PrevOk(t, z) { FrontPrev(r, b, z); }
  }

  lemma FrontNext(r: Ring, b: int, z: int)
    requires RingOk(r) && 1 <= b <= r.n && 0 <= z <= r.n && 0 <= r.next[b] <= r.n && 0 <= r.prev[b] <= r.n
    requires 0 <= Unlinked(r, b).next[0] <= r.n
    ensures NextOk(Front(Unlinked(r, b), b), z)
  {
    assert NextOk(r, b) && PrevOk(r, b) && NextOk(r, 0) && StampOk(r, b) && NextOk(r, z);
    var x, y := r.prev[b], r.next[b];
    assert NextOk(r, x) && PrevOk(r, y);
    forall c | 1 <= c <= r.n ensures 0 <= r.stamp[c] < r.clock && (r.stamp[c] == r.stamp[b] ==> c == b) {
      assert StampOk(r, c);
    }
  }

  lemma FrontPrev(r: Ring, b: int, z: int)
    requires RingOk(r) && 1 <= b <= r.n && 0 <= z <= r.n && 0 <= r.next[b] <= r.n && 0 <= r.prev[b] <= r.n
    requires 0 <= Unlinked(r, b).next[0] <= r.n
    ensures PrevOk(Front(Unlinked(r, b), b), z)
  {
    assert NextOk(r, b) && PrevOk(r, b) && NextOk(r, 0) && StampOk(r, b) && PrevOk(r, z);
    var x, y := r.prev[b], r.next[b];
    assert NextOk(r, x) && PrevOk(r, y);
  }

  /** Walking from the head forwards starts at the latest buffer, backwards at the oldest. */
  lemma Ends(r: Ring)
    requires RingOk(r)
    ensures 0 <= r.next[0] <= r.n && forall c :: 1 <= c <= r.n ==> r.stamp[c] <= Lo(r, r.next[0])
    ensures 0 <= r.prev[0] <= r.n && forall c :: 1 <= c <= r.n ==> r.stamp[c] >= Hi(r, r.prev[0])
  {
    assert NextOk(r, 0) && PrevOk(r, 0) && NextOk(r, r.prev[0]);
    forall c | 1 <= c <= r.n ensures 0 <= r.stamp[c] < r.clock { assert StampOk(r, c); }
  }

  /** The ring is one circle through every buffer: a set of nodes closed under next is all of them. */
  lemma OneRing(r: Ring, s: set<int>)
    requires RingOk(r) && 0 in s && forall x :: x in s && 0 <= x <= r.n ==> r.next[x] in s
    ensures forall c :: 1 <= c <= r.n ==> c in s
  {
    forall c | 1 <= c <= r.n ensures c in s {
      assert StampOk(r, c);
      Reached(r, s, c, 0);
    }
  }

  lemma {:induction false} Reached(r: Ring, s: set<int>, c: int, x: int)
    requires RingOk(r) && 1 <= c <= r.n && 0 <= x <= r.n && x in s && r.stamp[c] < Hi(r, x)
    requires forall x :: x in s && 0 <= x <= r.n ==> r.next[x] in s
    ensures c in s
    decreases Hi(r, x)
  {
    assert NextOk(r, x) && StampOk(r, c);
    var y := r.next[x];
    if y > 0 {
      assert StampOk(r, y);
      if y != c {
        Reached(r, s, c, y);
      }
    }
  }
}

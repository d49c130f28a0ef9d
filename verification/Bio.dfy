/** bio.c: the buffer cache. A reference to a buffer is a token: bget and bpin hand one out, brelse and bunpin take it
    back. Every method is one atomic step, so any interleaving of calls by any number of processes is a run. */
module Bio {
  import opened BufRing

  datatype Key = Key(dev: int, blockno: int)
  datatype Block = Block(bytes: seq<int>)
  datatype Ref = Ref(buf: int, pin: bool)

  // All buffers start as this key, so it is the one key that several buffers may have.
  const NOKEY := Key(0, 0)

  ghost function RefsTo(refs: map<int, Ref>, b: int): set<int> {
    set t | t in refs && refs[t].buf == b
  }

  /** refs counts for one buffer only. */
  lemma RefAdded(refs: map<int, Ref>, t: int, b: int, pin: bool, c: int)
    requires t !in refs
    ensures |RefsTo(refs[t := Ref(b, pin)], c)| == |RefsTo(refs, c)| + if c == b then 1 else 0
  {
    if c == b {
      assert RefsTo(refs[t := Ref(b, pin)], c) == RefsTo(refs, c) + {t};
    } else {
      assert RefsTo(refs[t := Ref(b, pin)], c) == RefsTo(refs, c);
    }
  }

  lemma RefDropped(refs: map<int, Ref>, t: int, c: int)
    requires t in refs
    ensures |RefsTo(refs - {t}, c)| == |RefsTo(refs, c)| - if c == refs[t].buf then 1 else 0
  {
    if c == refs[t].buf {
      assert RefsTo(refs, c) == RefsTo(refs - {t}, c) + {t};
    } else {
      assert RefsTo(refs - {t}, c) == RefsTo(refs, c);
    }
  }

  lemma RefCounts(refs: map<int, Ref>, t: int)
    requires t in refs
    ensures |RefsTo(refs, refs[t].buf)| > 0
  {
    assert t in RefsTo(refs, refs[t].buf);
  }

  /** The buffers, what the disk holds, and the references held. */
  datatype Cache = Cache(key: seq<Key>, valid: seq<bool>, data: seq<Block>, refcnt: seq<int>, lock: seq<int>,
                         disk: map<Key, Block>, refs: map<int, Ref>, tokens: int, index: map<Key, int>)

  function OnDisk(s: Cache, k: Key): Block {
    if k in s.disk then s.disk[k] else Block([])
  }

  /** What a reader of block k is to see: the cached contents if there are any, else the disk's. */
  function View(s: Cache, k: Key): Block {
    if k in s.index && 0 <= s.index[k] < |s.valid| && |s.valid| == |s.data| && s.valid[s.index[k]]
    then s.data[s.index[k]] else OnDisk(s, k)
  }

  ghost predicate Sizes(s: Cache, n: int) {
    0 < n < |s.key| == |s.valid| == |s.data| == |s.refcnt| == |s.lock|
  }

  predicate Dirty(s: Cache, b: int)
    requires 0 <= b < |s.valid| == |s.data| == |s.key|
  {
    s.valid[b] && s.data[b] != OnDisk(s, s.key[b])
  }

  ghost predicate Pinned(s: Cache, b: int) {
    exists t :: t in s.refs && s.refs[t] == Ref(b, true)
  }

  /** One buffer: its count is right, its lock holder has a reference, unsaved contents are locked or pinned, and no
      other buffer has its key. */
  ghost predicate BufOk(s: Cache, b: int)
    requires 0 <= b < |s.valid| == |s.data| == |s.key| == |s.refcnt| == |s.lock|
  {
    && s.refcnt[b] == |RefsTo(s.refs, b)|
    && (s.lock[b] != -1 ==> s.lock[b] in s.refs && s.refs[s.lock[b]] == Ref(b, false))
    && (Dirty(s, b) ==> s.lock[b] != -1 || Pinned(s, b))
    && (s.key[b] != NOKEY ==> s.key[b] in s.index && s.index[s.key[b]] == b)
  }

  ghost predicate Inv(s: Cache, n: int) {
    && Sizes(s, n) && 0 <= s.tokens
    && (forall b {:trigger BufOk(s, b)} :: 1 <= b <= n ==> BufOk(s, b))
    && (forall t :: t in s.refs ==> 1 <= s.refs[t].buf <= n && 0 <= t < s.tokens)
    && (forall k :: k in s.index ==> 1 <= s.index[k] <= n && s.key[s.index[k]] == k && k != NOKEY)
  }

  /** Every block but NOKEY reads as it did. */
  ghost predicate SameView(s: Cache, t: Cache) {
    forall k {:trigger View(t, k)} :: k != NOKEY ==> View(t, k) == View(s, k)
  }

  /** At most one buffer per block. */
  lemma OneBufferPerBlock(s: Cache, n: int, b: int, c: int)
    requires Inv(s, n) && 1 <= b <= n && 1 <= c <= n && s.key[b] == s.key[c] != NOKEY
    ensures b == c
  {
    assert BufOk(s, b) && BufOk(s, c);
  }

  /** A buffer nobody refers to holds nothing the disk does not. */
  lemma UnusedIsClean(s: Cache, n: int, b: int)
    requires Inv(s, n) && 1 <= b <= n && s.refcnt[b] == 0
    ensures !Dirty(s, b) && s.lock[b] == -1 && forall t :: t in s.refs ==> s.refs[t].buf != b
  {
    assert BufOk(s, b);
    forall t | t in s.refs ensures s.refs[t].buf != b {
      if s.refs[t].buf == b { RefCounts(s.refs, t); }
    }
  }

  lemma NotIndexed(s: Cache, n: int, k: Key)
    requires Inv(s, n) && forall c :: 1 <= c <= n ==> s.key[c] != k
    ensures k !in s.index
  {
  }

  // The steps, as changes of the cache.

  function Recycled(s: Cache, b: int, k: Key): Cache
    requires 0 <= b < |s.key| == |s.valid| == |s.refcnt|
  {
    s.(key := s.key[b := k], valid := s.valid[b := false], refcnt := s.refcnt[b := 1],
       refs := s.refs[s.tokens := Ref(b, false)], tokens := s.tokens + 1,
       index := (s.index - {s.key[b]})[k := b])
  }

  lemma RecycledKeeps(s: Cache, n: int, b: int, k: Key)
    requires Inv(s, n) && 1 <= b <= n && s.refcnt[b] == 0 && k != NOKEY && k !in s.index
    ensures Inv(Recycled(s, b, k), n) && SameView(s, Recycled(s, b, k))
  {
    var t := Recycled(s, b, k);
    UnusedIsClean(s, n, b);
    assert BufOk(s, b);
    forall c | 1 <= c <= n ensures BufOk(t, c) {
      assert BufOk(s, c);
      RefAdded(s.refs, s.tokens, b, false, c);
      if c != b && Pinned(s, c) {
        var p :| p in s.refs && s.refs[p] == Ref(c, true);
        assert p in t.refs && t.refs[p] == Ref(c, true);
      }
    }
    forall j | j != NOKEY ensures View(t, j) == View(s, j) {
    }
  }

  /** One more reference to b. */
  function Referred(s: Cache, b: int, pin: bool): Cache
    requires 0 <= b < |s.refcnt|
  {
    s.(refcnt := s.refcnt[b := s.refcnt[b] + 1], refs := s.refs[s.tokens := Ref(b, pin)], tokens := s.tokens + 1)
  }

  lemma ReferredKeeps(s: Cache, n: int, b: int, pin: bool)
    requires Inv(s, n) && 1 <= b <= n
    ensures Inv(Referred(s, b, pin), n) && SameView(s, Referred(s, b, pin))
  {
    var t := Referred(s, b, pin);
    forall c | 1 <= c <= n ensures BufOk(t, c) {
      assert BufOk(s, c);
      RefAdded(s.refs, s.tokens, b, pin, c);
      if Pinned(s, c) {
        var p :| p in s.refs && s.refs[p] == Ref(c, true);
        assert p in t.refs && t.refs[p] == Ref(c, true);
      }
    }
  }

  /** One reference less. */
  function Dropped(s: Cache, t: int): Cache
    requires t in s.refs && 0 <= s.refs[t].buf < |s.refcnt|
  {
    s.(refcnt := s.refcnt[s.refs[t].buf := s.refcnt[s.refs[t].buf] - 1], refs := s.refs - {t})
  }

  lemma DroppedKeeps(s: Cache, n: int, t: int)
    requires Inv(s, n) && t in s.refs
    requires var b := s.refs[t].buf;
             && s.lock[b] != t
             && (s.refs[t].pin && Dirty(s, b) ==> s.lock[b] != -1 || exists p :: p != t && p in s.refs && s.refs[p] == Ref(b, true))
    ensures Inv(Dropped(s, t), n) && SameView(s, Dropped(s, t))
  {
    var u := Dropped(s, t);
    forall c | 1 <= c <= n ensures BufOk(u, c) {
      assert BufOk(s, c);
      RefDropped(s.refs, t, c);
      if Dirty(u, c) && s.lock[c] == -1 {
        var p :| p != t && p in s.refs && s.refs[p] == Ref(c, true);
        assert p in u.refs && u.refs[p] == Ref(c, true);
      }
    }
  }

  /** New contents or validity for b, or a write of b to the disk, under b's lock. */
  lemma LockedKeeps(s: Cache, u: Cache, n: int, b: int)
    requires Inv(s, n) && 1 <= b <= n && s.lock[b] != -1 && Sizes(u, n)
    requires u.key == s.key && u.refcnt == s.refcnt && u.lock == s.lock && u.refs == s.refs && u.tokens == s.tokens
    requires u.index == s.index && forall c :: 1 <= c <= n && c != b ==> u.valid[c] == s.valid[c] && u.data[c] == s.data[c]
    requires forall k :: k != s.key[b] ==> OnDisk(u, k) == OnDisk(s, k)
    requires s.key[b] != NOKEY
    ensures Inv(u, n) && forall k :: k != s.key[b] ==> View(u, k) == View(s, k)
  {
    forall c | 1 <= c <= n ensures BufOk(u, c) {
      assert BufOk(s, c) && BufOk(s, b);
      if Pinned(s, c) {
        var p :| p in s.refs && s.refs[p] == Ref(c, true);
        assert p in u.refs && u.refs[p] == Ref(c, true);
      }
    }
  }

  class BufCache {
    const n: int
    var key: seq<Key>
    var valid: seq<bool>
    var data: seq<Block>
    var refcnt: seq<int>
    var lock: seq<int>          // the token that holds the sleep lock, or -1
    var next: seq<int>
    var prev: seq<int>
    var disk: map<Key, Block>
    var tokens: int             // names for the references handed out
    ghost var refs: map<int, Ref>
    ghost var index: map<Key, int>
    ghost var stamp: seq<int>
    ghost var clock: int
    ghost var at: map<int, int>

    ghost function S(): Cache
      reads this
    {
      Cache(key, valid, data, refcnt, lock, disk, refs, tokens, index)
    }

    ghost function R(): Ring
      reads this
    {
      Ring(n, next, prev, stamp, clock, at)
    }

    ghost predicate Valid()
      reads this
    {
      Inv(S(), n) && RingOk(R()) && |next| == n + 1 == |key|
    }

    /** Zeroed memory over a disk. */
    constructor (nbuf: int, d: map<Key, Block>)
      requires nbuf > 0
      ensures n == nbuf && disk == d && Unused(S(), n) && |next| == |prev| == |stamp| == n + 1 == |key| && clock == 0
    {
      n := nbuf;
      key, valid, data := seq(nbuf + 1, _ => NOKEY), seq(nbuf + 1, _ => false), seq(nbuf + 1, _ => Block([]));
      refcnt, lock := seq(nbuf + 1, _ => 0), seq(nbuf + 1, _ => -1);
      disk, refs, tokens, index := d, map[], 0, map[];
      next, prev := seq(nbuf + 1, _ => 0), seq(nbuf + 1, _ => 0);
      stamp, clock, at := seq(nbuf + 1, _ => 0), 0, map[];
    }

    /** binit: links the buffers in, the last one at the front. */
    method Binit()
      requires Unused(S(), n) && |next| == |prev| == |stamp| == n + 1 == |key| && clock == 0
      modifies this`next, this`prev, this`stamp, this`clock, this`at
      ensures Valid() && S() == old(S()) && forall k :: View(S(), k) == OnDisk(S(), k)
    {
      UnusedInv(S(), n);
      prev := prev[0 := 0];
      next := next[0 := 0];
      ghost var r := R().(n := 0);
      assert NextOk(r, 0) && PrevOk(r, 0);
      var b := 1;
      while b <= n
        invariant 1 <= b <= n + 1 && r == R().(n := b - 1) && RingOk(r) && |next| == n + 1
      {
        AddKeeps(r);
        r := Front(r.(n := b), b);
        LinkFront(b);
        b := b + 1;
      }
    }

    /** Links buffer b in right after the head. */
    method LinkFront(b: int)
      requires 1 <= b < |next| == |prev| == |stamp| && 0 <= next[0] < |prev|
      modifies this`next, this`prev, this`stamp, this`clock, this`at
      ensures R() == Front(old(R()), b)
    {
      next := next[b := next[0]];
      prev := prev[b := 0];
      prev := prev[next[0] := b];
      next := next[0 := b];
      stamp, clock, at := stamp[b := clock], clock + 1, at[clock := b];
    }

    /** The list section of brelse: b becomes the most recently used. */
    method ToFront(b: int)
      requires RingOk(R()) && 1 <= b <= n && |next| == n + 1
      modifies this`next, this`prev, this`stamp, this`clock, this`at
      ensures RingOk(R()) && |next| == n + 1 && stamp == old(stamp)[b := old(clock)] && clock == old(clock) + 1
    {
      ToFrontKeeps(R(), b);
      prev := prev[next[b] := prev[b]];
      next := next[prev[b] := next[b]];
      LinkFront(b);
    }

    /** bget's first loop: the buffer that has block k. */
    method Lookup(k: Key) returns (b: int)
      requires Valid()
      ensures 0 <= b <= n && (b != 0 ==> key[b] == k)
      ensures b == 0 ==> forall c :: 1 <= c <= n ==> key[c] != k
    {
      ghost var r := R();
      Ends(r);
      b := next[0];
      while b != 0
        invariant 0 <= b <= n && forall c :: 1 <= c <= n && stamp[c] > Lo(r, b) ==> key[c] != k
        decreases Lo(r, b)
      {
        if key[b] == k {
          return;
        }
        assert StampOk(r, b) && NextOk(r, b);
        forall c | 1 <= c <= n && stamp[c] > Lo(r, next[b]) ensures key[c] != k {
          assert StampOk(r, c);
        }
        b := next[b];
      }
      forall c | 1 <= c <= n ensures key[c] != k {
        assert StampOk(r, c);
      }
    }

    /** bget's second loop: the buffer without references that was released longest ago. */
    method LeastRecent() returns (b: int)
      requires Valid()
      ensures 0 <= b <= n && (b != 0 ==> refcnt[b] == 0)
      ensures b != 0 ==> forall c :: 1 <= c <= n && refcnt[c] == 0 ==> stamp[b] <= stamp[c]
      ensures b == 0 ==> forall c :: 1 <= c <= n ==> refcnt[c] != 0
    {
      ghost var r := R();
      Ends(r);
      b := prev[0];
      while b != 0
        invariant 0 <= b <= n && forall c :: 1 <= c <= n && stamp[c] < Hi(r, b) ==> refcnt[c] != 0
        decreases clock - Hi(r, b)
      {
        if refcnt[b] == 0 {
          return;
        }
        assert StampOk(r, b) && PrevOk(r, b) && NextOk(r, prev[b]);
        forall c | 1 <= c <= n && stamp[c] < Hi(r, prev[b]) ensures refcnt[c] != 0 {
          assert StampOk(r, c);
        }
        b := prev[b];
      }
      forall c | 1 <= c <= n ensures refcnt[c] != 0 {
        assert StampOk(r, c);
      }
    }

    /** Gives the unused buffer b to block k. */
    method Recycle(b: int, k: Key) returns (t: int)
      requires Valid() && k != NOKEY && 1 <= b <= n && refcnt[b] == 0 && forall c :: 1 <= c <= n ==> key[c] != k
      modifies this`key, this`valid, this`refcnt, this`refs, this`tokens, this`index
      ensures Valid() && SameView(old(S()), S()) && key == old(key)[b := k]
      ensures t == old(tokens) && t !in old(refs) && refs == old(refs)[t := Ref(b, false)]
      ensures forall r :: r in old(refs) ==> old(refs)[r].buf != b
    {
      t := tokens;
      NotIndexed(S(), n, k);
      UnusedIsClean(S(), n, b);
      RecycledKeeps(S(), n, b, k);
      index := (index - {key[b]})[k := b];
      key := key[b := k];
      valid := valid[b := false];
      refcnt := refcnt[b := 1];
      refs, tokens := refs[t := Ref(b, false)], t + 1;
    }

    /** One more reference to buffer b. */
    method Refer(b: int, pin: bool) returns (t: int)
      requires Valid() && 1 <= b <= n
      modifies this`refcnt, this`refs, this`tokens
      ensures Valid() && SameView(old(S()), S())
      ensures t == old(tokens) && t !in old(refs) && refs == old(refs)[t := Ref(b, pin)]
    {
      t := tokens;
      ReferredKeeps(S(), n, b, pin);
      refcnt := refcnt[b := refcnt[b] + 1];
      refs, tokens := refs[t := Ref(b, pin)], t + 1;
    }

    /** bget's section under the cache lock: a reference to the buffer of block k, recycling the least recently used
        unused buffer if there is none; 0 (panic) when every buffer is in use. */
    method Bget(k: Key) returns (b: int, t: int)
      requires Valid() && k != NOKEY
      modifies this`key, this`valid, this`refcnt, this`refs, this`tokens, this`index
      ensures Valid() && SameView(old(S()), S()) && t == old(tokens)
      ensures b == 0 ==> S() == old(S()) && (forall c :: 1 <= c <= n ==> refcnt[c] != 0 && key[c] != k)
      ensures b != 0 ==> 1 <= b <= n && key[b] == k && refs == old(refs)[t := Ref(b, false)] && t !in old(refs)
      ensures b != 0 && old(key)[b] == k ==> key == old(key) && valid == old(valid)
      ensures b != 0 && old(key)[b] != k ==>
                && (forall c :: 1 <= c <= n ==> old(key)[c] != k) && old(refcnt)[b] == 0
                && (forall c :: 1 <= c <= n && old(refcnt)[c] == 0 ==> stamp[b] <= stamp[c])
      ensures forall r :: r in old(refs) ==> key[old(refs)[r].buf] == old(key)[old(refs)[r].buf]
    {
      t := tokens;
      b := Lookup(k);
      if b != 0 {
        t := Refer(b, false);
        return;
      }
      b := LeastRecent();
      if b != 0 {
        t := Recycle(b, k);
      }
    }

    /** acquiresleep on a buffer, when it is free. */
    method AcquireSleep(b: int, t: int)
      requires Valid() && t in refs && refs[t] == Ref(b, false) && lock[b] == -1
      modifies this`lock
      ensures Valid() && SameView(old(S()), S()) && lock == old(lock)[b := t]
    {
      lock := lock[b := t];
      forall c | 1 <= c <= n ensures BufOk(S(), c) { assert old(BufOk(S(), c)); }
    }

    /** The rest of bread, by the holder: fetches the block unless the buffer has it. The holder sees what the block
        reads as. */
    method Fill(b: int, t: int)
      requires Valid() && 1 <= b <= n && lock[b] == t && t in refs && key[b] != NOKEY
      modifies this`valid, this`data
      ensures Valid() && SameView(old(S()), S()) && valid[b] && data[b] == View(S(), key[b])
    {
      ghost var s := S();
      assert BufOk(s, b);
      if !valid[b] {
        data := data[b := if key[b] in disk then disk[key[b]] else Block([])];
        valid := valid[b := true];
      }
      LockedKeeps(s, S(), n, b);
    }

    /** The holder of the lock changes the contents. */
    method Modify(b: int, t: int, v: Block)
      requires Valid() && 1 <= b <= n && lock[b] == t && t in refs && key[b] != NOKEY && valid[b]
      modifies this`data
      ensures Valid() && View(S(), key[b]) == v && forall k :: k != key[b] ==> View(S(), k) == View(old(S()), k)
    {
      ghost var s := S();
      assert BufOk(s, b);
      data := data[b := v];
      LockedKeeps(s, S(), n, b);
    }

    /** bwrite: the disk gets the contents; refuses (panic) without the lock. */
    method Bwrite(b: int, t: int) returns (ok: bool)
      requires Valid() && 1 <= b <= n && t in refs && refs[t] == Ref(b, false) && key[b] != NOKEY && valid[b]
      modifies this`disk
      ensures Valid() && SameView(old(S()), S()) && (ok <==> lock[b] == t)
      ensures disk == if ok then old(disk)[key[b] := data[b]] else old(disk)
    {
      ok := lock[b] == t;
      if ok {
        ghost var s := S();
        assert BufOk(s, b) && Inv(s, n);
        disk := disk[key[b] := data[b]];
        LockedKeeps(s, S(), n, b);
      }
    }

    /** bpin, by the holder of the lock. */
    method Bpin(b: int) returns (p: int)
      requires Valid() && 1 <= b <= n
      modifies this`refcnt, this`refs, this`tokens
      ensures Valid() && SameView(old(S()), S()) && Pinned(S(), b)
      ensures p !in old(refs) && refs == old(refs)[p := Ref(b, true)]
    {
      p := Refer(b, true);
      assert p in refs && refs[p] == Ref(b, true);
    }

    /** bunpin: what is unsaved must still be locked or pinned otherwise. */
    method Bunpin(b: int, p: int)
      requires Valid() && p in refs && refs[p] == Ref(b, true)
      requires Dirty(S(), b) ==> lock[b] != -1 || exists q :: q != p && q in refs && refs[q] == Ref(b, true)
      modifies this`refcnt, this`refs
      ensures Valid() && SameView(old(S()), S()) && refs == old(refs) - {p}
    {
      assert BufOk(S(), b);
      DroppedKeeps(S(), n, p);
      refcnt := refcnt[b := refcnt[b] - 1];
      refs := refs - {p};
    }

    /** brelse, first half (releasesleep): a holder that changed the contents has written or pinned them. */
    method ReleaseSleep(b: int, t: int) returns (ok: bool)
      requires Valid() && t in refs && refs[t] == Ref(b, false)
      requires lock[b] == t && Dirty(S(), b) ==> Pinned(S(), b)
      modifies this`lock
      ensures Valid() && SameView(old(S()), S()) && (ok <==> old(lock)[b] == t)
      ensures lock == if ok then old(lock)[b := -1] else old(lock)
    {
      ok := lock[b] == t;
      if ok {
        lock := lock[b := -1];
        forall c | 1 <= c <= n ensures BufOk(S(), c) { assert old(BufOk(S(), c)); }
      }
    }

    /** brelse, second half: one reference less; the last one makes the buffer the most recently used. */
    method Brelse(b: int, t: int)
      requires Valid() && t in refs && refs[t] == Ref(b, false) && lock[b] != t
      modifies this`refcnt, this`refs, this`next, this`prev, this`stamp, this`clock, this`at
      ensures Valid() && SameView(old(S()), S()) && refs == old(refs) - {t}
      ensures stamp == if refcnt[b] == 0 then old(stamp)[b := old(clock)] else old(stamp)
    {
      DroppedKeeps(S(), n, t);
      refcnt := refcnt[b := refcnt[b] - 1];
      refs := refs - {t};
      if refcnt[b] == 0 {
        ToFront(b);
      }
    }
  }

  ghost predicate Unused(s: Cache, n: int) {
    && Sizes(s, n) && s.refs == map[] && s.index == map[] && s.tokens == 0
    && forall b :: 1 <= b <= n ==> s.key[b] == NOKEY && !s.valid[b] && s.refcnt[b] == 0 && s.lock[b] == -1
  }

  lemma UnusedInv(s: Cache, n: int)
    requires Unused(s, n)
    ensures Inv(s, n)
  {
    forall b | 1 <= b <= n ensures BufOk(s, b) {
      assert RefsTo(s.refs, b) == {};
    }
  }
}

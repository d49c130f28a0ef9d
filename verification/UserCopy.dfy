/** copyout and copyin of kernel/vm.c: bytes between the kernel and a user address space, page by page, where a page that
    is not there yet is allocated on the way. */
module UserCopy {
  import opened Arith
  import opened PageTable
  import opened PageList
  import opened Vm

  // Bytes of words and pages.

  function ByteAt(w: int, k: int): (b: int)
    ensures 0 <= b < 256
    decreases k
  {
    if k <= 0 then w % 256 else ByteAt(w / 256, k - 1)
  }

  function PutByte(w: int, k: int, b: int): int
    decreases k
  {
    if k <= 0 then w / 256 * 256 + b else PutByte(w / 256, k - 1, b) * 256 + w % 256
  }

  lemma {:induction false} PutByteAt(w: int, k: int, b: int, l: int)
    requires 0 <= k && 0 <= l && 0 <= b < 256
    ensures ByteAt(PutByte(w, k, b), l) == if l == k then b else ByteAt(w, l)
    decreases k
  {
    if k == 0 {
      DivMod(w / 256 * 256 + b, 256, w / 256, b);
    } else {
      DivMod(PutByte(w / 256, k - 1, b) * 256 + w % 256, 256, PutByte(w / 256, k - 1, b), w % 256);
      if l > 0 {
        PutByteAt(w / 256, k - 1, b, l - 1);
      }
    }
  }

  function PageByte(words: seq<int>, k: int): (b: int)
    requires |words| == ENTRIES && 0 <= k < PGSIZE
    ensures 0 <= b < 256
  {
    ByteAt(words[k / 8], k % 8)
  }

  /** memmove of n bytes of src from a on to byte o of a page. */
  function Patch(words: seq<int>, o: int, src: seq<int>, a: int, n: int): (w: seq<int>)
    requires |words| == ENTRIES && 0 <= o && 0 <= n && o + n <= PGSIZE && 0 <= a && a + n <= |src|
    ensures |w| == ENTRIES
    decreases n
  {
    if n == 0 then words
    else
      var w, k := Patch(words, o, src, a, n - 1), o + n - 1;
      w[k / 8 := PutByte(w[k / 8], k % 8, src[a + n - 1])]
  }

  lemma {:induction false} PatchBytes(words: seq<int>, o: int, src: seq<int>, a: int, n: int, l: int)
    requires |words| == ENTRIES && 0 <= o && 0 <= n && o + n <= PGSIZE && 0 <= a && a + n <= |src| && 0 <= l < PGSIZE
    requires IsBytes(src)
    ensures PageByte(Patch(words, o, src, a, n), l) == if o <= l < o + n then src[a + l - o] else PageByte(words, l)
    decreases n
  {
    hide ByteAt, PutByte;
    if n > 0 {
      PatchBytes(words, o, src, a, n - 1, l);
      var w, k := Patch(words, o, src, a, n - 1), o + n - 1;
      if l / 8 == k / 8 {
        PutByteAt(w[k / 8], k % 8, src[a + n - 1], l % 8);
        assert l % 8 == k % 8 ==> l == k;
      }
    }
  }

  lemma ZeroBytes(l: int)
    requires 0 <= l < PGSIZE
    ensures PageByte(Zeros(), l) == 0
  {
    ZeroByte(l % 8);
  }

  lemma {:induction false} ZeroByte(k: int)
    requires 0 <= k
    ensures ByteAt(0, k) == 0
    decreases k
  {
    if k > 0 { ZeroByte(k - 1); }
  }

  /** memset: every byte of a page the allocator hands out or takes back is that byte. */
  lemma JunkBytes(b: int, k: int)
    requires 0 <= b < 256 && 0 <= k < PGSIZE
    ensures PageByte(Junk(b), k) == b
  {
    RepeatedByte(b, k % 8);
  }

  function Repeated(b: int, n: int): int { if n <= 0 then 0 else Repeated(b, n - 1) * 256 + b }

  lemma {:induction false} RepeatedAt(b: int, n: int, k: int)
    requires 0 <= b < 256 && 0 <= k < n
    ensures ByteAt(Repeated(b, n), k) == b
    decreases n
  {
    DivMod(Repeated(b, n - 1) * 256 + b, 256, Repeated(b, n - 1), b);
    if k > 0 { RepeatedAt(b, n - 1, k - 1); }
  }

  lemma RepeatedByte(b: int, k: int)
    requires 0 <= b < 256 && 0 <= k < 8
    ensures ByteAt(b * 0x0101_0101_0101_0101, k) == b
  {
    assert Repeated(b, 1) == b && Repeated(b, 2) == b * 0x0101;
    assert Repeated(b, 3) == b * 0x01_0101;
    assert Repeated(b, 4) == b * 0x0101_0101;
    assert Repeated(b, 5) == b * 0x01_0101_0101;
    assert Repeated(b, 6) == b * 0x0101_0101_0101;
    assert Repeated(b, 7) == b * 0x01_0101_0101_0101;
    assert Repeated(b, 8) == b * 0x0101_0101_0101_0101;
    RepeatedAt(b, 8, k);
  }

  // What a user program sees.

  /** PTE_V and PTE_U: walkaddr finds the page. */
  predicate UserPage(e: int) { V(e) && e / PTE_U % 2 == 1 }

  predicate Writable(e: int) { e / PTE_W % 2 == 1 }

  /** The byte at a, as the program under root r would read it; a page it has not touched yet reads as zeros. */
  ghost function Content(s: Phys, r: int, a: int): int {
    var e := Look(s, r, a / PGSIZE);
    if UserPage(e) && |Words(s, Ppn(e))| == ENTRIES then PageByte(Words(s, Ppn(e)), a % PGSIZE) else 0
  }

  /** Every page the program under r can touch is a frame of its own. */
  ghost predicate UserOwns(s: Phys, r: int) {
    forall v {:trigger Look(s, r, v)} :: 0 <= v < VPNS && UserPage(Look(s, r, v)) ==> Is(s, Ppn(Look(s, r, v)), Frame(r, v))
  }

  /** Nobody can copy to, or from, page v: it is too high, or mapped without leave, or past the end of the program. */
  predicate Blocked(s: Phys, r: int, sz: int, v: int, write: bool) {
    v >= VPNS || var e := Look(s, r, v); if V(e) then !UserPage(e) || (write && !Writable(e)) else v * PGSIZE >= sz
  }

  /** From s to t the bytes from d on have become the first k of src, and nothing else the program sees has changed. */
  ghost predicate Stores(s: Phys, t: Phys, r: int, d: int, src: seq<int>, k: int)
    requires k <= |src|
  {
    forall a {:trigger Content(t, r, a)} :: 0 <= a < MAXVA ==>
      Content(t, r, a) == if d <= a < d + k then src[a - d] else Content(s, r, a)
  }

  lemma ContentStays(s: Phys, t: Phys, r: int, lo: int, hi: int, a: int)
    requires Within(s, t, r, lo, hi) && Is(s, r, Top) && UserOwns(s, r) && 0 <= a < MAXVA && !(lo <= a / PGSIZE < hi)
    ensures Content(t, r, a) == Content(s, r, a)
  {
    var v := a / PGSIZE;
    var e := Look(s, r, v);
    assert Look(t, r, v) == e;
    if UserPage(e) {
      assert SameRole(s, t, r, lo, hi, Ppn(e));
    }
  }

  lemma OwnsStays(s: Phys, t: Phys, r: int, lo: int, hi: int)
    requires Within(s, t, r, lo, hi) && Is(s, r, Top) && UserOwns(s, r)
    requires forall v :: lo <= v < hi && UserPage(Look(t, r, v)) ==> Is(t, Ppn(Look(t, r, v)), Frame(r, v))
    ensures UserOwns(t, r)
  {
    forall v | 0 <= v < VPNS && UserPage(Look(t, r, v)) ensures Is(t, Ppn(Look(t, r, v)), Frame(r, v)) {
      if !(lo <= v < hi) {
        assert Look(t, r, v) == Look(s, r, v);
        assert SameRole(s, t, r, lo, hi, Ppn(Look(s, r, v)));
      }
    }
  }

  /** The pages uvmalloc adds are frames of their own, and so are those uvmcopy makes. */
  lemma GrownOwns(s: Phys, t: Phys, r: int, lo: int, hi: int, perm: int)
    requires Within(s, t, r, lo, hi) && Is(s, r, Top) && UserOwns(s, r) && FreshRun(t, r, lo, hi, perm)
    ensures UserOwns(t, r)
  {
    forall v | lo <= v < hi ensures Is(t, Ppn(Look(t, r, v)), Frame(r, v)) {
      assert Holds(t, r, v, Zeros(), perm);
    }
    OwnsStays(s, t, r, lo, hi);
  }

  lemma CopiedOwns(s: Phys, t: Phys, from: int, to: int, sz: int)
    requires Within(s, t, to, 0, RoundUp(sz) / PGSIZE) && Is(s, to, Top) && UserOwns(s, to)
    requires CopiedBelow(s, t, from, to, sz)
    ensures UserOwns(t, to)
  {
    var hi := RoundUp(sz) / PGSIZE;
    forall v | 0 <= v < hi && UserPage(Look(t, to, v)) ensures Is(t, Ppn(Look(t, to, v)), Frame(to, v)) {
      PagesBetween(0, sz, v);
      assert Copied(s, t, from, to, v);
    }
    OwnsStays(s, t, to, 0, hi);
  }

  lemma StoresJoin(s: Phys, m: Phys, t: Phys, r: int, d: int, src: seq<int>, k: int, n: int)
    requires 0 <= k && 0 <= n && k + n <= |src| && Stores(s, m, r, d, src, k)
    requires forall a {:trigger Content(t, r, a)} :: 0 <= a < MAXVA ==>
               Content(t, r, a) == if d + k <= a < d + k + n then src[a - d] else Content(m, r, a)
    ensures Stores(s, t, r, d, src, k + n)
  {
    forall a | 0 <= a < MAXVA ensures Content(t, r, a) == if d <= a < d + (k + n) then src[a - d] else Content(s, r, a) {
      assert Content(m, r, a) == if d <= a < d + k then src[a - d] else Content(s, r, a);
    }
  }

  // Writing to a frame.

  lemma FrameLooks(s: Phys, q: int, words: seq<int>, r: int, v: int)
    requires Inv(s) && q in s.role && s.role[q].Frame? && Is(s, r, Top) && 0 <= v < VPNS
    ensures Look(Fill(s, q, words), r, v) == Look(s, r, v)
  {
    Indices(v);
    assert PageOk(s, r) && TopEntry(s, r, Px2(v));
    var t := Entry(s, r, Px2(v));
    if V(t) {
      assert PageOk(s, Ppn(t)) && MidEntry(s, Ppn(t), r, Px2(v), Px1(v));
    }
  }

  lemma FrameKeeps(s: Phys, q: int, words: seq<int>)
    requires Inv(s) && q in s.role && s.role[q].Frame? && |words| == ENTRIES
    ensures var t := Fill(s, q, words); Inv(t) && SameFree(s, t) && Within(s, t, s.role[q].r, s.role[q].v, s.role[q].v + 1)
  {
    var t, x := Fill(s, q, words), s.role[q];
    assert PageOk(s, q);
    forall p | p in t.role ensures PageOk(t, p) {
      assert PageOk(s, p);
      match s.role[p]
      case Top =>
        forall n | 0 <= n < ENTRIES ensures TopEntry(t, p, n) { assert TopEntry(s, p, n); }
      case Mid(r2, i2) =>
        forall n | 0 <= n < ENTRIES ensures MidEntry(t, p, r2, i2, n) { assert MidEntry(s, p, r2, i2, n); }
      case Low(r2, i2, j2) =>
        forall n | 0 <= n < ENTRIES ensures LowEntry(t, p, n) { assert LowEntry(s, p, n); }
      case Frame(r2, v) => FrameLooks(s, q, words, r2, v);
      case Held =>
      case Free =>
    }
    forall r2, v | Is(s, r2, Top) && 0 <= v < VPNS ensures Look(t, r2, v) == Look(s, r2, v) {
      FrameLooks(s, q, words, r2, v);
    }
    forall n | n in s.role ensures SameRole(s, t, x.r, x.v, x.v + 1, n) { }
  }

  lemma UserFrame(s: Phys, r: int, v: int)
    requires Inv(s) && UserOwns(s, r) && 0 <= v < VPNS && UserPage(Look(s, r, v))
    ensures var q := Ppn(Look(s, r, v)); q > 0 && Is(s, q, Frame(r, v)) && |Words(s, q)| == ENTRIES
  {
    assert PageOk(s, Ppn(Look(s, r, v)));
  }

  /** n bytes of src from k on, stored at address a, are what the program then sees there. */
  lemma PatchSeen(s: Phys, r: int, a: int, src: seq<int>, k: int, n: int)
    requires Inv(s) && Is(s, r, Top) && UserOwns(s, r) && 0 <= a < MAXVA && UserPage(Look(s, r, a / PGSIZE))
    requires 0 <= k && 0 <= n && k + n <= |src| && a % PGSIZE + n <= PGSIZE
    requires IsBytes(src)
    ensures var q := Ppn(Look(s, r, a / PGSIZE));
            && Is(s, q, Frame(r, a / PGSIZE)) && |Words(s, q)| == ENTRIES
            && var t := Fill(s, q, Patch(Words(s, q), a % PGSIZE, src, k, n));
               && UserOwns(t, r) && Look(t, r, a / PGSIZE) == Look(s, r, a / PGSIZE)
               && forall b {:trigger Content(t, r, b)} :: 0 <= b < MAXVA ==>
                    Content(t, r, b) == if a <= b < a + n then src[k + b - a] else Content(s, r, b)
  {
    hide Look, Inv, Patch, PageByte, UserOwns, Within, V;
    var v, q := a / PGSIZE, Ppn(Look(s, r, a / PGSIZE));
    UserFrame(s, r, v);
    var words := Patch(Words(s, q), a % PGSIZE, src, k, n);
    var t := Fill(s, q, words);
    FrameKeeps(s, q, words);
    FrameLooks(s, q, words, r, v);
    OwnsStays(s, t, r, v, v + 1);
    forall b | 0 <= b < MAXVA ensures Content(t, r, b) == if a <= b < a + n then src[k + b - a] else Content(s, r, b) {
      if b / PGSIZE == v {
        PatchBytes(Words(s, q), a % PGSIZE, src, k, n, b % PGSIZE);
      } else {
        ContentStays(s, t, r, v, v + 1, b);
      }
    }
  }

  // The code.

  /** walkaddr: the physical address of a user page, 0 when there is none. */
  method WalkAddr(m: Machine, r: int, va: int) returns (pa: int)
    requires m.Valid() && Is(m.S(), r, Top) && 0 <= va
    modifies m
    ensures m.Valid() && m.S() == old(m.S()) && m.f == old(m.f)
    ensures pa == if va < MAXVA && UserPage(Look(m.S(), r, va / PGSIZE)) then Ppn(Look(m.S(), r, va / PGSIZE)) * PGSIZE
                  else 0
  {
    if va >= MAXVA {
      return 0;
    }
    ghost var v := va / PGSIZE;
    Indices(v);
    var ok, p, k := m.Walk(r, va, false);
    if !ok {
      return 0;
    }
    assert PageOk(m.S(), p);
    LeafEntry(m.S(), p, k);
    var e := m.mem[p][k];
    if !V(e) || e / PTE_U % 2 == 0 {
      return 0;
    }
    pa := Ppn(e) * PGSIZE;
  }

  lemma UserFlags(q: int)
    ensures var e := Pte(q, PTE_W + PTE_U + PTE_R); UserPage(e) && Writable(e) && Ppn(e) == q
  {
    PteParts(q, PTE_W + PTE_U + PTE_R);
  }

  lemma NotUser()
    ensures !UserPage(0)
  {
  }

  lemma FrameInUse(s: Phys, q: int)
    requires Inv(s) && q in s.role
    ensures q > 0 && |Words(s, q)| == ENTRIES
  {
    assert PageOk(s, q);
  }

  /** vmfault does not change what the program sees. */
  lemma FaultSeen(s: Phys, t: Phys, r: int, v: int)
    requires Inv(t) && Is(s, r, Top) && UserOwns(s, r) && 0 <= v < VPNS && Within(s, t, r, v, v + 1)
    requires Look(s, r, v) == 0 && Holds(t, r, v, Zeros(), PTE_W + PTE_U + PTE_R)
    ensures UserOwns(t, r) && Stores(s, t, r, 0, [], 0) && UserPage(Look(t, r, v)) && Writable(Look(t, r, v))
    ensures Is(t, Ppn(Look(t, r, v)), Frame(r, v)) && Ppn(Look(t, r, v)) > 0
  {
    hide Within, UserOwns, Look, UserPage, Writable, Inv, PageByte;
    var q := Ppn(Look(t, r, v));
    UserFlags(q);
    FrameInUse(t, q);
    NotUser();
    OwnsStays(s, t, r, v, v + 1);
    forall a | 0 <= a < MAXVA ensures Content(t, r, a) == Content(s, r, a) {
      if a / PGSIZE == v {
        ZeroBytes(a % PGSIZE);
      } else {
        ContentStays(s, t, r, v, v + 1, a);
      }
    }
  }

  lemma SameSeen(s: Phys, t: Phys, r: int)
    requires Within(s, t, r, 0, 0) && Is(s, r, Top) && UserOwns(s, r)
    ensures UserOwns(t, r) && Stores(s, t, r, 0, [], 0)
  {
    OwnsStays(s, t, r, 0, 0);
    forall a | 0 <= a < MAXVA ensures Content(t, r, a) == Content(s, r, a) {
      ContentStays(s, t, r, 0, 0, a);
    }
  }

  /** The page v was opened at pa, or, when pa is 0, it could not be: that is blocked, or there was no memory. free is the
      number of free pages before. */
  ghost predicate Opens(s: Phys, t: Phys, r: int, sz: int, v: int, write: bool, pa: int, free: int) {
    && Is(t, r, Top) && UserOwns(t, r) && Stores(s, t, r, 0, [], 0)
    && if pa == 0 then Within(s, t, r, 0, 0) && (Blocked(s, r, sz, v, write) || (Look(s, r, v) == 0 && free < 3))
       else
         && !Blocked(s, r, sz, v, write) && Within(s, t, r, v, v + 1)
         && UserPage(Look(t, r, v)) && pa == Ppn(Look(t, r, v)) * PGSIZE
  }

  lemma OpenUnchanged(s: Phys, r: int, sz: int, v: int, write: bool, pa: int, free: int)
    requires Is(s, r, Top) && UserOwns(s, r) && 0 <= v
    requires if pa == 0 then Blocked(s, r, sz, v, write)
             else
               && v < VPNS && UserPage(Look(s, r, v)) && (write ==> Writable(Look(s, r, v)))
               && pa == Ppn(Look(s, r, v)) * PGSIZE
    ensures Opens(s, s, r, sz, v, write, pa, free)
  {
    WithinSelf(s, r);
    SameSeen(s, s, r);
    WithinWider(s, s, r, 0, 0, {}, v, v + 1, {});
  }

  /** After vmfault, which was called because walkaddr did not find the page. */
  lemma OpenFaulted(s: Phys, t: Phys, r: int, sz: int, v: int, write: bool, pa: int, free: int)
    requires Inv(t) && Is(s, r, Top) && UserOwns(s, r) && 0 <= v && (v < VPNS ==> !UserPage(Look(s, r, v))) && sz <= MAXVA
    requires pa == 0 ==> Within(s, t, r, 0, 0) && (v * PGSIZE >= sz || Look(s, r, v) != 0 || free < 3)
    requires pa != 0 ==> v * PGSIZE < sz && Look(s, r, v) == 0 && Within(s, t, r, v, v + 1)
    requires pa != 0 ==> Holds(t, r, v, Zeros(), PTE_W + PTE_U + PTE_R) && pa == Ppn(Look(t, r, v)) * PGSIZE
    requires Is(t, r, Top)
    ensures Opens(s, t, r, sz, v, write, pa, free) && (pa != 0 && write ==> Writable(Look(t, r, v)))
  {
    if pa == 0 {
      SameSeen(s, t, r);
    } else {
      FaultSeen(s, t, r, v);
    }
  }

  /** The page at va0, found or allocated, for a process of size sz with root r; 0 when there is none to be had. */
  method OpenPage(m: Machine, r: int, va0: int, sz: int, write: bool) returns (pa: int)
    requires m.Valid() && Is(m.S(), r, Top) && UserOwns(m.S(), r) && 0 <= va0 && va0 % PGSIZE == 0 && 0 <= sz <= MAXVA
    modifies m
    ensures m.Valid() && Opens(old(m.S()), m.S(), r, sz, va0 / PGSIZE, write, pa, old(m.f.count))
    ensures pa != 0 ==> m.f.count >= old(m.f.count) - 3
  {
    ghost var s, v, free := m.S(), va0 / PGSIZE, m.f.count;
    if write && va0 >= MAXVA {
      OpenUnchanged(s, r, sz, v, write, 0, free);
      return 0;
    }
    pa := WalkAddr(m, r, va0);
    if va0 < MAXVA && UserPage(Look(s, r, v)) {
      UserFrame(s, r, v);
    }
    if pa == 0 {
      pa := m.VmFault(r, va0, sz);
      OpenFaulted(s, m.S(), r, sz, v, write, pa, free);
      return;
    }
    if write {
      var w := IsWritable(m, r, va0);
      if !w {
        pa := 0;
      }
    }
    OpenUnchanged(s, r, sz, v, write, pa, free);
  }

  method IsWritable(m: Machine, r: int, va0: int) returns (w: bool)
    requires m.Valid() && Is(m.S(), r, Top) && 0 <= va0 < MAXVA && V(Look(m.S(), r, va0 / PGSIZE))
    modifies m
    ensures m.Valid() && m.S() == old(m.S()) && m.f == old(m.f) && (w <==> Writable(Look(m.S(), r, va0 / PGSIZE)))
  {
    Indices(va0 / PGSIZE);
    var ok, p, k := m.Walk(r, va0, false);
    assert PageOk(m.S(), p);
    LeafEntry(m.S(), p, k);
    w := m.mem[p][k] / PTE_W % 2 == 1;
  }

  /** memmove to a user page. */
  method StoreBytes(m: Machine, r: int, a: int, pa: int, src: seq<int>, k: int, n: int)
    requires m.Valid() && Is(m.S(), r, Top) && UserOwns(m.S(), r) && 0 <= a < MAXVA && UserPage(Look(m.S(), r, a / PGSIZE))
    requires pa == Ppn(Look(m.S(), r, a / PGSIZE)) * PGSIZE && IsBytes(src)
    requires 0 <= k && 0 <= n && k + n <= |src| && a % PGSIZE + n <= PGSIZE
    modifies m`mem
    ensures m.Valid() && Is(m.S(), r, Top) && UserOwns(m.S(), r) && Within(old(m.S()), m.S(), r, a / PGSIZE, a / PGSIZE + 1)
    ensures UserPage(Look(m.S(), r, a / PGSIZE))
    ensures forall b {:trigger Content(m.S(), r, b)} :: 0 <= b < MAXVA ==>
              Content(m.S(), r, b) == if a <= b < a + n then src[k + b - a] else Content(old(m.S()), r, b)
  {
    ghost var s := m.S();
    PatchSeen(s, r, a, src, k, n);
    var q := pa / PGSIZE;
    var words := Patch(m.mem[q], a % PGSIZE, src, k, n);
    FrameKeeps(s, q, words);
    m.mem := m.mem[q := words];
    assert m.S() == Fill(s, q, words);
    SameFreeList(s, m.S(), m.f, m.freelist);
  }

  predicate IsBytes(src: seq<int>) { forall k :: 0 <= k < |src| ==> 0 <= src[k] < 256 }

  /** From s to t pages lo..hi have been opened: none was blocked, and the program has them all. */
  ghost predicate Reached(s: Phys, t: Phys, r: int, sz: int, lo: int, hi: int, write: bool) {
    && Is(t, r, Top) && UserOwns(t, r) && Within(s, t, r, lo, hi)
    && forall v {:trigger Blocked(s, r, sz, v, write)} :: lo <= v < hi ==>
         !Blocked(s, r, sz, v, write) && UserPage(Look(t, r, v))
  }

  /** A copy from address a on stops before address d, which is a itself or the start of a page: that page cannot be had. */
  ghost predicate Stops(s: Phys, free: int, r: int, sz: int, a: int, d: int, write: bool) {
    var v := d / PGSIZE;
    && (d == a || d % PGSIZE == 0)
    && (Blocked(s, r, sz, v, write) || (Look(s, r, v) == 0 && free < 3 * (v - a / PGSIZE + 1)))
  }

  /** The page after the last of n bytes at a. */
  function EndPage(a: int, n: int): int { if n <= 0 then a / PGSIZE else (a + n - 1) / PGSIZE + 1 }

  lemma ReachedNone(s: Phys, r: int, sz: int, lo: int, write: bool)
    requires Is(s, r, Top) && UserOwns(s, r)
    ensures Reached(s, s, r, sz, lo, lo, write)
  {
    WithinSelf(s, r);
    WithinWider(s, s, r, 0, 0, {}, lo, lo, {});
  }

  /** A page not yet reached is as it was. */
  lemma NotReached(s: Phys, t: Phys, r: int, sz: int, lo: int, v: int, write: bool)
    requires Reached(s, t, r, sz, lo, v, write) && Is(s, r, Top) && 0 <= lo <= v
    ensures Blocked(t, r, sz, v, write) <==> Blocked(s, r, sz, v, write)
    ensures v < VPNS ==> Look(t, r, v) == Look(s, r, v)
  {
  }

  lemma ReachedMore(s: Phys, t: Phys, u: Phys, r: int, sz: int, lo: int, v: int, write: bool)
    requires Reached(s, t, r, sz, lo, v, write) && Is(s, r, Top) && 0 <= lo <= v < VPNS && !Blocked(t, r, sz, v, write)
    requires Within(t, u, r, v, v + 1) && Is(u, r, Top) && UserOwns(u, r) && UserPage(Look(u, r, v))
    ensures Reached(s, u, r, sz, lo, v + 1, write)
  {
    NotReached(s, t, r, sz, lo, v, write);
    WithinGrows(s, t, u, r, lo, v);
    hide Blocked, UserPage, UserOwns;
    forall w | lo <= w < v + 1 ensures !Blocked(s, r, sz, w, write) && UserPage(Look(u, r, w)) {
      assert w < v ==> Look(u, r, w) == Look(t, r, w);
    }
  }

  lemma ReachedFailed(s: Phys, t: Phys, u: Phys, r: int, sz: int, lo: int, v: int, write: bool, free: int, c: int)
    requires Reached(s, t, r, sz, lo, v, write) && Is(s, r, Top) && 0 <= lo <= v && Opens(t, u, r, sz, v, write, 0, c)
    requires c >= free - 3 * (v - lo)
    ensures Reached(s, u, r, sz, lo, v, write)
    ensures Blocked(s, r, sz, v, write) || (Look(s, r, v) == 0 && free < 3 * (v - lo + 1))
  {
    NotReached(s, t, r, sz, lo, v, write);
    WithinWider(t, u, r, 0, 0, {}, lo, v, {});
    WithinTrans(s, t, u, r, lo, v, {});
    forall w | lo <= w < v ensures UserPage(Look(u, r, w)) {
      assert !Blocked(s, r, sz, w, write);
      assert Look(u, r, w) == Look(t, r, w);
    }
  }

  lemma SeenJoin(s: Phys, t: Phys, u: Phys, r: int, a: int, src: seq<int>, k: int)
    requires 0 <= k <= |src| && Stores(s, t, r, a, src, k) && Stores(t, u, r, 0, [], 0)
    ensures Stores(s, u, r, a, src, k)
  {
    forall b | 0 <= b < MAXVA ensures Content(u, r, b) == if a <= b < a + k then src[b - a] else Content(s, r, b) {
      assert Content(t, r, b) == if a <= b < a + k then src[b - a] else Content(s, r, b);
    }
  }

  /** Where the loop stands: d is the next address, in page v, and k bytes have been copied. */
  predicate Place(a: int, len: int, d: int, v: int, k: int) {
    && 0 <= a && 0 <= k <= len && a / PGSIZE <= v && k == Min(len, d - a)
    && (if v == a / PGSIZE then d == a else d == v * PGSIZE)
  }

  lemma PlaceNext(a: int, len: int, d: int, v: int, k: int, n: int)
    requires Place(a, len, d, v, k) && k < len && n == Min(len - k, PGSIZE - (d - v * PGSIZE))
    ensures d / PGSIZE == v && d % PGSIZE == d - v * PGSIZE && 0 < n && d % PGSIZE + n <= PGSIZE && k == d - a
    ensures Place(a, len, v * PGSIZE + PGSIZE, v + 1, k + n) && (d == a || d % PGSIZE == 0)
    ensures v == EndPage(a, k) && v + 1 == EndPage(a, k + n)
  {
    DivMod(d, PGSIZE, v, d - v * PGSIZE);
    if k > 0 {
      DivMod(a + k - 1, PGSIZE, v - 1, PGSIZE - 1);
    }
    DivMod(a + (k + n) - 1, PGSIZE, v, d - v * PGSIZE + n - 1);
  }

  lemma PageFits(d: int, n: int, v: int)
    requires d / PGSIZE == v < VPNS && d % PGSIZE + n <= PGSIZE
    ensures d < MAXVA && d + n <= MAXVA
  {
  }

  /** One page of copyout. */
  method OutPage(m: Machine, r: int, sz: int, d: int, src: seq<int>, k: int, n: int, ghost s: Phys, ghost a: int,
                 ghost v: int, ghost free: int)
    returns (ok: bool)
    requires IsBytes(src) && 0 <= sz <= MAXVA && Place(a, |src|, d, v, k) && k < |src| && d / PGSIZE == v && k == d - a
    requires m.Valid() && Is(s, r, Top) && Reached(s, m.S(), r, sz, a / PGSIZE, v, true) && Stores(s, m.S(), r, a, src, k)
    requires 0 <= n && k + n <= |src| && d % PGSIZE + n <= PGSIZE && m.f.count >= free - 3 * (v - a / PGSIZE)
    modifies m
    ensures m.Valid() && if ok then Reached(s, m.S(), r, sz, a / PGSIZE, v + 1, true) && Stores(s, m.S(), r, a, src, k + n)
                         else Reached(s, m.S(), r, sz, a / PGSIZE, v, true) && Stores(s, m.S(), r, a, src, k)
    ensures ok ==> m.f.count >= free - 3 * (v + 1 - a / PGSIZE)
    ensures !ok ==> Blocked(s, r, sz, v, true) || (Look(s, r, v) == 0 && free < 3 * (v - a / PGSIZE + 1))
  {
    ghost var t, c := m.S(), m.f.count;
    var va0 := d / PGSIZE * PGSIZE;
    DivMod(va0, PGSIZE, v, 0);
    var pa := OpenPage(m, r, va0, sz, true);
    ghost var u := m.S();
    SeenJoin(s, t, u, r, a, src, k);
    if pa == 0 {
      ReachedFailed(s, t, u, r, sz, a / PGSIZE, v, true, free, c);
      return false;
    }
    PageFits(d, n, v);
    StoreBytes(m, r, d, pa, src, k, n);
    WithinTrans(t, u, m.S(), r, v, v + 1, {});
    ReachedMore(s, t, m.S(), r, sz, a / PGSIZE, v, true);
    StoresJoin(s, u, m.S(), r, a, src, k, n);
    ok := true;
  }

  /** Between two pages of copyout: page v is next, and k bytes are stored. */
  ghost predicate OutLoop(m: Machine, s: Phys, free: int, r: int, sz: int, a: int, src: seq<int>, d: int, v: int, k: int)
    reads m
  {
    && Place(a, |src|, d, v, k) && v == EndPage(a, k) && m.Valid() && m.f.count >= free - 3 * (v - a / PGSIZE)
    && Reached(s, m.S(), r, sz, a / PGSIZE, v, true) && Stores(s, m.S(), r, a, src, k)
  }

  /** A turn of copyout's loop. */
  method OutTurn(m: Machine, r: int, sz: int, d: int, src: seq<int>, k: int, ghost s: Phys, ghost a: int, ghost v: int,
                 ghost free: int)
    returns (ok: bool, d1: int, k1: int)
    requires IsBytes(src) && 0 <= sz <= MAXVA && Is(s, r, Top) && k < |src| && OutLoop(m, s, free, r, sz, a, src, d, v, k)
    modifies m
    ensures ok ==> k < k1 && OutLoop(m, s, free, r, sz, a, src, d1, v + 1, k1)
    ensures !ok ==> m.Valid() && Reached(s, m.S(), r, sz, a / PGSIZE, v, true) && Stores(s, m.S(), r, a, src, k)
    ensures !ok ==> Stops(s, free, r, sz, a, a + k, true)
  {
    var va0 := d / PGSIZE * PGSIZE;
    PlaceNext(a, |src|, d, v, k, Min(|src| - k, PGSIZE - (d - v * PGSIZE)));
    var n := PGSIZE - (d - va0);
    if n > |src| - k {
      n := |src| - k;
    }
    ok := OutPage(m, r, sz, d, src, k, n, s, a, v, free);
    d1, k1 := va0 + PGSIZE, k + n;
  }

  /** copyout to address dst of a process of size sz with root r: good bytes get there, all of them exactly when it
      succeeds, and the rest of what the program sees stays; it stops at the first page that cannot be had. */
  method Copyout(m: Machine, r: int, sz: int, dst: int, src: seq<int>) returns (ok: bool, ghost good: int)
    requires m.Valid() && Is(m.S(), r, Top) && UserOwns(m.S(), r) && IsBytes(src) && 0 <= sz <= MAXVA && 0 <= dst
    modifies m
    ensures m.Valid() && 0 <= good <= |src| && (ok <==> good == |src|)
    ensures Stores(old(m.S()), m.S(), r, dst, src, good)
    ensures Reached(old(m.S()), m.S(), r, sz, dst / PGSIZE, EndPage(dst, good), true)
    ensures good < |src| ==> Stops(old(m.S()), old(m.f.count), r, sz, dst, dst + good, true)
  {
    ghost var s, free, v := m.S(), m.f.count, dst / PGSIZE;
    var d, k := dst, 0;
    ReachedNone(s, r, sz, v, true);
    while k < |src|
      invariant OutLoop(m, s, free, r, sz, dst, src, d, v, k)
      decreases |src| - k
    {
      var d1, k1;
      ok, d1, k1 := OutTurn(m, r, sz, d, src, k, s, dst, v, free);
      if !ok {
        return false, k;
      }
      d, k, v := d1, k1, v + 1;
    }
    ok, good := true, k;
  }

  /** out is what the program under r sees from address a on. */
  ghost predicate Sees(s: Phys, r: int, a: int, out: seq<int>) {
    forall j :: 0 <= j < |out| ==> out[j] == Content(s, r, a + j)
  }

  lemma PieceSeen(s: Phys, r: int, a: int, n: int, more: seq<int>)
    requires Inv(s) && UserOwns(s, r) && 0 <= a < MAXVA && UserPage(Look(s, r, a / PGSIZE)) && 0 <= n &&
             a % PGSIZE + n <= PGSIZE
    requires var w := Words(s, Ppn(Look(s, r, a / PGSIZE)));
             |w| == ENTRIES && |more| == n && forall j :: 0 <= j < n ==> more[j] == PageByte(w, a % PGSIZE + j)
    ensures Sees(s, r, a, more)
  {
    forall j | 0 <= j < n ensures more[j] == Content(s, r, a + j) {
      DivMod(a + j, PGSIZE, a / PGSIZE, a % PGSIZE + j);
    }
  }

  lemma SeesMore(s: Phys, r: int, a: int, out: seq<int>, more: seq<int>)
    requires Sees(s, r, a, out) && Sees(s, r, a + |out|, more)
    ensures Sees(s, r, a, out + more)
  {
    hide Content;
    forall j | 0 <= j < |out + more| ensures (out + more)[j] == Content(s, r, a + j) {
      if j >= |out| {
        assert a + |out| + (j - |out|) == a + j;
        assert more[j - |out|] == Content(s, r, a + |out| + (j - |out|));
      }
    }
  }

  lemma SawThen(s: Phys, t: Phys, r: int, a: int, more: seq<int>)
    requires Sees(t, r, a, more) && Stores(s, t, r, 0, [], 0) && 0 <= a && a + |more| <= MAXVA
    ensures Sees(s, r, a, more)
  {
    hide Content;
  }

  /** memmove from a user page. */
  method LoadBytes(m: Machine, r: int, a: int, pa: int, n: int) returns (more: seq<int>)
    requires m.Valid() && UserOwns(m.S(), r) && 0 <= a < MAXVA && UserPage(Look(m.S(), r, a / PGSIZE))
    requires pa == Ppn(Look(m.S(), r, a / PGSIZE)) * PGSIZE && 0 <= n && a % PGSIZE + n <= PGSIZE
    ensures |more| == n && Sees(m.S(), r, a, more)
  {
    UserFrame(m.S(), r, a / PGSIZE);
    var words, o := m.mem[pa / PGSIZE], a % PGSIZE;
    more := seq(n, j requires 0 <= j < n => PageByte(words, o + j));
    PieceSeen(m.S(), r, a, n, more);
  }

  /** One page of copyin. */
  method InPage(m: Machine, r: int, sz: int, d: int, n: int, ghost s: Phys, ghost a: int, ghost v: int, ghost free: int)
    returns (ok: bool, more: seq<int>)
    requires 0 <= sz <= MAXVA && 0 <= a / PGSIZE <= v && 0 <= d && d / PGSIZE == v && 0 <= n && d % PGSIZE + n <= PGSIZE
    requires m.Valid() && Is(s, r, Top) && Reached(s, m.S(), r, sz, a / PGSIZE, v, false) && Stores(s, m.S(), r, 0, [], 0)
    requires m.f.count >= free - 3 * (v - a / PGSIZE)
    modifies m
    ensures m.Valid() && Stores(s, m.S(), r, 0, [], 0)
    ensures Reached(s, m.S(), r, sz, a / PGSIZE, if ok then v + 1 else v, false)
    ensures ok ==> m.f.count >= free - 3 * (v + 1 - a / PGSIZE) && |more| == n && Sees(s, r, d, more)
    ensures !ok ==> Blocked(s, r, sz, v, false) || (Look(s, r, v) == 0 && free < 3 * (v - a / PGSIZE + 1))
  {
    ghost var t, c := m.S(), m.f.count;
    var va0 := d / PGSIZE * PGSIZE;
    DivMod(va0, PGSIZE, v, 0);
    var pa := OpenPage(m, r, va0, sz, false);
    ghost var u := m.S();
    SeenJoin(s, t, u, r, 0, [], 0);
    if pa == 0 {
      ReachedFailed(s, t, u, r, sz, a / PGSIZE, v, false, free, c);
      return false, [];
    }
    PageFits(d, n, v);
    ReachedMore(s, t, u, r, sz, a / PGSIZE, v, false);
    more := LoadBytes(m, r, d, pa, n);
    SawThen(s, u, r, d, more);
    ok := true;
  }

  /** Between two pages of copyin: page v is next, and out has been read. */
  ghost predicate InLoop(m: Machine, s: Phys, free: int, r: int, sz: int, a: int, len: int, d: int, v: int, out: seq<int>)
    reads m
  {
    && Place(a, len, d, v, |out|) && v == EndPage(a, |out|) && m.Valid() && m.f.count >= free - 3 * (v - a / PGSIZE)
    && Reached(s, m.S(), r, sz, a / PGSIZE, v, false) && Stores(s, m.S(), r, 0, [], 0) && Sees(s, r, a, out)
  }

  /** A turn of copyin's loop. */
  method InTurn(m: Machine, r: int, sz: int, d: int, len: int, out: seq<int>, ghost s: Phys, ghost a: int, ghost v: int,
                ghost free: int)
    returns (ok: bool, d1: int, more: seq<int>)
    requires 0 <= sz <= MAXVA && Is(s, r, Top) && |out| < len && InLoop(m, s, free, r, sz, a, len, d, v, out)
    modifies m
    ensures ok ==> more != [] && InLoop(m, s, free, r, sz, a, len, d1, v + 1, out + more)
    ensures !ok ==> m.Valid() && Reached(s, m.S(), r, sz, a / PGSIZE, v, false) && Stores(s, m.S(), r, 0, [], 0)
    ensures !ok ==> Stops(s, free, r, sz, a, a + |out|, false)
  {
    var va0 := d / PGSIZE * PGSIZE;
    PlaceNext(a, len, d, v, |out|, Min(len - |out|, PGSIZE - (d - v * PGSIZE)));
    var n := PGSIZE - (d - va0);
    if n > len - |out| {
      n := len - |out|;
    }
    ok, more := InPage(m, r, sz, d, n, s, a, v, free);
    d1 := va0 + PGSIZE;
    if ok {
      SeesMore(s, r, a, out, more);
    }
  }

  /** copyin of len bytes from address a of a process of size sz with root r: out is what the program sees there, all len
      bytes exactly when it succeeds, and the program sees what it saw; it stops at the first page that cannot be had. */
  method Copyin(m: Machine, r: int, sz: int, a: int, len: int) returns (ok: bool, out: seq<int>)
    requires m.Valid() && Is(m.S(), r, Top) && UserOwns(m.S(), r) && 0 <= sz <= MAXVA && 0 <= a && 0 <= len
    modifies m
    ensures m.Valid() && |out| <= len && (ok <==> |out| == len)
    ensures Sees(old(m.S()), r, a, out) && Stores(old(m.S()), m.S(), r, 0, [], 0)
    ensures Reached(old(m.S()), m.S(), r, sz, a / PGSIZE, EndPage(a, |out|), false)
    ensures |out| < len ==> Stops(old(m.S()), old(m.f.count), r, sz, a, a + |out|, false)
  {
    ghost var s, free, v := m.S(), m.f.count, a / PGSIZE;
    var d := a;
    out := [];
    ReachedNone(s, r, sz, v, false);
    while |out| < len
      invariant InLoop(m, s, free, r, sz, a, len, d, v, out)
      decreases len - |out|
    {
      var d1, more;
      ok, d1, more := InTurn(m, r, sz, d, len, out, s, a, v, free);
      if !ok {
        return;
      }
      d, out, v := d1, out + more, v + 1;
    }
    ok := true;
  }

  lemma GetsBack(s: Phys, t: Phys, free: int, r: int, sz: int, dst: int, src: seq<int>, out: seq<int>)
    requires 0 <= dst && Stores(s, t, r, dst, src, |src|) && Reached(s, t, r, sz, dst / PGSIZE, EndPage(dst, |src|), true)
    requires |out| <= |src| && Sees(t, r, dst, out) && (|out| < |src| ==> Stops(t, free, r, sz, dst, dst + |out|, false))
    ensures out == src
  {
    hide Reached, Look, Content, EndPage;
    if |out| < |src| {
      InReach(s, t, r, sz, dst, |src|, |out|);
    }
    forall j | 0 <= j < |src| ensures out[j] == src[j] {
      InReach(s, t, r, sz, dst, |src|, j);
      assert out[j] == Content(t, r, dst + j);
    }
  }

  lemma InReach(s: Phys, t: Phys, r: int, sz: int, a: int, n: int, j: int)
    requires 0 <= a && 0 <= j < n && Reached(s, t, r, sz, a / PGSIZE, EndPage(a, n), true)
    ensures a + j < MAXVA && UserPage(Look(t, r, (a + j) / PGSIZE))
  {
    assert a / PGSIZE <= (a + j) / PGSIZE < EndPage(a, n);
    assert !Blocked(s, r, sz, (a + j) / PGSIZE, true);
  }

  /** What a copyout that succeeds has stored, a copyin gets back, whatever memory is left. */
  method CopyBack(m: Machine, r: int, sz: int, dst: int, src: seq<int>) returns (ok: bool, back: bool, out: seq<int>)
    requires m.Valid() && Is(m.S(), r, Top) && UserOwns(m.S(), r) && IsBytes(src) && 0 <= sz <= MAXVA && 0 <= dst
    modifies m
    ensures ok ==> back && out == src
  {
    ghost var s, good := m.S(), 0;
    ok, good := Copyout(m, r, sz, dst, src);
    back, out := false, [];
    if ok {
      ghost var t, free := m.S(), m.f.count;
      back, out := Copyin(m, r, sz, dst, |src|);
      GetsBack(s, t, free, r, sz, dst, src, out);
    }
  }
}

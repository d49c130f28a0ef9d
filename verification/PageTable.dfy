/** Physical pages and Sv39 page tables (kernel/vm.c, kernel/riscv.h; section 4.4 of the
    RISC-V Privileged Architecture, version 20211203). A page is 512 64-bit words and is
    named by its page number; a page-table entry is ppn * 2^10 plus ten flag bits. */
module PageTable {
  import opened Arith

  const PGSIZE := 4096
  const ENTRIES := 512
  const MAXVA := 0x40_0000_0000           // 1 << (9 + 9 + 9 + 12 - 1)
  const VPNS := 0x400_0000                // MAXVA / PGSIZE
  const TOPS := 256                       // entries of a root that addresses below MAXVA use

  const PTE_V := 1
  const PTE_R := 2
  const PTE_W := 4
  const PTE_X := 8
  const PTE_U := 16

  predicate V(e: int) { e % 2 == 1 }
  function Ppn(e: int): int { e / 1024 }
  function Flags(e: int): int { e % 1024 }
  /** Some of R, W, X: a leaf, not a pointer to the next level. */
  predicate Rwx(e: int) { e / 2 % 8 != 0 }
  /** PA2PTE(pa) | perm | PTE_V */
  function Pte(ppn: int, perm: int): int { ppn * 1024 + (if perm % 2 == 1 then perm else perm + 1) }

  /** PX(2, va), PX(1, va), PX(0, va) of the virtual page number v. */
  function Px2(v: int): int { v / 0x4_0000 % ENTRIES }
  function Px1(v: int): int { v / ENTRIES % ENTRIES }
  function Px0(v: int): int { v % ENTRIES }

  /** The one thing each physical page is used for. */
  datatype Role =
    | Free                          // on the free list
    | Held                          // in the kernel's hands
    | Top                           // root of a page table
    | Mid(r: int, i: int)           // level-1 table behind entry i of root r
    | Low(r: int, i: int, j: int)   // level-0 table behind entry j of that
    | Frame(r: int, v: int)         // user memory mapped at page v of root r and nowhere else

  datatype Phys = Phys(mem: map<int, seq<int>>, role: map<int, Role>)

  function Entry(s: Phys, p: int, i: int): int
  {
    if p in s.mem && 0 <= i < |s.mem[p]| then s.mem[p][i] else 0
  }

  predicate Is(s: Phys, p: int, x: Role) { p in s.role && s.role[p] == x }

  /** The leaf the hardware finds for page v under root r, or 0. */
  function Look(s: Phys, r: int, v: int): int
  {
    var t := Entry(s, r, Px2(v));
    if !V(t) then 0
    else
      var m := Entry(s, Ppn(t), Px1(v));
      if !V(m) then 0
      else
        var e := Entry(s, Ppn(m), Px0(v));
        if V(e) then e else 0
  }

  // ---- invariant ----

  ghost predicate TopEntry(s: Phys, p: int, i: int)
  {
    var e := Entry(s, p, i);
    V(e) ==> Flags(e) == PTE_V && Is(s, Ppn(e), Mid(p, i))
  }

  ghost predicate MidEntry(s: Phys, p: int, r: int, i: int, j: int)
  {
    var e := Entry(s, p, j);
    V(e) ==> Flags(e) == PTE_V && Is(s, Ppn(e), Low(r, i, j))
  }

  ghost predicate LowEntry(s: Phys, p: int, k: int)
  {
    var e := Entry(s, p, k);
    V(e) ==> Rwx(e)
  }

  ghost predicate PointsTo(s: Phys, p: int, i: int, q: int)
  {
    0 <= i < ENTRIES && V(Entry(s, p, i)) && Ppn(Entry(s, p, i)) == q
  }

  ghost predicate TopOk(s: Phys, p: int)
  {
    forall i :: 0 <= i < ENTRIES ==> TopEntry(s, p, i)
  }

  ghost predicate MidOk(s: Phys, p: int, r: int, i: int)
  {
    && Is(s, r, Top) && 0 <= i < TOPS && PointsTo(s, r, i, p)
    && forall j :: 0 <= j < ENTRIES ==> MidEntry(s, p, r, i, j)
  }

  ghost predicate LowOk(s: Phys, p: int, r: int, i: int, j: int)
  {
    && Is(s, r, Top) && 0 <= i < TOPS && V(Entry(s, r, i))
    && Is(s, Ppn(Entry(s, r, i)), Mid(r, i)) && PointsTo(s, Ppn(Entry(s, r, i)), j, p)
    && forall k :: 0 <= k < ENTRIES ==> LowEntry(s, p, k)
  }

  ghost predicate FrameOk(s: Phys, p: int, r: int, v: int)
  {
    Is(s, r, Top) && 0 <= v < VPNS && V(Look(s, r, v)) && Ppn(Look(s, r, v)) == p
  }

  ghost predicate RoleOk(s: Phys, p: int, x: Role)
  {
    match x
    case Free => true
    case Held => true
    case Top => TopOk(s, p)
    case Mid(r, i) => MidOk(s, p, r, i)
    case Low(r, i, j) => LowOk(s, p, r, i, j)
    case Frame(r, v) => FrameOk(s, p, r, v)
  }

  ghost predicate PageOk(s: Phys, p: int)
    requires p in s.role
  {
    p > 0 && p in s.mem && |s.mem[p]| == ENTRIES && RoleOk(s, p, s.role[p])
  }

  /** Every page has one role and every table and frame is where its role says: the
      tables form trees that share nothing. */
  ghost predicate Inv(s: Phys)
  {
    forall p {:trigger PageOk(s, p)} :: p in s.role ==> PageOk(s, p)
  }

  // ---- arithmetic of indices ----

  lemma Indices(v: int)
    requires 0 <= v < VPNS
    ensures 0 <= Px2(v) < TOPS && 0 <= Px1(v) < ENTRIES && 0 <= Px0(v) < ENTRIES
    ensures v == Vpn(Px2(v), Px1(v), Px0(v))
  {
  }

  lemma PteParts(ppn: int, perm: int)
    requires 0 <= perm < 1024
    ensures V(Pte(ppn, perm)) && Ppn(Pte(ppn, perm)) == ppn
    ensures Flags(Pte(ppn, perm)) == (if perm % 2 == 1 then perm else perm + 1)
    ensures Rwx(perm) ==> Rwx(Pte(ppn, perm))
  {
    var f := if perm % 2 == 1 then perm else perm + 1;
    assert f / 2 == perm / 2 && f % 2 == 1;
    Packed(ppn, f);
  }

  lemma Packed(ppn: int, f: int)
    requires 0 <= f < 1024
    ensures (ppn * 1024 + f) / 1024 == ppn && (ppn * 1024 + f) % 1024 == f
    ensures (ppn * 1024 + f) % 2 == f % 2 && (ppn * 1024 + f) / 2 % 8 == f / 2 % 8
  {
    var h := f / 2;
    DivMod(ppn * 1024 + f, 1024, ppn, f);
    DivMod(ppn * 1024 + f, 2, 512 * ppn + h, f % 2);
    DivMod(512 * ppn + h, 8, 64 * ppn + h / 8, h % 8);
  }

  // ---- single stores ----

  function Store(s: Phys, p: int, i: int, e: int): Phys
    requires p in s.mem && 0 <= i < |s.mem[p]|
  {
    s.(mem := s.mem[p := s.mem[p][i := e]])
  }

  function Fill(s: Phys, p: int, words: seq<int>): Phys
  {
    s.(mem := s.mem[p := words])
  }

  function SetRole(s: Phys, p: int, x: Role): Phys
  {
    s.(role := s.role[p := x])
  }

  function Zeros(): (z: seq<int>)
    ensures |z| == ENTRIES && forall i :: 0 <= i < ENTRIES ==> z[i] == 0
  {
    seq(ENTRIES, _ => 0)
  }

  /** A held page, zeroed and linked in as entry i of root r. */
  function AddMid(s: Phys, r: int, i: int, c: int): Phys
    requires r in s.mem && 0 <= i < |s.mem[r]| && c != r
  {
    SetRole(Store(Fill(s, c, Zeros()), r, i, Pte(c, 0)), c, Mid(r, i))
  }

  lemma AddMidLooks(s: Phys, r: int, i: int, c: int, r2: int, v: int)
    requires Inv(s) && Is(s, r, Top) && 0 <= i < ENTRIES && Is(s, c, Held) && !V(Entry(s, r, i))
    requires PageOk(s, r) && Is(s, r2, Top) && 0 <= v < VPNS
    ensures Look(AddMid(s, r, i, c), r2, v) == Look(s, r2, v)
  {
    var s' := AddMid(s, r, i, c);
    Indices(v);
    PteParts(c, 0);
    assert PageOk(s, r2) && TopEntry(s, r2, Px2(v));
    var t := Entry(s, r2, Px2(v));
    if V(t) {
      assert PageOk(s, Ppn(t)) && MidEntry(s, Ppn(t), r2, Px2(v), Px1(v));
    }
  }

  lemma AddMidKeeps(s: Phys, r: int, i: int, c: int)
    requires Inv(s) && Is(s, r, Top) && PageOk(s, r) && 0 <= i < TOPS && Is(s, c, Held) && !V(Entry(s, r, i))
    ensures Inv(AddMid(s, r, i, c))
  {
    var s' := AddMid(s, r, i, c);
    PteParts(c, 0);
    assert PageOk(s, c);
    forall p | p in s'.role ensures PageOk(s', p) {
      assert PageOk(s, p);
      match s.role[p]
      case Top =>
        forall k | 0 <= k < ENTRIES ensures TopEntry(s', p, k) { assert TopEntry(s, p, k); }
      case Mid(r2, i2) =>
        forall k | 0 <= k < ENTRIES ensures MidEntry(s', p, r2, i2, k) { assert MidEntry(s, p, r2, i2, k); }
      case Low(r2, i2, j2) =>
        forall k | 0 <= k < ENTRIES ensures LowEntry(s', p, k) { assert LowEntry(s, p, k); }
      case Frame(r2, v) => AddMidLooks(s, r, i, c, r2, v);
      case Held =>
      case Free =>
    }
  }

  /** A held page, zeroed and linked in as entry j of level-1 table m. */
  function AddLow(s: Phys, m: int, j: int, c: int): Phys
    requires m in s.mem && 0 <= j < |s.mem[m]| && c != m && m in s.role && s.role[m].Mid?
  {
    SetRole(Store(Fill(s, c, Zeros()), m, j, Pte(c, 0)), c, Low(s.role[m].r, s.role[m].i, j))
  }

  lemma AddLowLooks(s: Phys, m: int, j: int, c: int, r2: int, v: int)
    requires Inv(s) && m in s.role && s.role[m].Mid? && PageOk(s, m) && 0 <= j < ENTRIES
    requires Is(s, c, Held) && !V(Entry(s, m, j))
    requires Is(s, r2, Top) && 0 <= v < VPNS
    ensures Look(AddLow(s, m, j, c), r2, v) == Look(s, r2, v)
  {
    Indices(v);
    PteParts(c, 0);
    assert PageOk(s, r2) && TopEntry(s, r2, Px2(v));
    var t := Entry(s, r2, Px2(v));
    if V(t) {
      assert PageOk(s, Ppn(t)) && MidEntry(s, Ppn(t), r2, Px2(v), Px1(v));
    }
  }

  lemma AddLowKeeps(s: Phys, m: int, j: int, c: int)
    requires Inv(s) && m in s.role && s.role[m].Mid? && PageOk(s, m) && 0 <= j < ENTRIES
    requires Is(s, c, Held) && !V(Entry(s, m, j))
    ensures Inv(AddLow(s, m, j, c))
  {
    var s' := AddLow(s, m, j, c);
    PteParts(c, 0);
    assert PageOk(s, c);
    forall p | p in s'.role ensures PageOk(s', p) {
      assert PageOk(s, p);
      match s.role[p]
      case Top =>
        forall k | 0 <= k < ENTRIES ensures TopEntry(s', p, k) { assert TopEntry(s, p, k); }
      case Mid(r2, i2) =>
        forall k | 0 <= k < ENTRIES ensures MidEntry(s', p, r2, i2, k) { assert MidEntry(s, p, r2, i2, k); }
      case Low(r2, i2, j2) =>
        forall k | 0 <= k < ENTRIES ensures LowEntry(s', p, k) { assert LowEntry(s, p, k); }
      case Frame(r2, v) => AddLowLooks(s, m, j, c, r2, v);
      case Held =>
      case Free =>
    }
  }

  // ---- leaves ----

  function Vpn(i: int, j: int, k: int): int { i * 0x4_0000 + j * ENTRIES + k }

  lemma VpnParts(i: int, j: int, k: int)
    requires 0 <= i < ENTRIES && 0 <= j < ENTRIES && 0 <= k < ENTRIES
    ensures Px2(Vpn(i, j, k)) == i && Px1(Vpn(i, j, k)) == j && Px0(Vpn(i, j, k)) == k
  {
    var v := Vpn(i, j, k);
    assert v / ENTRIES == i * ENTRIES + j && v % ENTRIES == k;
    assert v / 0x4_0000 == i;
  }

  /** Storing e in entry k of level-0 table p changes one translation. */
  lemma LeafStoreLooks(s: Phys, p: int, k: int, e: int, r2: int, v: int)
    requires Inv(s) && p in s.role && s.role[p].Low? && PageOk(s, p) && 0 <= k < ENTRIES
    requires Is(s, r2, Top) && 0 <= v < VPNS
    ensures var x := s.role[p];
            Look(Store(s, p, k, e), r2, v) == if r2 == x.r && v == Vpn(x.i, x.j, k) then (if V(e) then e else 0) else Look(s, r2, v)
  {
    var x := s.role[p];
    assert PageOk(s, x.r) && TopEntry(s, x.r, x.i);
    var q := Ppn(Entry(s, x.r, x.i));
    assert PageOk(s, q) && MidEntry(s, q, x.r, x.i, x.j);
    VpnParts(x.i, x.j, k);
    Indices(v);
    assert PageOk(s, r2) && TopEntry(s, r2, Px2(v));
    var t := Entry(s, r2, Px2(v));
    if V(t) {
      assert PageOk(s, Ppn(t)) && MidEntry(s, Ppn(t), r2, Px2(v), Px1(v));
    }
  }

  /** Entry k of level-0 table p becomes e; with own, the held page behind e becomes the
      frame of that virtual page. */
  function MapLeaf(s: Phys, p: int, k: int, e: int, own: bool): Phys
    requires p in s.mem && 0 <= k < |s.mem[p]| && p in s.role && s.role[p].Low?
  {
    var s1 := Store(s, p, k, e);
    if own then SetRole(s1, Ppn(e), Frame(s.role[p].r, Vpn(s.role[p].i, s.role[p].j, k))) else s1
  }

  /** Entry k of level-0 table p becomes 0; the frame behind it falls to the kernel. */
  function ClearLeaf(s: Phys, p: int, k: int): Phys
    requires p in s.mem && 0 <= k < |s.mem[p]| && p in s.role && s.role[p].Low?
  {
    var f, x := Ppn(Entry(s, p, k)), s.role[p];
    var s1 := Store(s, p, k, 0);
    if V(Entry(s, p, k)) && Is(s, f, Frame(x.r, Vpn(x.i, x.j, k))) then SetRole(s1, f, Held) else s1
  }

  /** A leaf store that leaves the roles of tables alone keeps every page that is not a frame. */
  lemma LeafStoreKeeps(s: Phys, p: int, k: int, e: int, s': Phys, q: int)
    requires Inv(s) && p in s.role && s.role[p].Low? && PageOk(s, p) && 0 <= k < ENTRIES
    requires V(e) ==> Rwx(e)
    requires s'.mem == Store(s, p, k, e).mem && s'.role.Keys == s.role.Keys
    requires forall n :: n in s.role && (s.role[n].Top? || s.role[n].Mid? || s.role[n].Low?) ==> s'.role[n] == s.role[n]
    requires q in s.role && s'.role[q] == (if s'.role[q] == Held then Held else s.role[q]) && !s'.role[q].Frame?
    ensures PageOk(s', q)
  {
    assert PageOk(s, q);
    match s.role[q]
    case Top =>
      forall n | 0 <= n < ENTRIES ensures TopEntry(s', q, n) { assert TopEntry(s, q, n); }
    case Mid(r2, i2) =>
      forall n | 0 <= n < ENTRIES ensures MidEntry(s', q, r2, i2, n) { assert MidEntry(s, q, r2, i2, n); }
    case Low(r2, i2, j2) =>
      forall n | 0 <= n < ENTRIES ensures LowEntry(s', q, n) { assert LowEntry(s, q, n); }
    case Held =>
    case Free =>
    case Frame(r2, v) =>
  }

  lemma LooksIgnoreRoles(s: Phys, s': Phys, r: int, v: int)
    requires s'.mem == s.mem
    ensures Look(s', r, v) == Look(s, r, v)
  {
  }

  lemma MapLeafKeeps(s: Phys, p: int, k: int, e: int, own: bool)
    requires Inv(s) && p in s.role && s.role[p].Low? && PageOk(s, p) && 0 <= k < ENTRIES
    requires !V(Entry(s, p, k)) && V(e) && Rwx(e)
    requires own ==> Is(s, Ppn(e), Held)
    ensures Inv(MapLeaf(s, p, k, e, own))
  {
    var s', x := MapLeaf(s, p, k, e, own), s.role[p];
    LeafEntry(s, p, k);
    forall q | q in s'.role ensures PageOk(s', q) {
      assert PageOk(s, q);
      if s'.role[q].Frame? {
        var r2, v := s'.role[q].r, s'.role[q].v;
        assert PageOk(s, x.r);
        LeafStoreLooks(s, p, k, e, r2, v);
        LooksIgnoreRoles(Store(s, p, k, e), s', r2, v);
      } else {
        LeafStoreKeeps(s, p, k, e, s', q);
      }
    }
  }

  /** Entry k of a level-0 table is what the hardware finds for its virtual page. */
  lemma LeafEntry(s: Phys, p: int, k: int)
    requires Inv(s) && p in s.role && s.role[p].Low? && PageOk(s, p) && 0 <= k < ENTRIES
    ensures var x := s.role[p];
            && 0 <= Vpn(x.i, x.j, k) < VPNS
            && Look(s, x.r, Vpn(x.i, x.j, k)) == (if V(Entry(s, p, k)) then Entry(s, p, k) else 0)
  {
    var x := s.role[p];
    assert PageOk(s, x.r) && TopEntry(s, x.r, x.i);
    VpnParts(x.i, x.j, k);
  }

  lemma ClearLeafKeeps(s: Phys, p: int, k: int)
    requires Inv(s) && p in s.role && s.role[p].Low? && PageOk(s, p) && 0 <= k < ENTRIES
    ensures Inv(ClearLeaf(s, p, k))
  {
    var s', x := ClearLeaf(s, p, k), s.role[p];
    LeafEntry(s, p, k);
    forall q | q in s'.role ensures PageOk(s', q) {
      assert PageOk(s, q);
      if s'.role[q].Frame? {
        LeafStoreLooks(s, p, k, 0, s'.role[q].r, s'.role[q].v);
        LooksIgnoreRoles(Store(s, p, k, 0), s', s'.role[q].r, s'.role[q].v);
      } else {
        LeafStoreKeeps(s, p, k, 0, s', q);
      }
    }
  }

  // ---- pages that are in no table ----

  /** A page outside every table gets new contents and a new role. */
  function Refill(s: Phys, p: int, words: seq<int>, x: Role): Phys
  {
    SetRole(Fill(s, p, words), p, x)
  }

  predicate Loose(s: Phys, p: int) { Is(s, p, Free) || Is(s, p, Held) }

  lemma RefillLooks(s: Phys, p: int, words: seq<int>, x: Role, r: int, v: int)
    requires Inv(s) && Loose(s, p) && Is(s, r, Top) && 0 <= v < VPNS
    ensures Look(Refill(s, p, words, x), r, v) == Look(s, r, v)
  {
    Indices(v);
    assert PageOk(s, r) && TopEntry(s, r, Px2(v));
    var t := Entry(s, r, Px2(v));
    if V(t) {
      assert PageOk(s, Ppn(t)) && MidEntry(s, Ppn(t), r, Px2(v), Px1(v));
    }
  }

  lemma RefillKeeps(s: Phys, p: int, words: seq<int>, x: Role)
    requires Inv(s) && Loose(s, p) && |words| == ENTRIES
    requires x == Free || x == Held || (x == Top && words == Zeros())
    ensures Inv(Refill(s, p, words, x))
  {
    var s' := Refill(s, p, words, x);
    assert PageOk(s, p);
    forall q | q in s'.role ensures PageOk(s', q) {
      if q != p {
        assert PageOk(s, q);
        match s.role[q]
        case Top =>
          forall n | 0 <= n < ENTRIES ensures TopEntry(s', q, n) { assert TopEntry(s, q, n); }
        case Mid(r2, i2) =>
          forall n | 0 <= n < ENTRIES ensures MidEntry(s', q, r2, i2, n) { assert MidEntry(s, q, r2, i2, n); }
        case Low(r2, i2, j2) =>
          forall n | 0 <= n < ENTRIES ensures LowEntry(s', q, n) { assert LowEntry(s, q, n); }
        case Frame(r2, v) => RefillLooks(s, p, words, x, r2, v);
        case Held =>
        case Free =>
      }
    }
  }

  // ---- taking tables out, as freewalk does ----

  /** No entry of table p is valid. */
  ghost predicate Blank(s: Phys, p: int)
  {
    forall i :: 0 <= i < ENTRIES ==> !V(Entry(s, p, i))
  }

  /** The table and entry that point to table p. */
  function Parent(s: Phys, p: int): int
    requires p in s.role
  {
    match s.role[p]
    case Mid(r, i) => r
    case Low(r, i, j) => Ppn(Entry(s, r, i))
    case _ => 0
  }

  function ParentIndex(s: Phys, p: int): int
    requires p in s.role
  {
    match s.role[p]
    case Mid(r, i) => i
    case Low(r, i, j) => j
    case _ => 0
  }

  /** Table p leaves its tree and falls to the kernel. */
  function Drop(s: Phys, p: int): Phys
    requires p in s.role
  {
    var q, i := Parent(s, p), ParentIndex(s, p);
    SetRole(if q in s.mem && 0 <= i < |s.mem[q]| then Store(s, q, i, 0) else s, p, Held)
  }

  lemma DropLooks(s: Phys, p: int, r: int, v: int)
    requires Inv(s) && p in s.role && (s.role[p].Mid? || s.role[p].Low?) && Blank(s, p)
    requires Is(s, r, Top) && 0 <= v < VPNS
    ensures Look(Drop(s, p), r, v) == Look(s, r, v)
  {
    assert PageOk(s, p) && PageOk(s, Parent(s, p));
    Indices(v);
    assert PageOk(s, r) && TopEntry(s, r, Px2(v));
    var t := Entry(s, r, Px2(v));
    if V(t) {
      assert PageOk(s, Ppn(t)) && MidEntry(s, Ppn(t), r, Px2(v), Px1(v));
      assert !V(Entry(s, p, Px1(v))) && !V(Entry(s, p, Px0(v)));
    }
  }

  lemma DropTopKeeps(s: Phys, p: int)
    requires Inv(s) && Is(s, p, Top) && Blank(s, p)
    ensures Inv(SetRole(s, p, Held))
  {
    var s' := SetRole(s, p, Held);
    forall n | n in s'.role ensures PageOk(s', n) {
      assert PageOk(s, n);
      match s'.role[n]
      case Top =>
        forall k | 0 <= k < ENTRIES ensures TopEntry(s', n, k) { assert TopEntry(s, n, k); }
      case Mid(r2, i2) =>
        forall k | 0 <= k < ENTRIES ensures MidEntry(s', n, r2, i2, k) { assert MidEntry(s, n, r2, i2, k); }
      case Low(r2, i2, j2) =>
        assert PageOk(s, Ppn(Entry(s, r2, i2)));
        forall k | 0 <= k < ENTRIES ensures LowEntry(s', n, k) { assert LowEntry(s, n, k); }
      case Frame(r2, v) =>
        Indices(v);
        assert r2 == p ==> !V(Entry(s, p, Px2(v)));
        LooksIgnoreRoles(s, s', r2, v);
      case Held =>
      case Free =>
    }
  }

  lemma DropKeeps(s: Phys, p: int)
    requires Inv(s) && p in s.role && (s.role[p].Mid? || s.role[p].Low?) && Blank(s, p)
    ensures Inv(Drop(s, p))
  {
    var s', q, i := Drop(s, p), Parent(s, p), ParentIndex(s, p);
    assert PageOk(s, p) && PageOk(s, q);
    forall n | n in s'.role ensures PageOk(s', n) {
      assert PageOk(s, n);
      match s'.role[n]
      case Top =>
        forall k | 0 <= k < ENTRIES ensures TopEntry(s', n, k) { assert TopEntry(s, n, k); }
      case Mid(r2, i2) =>
        forall k | 0 <= k < ENTRIES ensures MidEntry(s', n, r2, i2, k) { assert MidEntry(s, n, r2, i2, k); }
      case Low(r2, i2, j2) =>
        assert PageOk(s, Ppn(Entry(s, r2, i2)));
        assert !V(Entry(s, p, j2));
        forall k | 0 <= k < ENTRIES ensures LowEntry(s', n, k) { assert LowEntry(s, n, k); }
      case Frame(r2, v) => DropLooks(s, p, r2, v);
      case Held =>
      case Free =>
    }
  }

  // ---- what an operation on one address space leaves alone ----

  ghost predicate SameLooks(s: Phys, s': Phys, r: int, lo: int, hi: int)
  {
    forall r2, v {:trigger Look(s', r2, v)} {:trigger Look(s, r2, v)} ::
      Is(s, r2, Top) && 0 <= v < VPNS && !(r2 == r && lo <= v < hi) ==> Look(s', r2, v) == Look(s, r2, v)
  }

  /** Roots stay roots, the kernel holds the same pages, frames outside pages lo..hi of
      root r stay with their owners, and pages kept that way keep their contents; nothing is said about the pages in but. */
  ghost predicate SameRoles(s: Phys, s': Phys, r: int, lo: int, hi: int, but: set<int>)
  {
    && s'.role.Keys == s.role.Keys
    && forall q {:trigger SameRole(s, s', r, lo, hi, q)} :: q in s.role && q !in but ==> SameRole(s, s', r, lo, hi, q)
  }

  ghost predicate SameRole(s: Phys, s': Phys, r: int, lo: int, hi: int, q: int)
    requires q in s.role && q in s'.role
  {
    && (s.role[q] == Top <==> s'.role[q] == Top)
    && (s.role[q] == Held <==> s'.role[q] == Held)
    && (s.role[q].Frame? && !(s.role[q].r == r && lo <= s.role[q].v < hi) ==> s'.role[q] == s.role[q])
    && (s.role[q].Frame? && !(s.role[q].r == r && lo <= s.role[q].v < hi) ==> Words(s', q) == Words(s, q))
    && (s'.role[q].Frame? && !(s'.role[q].r == r && lo <= s'.role[q].v < hi) ==> s'.role[q] == s.role[q])
    && (s.role[q] == Held ==> Words(s', q) == Words(s, q))
  }

  function Words(s: Phys, q: int): seq<int> { if q in s.mem then s.mem[q] else [] }

  /** Only translations of pages lo..hi of root r, table pages, free pages and the pages
      in but changed. */
  ghost predicate WithinBut(s: Phys, s': Phys, r: int, lo: int, hi: int, but: set<int>)
  {
    SameLooks(s, s', r, lo, hi) && SameRoles(s, s', r, lo, hi, but)
  }

  ghost predicate Within(s: Phys, s': Phys, r: int, lo: int, hi: int) { WithinBut(s, s', r, lo, hi, {}) }

  lemma WithinSelf(s: Phys, r: int)
    ensures Within(s, s, r, 0, 0)
  {
  }

  lemma WithinTrans(a: Phys, b: Phys, c: Phys, r: int, lo: int, hi: int, but: set<int>)
    requires WithinBut(a, b, r, lo, hi, but) && WithinBut(b, c, r, lo, hi, but)
    requires forall q :: q in but && q in a.role ==> a.role[q] != Top
    ensures WithinBut(a, c, r, lo, hi, but)
  {
    forall r2, v | Is(a, r2, Top) && 0 <= v < VPNS && !(r2 == r && lo <= v < hi)
      ensures Look(c, r2, v) == Look(a, r2, v)
    {
      assert SameRole(a, b, r, lo, hi, r2);
      assert Look(b, r2, v) == Look(a, r2, v);
    }
    forall q | q in a.role && q !in but ensures SameRole(a, c, r, lo, hi, q) {
      assert SameRole(a, b, r, lo, hi, q) && SameRole(b, c, r, lo, hi, q);
    }
  }

  lemma WithinWider(a: Phys, b: Phys, r: int, lo: int, hi: int, but: set<int>, lo2: int, hi2: int, but2: set<int>)
    requires WithinBut(a, b, r, lo, hi, but) && (lo >= hi || (lo2 <= lo && hi <= hi2)) && but <= but2
    ensures WithinBut(a, b, r, lo2, hi2, but2)
  {
    forall q | q in a.role && q !in but2 ensures SameRole(a, b, r, lo2, hi2, q) {
      assert SameRole(a, b, r, lo, hi, q);
    }
  }

  /** The one page left open turns out to be no exception. */
  lemma WithinClose(a: Phys, b: Phys, r: int, lo: int, hi: int, c: int)
    requires WithinBut(a, b, r, lo, hi, {c}) && c in a.role && c in b.role && SameRole(a, b, r, lo, hi, c)
    ensures Within(a, b, r, lo, hi)
  {
  }

  // ---- a new table page ----

  /** Entry i of table p of level 2 or 1 becomes a pointer to the zeroed page c. */
  function AddTable(s: Phys, p: int, i: int, c: int): Phys
    requires p in s.mem && 0 <= i < |s.mem[p]| && c != p && p in s.role && (s.role[p].Top? || s.role[p].Mid?)
  {
    if s.role[p].Top? then AddMid(s, p, i, c) else AddLow(s, p, i, c)
  }

  lemma AddTableKeeps(s: Phys, p: int, i: int, c: int, r: int)
    requires Inv(s) && p in s.role && (s.role[p].Top? || s.role[p].Mid?) && PageOk(s, p)
    requires 0 <= i < (if s.role[p].Top? then TOPS else ENTRIES) && Is(s, c, Held) && !V(Entry(s, p, i))
    ensures var s' := AddTable(s, p, i, c);
            && Inv(s') && SameLooks(s, s', r, 0, 0)
            && Entry(s', p, i) == Pte(c, 0) && Ppn(Pte(c, 0)) == c
  {
    var s' := AddTable(s, p, i, c);
    PteParts(c, 0);
    if s.role[p].Top? {
      AddMidKeeps(s, p, i, c);
      forall r2, v | Is(s, r2, Top) && 0 <= v < VPNS ensures Look(s', r2, v) == Look(s, r2, v) {
        AddMidLooks(s, p, i, c, r2, v);
      }
    } else {
      AddLowKeeps(s, p, i, c);
      forall r2, v | Is(s, r2, Top) && 0 <= v < VPNS ensures Look(s', r2, v) == Look(s, r2, v) {
        AddLowLooks(s, p, i, c, r2, v);
      }
    }
  }

  /** A free page taken and linked in as a table leaves everything else alone. */
  lemma NewTableWithin(s: Phys, c: int, words: seq<int>, p: int, i: int, r: int)
    requires Inv(s) && Is(s, c, Free) && |words| == ENTRIES
    requires p in s.role && (s.role[p].Top? || s.role[p].Mid?) && PageOk(s, p)
    requires 0 <= i < (if s.role[p].Top? then TOPS else ENTRIES) && !V(Entry(s, p, i))
    ensures var s1 := Refill(s, c, words, Held);
            p in s1.mem && |s1.mem[p]| == ENTRIES && c != p && Within(s, AddTable(s1, p, i, c), r, 0, 0)
  {
    var s1 := Refill(s, c, words, Held);
    RefillKeeps(s, c, words, Held);
    assert PageOk(s1, p);
    var s2 := AddTable(s1, p, i, c);
    AddTableKeeps(s1, p, i, c, r);
    forall r2, v | Is(s, r2, Top) && 0 <= v < VPNS ensures Look(s2, r2, v) == Look(s, r2, v) {
      RefillLooks(s, c, words, Held, r2, v);
      assert Look(s2, r2, v) == Look(s1, r2, v);
    }
    forall q | q in s.role ensures SameRole(s, s2, r, 0, 0, q) { }
  }

  lemma MapLeafWithin(s: Phys, p: int, k: int, e: int, own: bool)
    requires Inv(s) && p in s.role && s.role[p].Low? && PageOk(s, p) && 0 <= k < ENTRIES
    requires V(e) && (own ==> Is(s, Ppn(e), Held))
    ensures var s', x := MapLeaf(s, p, k, e, own), s.role[p];
            var v := Vpn(x.i, x.j, k);
            && WithinBut(s, s', x.r, v, v + 1, if own then {Ppn(e)} else {})
            && 0 <= v < VPNS && Look(s', x.r, v) == e
  {
    var s', x := MapLeaf(s, p, k, e, own), s.role[p];
    var v := Vpn(x.i, x.j, k);
    assert PageOk(s, x.r);
    LeafEntry(s, p, k);
    forall r2, w | Is(s, r2, Top) && 0 <= w < VPNS
      ensures Look(s', r2, w) == if r2 == x.r && w == v then e else Look(s, r2, w)
    {
      LeafStoreLooks(s, p, k, e, r2, w);
      LooksIgnoreRoles(Store(s, p, k, e), s', r2, w);
    }
    forall q | q in s.role && !(own && q == Ppn(e)) ensures SameRole(s, s', x.r, v, v + 1, q) { }
  }

  /** A frame handed back to the kernel while its leaf still stands. */
  lemma DisownKeeps(s: Phys, q: int)
    requires Inv(s) && q in s.role && s.role[q].Frame?
    ensures Inv(SetRole(s, q, Held))
  {
    var s' := SetRole(s, q, Held);
    forall n | n in s'.role ensures PageOk(s', n) {
      assert PageOk(s, n);
      match s'.role[n]
      case Top =>
        forall k | 0 <= k < ENTRIES ensures TopEntry(s', n, k) { assert TopEntry(s, n, k); }
      case Mid(r2, i2) =>
        forall k | 0 <= k < ENTRIES ensures MidEntry(s', n, r2, i2, k) { assert MidEntry(s, n, r2, i2, k); }
      case Low(r2, i2, j2) =>
        forall k | 0 <= k < ENTRIES ensures LowEntry(s', n, k) { assert LowEntry(s, n, k); }
      case Frame(r2, v) => LooksIgnoreRoles(s, s', r2, v);
      case Held =>
      case Free =>
    }
  }

  /** Page v of root r is unmapped or its frame belongs to it alone. */
  ghost predicate Owned(s: Phys, r: int, v: int)
  {
    V(Look(s, r, v)) ==> Is(s, Ppn(Look(s, r, v)), Frame(r, v))
  }

  ghost predicate OwnsRange(s: Phys, r: int, lo: int, hi: int)
  {
    forall v {:trigger Owned(s, r, v)} :: lo <= v < hi ==> Owned(s, r, v)
  }

  /** Page v of root r is mapped with the given flags to a frame of its own with the given
      contents. */
  ghost predicate Holds(s: Phys, r: int, v: int, words: seq<int>, perm: int)
  {
    && Look(s, r, v) == Pte(Ppn(Look(s, r, v)), perm)
    && Is(s, Ppn(Look(s, r, v)), Frame(r, v)) && Words(s, Ppn(Look(s, r, v))) == words
  }

  /** Freeing the frame of a leaf and then clearing the leaf. */
  lemma FreeLeaf(s: Phys, p: int, k: int, words: seq<int>)
    requires Inv(s) && p in s.role && s.role[p].Low? && PageOk(s, p) && 0 <= k < ENTRIES && |words| == ENTRIES
    requires var x := s.role[p];
             V(Entry(s, p, k)) && Is(s, Ppn(Entry(s, p, k)), Frame(x.r, Vpn(x.i, x.j, k)))
    ensures var x, q := s.role[p], Ppn(Entry(s, p, k));
            var v := Vpn(x.i, x.j, k);
            var s1 := SetRole(s, q, Held);
            var s2 := Refill(s1, q, words, Free);
            && Inv(s1) && Inv(s2) && p in s2.mem && |s2.mem[p]| == ENTRIES
            && Within(s, Store(s2, p, k, 0), x.r, v, v + 1)
            && 0 <= v < VPNS && Look(Store(s2, p, k, 0), x.r, v) == 0
            && Inv(Store(s2, p, k, 0))
  {
    var x, q := s.role[p], Ppn(Entry(s, p, k));
    var v := Vpn(x.i, x.j, k);
    var s1 := SetRole(s, q, Held);
    var s2 := Refill(s1, q, words, Free);
    var s3 := Store(s2, p, k, 0);
    DisownKeeps(s, q);
    RefillKeeps(s1, q, words, Free);
    assert PageOk(s, x.r) && PageOk(s2, p);
    LeafEntry(s, p, k);
    ClearLeafKeeps(s2, p, k);
    forall r2, w | Is(s, r2, Top) && 0 <= w < VPNS
      ensures Look(s3, r2, w) == if r2 == x.r && w == v then 0 else Look(s, r2, w)
    {
      LooksIgnoreRoles(s, s1, r2, w);
      RefillLooks(s1, q, words, Free, r2, w);
      LeafStoreLooks(s2, p, k, 0, r2, w);
    }
    forall n | n in s.role ensures SameRole(s, s3, x.r, v, v + 1, n) { }
  }

  lemma ClearBorrowed(s: Phys, p: int, k: int)
    requires Inv(s) && p in s.role && s.role[p].Low? && PageOk(s, p) && 0 <= k < ENTRIES
    requires var x := s.role[p]; !Is(s, Ppn(Entry(s, p, k)), Frame(x.r, Vpn(x.i, x.j, k)))
    ensures var x := s.role[p];
            var v := Vpn(x.i, x.j, k);
            && Inv(Store(s, p, k, 0)) && Within(s, Store(s, p, k, 0), x.r, v, v + 1)
            && 0 <= v < VPNS && Look(Store(s, p, k, 0), x.r, v) == 0
  {
    var x, s' := s.role[p], Store(s, p, k, 0);
    var v := Vpn(x.i, x.j, k);
    assert PageOk(s, x.r);
    ClearLeafKeeps(s, p, k);
    LeafEntry(s, p, k);
    forall r2, w | Is(s, r2, Top) && 0 <= w < VPNS
      ensures Look(s', r2, w) == if r2 == x.r && w == v then 0 else Look(s, r2, w)
    {
      LeafStoreLooks(s, p, k, 0, r2, w);
    }
    forall n | n in s.role ensures SameRole(s, s', x.r, v, v + 1, n) { }
  }

  /** Outside the changed range a page keeps its frame. */
  lemma KeepsFrame(s: Phys, s': Phys, r: int, lo: int, hi: int, v: int)
    requires Within(s, s', r, lo, hi) && Is(s, r, Top) && 0 <= v < VPNS && !(lo <= v < hi)
    ensures Look(s', r, v) == Look(s, r, v)
    ensures forall q :: Is(s', q, Frame(r, v)) <==> Is(s, q, Frame(r, v))
  {
    assert Look(s', r, v) == Look(s, r, v);
    forall q ensures Is(s', q, Frame(r, v)) <==> Is(s, q, Frame(r, v)) {
      if q in s.role { assert SameRole(s, s', r, lo, hi, q); }
    }
  }

  lemma WithinGrows(s: Phys, s1: Phys, s2: Phys, r: int, lo: int, v: int)
    requires Within(s, s1, r, lo, v) && Within(s1, s2, r, v, v + 1) && lo <= v
    ensures Within(s, s2, r, lo, v + 1)
  {
    WithinWider(s, s1, r, lo, v, {}, lo, v + 1, {});
    WithinWider(s1, s2, r, v, v + 1, {}, lo, v + 1, {});
    WithinTrans(s, s1, s2, r, lo, v + 1, {});
  }

  // ---- runs of pages ----

  /** Page v of root r is mapped to page frame n, and owns it if own. */
  ghost predicate MapsTo(s: Phys, r: int, v: int, n: int, perm: int, own: bool)
  {
    Look(s, r, v) == Pte(n, perm) && (own ==> Is(s, n, Frame(r, v)))
  }

  ghost predicate MapsRun(s: Phys, r: int, v0: int, n0: int, perm: int, own: bool, done: int)
  {
    forall i :: 0 <= i < done ==> MapsAt(s, r, v0, n0, perm, own, i)
  }

  ghost predicate MapsAt(s: Phys, r: int, v0: int, n0: int, perm: int, own: bool, i: int)
  {
    MapsTo(s, r, v0 + i, n0 + i, perm, own)
  }

  ghost function Opened(n0: int, done: int, own: bool): set<int>
  {
    if own then Span(n0, n0 + done) else {}
  }

  ghost predicate KeepsWords(s: Phys, s': Phys, n0: int, done: int)
  {
    forall q {:trigger Words(s', q)} :: n0 <= q < n0 + done ==> Words(s', q) == Words(s, q)
  }

  lemma KeepsWordsGrows(s: Phys, s1: Phys, s2: Phys, r: int, v0: int, n0: int, perm: int, done: int)
    requires 0 <= done && KeepsWords(s, s1, n0, done) && MapsRun(s1, r, v0, n0, perm, true, done)
    requires WithinBut(s, s1, r, v0, v0 + done, Opened(n0, done, true))
    requires WithinBut(s1, s2, r, v0 + done, v0 + done + 1, {n0 + done})
    requires Is(s, n0 + done, Held) && Words(s2, n0 + done) == Words(s1, n0 + done)
    ensures KeepsWords(s, s2, n0, done + 1)
  {
    forall q | n0 <= q <= n0 + done ensures Words(s2, q) == Words(s, q) {
      if q < n0 + done {
        assert MapsAt(s1, r, v0, n0, perm, true, q - n0);
        assert SameRole(s1, s2, r, v0 + done, v0 + done + 1, q);
        assert Words(s1, q) == Words(s, q);
      } else {
        assert SameRole(s, s1, r, v0, v0 + done, q);
      }
    }
  }

  lemma KeepsWordsStays(s: Phys, s1: Phys, s2: Phys, r: int, v0: int, n0: int, perm: int, done: int)
    requires KeepsWords(s, s1, n0, done) && MapsRun(s1, r, v0, n0, perm, true, done) && Within(s1, s2, r, 0, 0)
    ensures KeepsWords(s, s2, n0, done)
  {
    forall q | n0 <= q < n0 + done ensures Words(s2, q) == Words(s, q) {
      assert MapsAt(s1, r, v0, n0, perm, true, q - n0);
      assert SameRole(s1, s2, r, 0, 0, q);
      assert Words(s1, q) == Words(s, q);
    }
  }

  lemma RunStays(s: Phys, s1: Phys, s2: Phys, r: int, v0: int, n0: int, own: bool, done: int)
    requires WithinBut(s, s1, r, v0, v0 + done, Opened(n0, done, own)) && Within(s1, s2, r, 0, 0)
    requires own ==> forall q :: n0 <= q < n0 + done ==> Is(s, q, Held)
    ensures WithinBut(s, s2, r, v0, v0 + done, Opened(n0, done, own))
  {
    var but := Opened(n0, done, own);
    WithinWider(s1, s2, r, 0, 0, {}, v0, v0 + done, but);
    forall q | q in but && q in s.role ensures s.role[q] != Top { assert Is(s, q, Held); }
    WithinTrans(s, s1, s2, r, v0, v0 + done, but);
  }

  lemma RunMapped(s1: Phys, s2: Phys, r: int, v0: int, n0: int, perm: int, own: bool, done: int)
    requires 0 <= v0 && 0 <= done && (done > 0 ==> v0 + done <= VPNS) && Is(s1, r, Top)
    requires Within(s1, s2, r, 0, 0) && MapsRun(s1, r, v0, n0, perm, own, done)
    ensures MapsRun(s2, r, v0, n0, perm, own, done)
  {
    forall i | 0 <= i < done ensures MapsAt(s2, r, v0, n0, perm, own, i) {
      assert MapsAt(s1, r, v0, n0, perm, own, i);
      assert Look(s2, r, v0 + i) == Look(s1, r, v0 + i);
      if own { assert SameRole(s1, s2, r, 0, 0, n0 + i); }
    }
  }

  lemma MapsRunGrows(s: Phys, s1: Phys, s2: Phys, r: int, v0: int, n0: int, perm: int, own: bool, done: int)
    requires 0 <= done && 0 <= v0 && v0 + done < VPNS && Is(s1, r, Top)
    requires WithinBut(s, s1, r, v0, v0 + done, Opened(n0, done, own)) && MapsRun(s1, r, v0, n0, perm, own, done)
    requires WithinBut(s1, s2, r, v0 + done, v0 + done + 1, if own then {n0 + done} else {})
    requires MapsTo(s2, r, v0 + done, n0 + done, perm, own)
    requires own ==> forall q :: n0 <= q <= n0 + done ==> Is(s, q, Held)
    ensures WithinBut(s, s2, r, v0, v0 + done + 1, Opened(n0, done + 1, own))
    ensures MapsRun(s2, r, v0, n0, perm, own, done + 1)
  {
    var but := Opened(n0, done + 1, own);
    WithinWider(s, s1, r, v0, v0 + done, Opened(n0, done, own), v0, v0 + done + 1, but);
    WithinWider(s1, s2, r, v0 + done, v0 + done + 1, if own then {n0 + done} else {}, v0, v0 + done + 1, but);
    forall q | q in but && q in s.role ensures s.role[q] != Top { assert Is(s, q, Held); }
    WithinTrans(s, s1, s2, r, v0, v0 + done + 1, but);
    forall i | 0 <= i < done ensures MapsAt(s2, r, v0, n0, perm, own, i) {
      assert MapsAt(s1, r, v0, n0, perm, own, i);
      assert Look(s2, r, v0 + i) == Look(s1, r, v0 + i);
      if own { assert SameRole(s1, s2, r, v0 + done, v0 + done + 1, n0 + i); }
    }
  }

  /** A loose page refilled concerns nothing but itself. */
  lemma RefillWithin(s: Phys, c: int, words: seq<int>, x: Role, r: int, lo: int, hi: int)
    requires Inv(s) && Loose(s, c) && (x == Free || x == Held)
    ensures WithinBut(s, Refill(s, c, words, x), r, lo, hi, {c})
  {
    var s' := Refill(s, c, words, x);
    forall r2, v | Is(s, r2, Top) && 0 <= v < VPNS ensures Look(s', r2, v) == Look(s, r2, v) {
      RefillLooks(s, c, words, x, r2, v);
    }
    forall q | q in s.role && q != c ensures SameRole(s, s', r, lo, hi, q) { }
  }

  /** From s a free page c was taken and filled (s1), and the mapping made or not made (s2). */
  lemma TakenPage(s: Phys, c: int, w1: seq<int>, w2: seq<int>, s2: Phys, r: int, lo: int, hi: int)
    requires Inv(s) && Is(s, c, Free) && |w1| == ENTRIES && |w2| == ENTRIES
    requires WithinBut(Refill(Refill(s, c, w1, Held), c, w2, Held), s2, r, lo, hi, {c})
    ensures WithinBut(s, s2, r, lo, hi, {c})
  {
    var s1 := Refill(s, c, w1, Held);
    var s1' := Refill(s1, c, w2, Held);
    RefillKeeps(s, c, w1, Held);
    RefillWithin(s, c, w1, Held, r, lo, hi);
    RefillWithin(s1, c, w2, Held, r, lo, hi);
    WithinTrans(s, s1, s1', r, lo, hi, {c});
    WithinTrans(s, s1', s2, r, lo, hi, {c});
  }

  /** ... and put back. */
  lemma ReturnedPage(s: Phys, c: int, s2: Phys, words: seq<int>, r: int, v: int)
    requires Inv(s2) && Is(s, c, Free) && Is(s2, c, Held) && WithinBut(s, s2, r, v, v, {c})
    ensures Within(s, Refill(s2, c, words, Free), r, 0, 0)
  {
    var s3 := Refill(s2, c, words, Free);
    RefillWithin(s2, c, words, Free, r, v, v);
    WithinTrans(s, s2, s3, r, v, v, {c});
    WithinClose(s, s3, r, v, v, c);
    WithinWider(s, s3, r, v, v, {}, 0, 0, {});
  }

  /** Once the changed pages are unmapped again, as they were, everything is as it was. */
  lemma Restored(s: Phys, s': Phys, r: int, lo: int, hi: int)
    requires Inv(s) && Inv(s') && Within(s, s', r, lo, hi) && Is(s, r, Top) && 0 <= lo && hi <= VPNS
    requires forall v :: lo <= v < hi ==> Look(s, r, v) == 0 && Look(s', r, v) == 0
    ensures Within(s, s', r, 0, 0)
  {
    forall q | q in s.role ensures SameRole(s, s', r, 0, 0, q) {
      assert SameRole(s, s', r, lo, hi, q) && PageOk(s, q) && PageOk(s', q);
    }
  }

  lemma LookIsLeaf(s: Phys, r: int, v: int)
    requires Inv(s) && Is(s, r, Top) && 0 <= v < VPNS && V(Look(s, r, v))
    ensures Rwx(Look(s, r, v)) && Rwx(Flags(Look(s, r, v))) && 0 <= Flags(Look(s, r, v)) < 1024
    ensures Look(s, r, v) == Pte(Ppn(Look(s, r, v)), Flags(Look(s, r, v)))
  {
    Indices(v);
    assert PageOk(s, r) && TopEntry(s, r, Px2(v));
    var m := Ppn(Entry(s, r, Px2(v)));
    assert PageOk(s, m) && MidEntry(s, m, r, Px2(v), Px1(v));
    var q := Ppn(Entry(s, m, Px1(v)));
    assert PageOk(s, q) && LowEntry(s, q, Px0(v));
  }

  /** A page added at v leaves the pages before it as they are. */
  lemma HoldsStays(s: Phys, s': Phys, r: int, lo: int, hi: int, v: int, words: seq<int>, perm: int)
    requires Within(s, s', r, lo, hi) && Is(s, r, Top) && 0 <= v < VPNS && !(lo <= v < hi) && Holds(s, r, v, words, perm)
    ensures Holds(s', r, v, words, perm)
  {
    assert Look(s', r, v) == Look(s, r, v);
    assert SameRole(s, s', r, lo, hi, Ppn(Look(s, r, v)));
  }

  lemma NewRoot(s: Phys, c: int, words: seq<int>)
    requires Inv(s) && Is(s, c, Free) && |words| == ENTRIES
    ensures var s2 := Refill(Refill(s, c, words, Held), c, Zeros(), Top);
            && WithinBut(s, s2, c, 0, 0, {c})
            && forall v :: 0 <= v < VPNS ==> Look(s2, c, v) == 0
  {
    var s1 := Refill(s, c, words, Held);
    var s2 := Refill(s1, c, Zeros(), Top);
    RefillKeeps(s, c, words, Held);
    forall r2, v | Is(s, r2, Top) && 0 <= v < VPNS ensures Look(s2, r2, v) == Look(s, r2, v) {
      RefillLooks(s, c, words, Held, r2, v);
      RefillLooks(s1, c, Zeros(), Top, r2, v);
    }
    forall q | q in s.role && q != c ensures SameRole(s, s2, c, 0, 0, q) { }
    forall v | 0 <= v < VPNS ensures Look(s2, c, v) == 0 { Indices(v); }
  }

  // ---- a whole subtree, as freewalk takes it down ----

  predicate IsTable(x: Role) { x.Top? || x.Mid? || x.Low? }

  function Level(x: Role): nat { if x.Top? then 2 else if x.Mid? then 1 else 0 }

  /** Page q is table p or a table below it. */
  predicate InTree(s: Phys, p: int, q: int)
    requires p in s.role && q in s.role
  {
    q == p || BelowEntry(s.role[p], p, s.role[q]) >= 0
  }

  /** The entry of table p (with role x) below which a table with role y hangs, or -1. */
  function BelowEntry(x: Role, p: int, y: Role): int
  {
    match x
    case Top => if (y.Mid? || y.Low?) && y.r == p then y.i else -1
    case Mid(r, i) => if y.Low? && y.r == r && y.i == i then y.j else -1
    case _ => -1
  }

  /** No leaf is left below p. */
  ghost predicate NoLeaves(s: Phys, p: int)
    requires p in s.role
  {
    forall q {:trigger Blank(s, q)} :: q in s.role && s.role[q].Low? && InTree(s, p, q) ==> Blank(s, q)
  }

  /** The tables below the first n entries of p, and p itself if all, are free in s'; other
      pages are as they were in s, tables in use and kept pages with their contents. */
  ghost predicate Gone(s: Phys, s': Phys, p: int, n: int, all: bool)
    requires p in s.role
  {
    && s'.role.Keys == s.role.Keys
    && (forall q {:trigger GoneAt(s, s', p, n, all, q)} :: q in s.role ==> GoneAt(s, s', p, n, all, q))
  }

  ghost predicate GoneAt(s: Phys, s': Phys, p: int, n: int, all: bool, q: int)
    requires p in s.role && q in s.role && q in s'.role
  {
    if (all && q == p) || 0 <= BelowEntry(s.role[p], p, s.role[q]) < n then s'.role[q] == Free
    else s'.role[q] == s.role[q] && (q != p && s.role[q] != Free ==> Words(s', q) == Words(s, q))
  }

  /** s with the entry that led to p cleared. */
  function Unlinked(s: Phys, q: int, i: int): Phys
  {
    if q > 0 && q in s.mem && 0 <= i < |s.mem[q]| then Store(s, q, i, 0) else s
  }

  lemma SameEntries(s: Phys, s': Phys, q: int)
    requires Words(s', q) == Words(s, q)
    ensures forall i :: Entry(s', q, i) == Entry(s, q, i)
  {
    forall i ensures Entry(s', q, i) == Entry(s, q, i) {
      assert Entry(s, q, i) == if 0 <= i < |Words(s, q)| then Words(s, q)[i] else 0;
      assert Entry(s', q, i) == if 0 <= i < |Words(s', q)| then Words(s', q)[i] else 0;
    }
  }

  /** A valid entry of a table without leaves below it leads to a lower table. */
  lemma ChildTable(s: Phys, p: int, i: int)
    requires Inv(s) && p in s.role && IsTable(s.role[p]) && NoLeaves(s, p) && 0 <= i < ENTRIES && V(Entry(s, p, i))
    ensures var c := Ppn(Entry(s, p, i));
            && !Rwx(Entry(s, p, i)) && c in s.role && IsTable(s.role[c]) && Level(s.role[c]) < Level(s.role[p])
            && Parent(s, c) == p && ParentIndex(s, c) == i && c != p
            && NoLeaves(s, c) && !InTree(s, c, p)
  {
    assert PageOk(s, p);
    assert s.role[p].Low? ==> Blank(s, p);
    match s.role[p]
    case Top => assert TopEntry(s, p, i);
    case Mid(r, j) => assert MidEntry(s, p, r, j, i);
    case Low(r, j, k) => assert false;
  }

  /** Nothing hangs below an invalid entry. */
  lemma NothingBelow(s: Phys, p: int, i: int, q: int)
    requires Inv(s) && p in s.role && IsTable(s.role[p]) && 0 <= i < ENTRIES && !V(Entry(s, p, i)) && q in s.role
    ensures BelowEntry(s.role[p], p, s.role[q]) != i
  {
    assert PageOk(s, p) && PageOk(s, q);
  }

  /** What hangs below entry i of p is the tree of the table that entry leads to. */
  lemma ChildTree(s: Phys, p: int, i: int, q: int)
    requires Inv(s) && p in s.role && IsTable(s.role[p]) && NoLeaves(s, p) && 0 <= i < ENTRIES && V(Entry(s, p, i))
    requires q in s.role
    ensures var c := Ppn(Entry(s, p, i));
            c in s.role && (BelowEntry(s.role[p], p, s.role[q]) == i <==> InTree(s, c, q))
            && (InTree(s, c, q) && q != c ==> 0 <= BelowEntry(s.role[c], c, s.role[q]) < ENTRIES)
  {
    ChildTable(s, p, i);
    assert PageOk(s, p) && PageOk(s, q) && PageOk(s, Ppn(Entry(s, p, i)));
    match s.role[p]
    case Top => assert TopEntry(s, p, i);
    case Mid(r, j) => assert MidEntry(s, p, r, j, i);
    case Low(r, j, k) =>
  }

  lemma GoneSkips(s: Phys, s1: Phys, p: int, i: int)
    requires Inv(s1) && p in s.role && IsTable(s.role[p]) && Gone(s, s1, p, i, false)
    requires 0 <= i < ENTRIES && !V(Entry(s1, p, i))
    ensures Gone(s, s1, p, i + 1, false)
  {
    assert GoneAt(s, s1, p, i, false, p);
    forall q | q in s.role ensures GoneAt(s, s1, p, i + 1, false, q) {
      assert GoneAt(s, s1, p, i, false, q);
      NothingBelow(s1, p, i, q);
    }
  }

  lemma GoneGrows(s: Phys, s1: Phys, s2: Phys, p: int, i: int)
    requires Inv(s1) && p in s.role && IsTable(s.role[p]) && Gone(s, s1, p, i, false) && p in s1.role && s1.role[p] == s.role[p]
    requires NoLeaves(s1, p) && 0 <= i < ENTRIES && V(Entry(s1, p, i))
    requires var c := Ppn(Entry(s1, p, i)); c in s1.role && Gone(s1, s2, c, ENTRIES, true)
    ensures p in s2.role && s2.role[p] == s.role[p] && Words(s2, p) == Words(s1, p)
    ensures Gone(s, Unlinked(s2, p, i), p, i + 1, false)
  {
    var c, s3 := Ppn(Entry(s1, p, i)), Unlinked(s2, p, i);
    ChildTable(s1, p, i);
    assert GoneAt(s1, s2, c, ENTRIES, true, p);
    forall q | q in s.role ensures GoneAt(s, s3, p, i + 1, false, q) {
      assert GoneAt(s, s1, p, i, false, q);
      ChildTree(s1, p, i, q);
      assert GoneAt(s1, s2, c, ENTRIES, true, q);
    }
  }

  lemma NoLeavesLeft(s1: Phys, s2: Phys, p: int, i: int)
    requires Inv(s1) && p in s1.role && IsTable(s1.role[p]) && NoLeaves(s1, p) && 0 <= i < ENTRIES && V(Entry(s1, p, i))
    requires var c := Ppn(Entry(s1, p, i)); c in s1.role && Gone(s1, s2, c, ENTRIES, true)
    requires p in s2.role && s2.role[p] == s1.role[p]
    ensures p in Unlinked(s2, p, i).role && NoLeaves(Unlinked(s2, p, i), p)
  {
    var c, s3 := Ppn(Entry(s1, p, i)), Unlinked(s2, p, i);
    ChildTable(s1, p, i);
    forall q | q in s3.role && s3.role[q].Low? && InTree(s3, p, q) ensures Blank(s3, q) {
      assert GoneAt(s1, s2, c, ENTRIES, true, q);
      ChildTree(s1, p, i, q);
      assert Blank(s1, q);
      assert q != p && Words(s3, q) == Words(s1, q);
      SameEntries(s1, s3, q);
    }
  }

  /** The last step for table p: its page is freed while its parent still points to it. */
  lemma TableFreed(s: Phys, p: int, words: seq<int>)
    requires Inv(s) && p in s.role && IsTable(s.role[p]) && Blank(s, p) && |words| == ENTRIES
    ensures var s' := Unlinked(Refill(SetRole(s, p, Held), p, words, Free), Parent(s, p), ParentIndex(s, p));
            Inv(s') && SameLooks(s, s', p, 0, VPNS)
  {
    var q, i := Parent(s, p), ParentIndex(s, p);
    assert PageOk(s, p);
    if s.role[p].Top? {
      DropTopKeeps(s, p);
      RefillKeeps(SetRole(s, p, Held), p, words, Free);
      forall r2, v | Is(s, r2, Top) && r2 != p && 0 <= v < VPNS
        ensures Look(Refill(SetRole(s, p, Held), p, words, Free), r2, v) == Look(s, r2, v)
      {
        LooksIgnoreRoles(s, SetRole(s, p, Held), r2, v);
        RefillLooks(SetRole(s, p, Held), p, words, Free, r2, v);
      }
    } else {
      assert PageOk(s, q);
      DropKeeps(s, p);
      var d := Drop(s, p);
      RefillKeeps(d, p, words, Free);
      assert Unlinked(Refill(SetRole(s, p, Held), p, words, Free), q, i) == Refill(d, p, words, Free);
      forall r2, v | Is(s, r2, Top) && 0 <= v < VPNS
        ensures Look(Refill(d, p, words, Free), r2, v) == Look(s, r2, v)
      {
        DropLooks(s, p, r2, v);
        RefillLooks(d, p, words, Free, r2, v);
      }
    }
  }

  lemma GoneNone(s: Phys, p: int)
    requires p in s.role
    ensures Gone(s, s, p, 0, false)
  {
    forall q | q in s.role ensures GoneAt(s, s, p, 0, false, q) { }
  }

  lemma GoneAll(s: Phys, s1: Phys, p: int, words: seq<int>)
    requires Inv(s) && Inv(s1) && p in s.role && IsTable(s.role[p]) && Gone(s, s1, p, ENTRIES, false)
    ensures Gone(s, Refill(SetRole(s1, p, Held), p, words, Free), p, ENTRIES, true)
    ensures p in s1.role && Parent(s1, p) == Parent(s, p) && ParentIndex(s1, p) == ParentIndex(s, p)
  {
    var s' := Refill(SetRole(s1, p, Held), p, words, Free);
    forall q | q in s.role ensures GoneAt(s, s', p, ENTRIES, true, q) { assert GoneAt(s, s1, p, ENTRIES, false, q); }
    assert GoneAt(s, s1, p, ENTRIES, false, p) && PageOk(s, p);
    if s.role[p].Low? {
      assert GoneAt(s, s1, p, ENTRIES, false, s.role[p].r) && PageOk(s, s.role[p].r);
      SameEntries(s, s1, s.role[p].r);
    }
  }

  lemma LooksTrans(a: Phys, b: Phys, c: Phys, p: int, n: int, child: int)
    requires p in a.role && Gone(a, b, p, n, false)
    requires SameLooks(a, b, p, 0, VPNS) && SameLooks(b, c, child, 0, VPNS) && !Is(b, child, Top)
    ensures SameLooks(a, c, p, 0, VPNS)
  {
    forall r, v | Is(a, r, Top) && r != p && 0 <= v < VPNS ensures Look(c, r, v) == Look(a, r, v) {
      assert GoneAt(a, b, p, n, false, r);
      assert Look(b, r, v) == Look(a, r, v);
    }
  }

  /** One entry of freewalk's loop: the subtree below entry i went, then the entry. */
  lemma ChildFreed(s: Phys, s1: Phys, s2: Phys, p: int, i: int)
    requires Inv(s1) && p in s.role && IsTable(s.role[p]) && Gone(s, s1, p, i, false) && p in s1.role && s1.role[p] == s.role[p]
    requires NoLeaves(s1, p) && 0 <= i < ENTRIES && V(Entry(s1, p, i)) && SameLooks(s, s1, p, 0, VPNS)
    requires forall j :: 0 <= j < i ==> !V(Entry(s1, p, j))
    requires var c := Ppn(Entry(s1, p, i));
             c in s1.role && Gone(s1, s2, c, ENTRIES, true) && SameLooks(s1, Unlinked(s2, p, i), c, 0, VPNS)
    ensures var s3 := Unlinked(s2, p, i);
            && p in s2.mem && |s2.mem[p]| == ENTRIES && p > 0
            && p in s3.role && s3.role[p] == s.role[p] && Gone(s, s3, p, i + 1, false)
            && NoLeaves(s3, p) && SameLooks(s, s3, p, 0, VPNS)
            && forall j :: 0 <= j <= i ==> !V(Entry(s3, p, j))
  {
    var s3 := Unlinked(s2, p, i);
    ChildTable(s1, p, i);
    assert PageOk(s1, p) && PageOk(s1, Ppn(Entry(s1, p, i)));
    GoneGrows(s, s1, s2, p, i);
    NoLeavesLeft(s1, s2, p, i);
    SameEntries(s1, s2, p);
    LooksTrans(s, s1, s3, p, i, Ppn(Entry(s1, p, i)));
    forall j | 0 <= j <= i ensures !V(Entry(s3, p, j)) {
      assert Entry(s2, p, j) == Entry(s1, p, j);
    }
  }

  /** The end of freewalk, as one step from the state it was called in. */
  lemma TreeFreed(s: Phys, s1: Phys, p: int, words: seq<int>)
    requires Inv(s) && Inv(s1) && p in s.role && IsTable(s.role[p]) && Gone(s, s1, p, ENTRIES, false)
    requires SameLooks(s, s1, p, 0, VPNS) && Blank(s1, p) && |words| == ENTRIES
    ensures var s' := Refill(SetRole(s1, p, Held), p, words, Free);
            var u := Unlinked(s', Parent(s, p), ParentIndex(s, p));
            && Gone(s, s', p, ENTRIES, true) && Inv(u) && SameLooks(s, u, p, 0, VPNS)
  {
    GoneAll(s, s1, p, words);
    assert GoneAt(s, s1, p, ENTRIES, false, p);
    TableFreed(s1, p, words);
    var u := Unlinked(Refill(SetRole(s1, p, Held), p, words, Free), Parent(s, p), ParentIndex(s, p));
    forall r, v | Is(s, r, Top) && r != p && 0 <= v < VPNS ensures Look(u, r, v) == Look(s, r, v) {
      assert GoneAt(s, s1, p, ENTRIES, false, r);
      assert Look(s1, r, v) == Look(s, r, v);
    }
  }

  // ---- taking down an address space ----

  /** Roles changed only from frame of pages lo..hi of root r to free. */
  ghost predicate Released(s: Phys, s': Phys, r: int, lo: int, hi: int)
  {
    && s'.role.Keys == s.role.Keys
    && forall q {:trigger s'.role[q]} :: q in s.role ==>
         s'.role[q] == s.role[q] || (s'.role[q] == Free && s.role[q].Frame? && s.role[q].r == r && lo <= s.role[q].v < hi)
  }

  /** Page q is a table or a frame of root r. */
  predicate BelongsTo(x: Role, q: int, r: int)
  {
    match x
    case Top => q == r
    case Mid(r2, i) => r2 == r
    case Low(r2, i, j) => r2 == r
    case Frame(r2, v) => r2 == r
    case _ => false
  }

  lemma NoLooksNoLeaves(s: Phys, r: int)
    requires Inv(s) && Is(s, r, Top) && forall v :: 0 <= v < VPNS ==> Look(s, r, v) == 0
    ensures NoLeaves(s, r)
    ensures forall q :: q in s.role && s.role[q].Frame? ==> s.role[q].r != r
  {
    forall q | q in s.role && s.role[q].Low? && InTree(s, r, q) ensures Blank(s, q) {
      assert PageOk(s, q);
      forall k | 0 <= k < ENTRIES ensures !V(Entry(s, q, k)) { LeafEntry(s, q, k); }
    }
    forall q | q in s.role && s.role[q].Frame? ensures s.role[q].r != r { assert PageOk(s, q); }
  }

  /** Unmapping everything and then freeing the tables frees exactly what belonged to r. */
  lemma AllGone(s: Phys, s1: Phys, s2: Phys, r: int, n: int)
    requires Inv(s) && Inv(s1) && Is(s, r, Top) && Is(s1, r, Top) && Released(s, s1, r, 0, n) && Gone(s1, s2, r, ENTRIES, true)
    requires forall q :: q in s1.role && s1.role[q].Frame? ==> s1.role[q].r != r
    ensures s2.role.Keys == s.role.Keys
    ensures forall q :: q in s.role ==> s2.role[q] == if BelongsTo(s.role[q], q, r) then Free else s.role[q]
  {
    forall q | q in s.role ensures s2.role[q] == if BelongsTo(s.role[q], q, r) then Free else s.role[q] {
      assert GoneAt(s1, s2, r, ENTRIES, true, q) && PageOk(s1, q);
      assert s1.role[q] == s.role[q] || s1.role[q] == Free;
    }
  }
}

/** The block layer of the file system as a value: the blocks, the inodes' block maps and, for every block, its
    one use. Bitmap bits and indirect entries are read out of the bytes of the blocks that hold them. */
module BlockMap {
  import opened Params

  const NDIRECT := 12
  const NINDIRECT := 256
  const MAXFILE := 268
  const MAXBYTES := 274432   // MAXFILE * BSIZE
  const BPB := 8192
  // The block slots of an inode: 12 direct, the indirect block itself, then its entries.
  const SLOTS := 269

  datatype Inode = Inode(size: int, addrs: seq<int>)

  /** What a block is used for: metadata, nothing, handed out but not yet in a block map, or slot k of an inode. */
  datatype Role = Meta | Free | Held | Slot(inum: int, k: int)

  datatype Fs = Fs(bmapstart: int, nmeta: int, disk: seq<seq<int>>, inode: seq<Inode>, role: seq<Role>)

  // Bytes, words and bits.

  predicate IsBlock(x: seq<int>) {
    |x| == BSIZE && forall k :: 0 <= k < BSIZE ==> 0 <= x[k] < 256
  }

  function ZeroBlock(): (x: seq<int>)
    ensures IsBlock(x) && forall k :: 0 <= k < BSIZE ==> x[k] == 0
  {
    seq(BSIZE, _ => 0)
  }

  /** Entry j of a block read as little-endian 32-bit words. */
  function Word(x: seq<int>, j: int): int
    requires |x| == BSIZE && 0 <= j < NINDIRECT
  {
    x[4 * j] + 256 * x[4 * j + 1] + 65536 * x[4 * j + 2] + 16777216 * x[4 * j + 3]
  }

  function PutWord(x: seq<int>, j: int, v: int): (y: seq<int>)
    requires |x| == BSIZE && 0 <= j < NINDIRECT
    ensures |y| == BSIZE
  {
    x[4 * j := v % 256][4 * j + 1 := v / 256 % 256][4 * j + 2 := v / 65536 % 256][4 * j + 3 := v / 16777216 % 256]
  }

  lemma FourBytes(v: int)
    requires 0 <= v < 0x1_0000_0000
    ensures v == v % 256 + 256 * (v / 256 % 256) + 65536 * (v / 65536 % 256) + 16777216 * (v / 16777216 % 256)
  {
    var a, b, c := v / 256, v / 65536, v / 16777216;
    assert v == 256 * a + v % 256;
    assert a == 256 * b + a % 256 by { assert b == a / 256; }
    assert b == 256 * c + b % 256 by { assert c == b / 256; }
    assert 0 <= c < 256;
  }

  lemma WordOfPut(x: seq<int>, j: int, v: int)
    requires IsBlock(x) && 0 <= j < NINDIRECT && 0 <= v < 0x1_0000_0000
    ensures IsBlock(PutWord(x, j, v)) && Word(PutWord(x, j, v), j) == v
    ensures forall k :: 0 <= k < NINDIRECT && k != j ==> Word(PutWord(x, j, v), k) == Word(x, k)
  {
    FourBytes(v);
  }

  lemma WordBounds(x: seq<int>, j: int)
    requires IsBlock(x) && 0 <= j < NINDIRECT
    ensures 0 <= Word(x, j) < 0x1_0000_0000 && (x == ZeroBlock() ==> Word(x, j) == 0)
  {
  }

  predicate TestBit(x: int, k: int)
    requires 0 <= k
    decreases k
  {
    if k == 0 then x % 2 == 1 else TestBit(x / 2, k - 1)
  }

  function SetBit(x: int, k: int, on: bool): int
    requires 0 <= k
    decreases k
  {
    if k == 0 then x - x % 2 + (if on then 1 else 0) else x % 2 + 2 * SetBit(x / 2, k - 1, on)
  }

  lemma HalfOf(r: int, y: int)
    requires 0 <= r < 2
    ensures (r + 2 * y) / 2 == y && (r + 2 * y) % 2 == r
  {
  }

  lemma {:induction false} BitOfSet(x: int, k: int, on: bool, j: int)
    requires 0 <= k && 0 <= j
    ensures TestBit(SetBit(x, k, on), j) == if j == k then on else TestBit(x, j)
    decreases k
  {
    if k > 0 {
      HalfOf(x % 2, SetBit(x / 2, k - 1, on));
      if j > 0 {
        BitOfSet(x / 2, k - 1, on, j - 1);
      }
    } else {
      HalfOf(if on then 1 else 0, x / 2);
      assert x - x % 2 == 2 * (x / 2);
    }
  }

  lemma {:induction false} SetBitByte(x: int, k: int, on: bool, top: int)
    requires 0 <= k && 0 <= x < Pow2(top) && k < top
    ensures 0 <= SetBit(x, k, on) < Pow2(top)
    decreases k
  {
    if k > 0 {
      SetBitByte(x / 2, k - 1, on, top - 1);
    }
  }

  function Pow2(n: int): int {
    if n <= 0 then 1 else 2 * Pow2(n - 1)
  }

  lemma ZeroHasNoBits(k: int)
    requires 0 <= k
    ensures !TestBit(0, k)
  {
  }

  // The state.

  predicate InoOk(n: Inode) {
    |n.addrs| == NDIRECT + 1 && 0 <= n.size <= MAXBYTES
  }

  predicate Shape(s: Fs) {
    && |s.role| == |s.disk| && 0 < s.bmapstart && s.bmapstart + |s.disk| / BPB < s.nmeta <= |s.disk| < 0x8000_0000
    && (forall b :: 0 <= b < |s.disk| ==> IsBlock(s.disk[b]))
    && (forall i :: 0 <= i < |s.inode| ==> InoOk(s.inode[i]))
  }

  predicate BitOn(s: Fs, b: int)
    requires Shape(s) && 0 <= b < |s.disk|
  {
    TestBit(s.disk[s.bmapstart + b / BPB][b % BPB / 8], b % 8)
  }

  /** The block in slot k of inode i; 0 for none. */
  function At(s: Fs, i: int, k: int): int
    requires Shape(s) && 0 <= i < |s.inode| && 0 <= k < SLOTS
  {
    var a := s.inode[i].addrs;
    if k <= NDIRECT then a[k]
    else if 0 < a[NDIRECT] < |s.disk| then Word(s.disk[a[NDIRECT]], k - NDIRECT - 1) else 0
  }

  predicate SlotOk(s: Fs, i: int, k: int)
    requires Shape(s) && 0 <= i < |s.inode| && 0 <= k < SLOTS
  {
    var b := At(s, i, k);
    b != 0 ==> s.nmeta <= b < |s.disk| && s.role[b] == Slot(i, k)
  }

  predicate BlockOk(s: Fs, h: int, b: int)
    requires Shape(s) && 0 <= b < |s.disk|
  {
    && (BitOn(s, b) <==> s.role[b] != Free)
    && UseOk(s, h, b)
  }

  predicate UseOk(s: Fs, h: int, b: int)
    requires Shape(s) && 0 <= b < |s.disk|
  {
    && (b < s.nmeta <==> s.role[b] == Meta)
    && (s.role[b] == Held ==> b == h)
    && (s.role[b].Slot? ==> var u := s.role[b]; 0 <= u.inum < |s.inode| && 0 <= u.k < SLOTS && At(s, u.inum, u.k) == b)
  }

  /** Every block has the one use its role says, h is the only block in hand, and the slots lo..hi of inode x may
      dangle. */
  ghost predicate InvBut(s: Fs, h: int, x: int, lo: int, hi: int) {
    && Shape(s)
    && (forall b :: 0 <= b < |s.disk| ==> BlockOk(s, h, b))
    && (forall i, k {:trigger SlotOk(s, i, k)} ::
          0 <= i < |s.inode| && 0 <= k < SLOTS && !(i == x && lo <= k < hi) ==> SlotOk(s, i, k))
  }

  ghost predicate Inv(s: Fs) { InvBut(s, 0, 0, 0, 0) }

  /** The set bits are the metadata blocks and the blocks some inode reaches, and each of those is in one slot. */
  lemma BitsAreReachableBlocks(s: Fs, b: int)
    requires Inv(s) && 0 <= b < |s.disk|
    ensures BitOn(s, b) <==>
              b < s.nmeta || exists i, k :: 0 <= i < |s.inode| && 0 <= k < SLOTS && At(s, i, k) == b
    ensures forall i, k, j, l ::
              (0 <= i < |s.inode| && 0 <= j < |s.inode| && 0 <= k < SLOTS && 0 <= l < SLOTS &&
               At(s, i, k) == b == At(s, j, l) && b != 0) ==> i == j && k == l && s.nmeta <= b
  {
    assert BlockOk(s, 0, b) && BlockOk(s, 0, 0);
    forall i, k | 0 <= i < |s.inode| && 0 <= k < SLOTS && At(s, i, k) == b && b != 0
      ensures s.role[b] == Slot(i, k) && s.nmeta <= b
    {
      assert SlotOk(s, i, k);
    }
  }

  // File contents.

  function SlotNo(n: int): int { if n < NDIRECT then n else n + 1 }

  /** Byte o of the file, whether or not it lies below the size; blocks not allocated read as zeros. */
  function Byte(s: Fs, i: int, o: int): int
    requires Shape(s) && 0 <= i < |s.inode| && 0 <= o < MAXBYTES
  {
    var b := At(s, i, SlotNo(o / BSIZE));
    if 0 < b < |s.disk| then s.disk[b][o % BSIZE] else 0
  }

  ghost predicate SameLayout(s: Fs, t: Fs) {
    |s.disk| == |t.disk| && |s.inode| == |t.inode| && s.nmeta == t.nmeta && s.bmapstart == t.bmapstart
  }

  ghost predicate SameFiles(s: Fs, t: Fs)
    requires Shape(s) && Shape(t)
  {
    && SameLayout(s, t)
    && (forall i :: 0 <= i < |s.inode| ==> t.inode[i].size == s.inode[i].size)
    && (forall i, o {:trigger Byte(t, i, o)} ::
          0 <= i < |s.inode| && 0 <= o < MAXBYTES ==> Byte(t, i, o) == Byte(s, i, o))
  }

  ghost predicate SameSlots(s: Fs, t: Fs)
    requires Shape(s) && Shape(t)
  {
    && SameLayout(s, t)
    && (forall i, k {:trigger At(t, i, k)} :: 0 <= i < |s.inode| && 0 <= k < SLOTS ==> At(t, i, k) == At(s, i, k))
  }

  /** Blocks 0..ceil(size / BSIZE) of the file are all allocated. */
  ghost predicate NoHoles(s: Fs, i: int)
    requires Shape(s) && 0 <= i < |s.inode|
  {
    forall n {:trigger SlotNo(n)} :: 0 <= n < MAXFILE && n * BSIZE < s.inode[i].size ==> At(s, i, SlotNo(n)) != 0
  }

  // The writes the code makes, and what each keeps.

  function BitBlock(s: Fs, b: int): int { s.bmapstart + b / BPB }

  function WithBit(s: Fs, b: int, on: bool): Fs
    requires Shape(s) && 0 <= b < |s.disk|
  {
    var x, p := s.disk[BitBlock(s, b)], b % BPB / 8;
    s.(disk := s.disk[BitBlock(s, b) := x[p := SetBit(x[p], b % 8, on)]])
  }

  lemma WithBitSets(s: Fs, b: int, on: bool)
    requires Shape(s) && 0 <= b < |s.disk|
    ensures var t := WithBit(s, b, on); Shape(t) && BitOn(t, b) == on
    ensures var t := WithBit(s, b, on); forall c :: 0 <= c < |s.disk| && c != b ==> BitOn(t, c) == BitOn(s, c)
    ensures var t := WithBit(s, b, on); t == s.(disk := t.disk) && |t.disk| == |s.disk|
    ensures var t := WithBit(s, b, on); forall c :: s.nmeta <= c < |s.disk| ==> t.disk[c] == s.disk[c]
  {
    var x, p := s.disk[BitBlock(s, b)], b % BPB / 8;
    assert Pow2(8) == 256;
    SetBitByte(x[p], b % 8, on, 8);
    var y := x[p := SetBit(x[p], b % 8, on)];
    assert IsBlock(y);
    BitOfSet(x[p], b % 8, on, b % 8);
    var t := WithBit(s, b, on);
    forall c | 0 <= c < |s.disk| && c != b ensures BitOn(t, c) == BitOn(s, c) {
      if BitBlock(s, c) == BitBlock(s, b) && c % BPB / 8 == p {
        SameByteOtherBit(b, c);
        BitOfSet(x[p], b % 8, on, c % 8);
      }
    }
  }

  /** The bits live in the metadata blocks. */
  lemma SameBits(s: Fs, t: Fs)
    requires Shape(s) && Shape(t) && SameLayout(s, t) && forall c :: 0 <= c < s.nmeta ==> t.disk[c] == s.disk[c]
    ensures forall c {:trigger BitOn(t, c)} :: 0 <= c < |s.disk| ==> BitOn(t, c) == BitOn(s, c)
  {
    forall c | 0 <= c < |s.disk| ensures BitOn(t, c) == BitOn(s, c) {
      BitBlockRange(s, c);
    }
  }

  lemma BitBlockRange(s: Fs, b: int)
    requires Shape(s) && 0 <= b < |s.disk|
    ensures s.bmapstart <= BitBlock(s, b) < s.nmeta && b % BPB % 8 == b % 8 && 0 <= b % BPB / 8 < BSIZE
  {
  }

  lemma SameByteOtherBit(b: int, c: int)
    requires 0 <= b && 0 <= c && b != c && b / BPB == c / BPB && b % BPB / 8 == c % BPB / 8
    ensures b % 8 != c % 8
  {
    assert b == b / BPB * BPB + b % BPB / 8 * 8 + b % 8;
    assert c == c / BPB * BPB + c % BPB / 8 * 8 + c % 8;
  }

  function TakeBlock(s: Fs, b: int): Fs
    requires Shape(s) && 0 <= b < |s.disk|
  {
    var t := WithBit(s, b, true);
    t.(disk := t.disk[b := ZeroBlock()], role := s.role[b := Held])
  }

  lemma TakeBlockKeeps(s: Fs, b: int)
    requires Inv(s) && 0 <= b < |s.disk| && s.role[b] == Free
    ensures var t := TakeBlock(s, b); InvBut(t, b, 0, 0, 0) && SameSlots(s, t) && SameFiles(s, t)
  {
    var m, t := WithBit(s, b, true), TakeBlock(s, b);
    WithBitSets(s, b, true);
    hide Word, TestBit, WithBit;
    assert BlockOk(s, 0, b);
    assert Shape(t);
    SameBits(m, t);
    hide BitOn, Word, IsBlock;
    forall i, k | 0 <= i < |s.inode| && 0 <= k < SLOTS ensures At(t, i, k) == At(s, i, k) && SlotOk(t, i, k) {
      assert SlotOk(s, i, NDIRECT) && SlotOk(s, i, k);
    }
    forall c | 0 <= c < |s.disk| ensures BlockOk(t, b, c) {
      assert BlockOk(s, 0, c);
    }
    forall i, o | 0 <= i < |s.inode| && 0 <= o < MAXBYTES ensures Byte(t, i, o) == Byte(s, i, o) {
      assert SlotOk(s, i, SlotNo(o / BSIZE));
    }
  }

  /** Block h, in hand, enters slot k of inode i, which is in the inode itself. */
  function Attach(s: Fs, i: int, k: int, h: int): Fs
    requires Shape(s) && 0 <= i < |s.inode| && 0 <= k <= NDIRECT && 0 <= h < |s.disk|
  {
    s.(inode := s.inode[i := s.inode[i].(addrs := s.inode[i].addrs[k := h])], role := s.role[h := Slot(i, k)])
  }

  lemma AttachKeeps(s: Fs, i: int, k: int, h: int)
    requires Shape(s) && 0 <= i < |s.inode| && 0 <= k <= NDIRECT && 0 <= h < |s.disk|
    requires InvBut(s, h, 0, 0, 0) && s.role[h] == Held && s.disk[h] == ZeroBlock() && At(s, i, k) == 0
    ensures var t := Attach(s, i, k, h); Inv(t) && SameFiles(s, t) && At(t, i, k) == h
    ensures var t := Attach(s, i, k, h);
            forall j, l :: 0 <= j < |s.inode| && 0 <= l < SLOTS && (j, l) != (i, k) ==> At(t, j, l) == At(s, j, l)
  {
    var t := Attach(s, i, k, h);
    assert BlockOk(s, h, h);
    assert Shape(t);
    SameBits(s, t);
    hide BitOn, Word, IsBlock;
    forall j, l | 0 <= j < |s.inode| && 0 <= l < SLOTS
      ensures At(t, j, l) == (if (j, l) == (i, k) then h else At(s, j, l)) && SlotOk(t, j, l)
    {
      assert SlotOk(s, j, l);
      if j == i && k == NDIRECT < l {
        WordBounds(s.disk[h], l - NDIRECT - 1);
      }
    }
    forall c | 0 <= c < |s.disk| ensures BlockOk(t, 0, c) {
      assert BlockOk(s, h, c);
    }
    forall j, o | 0 <= j < |s.inode| && 0 <= o < MAXBYTES ensures Byte(t, j, o) == Byte(s, j, o) {
      assert SlotOk(s, j, SlotNo(o / BSIZE));
    }
  }

  /** Block h, in hand, enters entry j of inode i's indirect block. */
  function AttachEntry(s: Fs, i: int, j: int, h: int): Fs
    requires Shape(s) && 0 <= i < |s.inode| && 0 <= j < NINDIRECT && 0 <= h < |s.disk|
    requires 0 < s.inode[i].addrs[NDIRECT] < |s.disk|
  {
    var a := s.inode[i].addrs[NDIRECT];
    s.(disk := s.disk[a := PutWord(s.disk[a], j, h)], role := s.role[h := Slot(i, NDIRECT + 1 + j)])
  }

  lemma AttachEntryKeeps(s: Fs, i: int, j: int, h: int)
    requires Shape(s) && 0 <= i < |s.inode| && 0 <= j < NINDIRECT && 0 <= h < |s.disk|
    requires 0 < s.inode[i].addrs[NDIRECT] < |s.disk|
    requires InvBut(s, h, 0, 0, 0) && s.role[h] == Held && s.disk[h] == ZeroBlock() && At(s, i, NDIRECT + 1 + j) == 0
    ensures var t := AttachEntry(s, i, j, h); Inv(t) && SameFiles(s, t) && At(t, i, NDIRECT + 1 + j) == h
    ensures var t := AttachEntry(s, i, j, h);
            forall l, k :: 0 <= l < |s.inode| && 0 <= k < SLOTS && (l, k) != (i, NDIRECT + 1 + j) ==>
                             At(t, l, k) == At(s, l, k)
  {
    var a, t := s.inode[i].addrs[NDIRECT], AttachEntry(s, i, j, h);
    WordOfPut(s.disk[a], j, h);
    hide Word, PutWord, TestBit;
    assert BlockOk(s, h, h);
    assert SlotOk(s, i, NDIRECT);
    assert Shape(t);
    SameBits(s, t);
    hide BitOn, Word, IsBlock;
    forall l, k | 0 <= l < |s.inode| && 0 <= k < SLOTS
      ensures At(t, l, k) == (if (l, k) == (i, NDIRECT + 1 + j) then h else At(s, l, k)) && SlotOk(t, l, k)
    {
      assert SlotOk(s, l, k) && SlotOk(s, l, NDIRECT);
    }
    forall c | 0 <= c < |s.disk| ensures BlockOk(t, 0, c) {
      assert BlockOk(s, h, c);
    }
    forall l, o | 0 <= l < |s.inode| && 0 <= o < MAXBYTES ensures Byte(t, l, o) == Byte(s, l, o) {
      assert SlotOk(s, l, SlotNo(o / BSIZE));
    }
  }

  /** New contents for data block n of file i. */
  function PutData(s: Fs, b: int, x: seq<int>): Fs
    requires 0 <= b < |s.disk|
  {
    s.(disk := s.disk[b := x])
  }

  lemma PutDataKeeps(s: Fs, i: int, n: int, x: seq<int>)
    requires Inv(s) && 0 <= i < |s.inode| && 0 <= n < MAXFILE && IsBlock(x) && 0 < At(s, i, SlotNo(n)) < |s.disk|
    ensures var t := PutData(s, At(s, i, SlotNo(n)), x); Inv(t) && SameSlots(s, t)
    ensures var t := PutData(s, At(s, i, SlotNo(n)), x);
            forall j, o {:trigger Byte(t, j, o)} :: 0 <= j < |s.inode| && 0 <= o < MAXBYTES ==>
              Byte(t, j, o) == if j == i && o / BSIZE == n then x[o % BSIZE] else Byte(s, j, o)
  {
    var b := At(s, i, SlotNo(n));
    var t := PutData(s, b, x);
    assert SlotOk(s, i, SlotNo(n));
    assert Shape(t);
    SameBits(s, t);
    hide BitOn, Word, IsBlock;
    forall j, k | 0 <= j < |s.inode| && 0 <= k < SLOTS ensures At(t, j, k) == At(s, j, k) && SlotOk(t, j, k) {
      assert SlotOk(s, j, k) && SlotOk(s, j, NDIRECT);
    }
    forall c | 0 <= c < |s.disk| ensures BlockOk(t, 0, c) {
      assert BlockOk(s, 0, c);
    }
    forall j, o | 0 <= j < |s.inode| && 0 <= o < MAXBYTES
      ensures Byte(t, j, o) == if j == i && o / BSIZE == n then x[o % BSIZE] else Byte(s, j, o)
    {
      assert SlotOk(s, j, SlotNo(o / BSIZE));
    }
  }

  // Giving blocks back.

  function DropBlock(s: Fs, b: int): Fs
    requires Shape(s) && 0 <= b < |s.disk|
  {
    WithBit(s, b, false).(role := s.role[b := Free])
  }

  lemma DropKeepsSlots(s: Fs, x: int, lo: int, hi: int, b: int)
    requires InvBut(s, 0, x, lo, hi) && 0 <= b < |s.disk| && !(lo <= NDIRECT < hi)
    ensures Shape(DropBlock(s, b)) && SameSlots(s, DropBlock(s, b))
  {
    var t := DropBlock(s, b);
    WithBitSets(s, b, false);
    hide Word, TestBit, WithBit;
    forall i, l | 0 <= i < |s.inode| && 0 <= l < SLOTS ensures At(t, i, l) == At(s, i, l) {
      assert SlotOk(s, i, NDIRECT);
    }
  }

  /** Freeing the block in slot k of inode x leaves that slot dangling and nothing else. */
  lemma DropBlockKeeps(s: Fs, x: int, lo: int, hi: int, k: int, lo2: int, hi2: int)
    requires InvBut(s, 0, x, lo, hi) && 0 <= x < |s.inode| && 0 <= k < SLOTS && !(lo <= k < hi) && At(s, x, k) != 0
    requires !(lo <= NDIRECT < hi)
    requires lo2 <= k < hi2 && (lo < hi ==> lo2 <= lo && hi <= hi2)
    ensures var b := At(s, x, k); s.nmeta <= b < |s.disk| && BitOn(s, b) && s.role[b] == Slot(x, k)
    ensures var t := DropBlock(s, At(s, x, k)); InvBut(t, 0, x, lo2, hi2) && SameSlots(s, t)
    ensures var t := DropBlock(s, At(s, x, k));
            forall j, o :: 0 <= j < |s.inode| && j != x && 0 <= o < MAXBYTES ==> Byte(t, j, o) == Byte(s, j, o)
  {
    var b := At(s, x, k);
    assert SlotOk(s, x, k);
    assert BlockOk(s, 0, b);
    WithBitSets(s, b, false);
    var m, t := WithBit(s, b, false), DropBlock(s, b);
    hide Word, TestBit, WithBit;
    DropKeepsSlots(s, x, lo, hi, b);
    SameBits(m, t);
    hide At, BitOn, IsBlock;
    forall i, l | 0 <= i < |s.inode| && 0 <= l < SLOTS && !(i == x && lo2 <= l < hi2) ensures SlotOk(t, i, l) {
      assert SlotOk(s, i, l);
    }
    forall c | 0 <= c < |s.disk| ensures BlockOk(t, 0, c) {
      assert BlockOk(s, 0, c);
    }
    forall j, o | 0 <= j < |s.inode| && j != x && 0 <= o < MAXBYTES ensures Byte(t, j, o) == Byte(s, j, o) {
      assert SlotOk(s, j, SlotNo(o / BSIZE));
    }
  }

  function ClearAddr(s: Fs, x: int, k: int): Fs
    requires Shape(s) && 0 <= x < |s.inode| && 0 <= k <= NDIRECT
  {
    s.(inode := s.inode[x := s.inode[x].(addrs := s.inode[x].addrs[k := 0])])
  }

  /** Block roles after the blocks in slots lo..hi of inode x were given back. */
  ghost predicate Released(s: Fs, t: Fs, x: int, lo: int, hi: int) {
    && SameLayout(s, t) && |s.role| == |t.role|
    && (forall b {:trigger t.role[b]} :: 0 <= b < |t.role| ==>
          t.role[b] == if s.role[b].Slot? && s.role[b].inum == x && lo <= s.role[b].k < hi then Free else s.role[b])
  }

  /** Once the block of a direct slot is freed, clearing the slot restores the invariant. */
  lemma ClearDirectKeeps(s: Fs, x: int, k: int)
    requires InvBut(s, 0, x, k, k + 1) && 0 <= x < |s.inode| && 0 <= k < NDIRECT
    requires 0 <= At(s, x, k) < |s.disk| && !s.role[At(s, x, k)].Slot?
    ensures var t := ClearAddr(s, x, k); Inv(t) && At(t, x, k) == 0
    ensures var t := ClearAddr(s, x, k);
            forall j, l :: 0 <= j < |s.inode| && 0 <= l < SLOTS && (j, l) != (x, k) ==> At(t, j, l) == At(s, j, l)
    ensures var t := ClearAddr(s, x, k);
            forall j, o :: 0 <= j < |s.inode| && j != x && 0 <= o < MAXBYTES ==> Byte(t, j, o) == Byte(s, j, o)
  {
    var t := ClearAddr(s, x, k);
    assert Shape(t);
    SameBits(s, t);
    hide BitOn, Word, IsBlock;
    forall j, l | 0 <= j < |s.inode| && 0 <= l < SLOTS ensures SlotOk(t, j, l) {
      if (j, l) != (x, k) { assert SlotOk(s, j, l); }
    }
    forall c | 0 <= c < |s.disk| ensures BlockOk(t, 0, c) {
      assert BlockOk(s, 0, c);
    }
  }

  /** The same for the indirect block, with every entry of it. */
  lemma ClearIndirectKeeps(s: Fs, x: int)
    requires InvBut(s, 0, x, NDIRECT, SLOTS) && 0 <= x < |s.inode|
    requires forall b :: 0 <= b < |s.role| ==> !(s.role[b].Slot? && s.role[b].inum == x && NDIRECT <= s.role[b].k < SLOTS)
    ensures var t := ClearAddr(s, x, NDIRECT); Inv(t)
    ensures var t := ClearAddr(s, x, NDIRECT);
            forall k :: 0 <= k < SLOTS ==> At(t, x, k) == if k < NDIRECT then At(s, x, k) else 0
    ensures var t := ClearAddr(s, x, NDIRECT);
            forall j, o :: 0 <= j < |s.inode| && j != x && 0 <= o < MAXBYTES ==> Byte(t, j, o) == Byte(s, j, o)
  {
    var t := ClearAddr(s, x, NDIRECT);
    assert Shape(t);
    SameBits(s, t);
    hide BitOn, Word, IsBlock;
    forall j, l | 0 <= j < |s.inode| && 0 <= l < SLOTS ensures SlotOk(t, j, l) {
      if j != x || l < NDIRECT { assert SlotOk(s, j, l); }
    }
    forall c | 0 <= c < |s.disk| ensures BlockOk(t, 0, c) {
      assert BlockOk(s, 0, c);
    }
  }

  function Resize(s: Fs, x: int, n: int): Fs
    requires 0 <= x < |s.inode|
  {
    s.(inode := s.inode[x := s.inode[x].(size := n)])
  }

  lemma ResizeKeeps(s: Fs, x: int, n: int)
    requires Inv(s) && 0 <= x < |s.inode| && 0 <= n <= MAXBYTES
    ensures var t := Resize(s, x, n); Inv(t) && SameSlots(s, t)
    ensures var t := Resize(s, x, n);
            forall j, o {:trigger Byte(t, j, o)} ::
              0 <= j < |s.inode| && 0 <= o < MAXBYTES ==> Byte(t, j, o) == Byte(s, j, o)
  {
    var t := Resize(s, x, n);
    assert Shape(t);
    SameBits(s, t);
    hide BitOn, Word, IsBlock;
    forall j, l | 0 <= j < |s.inode| && 0 <= l < SLOTS ensures SlotOk(t, j, l) && At(t, j, l) == At(s, j, l) {
      assert SlotOk(s, j, l);
    }
    forall c | 0 <= c < |s.disk| ensures BlockOk(t, 0, c) {
      assert BlockOk(s, 0, c);
    }
  }

  lemma ReleasedJoin(s: Fs, m: Fs, t: Fs, x: int, lo: int, mid: int, hi: int)
    requires Released(s, m, x, lo, mid) && Released(m, t, x, mid, hi) && lo <= mid <= hi
    ensures Released(s, t, x, lo, hi)
  {
    forall b | 0 <= b < |t.role|
      ensures t.role[b] == if s.role[b].Slot? && s.role[b].inum == x && lo <= s.role[b].k < hi then Free else s.role[b]
    {
      assert m.role[b] == m.role[b];
    }
  }

  lemma NoIndirectNoEntries(s: Fs, x: int)
    requires Inv(s) && 0 <= x < |s.inode| && At(s, x, NDIRECT) == 0
    ensures Released(s, s, x, NDIRECT, SLOTS) && forall k :: NDIRECT <= k < SLOTS ==> At(s, x, k) == 0
  {
    forall b | 0 <= b < |s.role| ensures !(s.role[b].Slot? && s.role[b].inum == x && NDIRECT <= s.role[b].k < SLOTS) {
      assert BlockOk(s, 0, b) && BlockOk(s, 0, 0);
    }
  }
}

/** kernel/kalloc.c: the free list threaded through the first word of each free page. */
module PageList {
  import opened PageTable

  /** The free pages numbered from the end of the list, both ways. */
  datatype Queue = Queue(count: nat, at: map<int, int>, rank: map<int, int>)

  /** The i-th free page from the end: its first word leads to the one before. */
  ghost predicate LinkOk(s: Phys, f: Queue, i: int)
  {
    && i in f.at && Is(s, f.at[i], Free) && f.at[i] in f.rank && f.rank[f.at[i]] == i
    && Entry(s, f.at[i], 0) == (if i == 0 then 0 else if i - 1 in f.at then f.at[i - 1] * PGSIZE else -1)
  }

  ghost predicate RankOk(f: Queue, p: int)
  {
    p in f.rank && 0 <= f.rank[p] < f.count && f.rank[p] in f.at && f.at[f.rank[p]] == p
  }

  /** The list from head runs exactly once through the free pages. */
  ghost predicate ListOk(s: Phys, f: Queue, head: int)
  {
    && head == (if f.count == 0 then 0 else if f.count - 1 in f.at then f.at[f.count - 1] else -1)
    && (forall i {:trigger LinkOk(s, f, i)} :: 0 <= i < f.count ==> LinkOk(s, f, i))
    && (forall p {:trigger RankOk(f, p)} :: Is(s, p, Free) ==> RankOk(f, p))
  }

  /** The free pages and their contents are the same. */
  ghost predicate SameFree(s: Phys, s': Phys)
  {
    forall p {:trigger Is(s', p, Free)} {:trigger Is(s, p, Free)} ::
      (Is(s', p, Free) <==> Is(s, p, Free)) && (Is(s, p, Free) ==> Entry(s', p, 0) == Entry(s, p, 0))
  }

  lemma SameFreeList(s: Phys, s': Phys, f: Queue, head: int)
    requires ListOk(s, f, head) && SameFree(s, s')
    ensures ListOk(s', f, head)
  {
    forall i | 0 <= i < f.count ensures LinkOk(s', f, i) { assert LinkOk(s, f, i); }
    forall p | Is(s', p, Free) ensures RankOk(f, p) { assert Is(s, p, Free); }
  }

  function Popped(f: Queue): Queue
    requires f.count > 0
  {
    f.(count := f.count - 1)
  }

  function Pushed(f: Queue, p: int): Queue
  {
    Queue(f.count + 1, f.at[f.count := p], f.rank[p := f.count])
  }

  lemma PopKeeps(s: Phys, f: Queue, head: int, words: seq<int>)
    requires Inv(s) && ListOk(s, f, head) && f.count > 0
    ensures Is(s, head, Free) && PageOk(s, head)
    ensures ListOk(Refill(s, head, words, Held), Popped(f), Entry(s, head, 0) / PGSIZE)
  {
    var s', f' := Refill(s, head, words, Held), Popped(f);
    assert LinkOk(s, f, f.count - 1) && PageOk(s, head);
    forall i | 0 <= i < f'.count ensures LinkOk(s', f', i) { assert LinkOk(s, f, i); }
    forall p | Is(s', p, Free) ensures RankOk(f', p) { assert RankOk(f, p); }
    if f'.count > 0 { assert LinkOk(s, f, f'.count - 1); }
  }

  lemma PushKeeps(s: Phys, f: Queue, head: int, p: int, words: seq<int>)
    requires ListOk(s, f, head) && Is(s, p, Held) && |words| > 0 && words[0] == head * PGSIZE
    ensures ListOk(Refill(s, p, words, Free), Pushed(f, p), p)
  {
    var s', f' := Refill(s, p, words, Free), Pushed(f, p);
    forall i | 0 <= i < f'.count ensures LinkOk(s', f', i) {
      if i < f.count { assert LinkOk(s, f, i); }
      if f.count > 0 { assert LinkOk(s, f, f.count - 1); }
    }
    forall q | Is(s', q, Free) ensures RankOk(f', q) {
      if q != p { assert Is(s, q, Free) && RankOk(f, q); }
    }
  }
}

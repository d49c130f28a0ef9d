/** grep.c: the regular-expression matcher. Strings are the characters before the terminating NUL; the positions i and j
    are the pointers into pattern and text, and reading at the end gives the NUL. */
module Grep {
  datatype Item = One(c: char) | Star(c: char) | End

  /** What a pattern says from position i on: c* before anything else, a $ only as its last character. */
  function Items(re: string, i: int): seq<Item>
    requires 0 <= i <= |re|
    decreases |re| - i
  {
    if i == |re| then []
    else if i + 1 < |re| && re[i + 1] == '*' then [Star(re[i])] + Items(re, i + 2)
    else if re[i] == '$' && i + 1 == |re| then [End]
    else [One(re[i])] + Items(re, i + 1)
  }

  function Show(it: Item): string {
    match it
    case One(c) => [c]
    case Star(c) => [c, '*']
    case End => "$"
  }

  /** The items written one after the other. */
  function Written(items: seq<Item>): string {
    if items == [] then "" else Show(items[0]) + Written(items[1..])
  }

  /** it can stand before the items after it and be read back: a character that a star follows is starred, and a last
      dollar is the end. */
  predicate Stands(it: Item, after: seq<Item>) {
    match it
    case One(c) => if after == [] then c != '$' else Show(after[0])[0] != '*'
    case Star(c) => true
    case End => after == []
  }

  predicate Readable(items: seq<Item>) {
    items == [] || (Stands(items[0], items[1..]) && Readable(items[1..]))
  }

  lemma WrittenBegins(items: seq<Item>)
    ensures Written(items) == "" <==> items == []
    ensures items != [] ==> Written(items)[0] == Show(items[0])[0]
  {
  }

  /** A pattern is its items, written out. */
  lemma {:induction false} ItemsWritten(re: string, i: int)
    requires 0 <= i <= |re|
    ensures Written(Items(re, i)) == re[i..] && Readable(Items(re, i))
    decreases |re| - i
  {
    var items := Items(re, i);
    if i < |re| {
      var n := if i + 1 < |re| && re[i + 1] == '*' then 2 else 1;
      ItemsWritten(re, i + n);
      WrittenBegins(Items(re, i + n));
      assert items[1..] == Items(re, i + n);
      assert re[i..] == re[i..i + n] + re[i + n..];
      assert re[i..i + n] == Show(items[0]);
    }
  }

  /** And is read as no other items. */
  lemma {:induction false} ReadBack(re: string, i: int, items: seq<Item>)
    requires 0 <= i <= |re| && re[i..] == Written(items) && Readable(items)
    ensures Items(re, i) == items
    decreases |re| - i
  {
    WrittenBegins(items);
    if items != [] {
      var it, rest := items[0], items[1..];
      var n := |Show(it)|;
      WrittenBegins(rest);
      assert re[i..][..n] == Show(it) && re[i..][n..] == Written(rest);
      assert re[i..][..n] == re[i..i + n] && re[i..][n..] == re[i + n..];
      assert re[i] == Show(it)[0] && (n == 2 ==> re[i + 1] == '*');
      assert rest != [] ==> re[i + n] == Written(rest)[0];
      ReadBack(re, i + n, rest);
      assert items == [it] + rest;
    }
  }

  /** What a pattern says, exactly. */
  lemma ReadsExactly(re: string, items: seq<Item>)
    ensures Items(re, 0) == items <==> Written(items) == re && Readable(items)
  {
    ItemsWritten(re, 0);
    assert re[0..] == re;
    if Written(items) == re && Readable(items) {
      ReadBack(re, 0, items);
    }
  }

  predicate Takes(c: char, d: char) { c == '.' || c == d }

  /** The item stands for text[p..q]. */
  predicate Fits(it: Item, text: string, p: int, q: int)
    requires 0 <= p <= q <= |text|
  {
    match it
    case One(c) => q == p + 1 && Takes(c, text[p])
    case Star(c) => forall k :: p <= k < q ==> Takes(c, text[k])
    case End => p == q == |text|
  }

  /** cuts divides a stretch of text from j on so that each item stands for its part. */
  ghost predicate Divides(items: seq<Item>, text: string, j: int, cuts: seq<int>) {
    && |cuts| == |items| + 1 && cuts[0] == j
    && (forall k :: 0 <= k < |cuts| ==> 0 <= cuts[k] <= |text|)
    && (forall k :: 0 <= k < |items| ==> cuts[k] <= cuts[k + 1] && Fits(items[k], text, cuts[k], cuts[k + 1]))
  }

  /** The text from j on begins with something the items stand for. */
  ghost predicate Meaning(items: seq<Item>, text: string, j: int) {
    exists cuts :: Divides(items, text, j, cuts)
  }

  /** The text matches the pattern: at the start under ^, else anywhere. */
  ghost predicate Matches(re: string, text: string) {
    if |re| > 0 && re[0] == '^' then Meaning(Items(re, 1), text, 0)
    else exists j :: 0 <= j <= |text| && Meaning(Items(re, 0), text, j)
  }

  lemma NoItems(text: string, j: int)
    requires 0 <= j <= |text|
    ensures Meaning([], text, j)
  {
    assert Divides([], text, j, [j]);
  }

  /** First the first item, then the rest. */
  lemma FirstItem(it: Item, rest: seq<Item>, text: string, j: int)
    requires 0 <= j <= |text|
    ensures Meaning([it] + rest, text, j) <==>
              exists p :: j <= p <= |text| && Fits(it, text, j, p) && Meaning(rest, text, p)
  {
    if Meaning([it] + rest, text, j) {
      var cuts :| Divides([it] + rest, text, j, cuts);
      FirstCut(it, rest, text, j, cuts);
      assert Meaning(rest, text, cuts[1]);
    }
    if p :| j <= p <= |text| && Fits(it, text, j, p) && Meaning(rest, text, p) {
      var cuts :| Divides(rest, text, p, cuts);
      JoinCut(it, rest, text, j, p, cuts);
    }
  }

  lemma FirstCut(it: Item, rest: seq<Item>, text: string, j: int, cuts: seq<int>)
    requires 0 <= j <= |text| && Divides([it] + rest, text, j, cuts)
    ensures j <= cuts[1] <= |text| && Fits(it, text, j, cuts[1]) && Divides(rest, text, cuts[1], cuts[1..])
  {
    var items := [it] + rest;
    assert items[0] == it;
    forall k | 0 <= k < |rest|
      ensures cuts[1..][k] <= cuts[1..][k + 1] && Fits(rest[k], text, cuts[1..][k], cuts[1..][k + 1])
    {
      assert items[k + 1] == rest[k] && cuts[1..][k] == cuts[k + 1] && cuts[1..][k + 1] == cuts[k + 2];
    }
  }

  lemma JoinCut(it: Item, rest: seq<Item>, text: string, j: int, p: int, cuts: seq<int>)
    requires 0 <= j <= p <= |text| && Fits(it, text, j, p) && Divides(rest, text, p, cuts)
    ensures Divides([it] + rest, text, j, [j] + cuts)
  {
    var items, all := [it] + rest, [j] + cuts;
    forall k | 0 <= k < |items| ensures all[k] <= all[k + 1] && Fits(items[k], text, all[k], all[k + 1]) {
      if k > 0 {
        assert items[k] == rest[k - 1] && all[k] == cuts[k - 1] && all[k + 1] == cuts[k];
      }
    }
  }

  /** No character of w means anything but itself. */
  predicate Plain(w: string) { forall k :: 0 <= k < |w| ==> w[k] !in ".*$^" }

  predicate OccursAt(w: string, i: int, text: string, j: int)
    requires 0 <= i <= |w|
  {
    0 <= j && j + |w| - i <= |text| && forall k :: i <= k < |w| ==> text[j + k - i] == w[k]
  }

  lemma {:induction false} PlainMeaning(w: string, i: int, text: string, j: int)
    requires Plain(w) && 0 <= i <= |w| && 0 <= j <= |text|
    ensures Meaning(Items(w, i), text, j) <==> OccursAt(w, i, text, j)
    decreases |w| - i
  {
    if i == |w| {
      NoItems(text, j);
    } else {
      hide Meaning, OccursAt, Items;
      PlainItem(w, i);
      OneMeans(w[i], Items(w, i + 1), text, j);
      OccursStep(w, i, text, j);
      if j < |text| { PlainMeaning(w, i + 1, text, j + 1); }
    }
  }

  lemma PlainItem(w: string, i: int)
    requires Plain(w) && 0 <= i < |w|
    ensures Items(w, i) == [One(w[i])] + Items(w, i + 1) && w[i] != '.'
  {
    assert w[i] !in ".*$^" && (i + 1 < |w| ==> w[i + 1] !in ".*$^");
  }

  lemma OneMeans(c: char, rest: seq<Item>, text: string, j: int)
    requires 0 <= j <= |text|
    ensures Meaning([One(c)] + rest, text, j) <==> j < |text| && Takes(c, text[j]) && Meaning(rest, text, j + 1)
  {
    FirstItem(One(c), rest, text, j);
    hide Meaning;
    if j < |text| && Takes(c, text[j]) {
      assert Fits(One(c), text, j, j + 1);
    }
  }

  lemma OccursStep(w: string, i: int, text: string, j: int)
    requires 0 <= i < |w| && 0 <= j <= |text|
    ensures OccursAt(w, i, text, j) <==> j < |text| && text[j] == w[i] && OccursAt(w, i + 1, text, j + 1)
  {
    if OccursAt(w, i, text, j) {
      assert text[j + i - i] == w[i];
      forall k | i + 1 <= k < |w| ensures text[j + 1 + k - (i + 1)] == w[k] { assert text[j + k - i] == w[k]; }
    }
    if j < |text| && text[j] == w[i] && OccursAt(w, i + 1, text, j + 1) {
      forall k | i <= k < |w| ensures text[j + k - i] == w[k] {
        if k > i { assert text[j + 1 + k - (i + 1)] == w[k]; }
      }
    }
  }

  /** A pattern without special characters matches exactly the texts it occurs in. */
  lemma PlainMatches(w: string, text: string)
    requires Plain(w)
    ensures Matches(w, text) <==> exists j :: 0 <= j <= |text| && OccursAt(w, 0, text, j)
  {
    assert w != "" ==> w[0] != '^';
    forall j | 0 <= j <= |text| ensures Meaning(Items(w, 0), text, j) <==> OccursAt(w, 0, text, j) {
      PlainMeaning(w, 0, text, j);
    }
  }

  /** A dot matches any one character, and a starred dot anything. */
  lemma DotMatches(text: string)
    ensures Matches(".", text) <==> text != ""
    ensures Matches("^.*$", text)
  {
    assert Items(".", 0) == [One('.')] + [];
    forall j | 0 <= j <= |text| ensures Meaning(Items(".", 0), text, j) <==> j < |text| {
      FirstItem(One('.'), [], text, j);
      if j < |text| {
        NoItems(text, j + 1);
        assert Fits(One('.'), text, j, j + 1);
      }
    }
    if text != "" { assert Meaning(Items(".", 0), text, 0); }
    DotStar(text);
  }

  lemma DotStar(text: string)
    ensures Matches("^.*$", text)
  {
    assert Items("^.*$", 3) == [End] + [];
    assert Items("^.*$", 1) == [Star('.')] + Items("^.*$", 3);
    NoItems(text, |text|);
    FirstItem(End, [], text, |text|);
    assert Fits(End, text, |text|, |text|);
    FirstItem(Star('.'), Items("^.*$", 3), text, 0);
    assert Fits(Star('.'), text, 0, |text|);
  }

  /** re at the beginning of text, from positions i and j. */
  method MatchHere(re: string, i: int, text: string, j: int) returns (r: bool)
    requires 0 <= i <= |re| && 0 <= j <= |text|
    ensures r <==> Meaning(Items(re, i), text, j)
    decreases |re| - i, 0
  {
    if i == |re| {
      NoItems(text, j);
      return true;
    }
    if i + 1 < |re| && re[i + 1] == '*' {
      r := MatchStar(re[i], re, i + 2, text, j);
      return;
    }
    if re[i] == '$' && i + 1 == |re| {
      FirstItem(End, [], text, j);
      NoItems(text, j);
      assert [End] + [] == [End];
      return j == |text|;
    }
    FirstItem(One(re[i]), Items(re, i + 1), text, j);
    if j < |text| && (re[i] == '.' || re[i] == text[j]) {
      assert Fits(One(re[i]), text, j, j + 1);
      r := MatchHere(re, i + 1, text, j + 1);
      return;
    }
    r := false;
  }

  /** c* and then re, from positions i and j. */
  method MatchStar(c: char, re: string, i: int, text: string, j: int) returns (r: bool)
    requires 0 <= i <= |re| && 0 <= j <= |text|
    ensures r <==> Meaning([Star(c)] + Items(re, i), text, j)
    decreases |re| - i, 1
  {
    FirstItem(Star(c), Items(re, i), text, j);
    var t := j;
    while true
      invariant j <= t <= |text| && Fits(Star(c), text, j, t)
      invariant forall p :: j <= p < t ==> !Meaning(Items(re, i), text, p)
      decreases |text| - t
    {
      var here := MatchHere(re, i, text, t);
      if here {
        return true;
      }
      if !(t < |text| && (text[t] == c || c == '.')) {
        break;
      }
      t := t + 1;
    }
    r := false;
  }

  method Match(re: string, text: string) returns (r: bool)
    ensures r <==> Matches(re, text)
  {
    if |re| > 0 && re[0] == '^' {
      r := MatchHere(re, 1, text, 0);
      return;
    }
    var j := 0;
    while true
      invariant 0 <= j <= |text| && forall p :: 0 <= p < j ==> !Meaning(Items(re, 0), text, p)
      decreases |text| - j
    {
      var here := MatchHere(re, 0, text, j);
      if here {
        return true;
      }
      if j == |text| {
        break;
      }
      j := j + 1;
    }
    r := false;
  }
}

/** TopHeap: the bounded min-heap that selects the Top-N in one pass over the counters. */
module TopHeap {
  import opened Orders
  import opened Ranking

  function Parent(j: nat): nat
    requires j > 0
  {
    (j - 1) / 2
  }

  /** No item is worse than its parent: the root is the worst. */
  ghost predicate HeapOrdered(h: seq<TopItem>) {
    forall j :: 0 < j < |h| ==> !Less(h[j], h[Parent(j)])
  }

  /** Ordered, except that the item at `k` may be worse than its parent. */
  ghost predicate OrderedAbove(h: seq<TopItem>, k: int) {
    && (forall j :: 0 < j < |h| && j != k ==> !Less(h[j], h[Parent(j)]))
    && (forall j :: 0 < j < |h| && 0 < k == Parent(j) ==> !Less(h[j], h[Parent(k)]))
  }

  /** Ordered, except that the item at `k` may be better than its children. */
  ghost predicate OrderedBelow(h: seq<TopItem>, k: int) {
    && (forall j :: 0 < j < |h| && Parent(j) != k ==> !Less(h[j], h[Parent(j)]))
    && (forall j :: 0 < j < |h| && 0 < k == Parent(j) ==> !Less(h[j], h[Parent(k)]))
  }

  function Swapped(h: seq<TopItem>, i: nat, j: nat): (r: seq<TopItem>)
    requires i < |h| && j < |h|
    ensures |r| == |h|
    ensures multiset(r) == multiset(h)
  {
    h[i := h[j]][j := h[i]]
  }

  lemma {:induction false} NotLessTransitive(a: TopItem, b: TopItem, c: TopItem)
    requires !Less(b, a) && !Less(c, b)
    ensures !Less(c, a)
  {
    BetterIsStrictTotalOrder();
    LessIsConverse(b, a);
    LessIsConverse(c, b);
    LessIsConverse(c, a);
  }

  lemma {:induction false} LessAsymmetric(a: TopItem, b: TopItem)
    requires Less(a, b)
    ensures !Less(b, a)
  {
    LexTrichotomy(a.query, b.query);
  }

  /** One round of the sift-up: a worse item changes places with its parent. */
  lemma {:induction false} SiftUpStep(h: seq<TopItem>, k: nat)
    requires 0 < k < |h| && OrderedAbove(h, k) && Less(h[k], h[Parent(k)])
    ensures OrderedAbove(Swapped(h, Parent(k), k), Parent(k))
  {
    var p, r := Parent(k), Swapped(h, Parent(k), k);
    LessAsymmetric(h[k], h[p]);
    forall j | 0 < j < |r| && j != p ensures !Less(r[j], r[Parent(j)]) {
      if Parent(j) == p && j != k {
        NotLessTransitive(h[k], h[p], h[j]);
      }
    }
    forall j | 0 < j < |r| && 0 < p == Parent(j) ensures !Less(r[j], r[Parent(p)]) {
      if j != k {
        NotLessTransitive(h[Parent(p)], h[p], h[j]);
      }
    }
  }

  /** No child of `k` is worse than its child `c`. */
  ghost predicate WorstChild(h: seq<TopItem>, k: nat, c: nat) {
    && 0 < c < |h| && Parent(c) == k
    && forall j :: 0 < j < |h| && Parent(j) == k ==> !Less(h[j], h[c])
  }

  /** An item without children is in order. */
  lemma {:induction false} LeafIsOrdered(h: seq<TopItem>, k: nat)
    requires OrderedBelow(h, k) && 2 * k + 1 >= |h|
    ensures HeapOrdered(h)
  {
    assert forall j :: 0 < j < |h| ==> Parent(j) != k;
  }

  /** One round of the sift-down: a better item changes places with its worst child. */
  lemma {:induction false} SiftDownStep(h: seq<TopItem>, k: nat, c: nat)
    requires WorstChild(h, k, c) && OrderedBelow(h, k) && Less(h[c], h[k])
    ensures OrderedBelow(Swapped(h, k, c), c)
  {
    var r := Swapped(h, k, c);
    LessAsymmetric(h[c], h[k]);
    forall j | 0 < j < |r| && Parent(j) != c ensures !Less(r[j], r[Parent(j)]) {
    }
    forall j | 0 < j < |r| && 0 < c == Parent(j) ensures !Less(r[j], r[Parent(c)]) {
      assert !Less(h[j], h[c]);
    }
  }

  /** The child picked by the sift-down is no better than its sibling. */
  lemma {:induction false} ChosenChildIsWorst(h: seq<TopItem>, k: nat, c: nat)
    requires 2 * k + 1 < |h|
    requires c == if 2 * k + 2 < |h| && Less(h[2 * k + 2], h[2 * k + 1]) then 2 * k + 2 else 2 * k + 1
    ensures WorstChild(h, k, c)
  {
    LexTrichotomy(h[c].query, h[c].query);
    forall j | 0 < j < |h| && Parent(j) == k ensures !Less(h[j], h[c]) {
      assert j == 2 * k + 1 || j == 2 * k + 2;
      if j != c && c == 2 * k + 2 {
        LessAsymmetric(h[c], h[j]);
      }
    }
  }

  lemma {:induction false} SiftDownStop(h: seq<TopItem>, k: nat, c: nat)
    requires WorstChild(h, k, c) && OrderedBelow(h, k) && !Less(h[c], h[k])
    ensures HeapOrdered(h)
  {
    forall j | 0 < j < |h| ensures !Less(h[j], h[Parent(j)]) {
      if Parent(j) == k {
        NotLessTransitive(h[k], h[c], h[j]);
      }
    }
  }

  lemma {:induction false} RootIsWorst(h: seq<TopItem>, j: nat)
    requires HeapOrdered(h) && j < |h|
    ensures !Less(h[j], h[0])
    decreases j
  {
    if j == 0 {
      LexTrichotomy(h[0].query, h[0].query);
    } else {
      RootIsWorst(h, Parent(j));
      NotLessTransitive(h[0], h[Parent(j)], h[j]);
    }
  }

  /** `topItemHeap` together with the parts of Go's `container/heap` that drive it. */
  class TopItemHeap {
    var items: seq<TopItem>

    constructor ()
      ensures items == []
    {
      items := [];
    }

    method Swap(i: nat, j: nat)
      requires i < |items| && j < |items|
      modifies this
      ensures items == Swapped(old(items), i, j)
    {
      items := items[i := items[j]][j := items[i]];
    }

    method Up(start: nat)
      requires start < |items| && OrderedAbove(items, start)
      modifies this
      ensures HeapOrdered(items)
      ensures multiset(items) == multiset(old(items))
    {
      var j := start;
      while j > 0 && Less(items[j], items[Parent(j)])
        invariant j < |items|
        invariant OrderedAbove(items, j)
        invariant multiset(items) == multiset(old(items))
        decreases j
      {
        SiftUpStep(items, j);
        Swap(Parent(j), j);
        j := Parent(j);
      }
    }

    method Down(start: nat) returns (moved: bool)
      requires start < |items| && OrderedBelow(items, start)
      modifies this
      ensures HeapOrdered(items)
      ensures multiset(items) == multiset(old(items))
      ensures !moved ==> items == old(items)
    {
      var i := start;
      while 2 * i + 1 < |items|
        invariant start <= i < |items| == |old(items)|
        invariant OrderedBelow(items, i)
        invariant multiset(items) == multiset(old(items))
        invariant i == start ==> items == old(items)
        decreases |items| - i
      {
        var j := WorstChildOf(i);
        if !Less(items[j], items[i]) {
          SiftDownStop(items, i, j);
          return i > start;
        }
        SiftDownStep(items, i, j);
        Swap(i, j);
        i := j;
      }
      LeafIsOrdered(items, i);
      moved := i > start;
    }

    method WorstChildOf(i: nat) returns (j: nat)
      requires 2 * i + 1 < |items|
      ensures i < j && WorstChild(items, i, j)
    {
      j := 2 * i + 1;
      if j + 1 < |items| && Less(items[j + 1], items[j]) {
        j := j + 1;
      }
      ChosenChildIsWorst(items, i, j);
    }

    method Push(item: TopItem)
      requires HeapOrdered(items)
      modifies this
      ensures HeapOrdered(items)
      ensures multiset(items) == multiset(old(items)) + multiset{item}
    {
      items := items + [item];
      Up(|items| - 1);
    }

    method Fix(i: nat)
      requires i < |items| && OrderedBelow(items, i)
      modifies this
      ensures HeapOrdered(items)
      ensures multiset(items) == multiset(old(items))
    {
      var moved := Down(i);
      if !moved {
        Up(i);
      }
    }
  }

  /** The heap holds the best `limit` of the items seen so far, and nothing else. */
  ghost predicate HoldsBest(h: seq<TopItem>, seen: set<TopItem>, limit: nat) {
    && HeapOrdered(h)
    && NoDuplicates(h)
    && |h| == (if limit < |seen| then limit else |seen|)
    && (forall x :: x in multiset(h) ==> x in seen)
    && (forall x, y :: x in multiset(h) && y in seen && y !in multiset(h) ==> IsBetter(x, y))
  }

  lemma {:induction false} PushKeepsBest(
      h: seq<TopItem>, h': seq<TopItem>, seen: set<TopItem>, limit: nat, item: TopItem)
    requires HoldsBest(h, seen, limit) && |h| < limit && item !in seen
    requires HeapOrdered(h') && multiset(h') == multiset(h) + multiset{item}
    ensures HoldsBest(h', seen + {item}, limit)
  {
    assert |h'| == |multiset(h')| == |h| + 1;
    HeapIsSeen(h, seen);
  }

  /** Below capacity nothing has been left out. */
  lemma {:induction false} HeapIsSeen(h: seq<TopItem>, seen: set<TopItem>)
    requires NoDuplicates(h) && |h| == |seen|
    requires forall x :: x in multiset(h) ==> x in seen
    ensures forall x :: x in seen ==> x in multiset(h)
    decreases |h|
  {
    if h == [] {
    } else {
      var last, rest := h[|h| - 1], h[..|h| - 1];
      assert h == rest + [last];
      assert multiset(h) == multiset(rest) + multiset{last};
      assert last in multiset(h);
      forall x ensures multiset(rest)[x] <= 1 && (x in multiset(rest) ==> x in seen - {last}) {
        assert multiset(h)[x] <= 1;
      }
      HeapIsSeen(rest, seen - {last});
    }
  }

  lemma {:induction false} ReplaceKeepsBest(
      h: seq<TopItem>, h': seq<TopItem>, seen: set<TopItem>, limit: nat, item: TopItem)
    requires HoldsBest(h, seen, limit) && 0 < limit == |h| && item !in seen && IsBetter(item, h[0])
    requires HeapOrdered(h') && multiset(h') == multiset(h[0 := item])
    ensures HoldsBest(h', seen + {item}, limit)
  {
    ReplacedMembers(h, h', item);
    assert |h'| == |multiset(h')| == |h|;
    forall x, y | x in multiset(h') && y in seen + {item} && y !in multiset(h') ensures IsBetter(x, y) {
      if y == h[0] {
        if x != item {
          BeatsRoot(h, x);
        }
      } else if x == item {
        assert IsBetter(h[0], y);
        BetterTransitive(item, h[0], y);
      }
    }
  }

  lemma {:induction false} BetterTransitive(a: TopItem, b: TopItem, c: TopItem)
    requires IsBetter(a, b) && IsBetter(b, c)
    ensures IsBetter(a, c)
  {
    BetterIsStrictTotalOrder();
  }

  lemma {:induction false} ReplacedMembers(h: seq<TopItem>, h': seq<TopItem>, item: TopItem)
    requires h != [] && NoDuplicates(h) && item !in multiset(h)
    requires multiset(h') == multiset(h[0 := item])
    ensures NoDuplicates(h') && h[0] in multiset(h)
    ensures forall x :: x in multiset(h') <==> x == item || (x in multiset(h) && x != h[0])
  {
    assert h == [h[0]] + h[1..] && h[0 := item] == [item] + h[1..];
    assert multiset(h) == multiset{h[0]} + multiset(h[1..]);
    assert multiset(h') == multiset{item} + multiset(h[1..]);
  }

  lemma {:induction false} BeatsRoot(h: seq<TopItem>, x: TopItem)
    requires HeapOrdered(h) && x in multiset(h)
    ensures h != [] && (x == h[0] || IsBetter(x, h[0]))
  {
    BetterIsStrictTotalOrder();
    var i :| 0 <= i < |h| && h[i] == x;
    RootIsWorst(h, i);
    LessIsConverse(x, h[0]);
  }

  lemma {:induction false} SkipKeepsBest(h: seq<TopItem>, seen: set<TopItem>, limit: nat, item: TopItem)
    requires HoldsBest(h, seen, limit) && 0 < limit == |h| && item !in seen && !IsBetter(item, h[0])
    ensures HoldsBest(h, seen + {item}, limit)
  {
    BetterIsStrictTotalOrder();
    assert h[0] in multiset(h);
    assert item !in multiset(h);
    forall x, y | x in multiset(h) && y in seen + {item} && y !in multiset(h) ensures IsBetter(x, y) {
      if y == item {
        BeatsRoot(h, x);
      }
    }
  }

  /** Sorting what the heap holds gives the exact Top-N. */
  lemma {:induction false} SortedHeapIsTop(h: seq<TopItem>, items: seq<TopItem>, seen: set<TopItem>, limit: nat)
    requires HoldsBest(h, seen, limit)
    requires multiset(items) == multiset(h) && SortedBy(IsBetter, items)
    ensures items == Take(Ranked(seen), limit)
  {
    BetterIsStrictTotalOrder();
    forall i, j | 0 <= i < j < |items| ensures IsBetter(items[i], items[j]) {
      assert NoDuplicates(items);
      NoDuplicatesMeansDistinct(items, i, j);
    }
    forall x ensures x in items <==> x in multiset(h) {
      assert x in items <==> x in multiset(items);
    }
    SelectionIsPrefix(items, Ranked(seen), seen);
    RankingLength(Ranked(seen), seen);
    assert |items| == |multiset(items)| == |h|;
  }

  /** One scanned counter: pushed below capacity, otherwise it replaces the root if it is better. */
  method Consider(candidates: TopItemHeap, item: TopItem, limit: nat, ghost seen: set<TopItem>)
    requires 0 < limit && item !in seen && HoldsBest(candidates.items, seen, limit)
    modifies candidates
    ensures HoldsBest(candidates.items, seen + {item}, limit)
  {
    ghost var h := candidates.items;
    if |candidates.items| < limit {
      candidates.Push(item);
      PushKeepsBest(h, candidates.items, seen, limit, item);
      return;
    }
    if IsBetter(item, candidates.items[0]) {
      candidates.items := candidates.items[0 := item];
      candidates.Fix(0);
      ReplaceKeepsBest(h, candidates.items, seen, limit, item);
    } else {
      SkipKeepsBest(h, seen, limit, item);
    }
  }

  /** The items of the positive counters under the given keys. */
  ghost function ItemsOf(counters: map<string, int>, keys: set<string>): set<TopItem>
    requires keys <= counters.Keys
  {
    set q | q in keys && counters[q] > 0 :: TopItem(q, counters[q])
  }

  lemma {:induction false} ItemsOfOneMore(counters: map<string, int>, remaining: set<string>, q: string)
    requires remaining <= counters.Keys && q in remaining
    ensures var done := counters.Keys - remaining;
            && ItemsOf(counters, counters.Keys - (remaining - {q}))
               == ItemsOf(counters, done) + (if counters[q] > 0 then {TopItem(q, counters[q])} else {})
            && TopItem(q, counters[q]) !in ItemsOf(counters, done)
  {
    assert counters.Keys - (remaining - {q}) == counters.Keys - remaining + {q};
  }

  /** `buildTop`: exact for every counter map, every limit and every iteration order of the map. */
  method BuildTop(counters: map<string, int>, limit: int) returns (items: seq<TopItem>)
    ensures items == TopN(counters, limit)
    // It has at most `limit` items; each shows a positive counter.
    ensures items == [] || |items| <= limit
    ensures forall i :: 0 <= i < |items| ==>
              items[i].query in counters && items[i].count == counters[items[i].query] > 0
    // Counts descend; queries ascend among equal counts.
    ensures forall i, j :: 0 <= i < j < |items| ==> items[i].count >= items[j].count
    ensures forall i, j :: 0 <= i < j < |items| && items[i].count == items[j].count ==>
              Precedes(items[i].query, items[j].query)
    // Only a full list leaves out a query, for a lower count, or the same count and a later query.
    ensures forall q :: LeftOut(items, counters, q) ==>
              && |items| >= limit
              && forall i :: 0 <= i < |items| ==>
                   && counters[q] <= items[i].count
                   && (counters[q] == items[i].count ==> Precedes(items[i].query, q))
  {
    TopNIff(TopN(counters, limit), counters, limit);
    if limit <= 0 || |counters| == 0 {
      if |counters| == 0 {
        NothingToRank(counters, limit);
      }
      return [];
    }
    items := SelectTop(counters, limit);
  }

  /** The scan of the map, which leaves the best positive counters in the heap, and the final sort. */
  method SelectTop(counters: map<string, int>, limit: nat) returns (items: seq<TopItem>)
    requires limit > 0
    ensures items == TopN(counters, limit)
  {
    var candidates := Scan(counters, limit);
    BetterIsStrictTotalOrder();
    items := Sort(candidates.items, IsBetter);
    SortedHeapIsTop(candidates.items, items, PositiveItems(counters), limit);
  }

  method Scan(counters: map<string, int>, limit: nat) returns (candidates: TopItemHeap)
    requires limit > 0
    ensures fresh(candidates) && HoldsBest(candidates.items, PositiveItems(counters), limit)
  {
    candidates := new TopItemHeap();
    var remaining := counters.Keys;
    ghost var seen: set<TopItem> := {};
    while remaining != {}
      invariant fresh(candidates)
      invariant remaining <= counters.Keys && seen == ItemsOf(counters, counters.Keys - remaining)
      invariant HoldsBest(candidates.items, seen, limit)
      decreases |remaining|
    {
      var query :| query in remaining;
      var count := counters[query];
      ItemsOfOneMore(counters, remaining, query);
      remaining := remaining - {query};
      if count <= 0 {
        continue;
      }
      Consider(candidates, TopItem(query, count), limit, seen);
      seen := seen + {TopItem(query, count)};
    }
    assert seen == PositiveItems(counters);
  }
}

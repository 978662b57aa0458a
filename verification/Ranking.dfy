/** Ranking: the order of trending queries and what an exact Top-N is. */
module Ranking {
  import opened Orders

  datatype TopItem = TopItem(query: string, count: int)

  /** Higher counts first; equal counts in ascending query order. */
  predicate IsBetter(left: TopItem, right: TopItem) {
    if left.count != right.count then left.count > right.count
    else LexLess(left.query, right.query)
  }

  /** The comparison of the candidate heap, which keeps the worst item at its root. */
  predicate Less(left: TopItem, right: TopItem) {
    if left.count != right.count then left.count < right.count
    else LexLess(right.query, left.query)
  }

  /** A higher count, or the same count and a query that comes first: a proper prefix, or the smaller rune
      where the two first differ. */
  lemma {:induction false} BetterIff(left: TopItem, right: TopItem)
    ensures IsBetter(left, right) <==>
            left.count > right.count || (left.count == right.count && Precedes(left.query, right.query))
  {
    LexLessIff(left.query, right.query);
  }

  lemma {:induction false} BetterIsStrictTotalOrder()
    ensures StrictTotalOrder(IsBetter)
  {
    LexIsStrictTotalOrder();
  }

  /** The heap's `Less` is the exact converse of `isBetter`, so a min-heap for the former
      has the worst candidate at its root. */
  lemma {:induction false} LessIsConverse(a: TopItem, b: TopItem)
    ensures Less(a, b) <==> IsBetter(b, a)
    ensures a != b ==> (Less(a, b) <==> IsBetter(b, a) && !IsBetter(a, b))
  {
    BetterIsStrictTotalOrder();
  }

  /** The one item of a non-empty set that is better than all the others. */
  ghost predicate IsBest(b: TopItem, s: set<TopItem>) {
    b in s && forall x :: x in s && x != b ==> IsBetter(b, x)
  }

  lemma {:induction false} BestExists(s: set<TopItem>)
    requires s != {}
    ensures exists b :: IsBest(b, s)
    decreases s
  {
    BetterIsStrictTotalOrder();
    var x :| x in s;
    if s == {x} {
      assert IsBest(x, s);
    } else {
      var rest := s - {x};
      assert rest != {} by {
        assert s == rest + {x};
      }
      BestExists(rest);
      var b :| IsBest(b, rest);
      assert IsBest(if IsBetter(x, b) then x else b, s);
    }
  }

  ghost predicate BestFirst(xs: seq<TopItem>) {
    forall i, j :: 0 <= i < j < |xs| ==> IsBetter(xs[i], xs[j])
  }

  /** A full ranking: all items of the set, each once, strictly ordered. */
  ghost predicate IsRanking(xs: seq<TopItem>, s: set<TopItem>) {
    BestFirst(xs) && forall x :: x in xs <==> x in s
  }

  lemma {:induction false} RankingExists(s: set<TopItem>)
    ensures exists xs :: IsRanking(xs, s)
    decreases s
  {
    if s == {} {
      assert IsRanking([], s);
    } else {
      BestExists(s);
      var b :| IsBest(b, s);
      RankingExists(s - {b});
      var rest :| IsRanking(rest, s - {b});
      BestThenRest(b, rest, s);
    }
  }

  lemma {:induction false} BestThenRest(b: TopItem, rest: seq<TopItem>, s: set<TopItem>)
    requires IsBest(b, s) && IsRanking(rest, s - {b})
    ensures IsRanking([b] + rest, s)
  {
    forall j | 0 <= j < |rest| ensures IsBetter(b, rest[j]) {
      assert rest[j] in rest;
    }
    forall x ensures x in [b] + rest <==> x in s {
      assert x in [b] + rest <==> x == b || x in rest;
    }
  }

  /** Removing the best item from a ranking leaves a ranking of the others. */
  lemma {:induction false} RankingTail(xs: seq<TopItem>, s: set<TopItem>)
    requires IsRanking(xs, s) && xs != []
    ensures IsBest(xs[0], s) && IsRanking(xs[1..], s - {xs[0]})
  {
    BetterIsStrictTotalOrder();
    assert xs == [xs[0]] + xs[1..];
    forall x | x in xs[1..] ensures IsBetter(xs[0], x) {
      var i :| 0 <= i < |xs| - 1 && xs[1..][i] == x;
      assert xs[i + 1] == x;
    }
  }

  lemma {:induction false} RankingLength(xs: seq<TopItem>, s: set<TopItem>)
    requires IsRanking(xs, s)
    ensures |xs| == |s|
  {
    if xs == [] {
      assert s == {};
    } else {
      RankingTail(xs, s);
      RankingLength(xs[1..], s - {xs[0]});
    }
  }

  ghost function Ranked(s: set<TopItem>): (xs: seq<TopItem>)
    ensures IsRanking(xs, s)
  {
    RankingExists(s);
    var xs :| IsRanking(xs, s);
    xs
  }

  /** A best-first selection that nothing left out beats. */
  ghost predicate IsSelection(xs: seq<TopItem>, s: set<TopItem>) {
    && BestFirst(xs)
    && (forall x :: x in xs ==> x in s)
    && (forall x, y :: x in xs && y in s && y !in xs ==> IsBetter(x, y))
  }

  lemma {:induction false} SelectionTail(xs: seq<TopItem>, s: set<TopItem>)
    requires IsSelection(xs, s) && xs != []
    ensures IsBest(xs[0], s) && IsSelection(xs[1..], s - {xs[0]})
  {
    BetterIsStrictTotalOrder();
    assert xs == [xs[0]] + xs[1..];
    forall x | x in xs[1..] ensures IsBetter(xs[0], x) {
      var i :| 0 <= i < |xs| - 1 && xs[1..][i] == x;
      assert xs[i + 1] == x;
    }
  }

  lemma {:induction false} BestIsUnique(a: TopItem, b: TopItem, s: set<TopItem>)
    requires IsBest(a, s) && IsBest(b, s)
    ensures a == b
  {
    BetterIsStrictTotalOrder();
  }

  /** Every such selection is a prefix of every full ranking; in particular the ranking is unique. */
  lemma {:induction false} SelectionIsPrefix(xs: seq<TopItem>, all: seq<TopItem>, s: set<TopItem>)
    requires IsSelection(xs, s) && IsRanking(all, s)
    ensures |xs| <= |all| && xs == all[..|xs|]
    decreases |xs|
  {
    if xs == [] {
    } else {
      assert xs[0] in xs;
      assert all != [];
      SelectionTail(xs, s);
      RankingTail(all, s);
      BestIsUnique(xs[0], all[0], s);
      SelectionIsPrefix(xs[1..], all[1..], s - {xs[0]});
      assert xs == [xs[0]] + xs[1..] && all == [all[0]] + all[1..];
    }
  }

  /** The items of a counter map that may be shown. */
  ghost function PositiveItems(counters: map<string, int>): set<TopItem> {
    set q | q in counters && counters[q] > 0 :: TopItem(q, counters[q])
  }

  ghost function Take(xs: seq<TopItem>, limit: int): seq<TopItem> {
    if limit <= 0 then [] else if limit < |xs| then xs[..limit] else xs
  }

  /** The exact Top-N: the first `limit` items of the full ranking. */
  ghost function TopN(counters: map<string, int>, limit: int): seq<TopItem> {
    Take(Ranked(PositiveItems(counters)), limit)
  }

  lemma {:induction false} NothingToRank(counters: map<string, int>, limit: int)
    requires counters == map[]
    ensures TopN(counters, limit) == []
  {
    assert PositiveItems(counters) == {};
    RankingLength(Ranked({}), {});
  }

  /** What a Top-N means to its reader, without reference to how it is ranked. */
  lemma {:induction false} TopNMeaning(counters: map<string, int>, limit: nat)
    ensures BestFirst(TopN(counters, limit))
    ensures |TopN(counters, limit)|
            == if limit < |PositiveItems(counters)| then limit else |PositiveItems(counters)|
    ensures forall x :: x in TopN(counters, limit) ==> x in PositiveItems(counters)
    ensures forall x, y :: x in TopN(counters, limit) && y in PositiveItems(counters) && y !in TopN(counters, limit)
              ==> IsBetter(x, y)
  {
    var s := PositiveItems(counters);
    RankingLength(Ranked(s), s);
    TakeBeatsRest(Ranked(s), limit);
  }

  lemma {:induction false} PrefixBeatsRest(top: seq<TopItem>, rest: seq<TopItem>, x: TopItem, y: TopItem)
    requires BestFirst(top + rest) && x in top && y in rest
    ensures IsBetter(x, y)
  {
    var i :| 0 <= i < |top| && top[i] == x;
    var j :| 0 <= j < |rest| && rest[j] == y;
    assert (top + rest)[i] == x && (top + rest)[|top| + j] == y;
  }

  lemma {:induction false} TakeBeatsRest(all: seq<TopItem>, limit: nat)
    requires BestFirst(all)
    ensures forall x, y :: x in Take(all, limit) && y in all && y !in Take(all, limit) ==> IsBetter(x, y)
  {
    var top := Take(all, limit);
    var rest := all[|top|..];
    assert all == top + rest;
    forall x, y | x in top && y in all && y !in top ensures IsBetter(x, y) {
      PrefixBeatsRest(top, rest, x, y);
    }
  }

  // ---------- A Top-N as its reader sees it, in terms of counts and queries alone ----------

  /** Every item shows a positive counter. */
  ghost predicate ShowsCounters(items: seq<TopItem>, counters: map<string, int>) {
    forall i :: 0 <= i < |items| ==> items[i].query in counters && items[i].count == counters[items[i].query] > 0
  }

  /** Counts descend; queries ascend among equal counts. */
  ghost predicate Descends(items: seq<TopItem>) {
    forall i, j :: 0 <= i < j < |items| ==>
      && items[i].count >= items[j].count
      && (items[i].count == items[j].count ==> Precedes(items[i].query, items[j].query))
  }

  ghost predicate LeftOut(items: seq<TopItem>, counters: map<string, int>, q: string) {
    q in counters && counters[q] > 0 && forall i :: 0 <= i < |items| ==> items[i].query != q
  }

  /** A query is left out only of a full list, and for a lower count, or the same count and a later query. */
  ghost predicate LeavesOutWorse(items: seq<TopItem>, counters: map<string, int>, limit: int) {
    forall q :: LeftOut(items, counters, q) ==>
      && |items| >= limit
      && forall i :: 0 <= i < |items| ==>
           && counters[q] <= items[i].count
           && (counters[q] == items[i].count ==> Precedes(items[i].query, q))
  }

  ghost predicate ShowsTop(items: seq<TopItem>, counters: map<string, int>, limit: int) {
    && (items == [] || |items| <= limit)
    && ShowsCounters(items, counters)
    && Descends(items)
    && LeavesOutWorse(items, counters, limit)
  }

  lemma {:induction false} DescendsIff(items: seq<TopItem>)
    ensures Descends(items) <==> BestFirst(items)
  {
    if Descends(items) {
      forall i, j | 0 <= i < j < |items| ensures IsBetter(items[i], items[j]) {
        BetterIff(items[i], items[j]);
      }
    }
    if BestFirst(items) {
      forall i, j | 0 <= i < j < |items|
        ensures items[i].count >= items[j].count
        ensures items[i].count == items[j].count ==> Precedes(items[i].query, items[j].query)
      {
        BetterIff(items[i], items[j]);
      }
    }
  }

  lemma {:induction false} ShownIsPositive(items: seq<TopItem>, counters: map<string, int>)
    ensures ShowsCounters(items, counters) <==> forall x :: x in items ==> x in PositiveItems(counters)
  {
    if ShowsCounters(items, counters) {
      forall x | x in items ensures x in PositiveItems(counters) {
        var i :| 0 <= i < |items| && items[i] == x;
        assert x == TopItem(items[i].query, counters[items[i].query]);
      }
    } else {
      assert forall i :: 0 <= i < |items| ==> items[i] in items;
    }
  }

  /** Among items that show counters, a query is left out exactly when its item is missing. */
  lemma {:induction false} LeftOutIff(items: seq<TopItem>, counters: map<string, int>, q: string)
    requires ShowsCounters(items, counters) && q in counters
    ensures LeftOut(items, counters, q) <==>
            TopItem(q, counters[q]) in PositiveItems(counters) && TopItem(q, counters[q]) !in items
  {
    forall i | 0 <= i < |items| && items[i].query == q ensures TopItem(q, counters[q]) in items {
      assert items[i] == TopItem(q, counters[q]);
    }
  }

  /** The Top-N is the one list that a reader would accept. */
  lemma {:induction false} TopNIff(items: seq<TopItem>, counters: map<string, int>, limit: int)
    ensures items == TopN(counters, limit) <==> ShowsTop(items, counters, limit)
  {
    if items == TopN(counters, limit) {
      TopNShows(counters, limit);
    }
    if ShowsTop(items, counters, limit) {
      ShownIsTopN(items, counters, limit);
    }
  }

  lemma {:induction false} TopNShows(counters: map<string, int>, limit: int)
    ensures ShowsTop(TopN(counters, limit), counters, limit)
  {
    var items, s := TopN(counters, limit), PositiveItems(counters);
    TopNMeaning(counters, if limit < 0 then 0 else limit);
    DescendsIff(items);
    ShownIsPositive(items, counters);
    forall q | LeftOut(items, counters, q)
      ensures |items| >= limit
      ensures forall i :: 0 <= i < |items| ==>
                counters[q] <= items[i].count && (counters[q] == items[i].count ==> Precedes(items[i].query, q))
    {
      LeftOutIff(items, counters, q);
      var y := TopItem(q, counters[q]);
      forall i | 0 <= i < |items|
        ensures counters[q] <= items[i].count && (counters[q] == items[i].count ==> Precedes(items[i].query, q))
      {
        assert items[i] in items;
        BetterIff(items[i], y);
      }
      RankingLength(Ranked(s), s);
      assert |items| < limit ==> items == Ranked(s);
    }
  }

  lemma {:induction false} ShownIsTopN(items: seq<TopItem>, counters: map<string, int>, limit: int)
    requires ShowsTop(items, counters, limit)
    ensures items == TopN(counters, limit)
  {
    var s := PositiveItems(counters);
    DescendsIff(items);
    ShownIsPositive(items, counters);
    forall x, y | x in items && y in s && y !in items ensures IsBetter(x, y) {
      LeftOutIff(items, counters, y.query);
      assert LeftOut(items, counters, y.query);
      BetterIff(x, y);
    }
    SelectionIsPrefix(items, Ranked(s), s);
    if |items| < limit {
      forall y | y in s ensures y in items {
        LeftOutIff(items, counters, y.query);
        assert !LeftOut(items, counters, y.query);
      }
      RankingLength(items, s);
      RankingLength(Ranked(s), s);
    }
  }

  /** Answers for smaller limits are prefixes of answers for larger ones. */
  lemma {:induction false} SmallerLimitIsPrefix(counters: map<string, int>, small: int, large: int)
    requires small <= large
    ensures TopN(counters, small) <= TopN(counters, large)
    ensures Take(TopN(counters, large), small) == TopN(counters, small)
  {
  }
}

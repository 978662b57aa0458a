/** Ring: the fixed array of per-second count maps, as a representation of a list of events. */
module Ring {
  import opened Errors
  import opened EventLog
  import opened GoTime
  import opened SlidingWindow

  /** A bucket before its first use has no map. */
  datatype Bucket = Bucket(unixSecond: int, counts: Option<map<string, int>>) {
    function Entries(): map<string, int> {
      if counts.Some? then counts.value else map[]
    }

    function Cleared(): Bucket {
      Bucket(0, if counts.Some? then Some(map[]) else None)
    }
  }

  function InSlot(w: Window, i: int): Entry -> bool {
    (e: Entry) => w.Slot(e.second) == i
  }

  function OutOfSlot(w: Window, i: int): Entry -> bool {
    (e: Entry) => w.Slot(e.second) != i
  }

  /** The bucket of slot `i` counts the listed events of that slot, which share its second. */
  ghost predicate Holds(w: Window, b: Bucket, i: int, live: seq<Entry>) {
    && b.Entries() == Counts(Filter(InSlot(w, i), live))
    && (b.counts.None? ==> b.unixSecond == 0)
    && (b.unixSecond != 0 ==> b.Entries() != map[])
    && (forall e :: e in live && w.Slot(e.second) == i ==> e.second == b.unixSecond)
  }

  ghost predicate Represents(w: Window, buckets: seq<Bucket>, live: seq<Entry>) {
    && |buckets| == w.bucketCount
    && (forall i :: 0 <= i < |buckets| ==> Holds(w, buckets[i], i, live))
  }

  /** Ring and global counters both represent the listed events. */
  ghost predicate Consistent(w: Window, buckets: seq<Bucket>, counters: map<string, int>, live: seq<Entry>) {
    Represents(w, buckets, live) && counters == Counts(live)
  }

  lemma {:induction false} NonEmptyHasEvent(w: Window, b: Bucket, i: int, live: seq<Entry>) returns (e: Entry)
    requires Holds(w, b, i, live) && b.Entries() != map[]
    ensures e in live && w.Slot(e.second) == i && e.second == b.unixSecond
  {
    var here := Filter(InSlot(w, i), live);
    FilterMember(InSlot(w, i), live);
    var q :| q in b.Entries();
    assert q in Queries(here);
    e :| e in here && e.query == q;
  }

  /** Slot placement: a non-empty bucket lies in the slot of its second, also for seconds before
      1970, so no two non-empty buckets carry the same second. */
  lemma {:induction false} SlotPlacement(w: Window, buckets: seq<Bucket>, live: seq<Entry>, i: nat, j: nat)
    requires Represents(w, buckets, live) && i < |buckets| && j < |buckets|
    requires buckets[i].Entries() != map[]
    ensures BucketIndex(buckets[i].unixSecond, |buckets|) == i
    ensures buckets[j].Entries() != map[] && buckets[i].unixSecond == buckets[j].unixSecond ==> i == j
  {
    var e := NonEmptyHasEvent(w, buckets[i], i, live);
    if buckets[j].Entries() != map[] {
      var f := NonEmptyHasEvent(w, buckets[j], j, live);
    }
  }

  /** The count of a query over the whole ring. */
  function RingSum(buckets: seq<Bucket>, q: string): int {
    if buckets == [] then 0
    else RingSum(buckets[..|buckets| - 1], q) + Get(buckets[|buckets| - 1].Entries(), q)
  }

  function SlotBelow(w: Window, k: int): Entry -> bool {
    (e: Entry) => w.Slot(e.second) < k
  }

  lemma {:induction false} PartialRingSum(w: Window, buckets: seq<Bucket>, live: seq<Entry>, q: string, k: nat)
    requires Represents(w, buckets, live) && k <= |buckets|
    ensures RingSum(buckets[..k], q) == Occurrences(Filter(SlotBelow(w, k), live), q)
  {
    if k == 0 {
      FilterNone(SlotBelow(w, 0), live);
    } else {
      PartialRingSum(w, buckets, live, q, k - 1);
      assert buckets[..k][..k - 1] == buckets[..k - 1];
      OccurrencesSplit(SlotBelow(w, k - 1), InSlot(w, k - 1), SlotBelow(w, k), live, q);
      assert Holds(w, buckets[k - 1], k - 1, live);
      CountsReading(Filter(InSlot(w, k - 1), live));
    }
  }

  /** The redundant sum: the global counter of a query is the sum of its counts over the ring. */
  lemma {:induction false} RingSumIsCount(w: Window, buckets: seq<Bucket>, live: seq<Entry>, q: string)
    requires Represents(w, buckets, live)
    ensures RingSum(buckets, q) == Get(Counts(live), q)
    ensures q in Counts(live) <==> RingSum(buckets, q) > 0
  {
    PartialRingSum(w, buckets, live, q, |buckets|);
    assert buckets[..|buckets|] == buckets;
    FilterAll(SlotBelow(w, |buckets|), live);
    CountsReading(live);
  }

  /** Emptying a bucket forgets exactly the events of its slot. */
  lemma {:induction false} ClearedRepresents(w: Window, buckets: seq<Bucket>, live: seq<Entry>, i: nat)
    requires Represents(w, buckets, live) && i < |buckets|
    ensures Represents(w, buckets[i := buckets[i].Cleared()], Filter(OutOfSlot(w, i), live))
  {
    var after, left := buckets[i := buckets[i].Cleared()], Filter(OutOfSlot(w, i), live);
    FilterMember(OutOfSlot(w, i), live);
    forall j | 0 <= j < |after| ensures Holds(w, after[j], j, left) {
      assert Holds(w, buckets[j], j, live);
      if j == i {
        FilterNone(InSlot(w, i), left);
      } else {
        FilterTwice(InSlot(w, j), OutOfSlot(w, i), InSlot(w, j), live);
      }
    }
  }

  /** The counters after a bucket's entries have been subtracted. */
  lemma {:induction false} ClearedCount(w: Window, buckets: seq<Bucket>, live: seq<Entry>, i: nat, q: string)
    requires Represents(w, buckets, live) && i < |buckets|
    ensures Get(Counts(live), q) - Get(buckets[i].Entries(), q) == Occurrences(Filter(OutOfSlot(w, i), live), q)
    ensures q in buckets[i].Entries() ==> buckets[i].Entries()[q] > 0
  {
    var all := (e: Entry) => true;
    OccurrencesSplit(InSlot(w, i), OutOfSlot(w, i), all, live, q);
    FilterAll(all, live);
    assert Holds(w, buckets[i], i, live);
    CountsReading(live);
    CountsReading(Filter(InSlot(w, i), live));
  }

  lemma {:induction false} ClearedCounts(w: Window, buckets: seq<Bucket>, live: seq<Entry>, i: nat)
    requires Represents(w, buckets, live) && i < |buckets|
    ensures forall q :: q in buckets[i].Entries() ==> 0 < buckets[i].Entries()[q] <= Get(Counts(live), q)
    ensures forall q :: Get(Counts(live), q) - Get(buckets[i].Entries(), q)
                        == Occurrences(Filter(OutOfSlot(w, i), live), q)
  {
    forall q ensures q in buckets[i].Entries() ==> 0 < buckets[i].Entries()[q] <= Get(Counts(live), q)
             ensures Get(Counts(live), q) - Get(buckets[i].Entries(), q)
                     == Occurrences(Filter(OutOfSlot(w, i), live), q) {
      ClearedCount(w, buckets, live, i, q);
    }
  }

  /** A bucket of another second holds only events that a new one displaces, a bucket of the same
      second none. */
  lemma {:induction false} RivalsOfSlot(w: Window, b: Bucket, live: seq<Entry>, second: int)
    requires Holds(w, b, w.Slot(second), live) && b.unixSecond != second
    ensures Filter(OutOfSlot(w, w.Slot(second)), live) == Filter(NoRival(w, second), live)
  {
    FilterSame(OutOfSlot(w, w.Slot(second)), NoRival(w, second), live);
  }

  lemma {:induction false} NoRivalsOfSlot(w: Window, b: Bucket, live: seq<Entry>, second: int)
    requires Holds(w, b, w.Slot(second), live) && b.unixSecond == second
    ensures Filter(NoRival(w, second), live) == live
  {
    FilterAll(NoRival(w, second), live);
  }

  /** All listed events of the slot carry this second. */
  ghost predicate SharedSecond(w: Window, log: seq<Entry>, k: int, second: int) {
    forall e :: e in log && w.Slot(e.second) == k ==> e.second == second
  }

  lemma {:induction false} ClaimedShares(w: Window, live: seq<Entry>, second: int)
    ensures SharedSecond(w, Filter(NoRival(w, second), live), w.Slot(second), second)
  {
    FilterMember(NoRival(w, second), live);
  }

  function Put(b: Bucket, e: Entry): Bucket {
    Bucket(e.second, Some(b.Entries()[e.query := Get(b.Entries(), e.query) + 1]))
  }

  lemma {:induction false} PutHolds(w: Window, b: Bucket, live: seq<Entry>, e: Entry)
    requires Holds(w, b, w.Slot(e.second), live)
    requires SharedSecond(w, live, w.Slot(e.second), e.second)
    ensures Holds(w, Put(b, e), w.Slot(e.second), live + [e])
  {
    var here := InSlot(w, w.Slot(e.second));
    FilterAppend(here, live, e);
    PutEntries(b, Filter(here, live), e);
    assert e.query in Put(b, e).Entries();
  }

  lemma {:induction false} PutEntries(b: Bucket, here: seq<Entry>, e: Entry)
    requires b.Entries() == Counts(here)
    ensures Put(b, e).Entries() == Counts(here + [e])
  {
    CountsAppend(here, e);
  }

  lemma {:induction false} OtherHolds(w: Window, b: Bucket, i: int, live: seq<Entry>, e: Entry)
    requires Holds(w, b, i, live) && w.Slot(e.second) != i
    ensures Holds(w, b, i, live + [e])
  {
    FilterAppend(InSlot(w, i), live, e);
  }

  /** Counting an event in its slot, once no other second is left there. */
  lemma {:induction false} PutRepresents(w: Window, buckets: seq<Bucket>, live: seq<Entry>, e: Entry)
    requires Represents(w, buckets, live)
    requires SharedSecond(w, live, w.Slot(e.second), e.second)
    ensures var i := w.Slot(e.second);
            Represents(w, buckets[i := Put(buckets[i], e)], live + [e])
  {
    var i := w.Slot(e.second);
    var after := buckets[i := Put(buckets[i], e)];
    forall j | 0 <= j < |after| ensures Holds(w, after[j], j, live + [e]) {
      if j == i {
        PutHolds(w, buckets[i], live, e);
      } else {
        OtherHolds(w, buckets[j], j, live, e);
      }
    }
  }

  lemma {:induction false} PutConsistent(
      w: Window, buckets: seq<Bucket>, counters: map<string, int>, live: seq<Entry>, e: Entry)
    requires Consistent(w, buckets, counters, live)
    requires SharedSecond(w, live, w.Slot(e.second), e.second)
    ensures var i := w.Slot(e.second);
            Consistent(w, buckets[i := Put(buckets[i], e)],
                       counters[e.query := Get(counters, e.query) + 1], live + [e])
  {
    PutRepresents(w, buckets, live, e);
    CountsAppend(live, e);
  }

  // ---------- Expiry, slot by slot ----------

  /** Still counted when the expiry loop has treated the slots below `k`. */
  function KeptBelow(w: Window, cutoff: int, k: int): Entry -> bool {
    (e: Entry) => w.Slot(e.second) >= k || e.second == 0 || e.second >= cutoff
  }

  /** At first everything is kept, in the end what is not stale. */
  lemma {:induction false} KeptBelowEnds(w: Window, cutoff: int, live: seq<Entry>)
    ensures Filter(KeptBelow(w, cutoff, 0), live) == live
    ensures Filter(KeptBelow(w, cutoff, w.bucketCount), live) == Filter(Fresh(cutoff), live)
  {
    FilterAll(KeptBelow(w, cutoff, 0), live);
    FilterSame(KeptBelow(w, cutoff, w.bucketCount), Fresh(cutoff), live);
  }

  lemma {:induction false} DropSlot(w: Window, before: seq<Entry>, cutoff: int, k: int, second: int)
    requires SharedSecond(w, before, k, second) && second != 0 && second < cutoff
    ensures Filter(OutOfSlot(w, k), Filter(KeptBelow(w, cutoff, k), before))
            == Filter(KeptBelow(w, cutoff, k + 1), before)
  {
    var kept, next := KeptBelow(w, cutoff, k), KeptBelow(w, cutoff, k + 1);
    forall e | e in before ensures next(e) <==> OutOfSlot(w, k)(e) && kept(e) {
      assert w.Slot(e.second) == k ==> e.second == second;
    }
    FilterTwice(OutOfSlot(w, k), kept, next, before);
  }

  lemma {:induction false} KeepSlot(w: Window, before: seq<Entry>, cutoff: int, k: int, second: int)
    requires SharedSecond(w, before, k, second) && (second == 0 || second >= cutoff)
    ensures Filter(KeptBelow(w, cutoff, k), before) == Filter(KeptBelow(w, cutoff, k + 1), before)
  {
    var kept, next := KeptBelow(w, cutoff, k), KeptBelow(w, cutoff, k + 1);
    forall e | e in before ensures kept(e) <==> next(e) {
      assert w.Slot(e.second) == k ==> e.second == second;
    }
    FilterSame(kept, next, before);
  }

  lemma {:induction false} SlotShares(w: Window, b: Bucket, before: seq<Entry>, cutoff: int, k: int)
    requires Holds(w, b, k, Filter(KeptBelow(w, cutoff, k), before))
    ensures SharedSecond(w, before, k, b.unixSecond)
  {
    FilterMember(KeptBelow(w, cutoff, k), before);
  }

  /** One round of the expiry loop: a used bucket with a stale second is emptied. */
  lemma {:induction false} ExpireSlot(w: Window, b: Bucket, before: seq<Entry>, live: seq<Entry>, cutoff: int, k: nat)
    requires live == Filter(KeptBelow(w, cutoff, k), before) && Holds(w, b, k, live)
    ensures b.counts.Some? && b.unixSecond != 0 && b.unixSecond < cutoff ==>
              && Filter(OutOfSlot(w, k), live) == Filter(KeptBelow(w, cutoff, k + 1), before)
              && |Filter(OutOfSlot(w, k), live)| < |live|
    ensures !(b.counts.Some? && b.unixSecond != 0 && b.unixSecond < cutoff) ==>
              live == Filter(KeptBelow(w, cutoff, k + 1), before)
  {
    SlotShares(w, b, before, cutoff, k);
    if b.counts.Some? && b.unixSecond != 0 && b.unixSecond < cutoff {
      DropSlot(w, before, cutoff, k, b.unixSecond);
      var e := NonEmptyHasEvent(w, b, k, live);
      FilterDrops(OutOfSlot(w, k), live, e);
    } else {
      KeepSlot(w, before, cutoff, k, b.unixSecond);
    }
  }
}

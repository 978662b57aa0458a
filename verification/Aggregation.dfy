/** Aggregation: the in-memory aggregator. Every method is one locked region of the service; the
    ghost trace of its steps ties the mutable state to the sliding-window machine. */
module Aggregation {
  import opened Errors
  import opened EventLog
  import opened GoTime
  import opened Normalizers
  import opened Ranking
  import opened Ring
  import opened SlidingWindow
  import opened Text
  import opened TopHeap

  datatype Config = Config(
    window: int,
    bucketSize: int,
    defaultLimit: int,
    maxLimit: int,
    maxQueryRunes: int,
    allowedFutureSkew: int)
  {
    predicate Valid() {
      && window > 0 && bucketSize > 0 && window % bucketSize == 0
      && 0 < defaultLimit <= maxLimit && maxQueryRunes > 0 && allowedFutureSkew > 0
    }

    /** The ring that a valid configuration asks for has at least one bucket. */
    function Shape(): Window
      requires Valid()
    {
      PositiveQuotient(window, bucketSize);
      Window(window / bucketSize, bucketSize)
    }

    function NormalizeLimit(limit: int): (r: int)
      requires Valid()
      ensures 0 < r <= maxLimit
      ensures limit <= 0 ==> r == defaultLimit
      ensures 0 < limit <= maxLimit ==> r == limit
      ensures limit > maxLimit ==> r == maxLimit
    {
      if limit <= 0 then defaultLimit else if limit > maxLimit then maxLimit else limit
    }
  }

  lemma {:induction false} PositiveQuotient(a: Pos, b: Pos)
    requires a % b == 0
    ensures a / b > 0 && a == b * (a / b)
  {
    assert a == b * (a / b) + a % b;
    MultiplesAreOrdered(b, a / b, 1);
  }

  /** What is configured is kept; a size, length or skew that is not positive gets its default. */
  ghost predicate Completes(given: Config, cfg: Config) {
    && cfg.window == given.window && cfg.defaultLimit == given.defaultLimit && cfg.maxLimit == given.maxLimit
    && (given.bucketSize > 0 ==> cfg.bucketSize == given.bucketSize)
    && (given.bucketSize <= 0 ==> cfg.bucketSize == 1_000_000_000)
    && (given.maxQueryRunes > 0 ==> cfg.maxQueryRunes == given.maxQueryRunes)
    && (given.maxQueryRunes <= 0 ==> cfg.maxQueryRunes == 256)
    && (given.allowedFutureSkew > 0 ==> cfg.allowedFutureSkew == given.allowedFutureSkew)
    && (given.allowedFutureSkew <= 0 ==> cfg.allowedFutureSkew == 5_000_000_000)
  }

  /** Defaults filled in, or the refusal of `New`. */
  function Prepare(cfg: Config): (r: Result<Config>)
    ensures r.Ok? ==> r.value.Valid() && Completes(cfg, r.value)
    ensures r.Ok? <==>
            && cfg.window > 0
            && (cfg.bucketSize <= 0 ==> cfg.window % SECOND == 0)
            && (cfg.bucketSize > 0 ==> cfg.window % cfg.bucketSize == 0)
            && 0 < cfg.defaultLimit <= cfg.maxLimit
  {
    if cfg.window <= 0 then Err(OtherError)
    else
      var size := if cfg.bucketSize <= 0 then SECOND else cfg.bucketSize;
      if cfg.window % size != 0 then Err(OtherError)
      else if cfg.defaultLimit <= 0 then Err(OtherError)
      else if cfg.maxLimit < cfg.defaultLimit then Err(OtherError)
      else Ok(cfg.(
              bucketSize := size,
              maxQueryRunes := if cfg.maxQueryRunes <= 0 then DEFAULT_MAX_QUERY_RUNES else cfg.maxQueryRunes,
              allowedFutureSkew := if cfg.allowedFutureSkew <= 0 then 5 * SECOND else cfg.allowedFutureSkew))
  }

  datatype SearchEvent = SearchEvent(query: string, timestamp: int)

  /** The outcome of event validation. */
  datatype Verdict =
    | Invalid(error: Error)
    | Expired
    | Accepted(entry: Entry)

  /** Timestamp checks come first, so an expired event is ignored whatever its query. */
  function Judge(cfg: Config, lower: Lower, event: SearchEvent, now: int): (v: Verdict)
    requires cfg.Valid()
    ensures v.Invalid? ==> IsValidationError(v.error)
    ensures v.Accepted? ==> v.entry.query == Canon(lower, event.query) != ""
  {
    if event.timestamp == ZERO_TIME then Invalid(InvalidTimestamp)
    else if event.timestamp > now + cfg.allowedFutureSkew then Invalid(EventFromFuture)
    else if event.timestamp < now - cfg.window then Expired
    else
      match Normalized(lower, event.query, cfg.maxQueryRunes)
      case Err(e) => Invalid(e)
      case Ok(key) => Accepted(Entry(BucketSecond(event.timestamp, cfg.bucketSize), key))
  }

  /** With one-second buckets and a skew below the window, validation lets through only seconds
      from one behind the window to less than a window ahead of the clock. */
  lemma {:induction false} AcceptedIsPlausible(cfg: Config, lower: Lower, event: SearchEvent, now: int)
    requires cfg.Valid() && cfg.bucketSize == SECOND && cfg.allowedFutureSkew <= cfg.window - SECOND
    requires Judge(cfg, lower, event, now).Accepted?
    ensures Plausible(cfg.Shape(), SlidingWindow.Add(now, Judge(cfg, lower, event, now).entry))
  {
    var n := cfg.Shape().bucketCount;
    PositiveQuotient(cfg.window, SECOND);
    OneSecondBuckets(now);
    OneSecondBuckets(event.timestamp);
    assert (now - n * SECOND) / SECOND == now / SECOND - n;
    assert (now + (n - 1) * SECOND) / SECOND == now / SECOND + n - 1;
  }

  /** The documented configuration. */
  const DOCUMENTED_CONFIG := Config(300 * SECOND, SECOND, 10, 100, 256, 5 * SECOND)

  /** Two queries with different keys, whatever the lower-casing. */
  lemma {:induction false} LettersAreNormal(lower: Lower)
    ensures Normalized(lower, "a", 256) == Ok([lower('a')])
    ensures Normalized(lower, "aa", 256) == Ok([lower('a'), lower('a')])
  {
    CanonOfRune(lower, 'a');
    CanonOfTwoRunes(lower, 'a', 'a');
  }

  lemma {:induction false} DocumentedShape()
    ensures DOCUMENTED_CONFIG.Valid() && DOCUMENTED_CONFIG.Shape() == DOCUMENTED
  {
  }

  /** The verdict of the documented configuration at second 1000. */
  ghost predicate AcceptsAs(lower: Lower, query: string, e: Entry) {
    && DOCUMENTED_CONFIG.Valid()
    && Judge(DOCUMENTED_CONFIG, lower, SearchEvent(query, e.second * SECOND), 1000 * SECOND) == Accepted(e)
  }

  /** What validation accepts: a time from one window back to the allowed skew ahead, and a query that
      has a normal form within the limit. */
  lemma {:induction false} AcceptedIff(cfg: Config, lower: Lower, event: SearchEvent, now: int)
    requires cfg.Valid()
    ensures Judge(cfg, lower, event, now).Accepted? <==>
            && event.timestamp != ZERO_TIME
            && now - cfg.window <= event.timestamp <= now + cfg.allowedFutureSkew
            && Normalized(lower, event.query, cfg.maxQueryRunes).Ok?
    ensures Judge(cfg, lower, event, now).Accepted? ==>
              Judge(cfg, lower, event, now).entry
              == Entry(BucketSecond(event.timestamp, cfg.bucketSize),
                       Normalized(lower, event.query, cfg.maxQueryRunes).value)
  {
  }

  /** The event's time is given, not beyond the allowed skew, and not more than a window back. */
  predicate InTime(cfg: Config, event: SearchEvent, now: int) {
    event.timestamp != ZERO_TIME && now - cfg.window <= event.timestamp <= now + cfg.allowedFutureSkew
  }

  /** Which verdict an event gets, from its time, the clock and its words. */
  lemma {:induction false} VerdictIff(cfg: Config, lower: Lower, event: SearchEvent, now: int)
    requires cfg.Valid()
    ensures var v, words := Judge(cfg, lower, event, now), Words(lower, event.query);
            && (v == Invalid(InvalidTimestamp) <==> event.timestamp == ZERO_TIME)
            && (v == Invalid(EventFromFuture) <==>
                event.timestamp != ZERO_TIME && event.timestamp > now + cfg.allowedFutureSkew)
            && (v == Expired <==> event.timestamp != ZERO_TIME && event.timestamp < now - cfg.window)
            && (v == Invalid(EmptyQuery) <==> InTime(cfg, event, now) && words == [])
            && (v == Invalid(QueryTooLong) <==> InTime(cfg, event, now) && |Join(words)| > cfg.maxQueryRunes)
            && (v == Accepted(Entry(BucketSecond(event.timestamp, cfg.bucketSize), Join(words))) <==>
                InTime(cfg, event, now) && words != [] && |Join(words)| <= cfg.maxQueryRunes)
  {
    CanonEmptyIff(lower, event.query);
  }

  lemma {:induction false} DocumentedAccepts(lower: Lower, query: string, e: Entry)
    requires 700 <= e.second <= 1005 && Normalized(lower, query, 256) == Ok(e.query)
    ensures AcceptsAs(lower, query, e)
  {
    DocumentedShape();
    OneSecondBuckets(e.second * SECOND);
    AcceptedIff(DOCUMENTED_CONFIG, lower, SearchEvent(query, e.second * SECOND), 1000 * SECOND);
  }

  /** Two events of different queries, both accepted at the same time, after which the first has no
      count although it is in the window: the other is a second ahead of the clock, or exactly one
      window old. */
  lemma {:induction false} ValidationAdmitsLoss(lower: Lower)
    ensures var a, aa := [lower('a')], [lower('a'), lower('a')];
            && AcceptsAs(lower, "a", Entry(701, a)) && AcceptsAs(lower, "aa", Entry(1001, aa))
            && Loses(DOCUMENTED, 1000 * SECOND, Entry(701, a), Entry(1001, aa))
            && AcceptsAs(lower, "a", Entry(1000, a)) && AcceptsAs(lower, "aa", Entry(700, aa))
            && Loses(DOCUMENTED, 1000 * SECOND, Entry(1000, a), Entry(700, aa))
  {
    var a, aa := [lower('a')], [lower('a'), lower('a')];
    LettersAreNormal(lower);
    DocumentedAccepts(lower, "a", Entry(701, a));
    DocumentedAccepts(lower, "aa", Entry(1001, aa));
    DocumentedAccepts(lower, "a", Entry(1000, a));
    DocumentedAccepts(lower, "aa", Entry(700, aa));
    FutureEventDropsOldest(a, aa);
    BoundaryEventDropsCurrent(a, aa);
  }

  /** For every valid configuration, expiry keeps exactly the instants of the last `window` if and only if
      a bucket is one second, or the whole window is one longer bucket. */
  lemma {:induction false} ConfiguredWindowIff(cfg: Config)
    requires cfg.Valid()
    ensures cfg.Shape().bucketSize * cfg.Shape().bucketCount == cfg.window
    ensures KeepsLastWindow(cfg.Shape()) <==>
            cfg.bucketSize == SECOND || (cfg.bucketSize > SECOND && cfg.bucketSize == cfg.window)
  {
    var d, n := cfg.bucketSize, cfg.Shape().bucketCount;
    PositiveQuotient(cfg.window, d);
    MultiplesAreOrdered(d, 1, n);
    KeepsLastWindowIff(cfg.Shape());
  }

  /** Five-minute windows of two-second and of half-second buckets. */
  const TWO_SECOND_CONFIG := DOCUMENTED_CONFIG.(bucketSize := 2 * SECOND)
  const HALF_SECOND: Pos := 500_000_000
  const HALF_SECOND_CONFIG := DOCUMENTED_CONFIG.(bucketSize := HALF_SECOND)

  lemma {:induction false} TwoSecondShape()
    ensures TWO_SECOND_CONFIG.Valid() && TWO_SECOND_CONFIG.Shape() == Window(150, 2 * SECOND)
    ensures BucketSecond(800 * SECOND, 2 * SECOND) == 800
    ensures TWO_SECOND_CONFIG.Shape().Cutoff(1000 * SECOND) == 851
  {
    MultipleIsTruncated(2 * SECOND, (800 - ZERO_TIME / SECOND) / 2);
    MultipleIsTruncated(2 * SECOND, (1000 - ZERO_TIME / SECOND) / 2);
  }

  /** With two-second buckets an event 200 seconds old is accepted into a five-minute window, and a
      rebuild at the same clock forgets it. */
  lemma {:induction false} TwoSecondBucketsForget(lower: Lower)
    ensures TWO_SECOND_CONFIG.Valid()
    ensures var now, e := 1000 * SECOND, Entry(800, [lower('a')]);
            && Judge(TWO_SECOND_CONFIG, lower, SearchEvent("a", 800 * SECOND), now) == Accepted(e)
            && 800 * SECOND > now - TWO_SECOND_CONFIG.window
            && Replay(TWO_SECOND_CONFIG.Shape(), now, [SlidingWindow.Add(now, e), Rebuild(now)]).live == []
  {
    LettersAreNormal(lower);
    TwoSecondShape();
    AcceptedIff(TWO_SECOND_CONFIG, lower, SearchEvent("a", 800 * SECOND), 1000 * SECOND);
    AloneAfterRebuild(Window(150, 2 * SECOND), 1000 * SECOND, Entry(800, [lower('a')]), 1000 * SECOND);
  }

  /** Half-second buckets start at every whole second. */
  lemma {:induction false} HalfSecondBuckets(second: int)
    ensures BucketSecond(second * SECOND, HALF_SECOND) == second
  {
    MultipleIsTruncated(HALF_SECOND, 2 * (second - ZERO_TIME / SECOND));
  }

  lemma {:induction false} HalfSecondShape()
    ensures HALF_SECOND_CONFIG.Valid() && HALF_SECOND_CONFIG.Shape() == Window(600, HALF_SECOND)
    ensures BucketSecond(1000 * SECOND, HALF_SECOND) == 1000
    ensures HALF_SECOND_CONFIG.Shape().Cutoff(1500 * SECOND) == 901
  {
    HalfSecondBuckets(1000);
    HalfSecondBuckets(1500);
  }

  /** With half-second buckets a five-minute window still counts an event that is 500 seconds old. */
  lemma {:induction false} HalfSecondBucketsKeep(lower: Lower)
    ensures HALF_SECOND_CONFIG.Valid()
    ensures var now, later, e := 1000 * SECOND, 1500 * SECOND, Entry(1000, [lower('a')]);
            && Judge(HALF_SECOND_CONFIG, lower, SearchEvent("a", now), now) == Accepted(e)
            && now < later - HALF_SECOND_CONFIG.window
            && Replay(HALF_SECOND_CONFIG.Shape(), now, [SlidingWindow.Add(now, e), Rebuild(later)]).live == [e]
  {
    LettersAreNormal(lower);
    HalfSecondShape();
    AcceptedIff(HALF_SECOND_CONFIG, lower, SearchEvent("a", 1000 * SECOND), 1000 * SECOND);
    AloneAfterRebuild(Window(600, HALF_SECOND), 1000 * SECOND, Entry(1000, [lower('a')]), 1500 * SECOND);
  }

  /** A single event, after a rebuild. */
  lemma {:induction false} AloneAfterRebuild(w: Window, now: int, e: Entry, later: int)
    requires e.second != 0
    ensures Replay(w, now, [SlidingWindow.Add(now, e), Rebuild(later)]).live
            == if e.second < w.Cutoff(later) then [] else [e]
  {
    var add := SlidingWindow.Add(now, e);
    RunAppend(w, now, [], add);
    RunAppend(w, now, [add], Rebuild(later));
    assert [] + [add] == [add] && [add] + [Rebuild(later)] == [add, Rebuild(later)] && [] + [e] == [e];
    FilterAppend(Fresh(w.Cutoff(later)), [], e);
  }

  /** The step is an event that validation accepted at that clock value. */
  ghost predicate Arrived(cfg: Config, lower: Lower, op: Op)
    requires cfg.Valid()
  {
    op.Add? ==> exists event :: Judge(cfg, lower, event, op.now) == Accepted(op.entry)
  }

  ghost predicate AllArrived(cfg: Config, lower: Lower, trace: seq<Op>)
    requires cfg.Valid()
  {
    forall op :: op in trace ==> Arrived(cfg, lower, op)
  }

  lemma {:induction false} ArrivedIsPlausible(cfg: Config, lower: Lower, trace: seq<Op>)
    requires cfg.Valid() && cfg.bucketSize == SECOND && cfg.allowedFutureSkew <= cfg.window - SECOND
    requires AllArrived(cfg, lower, trace)
    ensures forall op :: op in trace ==> Plausible(cfg.Shape(), op)
  {
    forall op | op in trace ensures Plausible(cfg.Shape(), op) {
      assert Arrived(cfg, lower, op);
      if op.Add? {
        var event :| Judge(cfg, lower, event, op.now) == Accepted(op.entry);
        AcceptedIsPlausible(cfg, lower, event, op.now);
      }
    }
  }

  lemma {:induction false} ArrivedAppend(cfg: Config, lower: Lower, trace: seq<Op>, event: SearchEvent, now: int)
    requires cfg.Valid() && AllArrived(cfg, lower, trace) && Judge(cfg, lower, event, now).Accepted?
    ensures AllArrived(cfg, lower, trace + [SlidingWindow.Add(now, Judge(cfg, lower, event, now).entry)])
  {
    assert Arrived(cfg, lower, SlidingWindow.Add(now, Judge(cfg, lower, event, now).entry));
  }

  /** These fields are those of the machine; the cache is the exact Top-N of its snapshot. */
  ghost predicate Tracks(cfg: Config, st: State, live: seq<Entry>, dirty: bool, topCache: seq<TopItem>, at: int) {
    && live == st.live
    && dirty == st.dirty
    && at == st.generatedAt
    && topCache == TopN(Counts(st.cached), cfg.maxLimit)
  }

  lemma {:induction false} AddTracks(
      cfg: Config, created: int, trace: seq<Op>, topCache: seq<TopItem>, at: int, now: int, e: Entry)
    requires cfg.Valid()
    requires var st := Replay(cfg.Shape(), created, trace); Tracks(cfg, st, st.live, st.dirty, topCache, at)
    ensures var w := cfg.Shape();
            var live := Replay(w, created, trace).live;
            Tracks(cfg, Replay(w, created, trace + [SlidingWindow.Add(now, e)]),
                   Filter(NoRival(w, e.second), Expire(w, live, now)) + [e], true, topCache, at)
  {
    RunAppend(cfg.Shape(), created, trace, SlidingWindow.Add(now, e));
  }

  /** What the API reads: the items, when they were built, and the length of the window. */
  datatype Snapshot = Snapshot(items: seq<TopItem>, generatedAt: int, windowSeconds: int)

  class Aggregator {
    const cfg: Config
    const lower: Lower
    const buckets: array<Bucket>
    var counters: map<string, int>
    var topCache: seq<TopItem>
    var topGeneratedAt: int
    var dirty: bool

    /** Events observed by status. */
    var acceptedEvents: nat
    var expiredEvents: nat
    var invalidEvents: nat

    /** The events counted now, when the aggregator was created, and its steps since then. */
    ghost var live: seq<Entry>
    ghost const created: int
    ghost var trace: seq<Op>

    /** The ring and the global counters both represent the counted events. */
    ghost predicate RingValid()
      reads this`counters, this`live, buckets
    {
      cfg.Valid() && Consistent(cfg.Shape(), buckets[..], counters, live)
    }

    /** The state of the machine after the steps taken so far. */
    ghost function Machine(): State
      requires cfg.Valid()
      reads this`trace
    {
      Replay(cfg.Shape(), created, trace)
    }

    /** The aggregator is where the machine is. */
    ghost predicate Valid()
      reads this`counters, this`live, this`topCache, this`topGeneratedAt, this`dirty, this`trace, buckets
    {
      RingValid() && Tracks(cfg, Machine(), live, dirty, topCache, topGeneratedAt)
    }

    constructor (cfg: Config, lower: Lower, now: int)
      requires cfg.Valid()
      ensures Valid() && fresh(buckets)
      ensures this.cfg == cfg && this.lower == lower && created == now && trace == []
      ensures acceptedEvents == expiredEvents == invalidEvents == 0
      ensures counters == map[] && topCache == [] && topGeneratedAt == now && !dirty
    {
      this.cfg := cfg;
      this.lower := lower;
      this.created := now;
      var n := cfg.Shape().bucketCount;
      this.buckets := new Bucket[n](_ => Bucket(0, None));
      counters, topCache, topGeneratedAt, dirty := map[], [], now, false;
      acceptedEvents, expiredEvents, invalidEvents := 0, 0, 0;
      live, trace := [], [];
      new;
      NothingToRank(Counts([]), cfg.maxLimit);
    }

    /** Subtracts a bucket's counts, query by query in any order; a counter that would drop to
        zero is deleted, and none would drop below. */
    method SubtractCounts(entries: map<string, int>)
      requires forall q :: q in counters ==> counters[q] > 0
      requires forall q :: q in entries ==> 0 < entries[q] <= Get(counters, q)
      modifies this`counters
      ensures forall q :: q in counters ==> counters[q] > 0
      ensures forall q :: Get(counters, q) == Get(old(counters), q) - Get(entries, q)
    {
      var remaining := entries.Keys;
      while remaining != {}
        invariant remaining <= entries.Keys
        invariant forall q :: q in counters ==> counters[q] > 0
        invariant forall q :: Get(counters, q) == Get(old(counters), q) - if q in remaining then 0 else Get(entries, q)
        decreases |remaining|
      {
        var query :| query in remaining;
        var nextCount := Get(counters, query) - entries[query];
        remaining := remaining - {query};
        if nextCount <= 0 {
          assert nextCount == 0;
          counters := counters - {query};
          continue;
        }
        counters := counters[query := nextCount];
      }
    }

    /** Takes a bucket out of the counters and empties it. */
    method ClearBucketLocked(index: nat)
      requires RingValid() && index < buckets.Length
      modifies this`counters, this`live, buckets
      ensures RingValid()
      ensures buckets[..] == old(buckets[..])[index := old(buckets[index]).Cleared()]
      ensures live == Filter(OutOfSlot(cfg.Shape(), index), old(live))
    {
      ghost var w, ring := cfg.Shape(), buckets[..];
      ghost var left := Filter(OutOfSlot(w, index), live);
      ClearedCounts(w, ring, live, index);
      ClearedRepresents(w, ring, live, index);
      CountsReading(live);
      SubtractCounts(buckets[index].Entries());
      CountsDetermined(counters, left);
      buckets[index] := buckets[index].Cleared();
      live := left;
      assert buckets[..] == ring[index := ring[index].Cleared()];
    }

    /** Empties every used bucket older than the window; tells whether an event was dropped. */
    method ExpireLocked(now: int) returns (expired: bool)
      requires RingValid()
      modifies this`counters, this`live, buckets
      ensures RingValid()
      ensures live == Expire(cfg.Shape(), old(live), now)
      ensures expired <==> live != old(live)
    {
      var w := cfg.Shape();
      var cutoff := w.Cutoff(now);
      expired := false;
      KeptBelowEnds(w, cutoff, live);
      for index := 0 to buckets.Length
        invariant RingValid()
        invariant live == Filter(KeptBelow(w, cutoff, index), old(live))
        invariant if expired then |live| < |old(live)| else live == old(live)
      {
        var dropped := ExpireBucketLocked(index, cutoff, old(live));
        expired := expired || dropped;
      }
    }

    /** One round of the expiry loop. */
    method ExpireBucketLocked(index: nat, cutoff: int, ghost before: seq<Entry>) returns (dropped: bool)
      requires RingValid() && index < buckets.Length
      requires live == Filter(KeptBelow(cfg.Shape(), cutoff, index), before)
      modifies this`counters, this`live, buckets
      ensures RingValid()
      ensures live == Filter(KeptBelow(cfg.Shape(), cutoff, index + 1), before)
      ensures if dropped then |live| < |old(live)| else live == old(live)
    {
      var currentBucket := buckets[index];
      assert Holds(cfg.Shape(), buckets[..][index], index, live);
      ExpireSlot(cfg.Shape(), currentBucket, before, live, cutoff, index);
      if currentBucket.counts.None? || currentBucket.unixSecond == 0 {
        return false;
      }
      if currentBucket.unixSecond < cutoff {
        ClearBucketLocked(index);
        return true;
      }
      return false;
    }

    /** Takes the slot over from any other second. */
    method ClaimSlot(index: nat, second: int)
      requires RingValid() && index == cfg.Shape().Slot(second)
      modifies this`counters, this`live, buckets
      ensures RingValid()
      ensures live == Filter(NoRival(cfg.Shape(), second), old(live))
    {
      ghost var w := cfg.Shape();
      assert Holds(w, buckets[..][index], index, live);
      if buckets[index].unixSecond != second {
        RivalsOfSlot(w, buckets[index], live, second);
        ClearBucketLocked(index);
      } else {
        NoRivalsOfSlot(w, buckets[index], live, second);
      }
    }

    /** Counts an event in its bucket and in the counters, when its slot holds no other second. */
    method PutLocked(index: nat, entry: Entry)
      requires RingValid() && index == cfg.Shape().Slot(entry.second)
      requires SharedSecond(cfg.Shape(), live, index, entry.second)
      modifies this`counters, this`live, buckets
      ensures RingValid()
      ensures live == old(live) + [entry]
    {
      PutConsistent(cfg.Shape(), buckets[..], counters, live, entry);
      Store(index, Put(buckets[index], entry), counters[entry.query := Get(counters, entry.query) + 1], live + [entry]);
    }

    /** Writes one bucket and the counters that go with it. */
    method Store(index: nat, bucket: Bucket, nextCounters: map<string, int>, ghost nextLive: seq<Entry>)
      requires cfg.Valid() && index < buckets.Length
      requires Consistent(cfg.Shape(), buckets[..][index := bucket], nextCounters, nextLive)
      modifies this`counters, this`live, buckets
      ensures RingValid() && live == nextLive && counters == nextCounters
      ensures buckets[..] == old(buckets[..])[index := bucket]
    {
      ghost var after := buckets[..][index := bucket];
      buckets[index] := bucket;
      counters, live := nextCounters, nextLive;
      assert buckets[..] == after;
    }

    /** The ring's part of an accepted event: expiry, taking over the slot, counting. */
    method CountLocked(entry: Entry, now: int)
      requires RingValid()
      modifies this`counters, this`live, buckets
      ensures RingValid()
      ensures live == Filter(NoRival(cfg.Shape(), entry.second), Expire(cfg.Shape(), old(live), now)) + [entry]
    {
      ghost var w := cfg.Shape();
      var _ := ExpireLocked(now);
      var index := BucketIndex(entry.second, buckets.Length);
      ghost var current := live;
      ClaimSlot(index, entry.second);
      ClaimedShares(w, current, entry.second);
      PutLocked(index, entry);
    }

    /** `validateAndNormalize`. */
    method Validate(event: SearchEvent, now: int) returns (v: Verdict)
      requires cfg.Valid()
      ensures v == Judge(cfg, lower, event, now)
    {
      if event.timestamp == ZERO_TIME {
        return Invalid(InvalidTimestamp);
      }
      if event.timestamp > now + cfg.allowedFutureSkew {
        return Invalid(EventFromFuture);
      }
      if event.timestamp < now - cfg.window {
        return Expired;
      }
      var key := NormalizeQuery(lower, event.query, cfg.maxQueryRunes);
      if key.Err? {
        return Invalid(key.error);
      }
      return Accepted(Entry(BucketSecond(event.timestamp, cfg.bucketSize), key.value));
    }

    /** The locked part of an accepted event: one step of the machine. */
    method AddLocked(entry: Entry, now: int)
      requires Valid()
      modifies this`counters, this`live, this`dirty, this`trace, buckets
      ensures Valid() && dirty
      ensures trace == old(trace) + [SlidingWindow.Add(now, entry)]
    {
      AddTracks(cfg, created, trace, topCache, topGeneratedAt, now, entry);
      CountLocked(entry, now);
      MarkDirty(SlidingWindow.Add(now, entry));
    }

    method MarkDirty(ghost op: Op)
      requires RingValid()
      modifies this`dirty, this`trace
      ensures RingValid() && dirty && trace == old(trace) + [op]
    {
      ghost var ring := buckets[..];
      dirty, trace := true, trace + [op];
      assert buckets[..] == ring;
    }

    /** One event: rejected, ignored, or one step of the machine. */
    method Add(ctx: Option<Error>, event: SearchEvent, now: int) returns (err: Option<Error>)
      requires Valid()
      modifies this, buckets
      ensures Valid()
      ensures var v := Judge(cfg, lower, event, now);
              var ok := ctx.None?;
              && err == (if !ok then ctx else if v.Invalid? then Some(v.error) else None)
              && trace == old(trace) + (if ok && v.Accepted? then [SlidingWindow.Add(now, v.entry)] else [])
              && acceptedEvents == old(acceptedEvents) + (if ok && v.Accepted? then 1 else 0)
              && expiredEvents == old(expiredEvents) + (if ok && v.Expired? then 1 else 0)
              && invalidEvents == old(invalidEvents) + (if ok && v.Invalid? then 1 else 0)
      // The zero time comes first, then the bounds, and only in between the query.
      ensures ctx.None? ==>
                && (err == Some(InvalidTimestamp) <==> event.timestamp == ZERO_TIME)
                && (err == Some(EventFromFuture) <==>
                    event.timestamp != ZERO_TIME && event.timestamp > now + cfg.allowedFutureSkew)
                && (expiredEvents != old(expiredEvents) <==>
                    event.timestamp != ZERO_TIME && event.timestamp < now - cfg.window)
                && (expiredEvents != old(expiredEvents) ==> err.None? && trace == old(trace))
      ensures ctx.None? ==>
                var inTime := event.timestamp != ZERO_TIME
                              && now - cfg.window <= event.timestamp <= now + cfg.allowedFutureSkew;
                var key := Join(Words(lower, event.query));
                && (err == Some(EmptyQuery) <==> inTime && Words(lower, event.query) == [])
                && (err == Some(QueryTooLong) <==> inTime && |key| > cfg.maxQueryRunes)
                && (inTime && err.None? ==>
                    var entry := Entry(BucketSecond(event.timestamp, cfg.bucketSize), key);
                    trace == old(trace) + [SlidingWindow.Add(now, entry)])
      ensures ctx.None? && err.Some? ==> invalidEvents == old(invalidEvents) + 1 && trace == old(trace)
      ensures old(AllArrived(cfg, lower, trace)) ==> AllArrived(cfg, lower, trace)
    {
      hide Judge, Canon, Words, Join, Replay, TopN;
      if ctx.Some? {
        return ctx;
      }
      var v := Validate(event, now);
      VerdictIff(cfg, lower, event, now);
      Observe(v);
      match v {
        case Invalid(e) =>
          return Some(e);
        case Expired =>
          return None;
        case Accepted(entry) =>
          if AllArrived(cfg, lower, trace) {
            ArrivedAppend(cfg, lower, trace, event, now);
          }
          AddLocked(entry, now);
          return None;
      }
    }

    /** `observeEvent`, one status for each outcome of validation. */
    method Observe(v: Verdict)
      modifies this`acceptedEvents, this`expiredEvents, this`invalidEvents
      ensures acceptedEvents == old(acceptedEvents) + (if v.Accepted? then 1 else 0)
      ensures expiredEvents == old(expiredEvents) + (if v.Expired? then 1 else 0)
      ensures invalidEvents == old(invalidEvents) + (if v.Invalid? then 1 else 0)
    {
      match v
      case Invalid(_) => invalidEvents := invalidEvents + 1;
      case Expired => expiredEvents := expiredEvents + 1;
      case Accepted(_) => acceptedEvents := acceptedEvents + 1;
    }

    /** Rebuilds the cached Top-N unless nothing changed since the last rebuild. */
    method RebuildTop(ctx: Option<Error>, now: int) returns (err: Option<Error>)
      requires Valid()
      modifies this`counters, this`live, this`topCache, this`topGeneratedAt, this`dirty, this`trace, buckets
      ensures Valid() && err == ctx
      ensures trace == old(trace) + if ctx.None? then [Rebuild(now)] else []
      ensures ctx.None? ==> !dirty && topCache == TopN(counters, cfg.maxLimit)
      ensures old(AllArrived(cfg, lower, trace)) ==> AllArrived(cfg, lower, trace)
    {
      if ctx.Some? {
        return ctx;
      }
      CacheCoherent(cfg.Shape(), created, trace);
      RunAppend(cfg.Shape(), created, trace, Rebuild(now));
      var expired := ExpireLocked(now);
      trace := trace + [Rebuild(now)];
      if !dirty && !expired {
        return None;
      }
      topCache := TopOfCounters();
      topGeneratedAt := now;
      dirty := false;
      return None;
    }

    method TopOfCounters() returns (items: seq<TopItem>)
      ensures items == TopN(counters, cfg.maxLimit)
    {
      items := BuildTop(counters, cfg.maxLimit);
    }

    /** The clock did not run backwards, and every event arrived in the window. */
    ghost predicate InWindow()
      requires cfg.Valid()
      reads this`trace
    {
      ClockMonotone(trace) && NoSentinel(trace) && ArriveInWindow(cfg.Shape(), trace)
    }

    /** The accepted events of the window at the latest actual rebuild. */
    ghost function PublishedEvents(): seq<Entry>
      requires cfg.Valid()
      reads this`trace
    {
      Published(cfg.Shape(), created, trace)
    }

    /** Reads the cache: the exact Top-N, for the limit in force, of the events that were counted
        at the latest actual rebuild, with the time of that rebuild. When events arrive in the window,
        these are the accepted events of the window at that time. */
    method GetTop(ctx: Option<Error>, limit: int) returns (r: Result<(seq<TopItem>, int)>)
      requires Valid()
      ensures ctx.Some? ==> r == Err(ctx.value)
      ensures ctx.None? ==>
                r == Ok((TopN(Counts(Machine().cached), cfg.NormalizeLimit(limit)), Machine().generatedAt))
      ensures ctx.None? ==> ShowsTop(r.value.0, Counts(Machine().cached), cfg.NormalizeLimit(limit))
      ensures ctx.None? && InWindow() ==>
                r == Ok((TopN(Counts(PublishedEvents()), cfg.NormalizeLimit(limit)), Machine().generatedAt))
    {
      if ctx.Some? {
        return Err(ctx.value);
      }
      if InWindow() {
        CacheIsPublished(cfg.Shape(), created, trace);
      }
      var effective := cfg.NormalizeLimit(limit);
      TopNShows(Counts(Machine().cached), effective);
      SmallerLimitIsPrefix(Counts(Machine().cached), effective, cfg.maxLimit);
      var items := topCache;
      if effective < |items| {
        items := items[..effective];
      }
      return Ok((items, topGeneratedAt));
    }

    method TakeSnapshot(ctx: Option<Error>, limit: int) returns (r: Result<Snapshot>)
      requires Valid()
      ensures ctx.Some? ==> r == Err(ctx.value)
      ensures ctx.None? ==>
                r == Ok(Snapshot(TopN(Counts(Machine().cached), cfg.NormalizeLimit(limit)),
                                 Machine().generatedAt, cfg.window / SECOND))
      ensures ctx.None? && InWindow() ==> r.value.items == TopN(Counts(PublishedEvents()), cfg.NormalizeLimit(limit))
    {
      var top := GetTop(ctx, limit);
      if top.Err? {
        return Err(top.error);
      }
      return Ok(Snapshot(top.value.0, top.value.1, cfg.window / SECOND));
    }

    /** In every reachable state the counters are the sums over the ring, without zero entries. */
    lemma {:induction false} CountersAreRingSums(q: string)
      requires Valid()
      ensures Get(counters, q) == RingSum(buckets[..], q)
      ensures q in counters <==> RingSum(buckets[..], q) > 0
    {
      RingSumIsCount(cfg.Shape(), buckets[..], live, q);
    }

    /** In every reachable state with a clean cache, the cache is the exact Top-N of the counters. */
    lemma {:induction false} CleanCacheIsExact()
      requires Valid() && !dirty
      ensures topCache == TopN(counters, cfg.maxLimit)
    {
      CacheCoherent(cfg.Shape(), created, trace);
    }

    /** After a run whose events arrived in the window of a monotone clock, each counter is the
        number of that query's accepted events in the current window. */
    lemma {:induction false} CountersAreExact(q: string)
      requires Valid() && trace != []
      requires ClockMonotone(trace) && NoSentinel(trace) && ArriveInWindow(cfg.Shape(), trace)
      ensures var w, now := cfg.Shape(), trace[|trace| - 1].now;
              Get(counters, q)
              == Occurrences(Filter(Within(w.Cutoff(now), w.Current(now)), History(trace)), q)
    {
      ExactSlidingWindow(cfg.Shape(), created, trace);
      CountsReading(live);
    }

    /** Every counter is the window's count, now and after a rebuild at the clock of the last step. */
    ghost predicate CountersExact()
      requires cfg.Valid() && trace != []
      reads this`counters, this`live, this`trace
    {
      ReadExact(cfg.Shape(), counters, live, trace[|trace| - 1].now, History(trace))
    }

    /** After a run whose earlier events were admissible, the counters are exact if and only if the
        last step was admissible, too. */
    lemma {:induction false} CountersExactIffAdmissible()
      requires Valid() && trace != [] && ClockMonotone(trace) && NoSentinel(trace)
      requires AlwaysAdmissible(cfg.Shape(), trace[..|trace| - 1])
      ensures CountersExact() <==> Admissible(cfg.Shape(), History(trace[..|trace| - 1]), trace[|trace| - 1])
    {
      CountExactLast(cfg.Shape(), created, trace);
      CountersExactMeaning(cfg.Shape(), created, trace);
    }
  }

  /** The counters, and those left by a rebuild at `now`, read the window's counts. */
  ghost predicate ReadExact(w: Window, counters: map<string, int>, live: seq<Entry>, now: int, history: seq<Entry>) {
    forall q :: Get(counters, q) == Get(Counts(Expire(w, live, now)), q) == WindowCount(w, now, history, q)
  }

  lemma {:induction false} CountersExactMeaning(w: Window, created: int, trace: seq<Op>)
    requires trace != []
    ensures var now, live := trace[|trace| - 1].now, Replay(w, created, trace).live;
            CountExactTwice(w, created, trace) <==> ReadExact(w, Counts(live), live, now, History(trace))
  {
    var now, live := trace[|trace| - 1].now, Replay(w, created, trace).live;
    RunAppend(w, created, trace, Rebuild(now));
    ReadingsAgree(live, Expire(w, live, now), q => WindowCount(w, now, History(trace), q));
  }

  /** In every reachable state, with one-second buckets and a skew below the window: if the next
      accepted event removes a counted one that is not expired, that one lies exactly one window away. */
  lemma {:induction false} NextEventDisplaces(a: Aggregator, event: SearchEvent, now: int, x: Entry)
    requires a.Valid() && AllArrived(a.cfg, a.lower, a.trace) && NoSentinel(a.trace)
    requires a.cfg.bucketSize == SECOND && a.cfg.allowedFutureSkew <= a.cfg.window - SECOND
    requires Judge(a.cfg, a.lower, event, now).Accepted?
    requires var op := SlidingWindow.Add(now, Judge(a.cfg, a.lower, event, now).entry);
             && ClockMonotone(a.trace + [op]) && x in a.live && x.second >= a.cfg.Shape().Cutoff(now)
             && x.second != op.entry.second && Removes(a.cfg.Shape(), op, x)
    ensures var e, w := Judge(a.cfg, a.lower, event, now).entry.second, a.cfg.Shape();
            && (e < w.Cutoff(now) ==> x.second == e + w.bucketCount == w.Current(now))
            && (w.Cutoff(now) <= e <= w.Current(now) ==> x.second == e + w.bucketCount > w.Current(now))
            && (e > w.Current(now) ==> x.second == e - w.bucketCount)
  {
    var w, op := a.cfg.Shape(), SlidingWindow.Add(now, Judge(a.cfg, a.lower, event, now).entry);
    ArrivedAppend(a.cfg, a.lower, a.trace, event, now);
    ArrivedIsPlausible(a.cfg, a.lower, a.trace + [op]);
    FilterMember(Fresh(w.Cutoff(now)), a.live);
    DisplacementBound(w, a.created, a.trace, op, x);
  }

  /** `New`: refuses an unusable configuration, otherwise creates an empty aggregator. */
  method New(cfg: Config, lower: Lower, now: int) returns (r: Result<Aggregator>)
    ensures r.Ok? <==>
            && cfg.window > 0 && cfg.window % (if cfg.bucketSize > 0 then cfg.bucketSize else SECOND) == 0
            && 0 < cfg.defaultLimit <= cfg.maxLimit
    ensures r.Ok? ==> fresh(r.value) && fresh(r.value.buckets) && r.value.Valid() && r.value.trace == []
    ensures r.Ok? ==>
              var made := r.value.cfg;
              && made.window == cfg.window && made.defaultLimit == cfg.defaultLimit && made.maxLimit == cfg.maxLimit
              && made.bucketSize == (if cfg.bucketSize > 0 then cfg.bucketSize else 1_000_000_000)
              && made.maxQueryRunes == (if cfg.maxQueryRunes > 0 then cfg.maxQueryRunes else 256)
              && made.allowedFutureSkew == (if cfg.allowedFutureSkew > 0 then cfg.allowedFutureSkew else 5_000_000_000)
              && r.value.buckets.Length * made.bucketSize == cfg.window
    ensures r.Ok? ==>
              && r.value.lower == lower && r.value.created == r.value.topGeneratedAt == now
              && r.value.counters == map[] && r.value.topCache == [] && !r.value.dirty
              && r.value.acceptedEvents == r.value.expiredEvents == r.value.invalidEvents == 0
  {
    var prepared := Prepare(cfg);
    if prepared.Err? {
      return Err(prepared.error);
    }
    var agg := new Aggregator(prepared.value, lower, now);
    PositiveQuotient(prepared.value.window, prepared.value.bucketSize);
    return Ok(agg);
  }
}

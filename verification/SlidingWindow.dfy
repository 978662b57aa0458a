/** SlidingWindow: what the aggregator computes, as a machine whose state is a plain list of
    events, and what every run of that machine satisfies. The aggregator refines it step by step. */
module SlidingWindow {
  import opened GoTime
  import opened EventLog

  datatype Window = Window(bucketCount: Pos, bucketSize: Pos) {
    /** The bucket second of the clock. */
    function Current(now: int): int {
      BucketSecond(now, bucketSize)
    }

    /** The oldest second that an expiry at `now` keeps. */
    function Cutoff(now: int): int {
      Current(now) - bucketCount + 1
    }

    function Slot(second: int): (index: nat)
      ensures index < bucketCount
    {
      BucketIndex(second, bucketCount)
    }
  }

  /** The clock's bucket starts at the last multiple of the bucket size since the zero time, and the cutoff is the
      second of that start less the number of buckets, plus one. */
  lemma {:induction false} CutoffMeaning(w: Window, now: int)
    ensures var start := ZERO_TIME + w.bucketSize * ((now - ZERO_TIME) / w.bucketSize);
            start <= now < start + w.bucketSize && w.Cutoff(now) == start / SECOND - w.bucketCount + 1
  {
    TruncateIsMultiple(now, w.bucketSize);
    DivisionIdentity(now - ZERO_TIME, w.bucketSize);
  }

  /** One locked region: an accepted event or a rebuild, at the clock value read before the lock. */
  datatype Op =
    | Add(now: int, entry: Entry)
    | Rebuild(now: int)

  /** `cached` is the list of events that the cached Top-N was built from. */
  datatype State = State(live: seq<Entry>, dirty: bool, cached: seq<Entry>, generatedAt: int)

  /** Second 0 marks an empty bucket, so events in it never expire. */
  function Fresh(cutoff: int): Entry -> bool {
    (e: Entry) => e.second == 0 || e.second >= cutoff
  }

  /** Not displaced by an event in `second`: another second, but the same slot, is. */
  function NoRival(w: Window, second: int): Entry -> bool {
    (e: Entry) => e.second == second || w.Slot(e.second) != w.Slot(second)
  }

  function Expire(w: Window, live: seq<Entry>, now: int): seq<Entry> {
    Filter(Fresh(w.Cutoff(now)), live)
  }

  function Step(w: Window, st: State, op: Op): State {
    var live := Expire(w, st.live, op.now);
    match op
    case Add(_, e) =>
      st.(live := Filter(NoRival(w, e.second), live) + [e], dirty := true)
    case Rebuild(now) =>
      if !st.dirty && live == st.live then st else State(live, false, live, now)
  }

  /** The state after a run; `created` is the clock when the aggregator was created. */
  function Replay(w: Window, created: int, ops: seq<Op>): State {
    if ops == [] then State([], false, [], created)
    else Step(w, Replay(w, created, ops[..|ops| - 1]), ops[|ops| - 1])
  }

  function History(ops: seq<Op>): seq<Entry> {
    if ops == [] then []
    else
      var front, last := History(ops[..|ops| - 1]), ops[|ops| - 1];
      if last.Add? then front + [last.entry] else front
  }

  lemma {:induction false} HistoryAppend(ops: seq<Op>, op: Op)
    ensures History(ops + [op]) == History(ops) + if op.Add? then [op.entry] else []
  {
    assert (ops + [op])[..|ops|] == ops;
  }

  lemma {:induction false} RunAppend(w: Window, created: int, ops: seq<Op>, op: Op)
    ensures Replay(w, created, ops + [op]) == Step(w, Replay(w, created, ops), op)
    ensures History(ops + [op]) == History(ops) + if op.Add? then [op.entry] else []
  {
    HistoryAppend(ops, op);
    assert (ops + [op])[..|ops|] == ops;
  }

  // ---------- Which events are counted, for every run and every clock ----------

  /** Does the step remove this earlier event? */
  predicate Removes(w: Window, op: Op, e: Entry) {
    || (e.second != 0 && e.second < w.Cutoff(op.now))
    || (op.Add? && e.second != op.entry.second && w.Slot(e.second) == w.Slot(op.entry.second))
  }

  predicate Outlives(w: Window, e: Entry, later: seq<Op>) {
    forall op :: op in later ==> !Removes(w, op, e)
  }

  /** What a step adds to the count, given the steps after it. */
  function Contribution(w: Window, op: Op, later: seq<Op>): seq<Entry> {
    if op.Add? && Outlives(w, op.entry, later) then [op.entry] else []
  }

  /** The accepted events that no later step removes, in order of arrival. */
  function Survivors(w: Window, ops: seq<Op>): seq<Entry> {
    if ops == [] then [] else Contribution(w, ops[0], ops[1..]) + Survivors(w, ops[1..])
  }

  function Spared(w: Window, op: Op): Entry -> bool {
    (e: Entry) => !Removes(w, op, e)
  }

  lemma {:induction false} ContributionStep(w: Window, op: Op, later: seq<Op>, last: Op)
    ensures Contribution(w, op, later + [last]) == Filter(Spared(w, last), Contribution(w, op, later))
  {
    if op.Add? {
      assert last in later + [last];
      assert Outlives(w, op.entry, later + [last]) <==> Outlives(w, op.entry, later) && Spared(w, last)(op.entry);
      FilterAppend(Spared(w, last), [], op.entry);
      assert [] + [op.entry] == [op.entry];
    }
  }

  lemma {:induction false} SurvivorsStep(w: Window, ops: seq<Op>, op: Op)
    ensures Survivors(w, ops + [op])
            == Filter(Spared(w, op), Survivors(w, ops)) + if op.Add? then [op.entry] else []
  {
    var added := if op.Add? then [op.entry] else [];
    if ops == [] {
      assert [] + [op] == [op] && [op][1..] == [];
    } else {
      var first, rest := ops[0], ops[1..];
      calc {
        Survivors(w, ops + [op]);
        { assert (ops + [op])[1..] == rest + [op]; }
        Contribution(w, first, rest + [op]) + Survivors(w, rest + [op]);
        { ContributionStep(w, first, rest, op); SurvivorsStep(w, rest, op); }
        Filter(Spared(w, op), Contribution(w, first, rest)) + (Filter(Spared(w, op), Survivors(w, rest)) + added);
        { FilterConcat(Spared(w, op), Contribution(w, first, rest), Survivors(w, rest)); }
        Filter(Spared(w, op), Survivors(w, ops)) + added;
      }
    }
  }

  /** A step keeps exactly the events that it does not remove, then appends its own. */
  lemma {:induction false} StepSpares(w: Window, st: State, op: Op)
    ensures Step(w, st, op).live == Filter(Spared(w, op), st.live) + if op.Add? then [op.entry] else []
  {
    var keep := Fresh(w.Cutoff(op.now));
    if op.Add? {
      FilterTwice(NoRival(w, op.entry.second), keep, Spared(w, op), st.live);
    } else {
      FilterSame(keep, Spared(w, op), st.live);
    }
  }

  /** Closed form of every run: an accepted event is counted exactly when no later expiry has
      passed it and no later event has taken its slot for another second. */
  lemma {:induction false} LiveAreSurvivors(w: Window, created: int, ops: seq<Op>)
    ensures Replay(w, created, ops).live == Survivors(w, ops)
  {
    if ops == [] {
    } else {
      var front, last := ops[..|ops| - 1], ops[|ops| - 1];
      assert ops == front + [last];
      LiveAreSurvivors(w, created, front);
      RunAppend(w, created, front, last);
      StepSpares(w, Replay(w, created, front), last);
      SurvivorsStep(w, front, last);
    }
  }

  lemma {:induction false} LiveAreAccepted(w: Window, created: int, ops: seq<Op>)
    ensures forall e :: e in Replay(w, created, ops).live ==> e in History(ops)
  {
    if ops == [] {
    } else {
      var front, last := ops[..|ops| - 1], ops[|ops| - 1];
      LiveAreAccepted(w, created, front);
      StepSpares(w, Replay(w, created, front), last);
      FilterMember(Spared(w, last), Replay(w, created, front).live);
    }
  }

  // ---------- The cached Top-N ----------

  /** A clean cache was built from exactly the events counted now. */
  lemma {:induction false} CacheCoherent(w: Window, created: int, ops: seq<Op>)
    ensures var st := Replay(w, created, ops); !st.dirty ==> st.cached == st.live
  {
    if ops == [] {
    } else {
      CacheCoherent(w, created, ops[..|ops| - 1]);
    }
  }

  /** A rebuild leaves a clean, current cache, also through its early return, and a second
      rebuild at the same time changes nothing, not even the time stamp. */
  lemma {:induction false} RebuildIsCurrent(w: Window, created: int, ops: seq<Op>, now: int)
    ensures var st := Replay(w, created, ops + [Rebuild(now)]);
            && !st.dirty && st.cached == st.live == Expire(w, Replay(w, created, ops).live, now)
            && Replay(w, created, ops + [Rebuild(now), Rebuild(now)]) == st
  {
    var once, twice := ops + [Rebuild(now)], ops + [Rebuild(now), Rebuild(now)];
    assert once[..|once| - 1] == ops && twice[..|twice| - 1] == once;
    CacheCoherent(w, created, ops);
    var live, keep := Replay(w, created, ops).live, Fresh(w.Cutoff(now));
    FilterTwice(keep, keep, keep, live);
  }

  /** How many steps of the run led up to the latest rebuild that was not skipped. */
  function LatestRebuild(w: Window, created: int, ops: seq<Op>): (k: nat)
    ensures k <= |ops|
  {
    if ops == [] then 0
    else
      var front, last := ops[..|ops| - 1], ops[|ops| - 1];
      var st := Replay(w, created, front);
      if last.Rebuild? && (st.dirty || Expire(w, st.live, last.now) != st.live) then |ops|
      else LatestRebuild(w, created, front)
  }

  /** A stale cache is a real snapshot: it holds the events counted right after the latest
      actual rebuild, and none before the first. */
  lemma {:induction false} CacheIsSnapshot(w: Window, created: int, ops: seq<Op>)
    ensures var k, st := LatestRebuild(w, created, ops), Replay(w, created, ops);
            && st.cached == Replay(w, created, ops[..k]).live
            && (if k == 0 then st.cached == [] && st.generatedAt == created
                else ops[k - 1].Rebuild? && st.generatedAt == ops[k - 1].now)
  {
    if ops == [] {
    } else {
      var front, k := ops[..|ops| - 1], LatestRebuild(w, created, ops);
      if k < |ops| {
        CacheIsSnapshot(w, created, front);
        assert front[..k] == ops[..k];
      } else {
        assert ops[..k] == ops;
      }
    }
  }

  /** Every rebuild after that one found nothing to change. */
  lemma {:induction false} LaterRebuildsSkipped(w: Window, created: int, ops: seq<Op>, j: nat)
    requires LatestRebuild(w, created, ops) <= j < |ops| && ops[j].Rebuild?
    ensures Replay(w, created, ops[..j + 1]) == Replay(w, created, ops[..j])
  {
    var front := ops[..|ops| - 1];
    if j == |front| {
      assert ops[..j + 1] == ops && ops[..j] == front;
    } else {
      LaterRebuildsSkipped(w, created, front, j);
      assert front[..j + 1] == ops[..j + 1] && front[..j] == ops[..j];
    }
  }

  // ---------- When the counts are exactly those of the window ----------

  predicate ClockMonotone(ops: seq<Op>) {
    forall i, j :: 0 <= i < j < |ops| ==> ops[i].now <= ops[j].now
  }

  /** No event in the second that marks empty buckets, midnight of January 1, 1970. */
  predicate NoSentinel(ops: seq<Op>) {
    forall op :: op in ops && op.Add? ==> op.entry.second != 0
  }

  /** Such an event is never expired, at any clock value: only a rival in its slot removes it. */
  lemma {:induction false} SentinelNeverExpires(w: Window, live: seq<Entry>, now: int, e: Entry)
    requires e in live && e.second == 0
    ensures e in Expire(w, live, now)
  {
    FilterMember(Fresh(w.Cutoff(now)), live);
  }

  function AtLeast(cutoff: int): Entry -> bool {
    (e: Entry) => e.second >= cutoff
  }

  /** The counted events are exactly the accepted ones that are not older than the window. Accepted
      events ahead of the clock belong to it, as they are not older. */
  predicate Exact(w: Window, created: int, ops: seq<Op>) {
    ops != [] ==>
      Replay(w, created, ops).live == Filter(AtLeast(w.Cutoff(ops[|ops| - 1].now)), History(ops))
  }

  /** After the run and after each of its prefixes. */
  predicate AlwaysExact(w: Window, created: int, ops: seq<Op>) {
    ops == [] || (AlwaysExact(w, created, ops[..|ops| - 1]) && Exact(w, created, ops))
  }

  /** The event is in the window, and no accepted event of the window has its slot in another second. */
  predicate Admissible(w: Window, history: seq<Entry>, op: Op) {
    op.Add? ==>
      && op.entry.second >= w.Cutoff(op.now)
      && forall x :: x in history && x.second >= w.Cutoff(op.now) && w.Slot(x.second) == w.Slot(op.entry.second)
           ==> x.second == op.entry.second
  }

  /** Every step of the run, when it was taken. */
  predicate AlwaysAdmissible(w: Window, ops: seq<Op>) {
    ops == [] ||
    (AlwaysAdmissible(w, ops[..|ops| - 1]) && Admissible(w, History(ops[..|ops| - 1]), ops[|ops| - 1]))
  }

  lemma {:induction false} HistorySeconds(ops: seq<Op>)
    requires NoSentinel(ops)
    ensures forall e :: e in History(ops) ==> e.second != 0
  {
    if ops == [] {
    } else {
      assert ops[|ops| - 1] in ops;
      HistorySeconds(ops[..|ops| - 1]);
    }
  }

  /** After an exact state with an older clock, expiry leaves the recent part of the history. */
  lemma {:induction false} ExpireExact(w: Window, created: int, ops: seq<Op>, now: int)
    requires NoSentinel(ops) && Exact(w, created, ops)
    requires ops != [] ==> ops[|ops| - 1].now <= now
    ensures Expire(w, Replay(w, created, ops).live, now) == Filter(AtLeast(w.Cutoff(now)), History(ops))
  {
    if ops != [] {
      var before := ops[|ops| - 1].now;
      HistorySeconds(ops);
      BucketSecondMonotone(before, now, w.bucketSize);
      FilterTwice(Fresh(w.Cutoff(now)), AtLeast(w.Cutoff(before)), AtLeast(w.Cutoff(now)), History(ops));
    }
  }

  /** An event keeps the recent part of the history intact exactly when it is admissible. */
  lemma {:induction false} IntactIffAdmissible(w: Window, history: seq<Entry>, op: Op)
    requires op.Add?
    ensures var c := w.Cutoff(op.now);
            var kept := Filter(NoRival(w, op.entry.second), Filter(AtLeast(c), history));
            kept + [op.entry] == Filter(AtLeast(c), history + [op.entry]) <==> Admissible(w, history, op)
  {
    var e, c := op.entry, w.Cutoff(op.now);
    var recent := Filter(AtLeast(c), history);
    var kept := Filter(NoRival(w, e.second), recent);
    FilterAppend(AtLeast(c), history, e);
    FilterMember(AtLeast(c), history);
    FilterMember(NoRival(w, e.second), recent);
    if Admissible(w, history, op) {
      FilterAll(NoRival(w, e.second), recent);
    } else if e.second < c {
      assert e in kept + [e] && e !in recent;
    } else {
      var x :| x in history && x.second >= c && w.Slot(x.second) == w.Slot(e.second) && x.second != e.second;
      assert x in recent + [e] && x !in kept + [e];
    }
  }

  /** From an exact state, one more step is exact if and only if it is admissible. */
  lemma {:induction false} ExactStep(w: Window, created: int, ops: seq<Op>, op: Op)
    requires NoSentinel(ops) && Exact(w, created, ops)
    requires ops != [] ==> ops[|ops| - 1].now <= op.now
    ensures Exact(w, created, ops + [op]) <==> Admissible(w, History(ops), op)
  {
    RunAppend(w, created, ops, op);
    ExpireExact(w, created, ops, op.now);
    if op.Add? {
      IntactIffAdmissible(w, History(ops), op);
    }
  }

  /** The exact window, decided: for every run with a monotone clock, the counted events are those
      of the window after every step if and only if every event was admissible when it arrived. */
  lemma {:induction false} ExactIffAdmissible(w: Window, created: int, ops: seq<Op>)
    requires ClockMonotone(ops) && NoSentinel(ops)
    ensures AlwaysExact(w, created, ops) <==> AlwaysAdmissible(w, ops)
  {
    if ops == [] {
    } else {
      var front, last := ops[..|ops| - 1], ops[|ops| - 1];
      ExactIffAdmissible(w, created, front);
      assert ops == front + [last];
      assert Exact(w, created, []);
      if AlwaysExact(w, created, front) {
        ExactStep(w, created, front, last);
      }
    }
  }

  /** How many accepted events of a query are not older than the window. */
  function WindowCount(w: Window, now: int, history: seq<Entry>, q: string): nat {
    Occurrences(Filter(AtLeast(w.Cutoff(now)), history), q)
  }

  /** Every query's count is the window's. */
  ghost predicate CountExact(w: Window, created: int, ops: seq<Op>) {
    ops != [] ==>
      forall q :: Occurrences(Replay(w, created, ops).live, q) == WindowCount(w, ops[|ops| - 1].now, History(ops), q)
  }

  /** Now, and after a rebuild at the same clock. */
  ghost predicate CountExactTwice(w: Window, created: int, ops: seq<Op>)
    requires ops != []
  {
    CountExact(w, created, ops) && CountExact(w, created, ops + [Rebuild(ops[|ops| - 1].now)])
  }

  /** After every step of the run. */
  ghost predicate AlwaysCountExact(w: Window, created: int, ops: seq<Op>) {
    ops == [] ||
    (AlwaysCountExact(w, created, ops[..|ops| - 1]) && CountExactTwice(w, created, ops))
  }

  /** The events counted when one arrives in an exact state, and those left by a rebuild. */
  function Arrive(w: Window, history: seq<Entry>, op: Op): seq<Entry>
    requires op.Add?
  {
    Filter(NoRival(w, op.entry.second), Filter(AtLeast(w.Cutoff(op.now)), history)) + [op.entry]
  }

  lemma {:induction false} ArriveAfterExact(w: Window, created: int, ops: seq<Op>, op: Op)
    requires NoSentinel(ops) && Exact(w, created, ops) && op.Add?
    requires ops != [] ==> ops[|ops| - 1].now <= op.now
    ensures Replay(w, created, ops + [op]).live == Arrive(w, History(ops), op)
    ensures Replay(w, created, ops + [op] + [Rebuild(op.now)]).live == Expire(w, Arrive(w, History(ops), op), op.now)
    ensures History(ops + [op] + [Rebuild(op.now)]) == History(ops + [op]) == History(ops) + [op.entry]
  {
    RunAppend(w, created, ops, op);
    ExpireExact(w, created, ops, op.now);
    RunAppend(w, created, ops + [op], Rebuild(op.now));
  }

  /** Some query is miscounted, at once or after a rebuild at the same clock. */
  ghost predicate Miscounts(w: Window, history: seq<Entry>, op: Op)
    requires op.Add?
  {
    exists q :: MiscountsQuery(w, history, op, q)
  }

  ghost predicate MiscountsQuery(w: Window, history: seq<Entry>, op: Op, q: string)
    requires op.Add?
  {
    var count, arrived := WindowCount(w, op.now, history + [op.entry], q), Arrive(w, history, op);
    Occurrences(arrived, q) != count || Occurrences(Expire(w, arrived, op.now), q) != count
  }

  /** An event that is in the window, but has a rival in it, costs the rival's query a count. */
  lemma {:induction false} RivalCosts(w: Window, history: seq<Entry>, op: Op, x: Entry)
    requires op.Add? && op.entry.second >= w.Cutoff(op.now)
    requires x in Filter(AtLeast(w.Cutoff(op.now)), history) && !NoRival(w, op.entry.second)(x)
    ensures MiscountsQuery(w, history, op, x.query)
  {
    var e, c := op.entry, w.Cutoff(op.now);
    var recent := Filter(AtLeast(c), history);
    OccurrencesDrop(NoRival(w, e.second), recent, x);
    FilterAppend(AtLeast(c), history, e);
    OccurrencesAppend(recent, e, x.query);
    OccurrencesAppend(Filter(NoRival(w, e.second), recent), e, x.query);
  }

  /** An event behind the window is counted at once, unless it has a rival; then a rebuild drops it
      and the rival's query is short of a count. */
  lemma {:induction false} StaleCosts(w: Window, history: seq<Entry>, op: Op)
    requires op.Add? && op.entry.second != 0 && op.entry.second < w.Cutoff(op.now)
    ensures Miscounts(w, history, op)
  {
    var e, c := op.entry, w.Cutoff(op.now);
    var recent := Filter(AtLeast(c), history);
    var kept := Filter(NoRival(w, e.second), recent);
    FilterAppend(AtLeast(c), history, e);
    FilterMember(AtLeast(c), history);
    FilterMember(NoRival(w, e.second), recent);
    if x :| x in recent && !NoRival(w, e.second)(x) {
      OccurrencesDrop(NoRival(w, e.second), recent, x);
      FilterAppend(Fresh(c), kept, e);
      FilterAll(Fresh(c), kept);
      assert MiscountsQuery(w, history, op, x.query);
    } else {
      FilterAll(NoRival(w, e.second), recent);
      OccurrencesAppend(recent, e, e.query);
      assert MiscountsQuery(w, history, op, e.query);
    }
  }

  /** From an exact state, the counts stay exact if and only if the event is admissible. */
  lemma {:induction false} MiscountsIffInadmissible(w: Window, history: seq<Entry>, op: Op)
    requires op.Add? && op.entry.second != 0
    ensures Miscounts(w, history, op) <==> !Admissible(w, history, op)
  {
    var e, c := op.entry, w.Cutoff(op.now);
    var recent := Filter(AtLeast(c), history);
    FilterMember(AtLeast(c), history);
    if Admissible(w, history, op) {
      IntactIffAdmissible(w, history, op);
      FilterMember(AtLeast(c), history + [e]);
      FilterAll(Fresh(c), Arrive(w, history, op));
    } else if e.second < c {
      StaleCosts(w, history, op);
    } else {
      var x :| x in history && x.second >= c && w.Slot(x.second) == w.Slot(e.second) && x.second != e.second;
      RivalCosts(w, history, op, x);
    }
  }

  lemma {:induction false} CountExactIffNoMiscount(w: Window, created: int, ops: seq<Op>, op: Op)
    requires NoSentinel(ops) && Exact(w, created, ops) && op.Add?
    requires ops != [] ==> ops[|ops| - 1].now <= op.now
    ensures CountExactTwice(w, created, ops + [op]) <==> !Miscounts(w, History(ops), op)
  {
    var all, history := ops + [op], History(ops);
    var arrived := Arrive(w, history, op);
    ArriveAfterExact(w, created, ops, op);
    assert all[|all| - 1] == op && (all + [Rebuild(op.now)])[|all|] == Rebuild(op.now);
    assert CountExact(w, created, all) <==>
           forall q :: Occurrences(arrived, q) == WindowCount(w, op.now, history + [op.entry], q);
    assert CountExact(w, created, all + [Rebuild(op.now)]) <==>
           forall q :: Occurrences(Expire(w, arrived, op.now), q) == WindowCount(w, op.now, history + [op.entry], q);
    if Miscounts(w, history, op) {
      var q :| MiscountsQuery(w, history, op, q);
      assert MiscountsQuery(w, history, op, q);
    } else {
      forall q ensures Occurrences(arrived, q) == Occurrences(Expire(w, arrived, op.now), q)
                       == WindowCount(w, op.now, history + [op.entry], q) {
        assert !MiscountsQuery(w, history, op, q);
      }
    }
  }

  /** From an exact state, the counts of one more step are exact, and stay so through a rebuild at the
      same clock, if and only if the step is admissible. */
  lemma {:induction false} CountExactStep(w: Window, created: int, ops: seq<Op>, op: Op)
    requires NoSentinel(ops + [op]) && Exact(w, created, ops)
    requires ops != [] ==> ops[|ops| - 1].now <= op.now
    ensures CountExactTwice(w, created, ops + [op]) <==> Admissible(w, History(ops), op)
  {
    assert NoSentinel(ops) && op in ops + [op];
    if op.Add? {
      CountExactIffNoMiscount(w, created, ops, op);
      MiscountsIffInadmissible(w, History(ops), op);
    } else {
      ExactStep(w, created, ops, op);
      ExactStep(w, created, ops + [op], Rebuild(op.now));
    }
  }

  /** The exact counts, decided: for every run with a monotone clock, every query's counter is the
      window's count, after every step and after a rebuild at the same clock, if and only if every
      event was admissible when it arrived. */
  lemma {:induction false} CountExactIffAdmissible(w: Window, created: int, ops: seq<Op>)
    requires ClockMonotone(ops) && NoSentinel(ops)
    ensures AlwaysCountExact(w, created, ops) <==> AlwaysAdmissible(w, ops)
  {
    if ops == [] {
    } else {
      CountExactIffAdmissible(w, created, ops[..|ops| - 1]);
      if AlwaysAdmissible(w, ops[..|ops| - 1]) {
        CountExactLast(w, created, ops);
      }
    }
  }

  lemma {:induction false} CountExactLast(w: Window, created: int, ops: seq<Op>)
    requires ops != [] && ClockMonotone(ops) && NoSentinel(ops) && AlwaysAdmissible(w, ops[..|ops| - 1])
    ensures CountExactTwice(w, created, ops) <==> Admissible(w, History(ops[..|ops| - 1]), ops[|ops| - 1])
  {
    var front, last := ops[..|ops| - 1], ops[|ops| - 1];
    assert ops == front + [last];
    AdmissibleIsExact(w, created, front);
    CountExactStep(w, created, front, last);
  }

  lemma {:induction false} AdmissibleIsExact(w: Window, created: int, ops: seq<Op>)
    requires ClockMonotone(ops) && NoSentinel(ops) && AlwaysAdmissible(w, ops)
    ensures Exact(w, created, ops)
  {
    ExactIffAdmissible(w, created, ops);
  }

  /** Every event arrived in a second of the current window. */
  predicate ArriveInWindow(w: Window, ops: seq<Op>) {
    forall op :: op in ops && op.Add? ==> w.Cutoff(op.now) <= op.entry.second <= w.Current(op.now)
  }

  lemma {:induction false} HistoryNotLater(w: Window, ops: seq<Op>, now: int)
    requires ArriveInWindow(w, ops)
    requires forall op :: op in ops ==> op.now <= now
    ensures forall e :: e in History(ops) ==> e.second <= w.Current(now)
  {
    if ops == [] {
    } else {
      var last := ops[|ops| - 1];
      assert last in ops;
      BucketSecondMonotone(last.now, now, w.bucketSize);
      HistoryNotLater(w, ops[..|ops| - 1], now);
    }
  }

  lemma {:induction false} InWindowIsAdmissible(w: Window, history: seq<Entry>, op: Op)
    requires op.Add? ==> w.Cutoff(op.now) <= op.entry.second <= w.Current(op.now)
    requires forall e :: e in history ==> e.second <= w.Current(op.now)
    ensures Admissible(w, history, op)
  {
    if op.Add? {
      forall x | x in history && x.second >= w.Cutoff(op.now) && w.Slot(x.second) == w.Slot(op.entry.second)
        ensures x.second == op.entry.second
      {
        if x.second < op.entry.second {
          SlotClash(x.second, op.entry.second, w.bucketCount);
        } else if x.second > op.entry.second {
          SlotClash(op.entry.second, x.second, w.bucketCount);
        }
      }
    }
  }

  lemma {:induction false} InWindowRun(w: Window, ops: seq<Op>)
    requires ClockMonotone(ops) && ArriveInWindow(w, ops)
    ensures AlwaysAdmissible(w, ops)
  {
    if ops == [] {
    } else {
      var front, last := ops[..|ops| - 1], ops[|ops| - 1];
      InWindowRun(w, front);
      assert last in ops;
      HistoryNotLater(w, front, last.now);
      InWindowIsAdmissible(w, History(front), last);
    }
  }

  function Within(low: int, high: int): Entry -> bool {
    (e: Entry) => low <= e.second <= high
  }

  /** The counted events are exactly the accepted ones in the seconds of the window up to the clock's. */
  predicate UpToClock(w: Window, created: int, ops: seq<Op>) {
    ops != [] ==>
      var now := ops[|ops| - 1].now;
      Replay(w, created, ops).live == Filter(Within(w.Cutoff(now), w.Current(now)), History(ops))
  }

  /** After the run and after each of its prefixes. */
  predicate AlwaysUpToClock(w: Window, created: int, ops: seq<Op>) {
    ops == [] || (AlwaysUpToClock(w, created, ops[..|ops| - 1]) && UpToClock(w, created, ops))
  }

  lemma {:induction false} InWindowIsUpToClock(w: Window, created: int, ops: seq<Op>)
    requires ClockMonotone(ops) && NoSentinel(ops) && ArriveInWindow(w, ops)
    ensures UpToClock(w, created, ops)
  {
    if ops != [] {
      var now := ops[|ops| - 1].now;
      InWindowRun(w, ops);
      AdmissibleIsExact(w, created, ops);
      HistoryNotLater(w, ops, now);
      FilterSame(AtLeast(w.Cutoff(now)), Within(w.Cutoff(now), w.Current(now)), History(ops));
    }
  }

  lemma {:induction false} UpToClockArrives(w: Window, created: int, ops: seq<Op>, op: Op)
    requires op.Add? && UpToClock(w, created, ops + [op])
    ensures w.Cutoff(op.now) <= op.entry.second <= w.Current(op.now)
  {
    var all, within := ops + [op], Within(w.Cutoff(op.now), w.Current(op.now));
    RunAppend(w, created, ops, op);
    assert all[|all| - 1] == op;
    assert op.entry in Filter(within, History(all));
    FilterMember(within, History(all));
  }

  /** The documented window, decided: for every run with a monotone clock, the counted events are those
      of the seconds from the cutoff to the clock's after every step if and only if every event
      arrived in one of these seconds. */
  lemma {:induction false} UpToClockIffInWindow(w: Window, created: int, ops: seq<Op>)
    requires ClockMonotone(ops) && NoSentinel(ops)
    ensures AlwaysUpToClock(w, created, ops) <==> ArriveInWindow(w, ops)
  {
    if ops == [] {
    } else {
      var front, last := ops[..|ops| - 1], ops[|ops| - 1];
      assert ops == front + [last];
      UpToClockIffInWindow(w, created, front);
      if ArriveInWindow(w, ops) {
        InWindowIsUpToClock(w, created, ops);
      } else if last.Add? && UpToClock(w, created, ops) {
        UpToClockArrives(w, created, front, last);
      }
    }
  }

  /** The exact sliding window: when events arrive in the window of a monotone clock, each query's
      counter is the number of its accepted events with a second in the window, after every step. */
  lemma {:induction false} ExactSlidingWindow(w: Window, created: int, ops: seq<Op>)
    requires ops != [] && ClockMonotone(ops) && NoSentinel(ops) && ArriveInWindow(w, ops)
    ensures var now := ops[|ops| - 1].now;
            forall q :: Occurrences(Replay(w, created, ops).live, q)
                        == Occurrences(Filter(Within(w.Cutoff(now), w.Current(now)), History(ops)), q)
  {
    InWindowIsUpToClock(w, created, ops);
  }

  /** The events of the window at the latest actual rebuild; none before the first. */
  function Published(w: Window, created: int, ops: seq<Op>): seq<Entry> {
    var k := LatestRebuild(w, created, ops);
    if k == 0 then []
    else
      var now := ops[k - 1].now;
      Filter(Within(w.Cutoff(now), w.Current(now)), History(ops[..k]))
  }

  /** From end to end: when events arrive in the window of a monotone clock, the cache holds exactly the
      accepted events of the window at the latest actual rebuild. */
  lemma {:induction false} CacheIsPublished(w: Window, created: int, ops: seq<Op>)
    requires ClockMonotone(ops) && NoSentinel(ops) && ArriveInWindow(w, ops)
    ensures Replay(w, created, ops).cached == Published(w, created, ops)
  {
    var k := LatestRebuild(w, created, ops);
    CacheIsSnapshot(w, created, ops);
    InWindowIsUpToClock(w, created, ops[..k]);
  }

  lemma {:induction false} AdmissiblePrefix(w: Window, ops: seq<Op>, k: nat)
    requires AlwaysAdmissible(w, ops) && k <= |ops|
    ensures AlwaysAdmissible(w, ops[..k])
  {
    if k == |ops| {
      assert ops[..k] == ops;
    } else {
      AdmissiblePrefix(w, ops[..|ops| - 1], k);
      assert ops[..|ops| - 1][..k] == ops[..k];
    }
  }

  /** The same for every admissible run, with the accepted events ahead of the clock included. */
  lemma {:induction false} CacheIsAdmissible(w: Window, created: int, ops: seq<Op>)
    requires ClockMonotone(ops) && NoSentinel(ops) && AlwaysAdmissible(w, ops)
    ensures var k := LatestRebuild(w, created, ops);
            Replay(w, created, ops).cached
            == if k == 0 then [] else Filter(AtLeast(w.Cutoff(ops[k - 1].now)), History(ops[..k]))
  {
    var k := LatestRebuild(w, created, ops);
    CacheIsSnapshot(w, created, ops);
    AdmissiblePrefix(w, ops, k);
    AdmissibleIsExact(w, created, ops[..k]);
  }

  function Ahead(current: int): Entry -> bool {
    (e: Entry) => e.second > current
  }

  /** The window's count is that of the seconds up to the clock's plus the events ahead of it. */
  lemma {:induction false} WindowAndAhead(w: Window, now: int, history: seq<Entry>, q: string)
    ensures WindowCount(w, now, history, q)
            == Occurrences(Filter(Within(w.Cutoff(now), w.Current(now)), history), q)
               + Occurrences(Filter(Ahead(w.Current(now)), history), q)
  {
    OccurrencesSplit(Within(w.Cutoff(now), w.Current(now)), Ahead(w.Current(now)), AtLeast(w.Cutoff(now)), history, q);
  }

  /** In an admissible run the counters are those of the seconds up to the clock's own if and only if
      no accepted event lies ahead of the clock. */
  lemma {:induction false} ExactUpToClockIff(w: Window, created: int, ops: seq<Op>)
    requires ops != [] && ClockMonotone(ops) && NoSentinel(ops) && AlwaysAdmissible(w, ops)
    ensures var now := ops[|ops| - 1].now;
            (forall q :: Occurrences(Replay(w, created, ops).live, q)
                         == Occurrences(Filter(Within(w.Cutoff(now), w.Current(now)), History(ops)), q))
            <==> (forall e :: e in History(ops) ==> e.second <= w.Current(now))
  {
    var now := ops[|ops| - 1].now;
    AdmissibleIsExact(w, created, ops);
    UpToClockIff(w, now, History(ops));
  }

  lemma {:induction false} UpToClockIff(w: Window, now: int, history: seq<Entry>)
    ensures (forall q :: WindowCount(w, now, history, q)
                         == Occurrences(Filter(Within(w.Cutoff(now), w.Current(now)), history), q))
            <==> (forall e :: e in history ==> e.second <= w.Current(now))
  {
    if e :| e in history && e.second > w.Current(now) {
      WindowAndAhead(w, now, history, e.query);
      AheadIsCounted(w.Current(now), history, e);
    } else {
      FilterSame(AtLeast(w.Cutoff(now)), Within(w.Cutoff(now), w.Current(now)), history);
    }
  }

  lemma {:induction false} AheadIsCounted(current: int, history: seq<Entry>, e: Entry)
    requires e in history && e.second > current
    ensures Occurrences(Filter(Ahead(current), history), e.query) > 0
  {
    FilterMember(Ahead(current), history);
    OccursIffPositive(Filter(Ahead(current), history), e.query);
  }

  // ---------- Which instants the window holds ----------

  /** An expiry at `now` keeps the bucket of `t`. */
  predicate Keeps(w: Window, now: int, t: int) {
    w.Cutoff(now) <= BucketSecond(t, w.bucketSize)
  }

  /** The bucket of `t` is one of the last `bucketCount` buckets at `now`. */
  predicate InLastWindow(w: Window, now: int, t: int) {
    Truncate(t, w.bucketSize) > Truncate(now, w.bucketSize) - w.bucketSize * w.bucketCount
  }

  /** No instant of the last window is forgotten. */
  ghost predicate NeverForgets(w: Window) {
    forall now, t :: t <= now && InLastWindow(w, now, t) ==> Keeps(w, now, t)
  }

  /** No instant outlasts the window. */
  ghost predicate NeverOverstays(w: Window) {
    forall now, t :: t <= now && Keeps(w, now, t) ==> InLastWindow(w, now, t)
  }

  /** Expiry keeps exactly the instants of the last window. */
  ghost predicate KeepsLastWindow(w: Window) {
    forall now, t :: t <= now ==> (Keeps(w, now, t) <==> InLastWindow(w, now, t))
  }

  /** Buckets up to a second long are never forgotten too early, longer ones only if there is just one. */
  lemma {:induction false} NeverForgetsIff(w: Window)
    ensures NeverForgets(w) <==> w.bucketSize <= SECOND || w.bucketCount == 1
  {
    if w.bucketSize <= SECOND || w.bucketCount == 1 {
      forall now, t | t <= now && InLastWindow(w, now, t) ensures Keeps(w, now, t) {
        LastIsKept(w, now, t);
      }
    } else {
      LongBucketsForget(w);
    }
  }

  lemma {:induction false} LastIsKept(w: Window, now: int, t: int)
    requires w.bucketSize <= SECOND || w.bucketCount == 1
    requires InLastWindow(w, now, t)
    ensures Keeps(w, now, t)
  {
    var d, n: int := w.bucketSize, w.bucketCount;
    var i, j := (t - ZERO_TIME) / d, (now - ZERO_TIME) / d;
    TruncateIsMultiple(t, d);
    TruncateIsMultiple(now, d);
    LastBuckets(d, n, i, j);
    ShorterBuckets(d, n - 1);
    UnixBack(Truncate(now, d), n - 1);
    assert Truncate(t, d) >= Truncate(now, d) - SECOND * (n - 1);
  }

  lemma {:induction false} LastBuckets(d: Pos, n: int, i: int, j: int)
    ensures d * i > d * j - d * n ==> d * i >= d * j - d * (n - 1)
  {
    assert d * (j - n) == d * j - d * n && d * (j - n + 1) == d * j - d * (n - 1);
    MultiplesAreOrdered(d, i, j - n + 1);
  }

  lemma {:induction false} ShorterBuckets(d: Pos, k: nat)
    ensures d <= SECOND || k == 0 ==> d * k <= SECOND * k
    ensures d >= SECOND ==> d * k >= SECOND * k
  {
    assert SECOND * k - d * k == (SECOND - d) * k;
  }

  /** Whole seconds back. */
  lemma {:induction false} UnixBack(t: int, k: int)
    ensures Unix(t - SECOND * k) == Unix(t) - k
  {
  }

  lemma {:induction false} LongBucketsForget(w: Window)
    requires w.bucketSize > SECOND && w.bucketCount > 1
    ensures !NeverForgets(w)
  {
    var d, n: int := w.bucketSize, w.bucketCount;
    var now, t := ZERO_TIME, ZERO_TIME + d * (1 - n);
    MultipleIsTruncated(d, 0);
    MultipleIsTruncated(d, 1 - n);
    LongBucketsBack(d, n);
    assert t <= now && InLastWindow(w, now, t) && !Keeps(w, now, t);
  }

  lemma {:induction false} LongBucketsBack(d: Pos, n: Pos)
    requires d > SECOND && n > 1
    ensures d * (1 - n) == d - d * n && d * (1 - n) < 0
    ensures Unix(ZERO_TIME + d * (1 - n)) < Unix(ZERO_TIME) - (n - 1)
  {
    var back := d * (n - 1);
    assert d * (1 - n) == -back == d - d * n;
    MultiplesAreOrdered(n - 1, SECOND, d);
    BeforeSecond(ZERO_TIME - back, ZERO_TIME / SECOND - (n - 1));
  }

  lemma {:induction false} BeforeSecond(t: int, second: int)
    ensures t < SECOND * second <==> Unix(t) < second
  {
  }

  /** Buckets of a second or more never stay too long. */
  lemma {:induction false} NeverOverstaysIff(w: Window)
    ensures NeverOverstays(w) <==> w.bucketSize >= SECOND
  {
    if w.bucketSize >= SECOND {
      forall now, t | t <= now && Keeps(w, now, t) ensures InLastWindow(w, now, t) {
        KeptIsLast(w, now, t);
      }
    } else {
      ShortBucketsOverstay(w);
    }
  }

  lemma {:induction false} KeptIsLast(w: Window, now: int, t: int)
    requires w.bucketSize >= SECOND && Keeps(w, now, t)
    ensures InLastWindow(w, now, t)
  {
    ShorterBuckets(w.bucketSize, w.bucketCount);
    UnixBack(Truncate(now, w.bucketSize), w.bucketCount);
  }

  lemma {:induction false} ShortBucketsOverstay(w: Window)
    requires w.bucketSize < SECOND
    ensures !NeverOverstays(w)
  {
    var d, n := w.bucketSize, w.bucketCount;
    var now, t := ZERO_TIME + d * n, ZERO_TIME;
    MultipleIsTruncated(d, 0);
    MultipleIsTruncated(d, n);
    ShortBucketsAhead(d, n);
    assert t <= now && Keeps(w, now, t) && !InLastWindow(w, now, t);
  }

  lemma {:induction false} ShortBucketsAhead(d: Pos, n: Pos)
    requires d < SECOND
    ensures d * n > 0
    ensures Unix(ZERO_TIME + d * n) < Unix(ZERO_TIME) + n
  {
    var ahead := d * n;
    MultiplesAreOrdered(n, d, SECOND);
    assert 0 < ahead < SECOND * n;
    BeforeSecond(ZERO_TIME + ahead, ZERO_TIME / SECOND + n);
  }

  /** The window of the code is the last window if and only if a bucket is one second, or the only
      bucket is longer. */
  lemma {:induction false} KeepsLastWindowIff(w: Window)
    ensures KeepsLastWindow(w) <==> w.bucketSize == SECOND || (w.bucketSize > SECOND && w.bucketCount == 1)
  {
    NeverForgetsIff(w);
    NeverOverstaysIff(w);
    assert KeepsLastWindow(w) <==> NeverForgets(w) && NeverOverstays(w);
  }

  /** The last window in terms of instants: all of the last `bucketCount - 1` bucket lengths, and
      nothing that lies `bucketCount` bucket lengths back. */
  lemma {:induction false} LastWindowInstants(w: Window, now: int, t: int)
    ensures t >= now - w.bucketSize * (w.bucketCount - 1) ==> InLastWindow(w, now, t)
    ensures InLastWindow(w, now, t) ==> t > now - w.bucketSize * w.bucketCount
  {
    var d, n: int := w.bucketSize, w.bucketCount;
    var i, j := (t - ZERO_TIME) / d, (now - ZERO_TIME) / d;
    TruncateIsMultiple(t, d);
    TruncateIsMultiple(now, d);
    LastBuckets(d, n, i, j);
    assert d * n == d * (n - 1) + d;
  }

  /** An accepted event with its time. */
  datatype Timed = Timed(time: int, query: string)

  /** The events as the aggregator stores them. */
  function Placed(w: Window, log: seq<Timed>): seq<Entry> {
    if log == [] then []
    else
      var last := log[|log| - 1];
      Placed(w, log[..|log| - 1]) + [Entry(BucketSecond(last.time, w.bucketSize), last.query)]
  }

  /** How many events of a query have a time in the last window. */
  function LastWindowCount(w: Window, now: int, log: seq<Timed>, q: string): nat {
    if log == [] then 0
    else
      var last := log[|log| - 1];
      LastWindowCount(w, now, log[..|log| - 1], q) + if last.query == q && InLastWindow(w, now, last.time) then 1 else 0
  }

  /** The window's counts are those of the last window, whatever was accepted up to now. */
  ghost predicate CountsLastWindow(w: Window) {
    forall now, log: seq<Timed>, q | (forall x :: x in log ==> x.time <= now) ::
      WindowCount(w, now, Placed(w, log), q) == LastWindowCount(w, now, log, q)
  }

  lemma {:induction false} PlacedCount(w: Window, now: int, log: seq<Timed>, q: string)
    requires KeepsLastWindow(w) && forall x :: x in log ==> x.time <= now
    ensures WindowCount(w, now, Placed(w, log), q) == LastWindowCount(w, now, log, q)
  {
    if log == [] {
    } else {
      var front, last := log[..|log| - 1], log[|log| - 1];
      PlacedCount(w, now, front, q);
      PlacedOneMore(w, now, Placed(w, front), last, q);
      assert last in log;
    }
  }

  lemma {:induction false} PlacedOneMore(w: Window, now: int, history: seq<Entry>, x: Timed, q: string)
    ensures WindowCount(w, now, history + [Entry(BucketSecond(x.time, w.bucketSize), x.query)], q)
            == WindowCount(w, now, history, q) + if x.query == q && Keeps(w, now, x.time) then 1 else 0
  {
    var e, recent := Entry(BucketSecond(x.time, w.bucketSize), x.query), AtLeast(w.Cutoff(now));
    FilterAppend(recent, history, e);
    OccurrencesAppend(Filter(recent, history), e, q);
  }

  /** The counts of the window are those of the last window, for all accepted events and at all times,
      if and only if a bucket is one second, or the only bucket is longer. */
  lemma {:induction false} CountsLastWindowIff(w: Window)
    ensures CountsLastWindow(w) <==> w.bucketSize == SECOND || (w.bucketSize > SECOND && w.bucketCount == 1)
  {
    KeepsLastWindowIff(w);
    if KeepsLastWindow(w) {
      forall now, log: seq<Timed>, q | (forall x :: x in log ==> x.time <= now)
        ensures WindowCount(w, now, Placed(w, log), q) == LastWindowCount(w, now, log, q)
      {
        PlacedCount(w, now, log, q);
      }
    } else {
      var now, t :| t <= now && Keeps(w, now, t) != InLastWindow(w, now, t);
      OneEventMiscounted(w, now, t);
    }
  }

  lemma {:induction false} OneEventMiscounted(w: Window, now: int, t: int)
    requires t <= now && Keeps(w, now, t) != InLastWindow(w, now, t)
    ensures !CountsLastWindow(w)
  {
    var x := Timed(t, "");
    PlacedOneMore(w, now, [], x, "");
    assert [x][..0] == [] && Placed(w, []) == [] && LastWindowCount(w, now, [], "") == 0;
    assert Placed(w, [x]) == [] + [Entry(BucketSecond(t, w.bucketSize), "")];
    assert WindowCount(w, now, Placed(w, [x]), "") != LastWindowCount(w, now, [x], "");
  }

  /** In an admissible run with such buckets, each query's counter is the number of its accepted events
      with a time in the last window. */
  lemma {:induction false} LastWindowRun(w: Window, created: int, ops: seq<Op>, log: seq<Timed>, q: string)
    requires w.bucketSize == SECOND || (w.bucketSize > SECOND && w.bucketCount == 1)
    requires ops != [] && ClockMonotone(ops) && NoSentinel(ops) && AlwaysAdmissible(w, ops)
    requires History(ops) == Placed(w, log) && forall x :: x in log ==> x.time <= ops[|ops| - 1].now
    ensures Occurrences(Replay(w, created, ops).live, q) == LastWindowCount(w, ops[|ops| - 1].now, log, q)
  {
    AdmissibleIsExact(w, created, ops);
    KeepsLastWindowIff(w);
    PlacedCount(w, ops[|ops| - 1].now, log, q);
  }

  /** With one-second buckets the window holds every instant of the last `bucketCount - 1` seconds and
      none that lies `bucketCount` seconds back. */
  lemma {:induction false} OneSecondWindow(w: Window, now: int, t: int)
    requires w.bucketSize == SECOND
    ensures now - (w.bucketCount - 1) * SECOND <= t <= now ==>
              w.Cutoff(now) <= BucketSecond(t, SECOND) <= w.Current(now)
    ensures w.Cutoff(now) <= BucketSecond(t, SECOND) <= w.Current(now) ==>
              now - w.bucketCount * SECOND < t < now + SECOND
  {
    OneSecondBuckets(now);
    OneSecondBuckets(t);
  }

  // ---------- What displacement can cost ----------

  /** The seconds that event validation lets through with one-second buckets when the
      allowed skew is less than a window. */
  predicate Plausible(w: Window, op: Op) {
    op.Add? ==> w.Current(op.now) - w.bucketCount <= op.entry.second < w.Current(op.now) + w.bucketCount
  }

  lemma {:induction false} HistoryBound(w: Window, ops: seq<Op>, now: int)
    requires forall op :: op in ops ==> op.now <= now && Plausible(w, op)
    ensures forall e :: e in History(ops) ==> e.second < w.Current(now) + w.bucketCount
  {
    if ops == [] {
    } else {
      var last := ops[|ops| - 1];
      assert last in ops;
      BucketSecondMonotone(last.now, now, w.bucketSize);
      HistoryBound(w, ops[..|ops| - 1], now);
    }
  }

  /** A counted event that a new one displaces lies exactly one window away: an event of the window
      can only displace a later second than the clock's, an event from the future only its own second
      one window ago, and an event just behind the window exactly the current second. */
  lemma {:induction false} DisplacementBound(w: Window, created: int, ops: seq<Op>, op: Op, x: Entry)
    requires op.Add? && NoSentinel(ops) && ClockMonotone(ops + [op])
    requires forall o :: o in ops + [op] ==> Plausible(w, o)
    requires x in Expire(w, Replay(w, created, ops).live, op.now)
    requires x.second != op.entry.second && w.Slot(x.second) == w.Slot(op.entry.second)
    ensures var e, current := op.entry.second, w.Current(op.now);
            && (e < w.Cutoff(op.now) ==> x.second == e + w.bucketCount == current)
            && (w.Cutoff(op.now) <= e <= current ==> x.second == e + w.bucketCount > current)
            && (e > current ==> x.second == e - w.bucketCount)
  {
    var e, all := op.entry.second, ops + [op];
    assert op in all;
    forall o | o in ops ensures o.now <= op.now && Plausible(w, o) {
      var i :| 0 <= i < |ops| && ops[i] == o;
      assert all[i] == o && all[|ops|] == op && o in all;
    }
    FilterMember(Fresh(w.Cutoff(op.now)), Replay(w, created, ops).live);
    LiveAreAccepted(w, created, ops);
    HistorySeconds(ops);
    HistoryBound(w, ops, op.now);
    if x.second < e {
      SlotClash(x.second, e, w.bucketCount);
    } else {
      SlotClash(e, x.second, w.bucketCount);
    }
  }

  /** The documented configuration: a five-minute window of one-second buckets. */
  const DOCUMENTED := Window(300, SECOND)

  /** Two events after which the first is not counted although it lies in the window, up to the
      clock's own second: its query has the count 0 instead of 1. */
  ghost predicate Loses(w: Window, now: int, first: Entry, second: Entry) {
    var ops := [Add(now, first), Add(now, second)];
    && Plausible(w, ops[0]) && Plausible(w, ops[1])
    && Get(Counts(Replay(w, now, ops).live), first.query) == 0
    && Occurrences(Filter(Within(w.Cutoff(now), w.Current(now)), History(ops)), first.query) == 1
    && WindowCount(w, now, History(ops), first.query) == 1
  }

  lemma {:induction false} RivalLoses(w: Window, now: int, first: Entry, second: Entry)
    requires Plausible(w, Add(now, second)) && w.Cutoff(now) <= first.second <= w.Current(now)
    requires first.second != second.second && w.Slot(first.second) == w.Slot(second.second)
    requires first.query != second.query
    ensures Loses(w, now, first, second)
  {
    var c := w.Cutoff(now);
    RivalLive(w, now, first, second);
    CountsReading([second]);
    SingleCount(AtLeast(c), first, second);
    SingleCount(Within(c, w.Current(now)), first, second);
    assert [] + [second] == [second];
    OccurrencesAppend([], second, first.query);
  }

  lemma {:induction false} RivalLive(w: Window, now: int, first: Entry, second: Entry)
    requires w.Cutoff(now) <= first.second
    requires first.second != second.second && w.Slot(first.second) == w.Slot(second.second)
    ensures Replay(w, now, [Add(now, first), Add(now, second)]).live == [second]
    ensures History([Add(now, first), Add(now, second)]) == [first] + [second]
  {
    var add1, add2 := Add(now, first), Add(now, second);
    RunAppend(w, now, [], add1);
    RunAppend(w, now, [add1], add2);
    assert [] + [add1] == [add1] && [add1] + [add2] == [add1, add2];
    assert [] + [first] == [first] && [] + [second] == [second];
    FilterAll(Fresh(w.Cutoff(now)), [first]);
    FilterNone(NoRival(w, second.second), [first]);
  }

  lemma {:induction false} SingleCount(keep: Entry -> bool, first: Entry, second: Entry)
    requires keep(first) && first.query != second.query
    ensures Occurrences(Filter(keep, [first] + [second]), first.query) == 1
  {
    FilterAppend(keep, [first], second);
    FilterAppend(keep, [], first);
    assert [] + [first] == [first];
    OccurrencesAppend([], first, first.query);
    OccurrencesAppend([first], second, first.query);
    assert [first] + [] == [first];
  }

  /** The documented window is not exact for all events that validation accepts: an event one second
      ahead of the clock empties the oldest second of the window. */
  lemma {:induction false} FutureEventDropsOldest(lost: string, other: string)
    requires lost != other
    ensures Loses(DOCUMENTED, 1000 * SECOND, Entry(701, lost), Entry(1001, other))
  {
    OneSecondBuckets(1000 * SECOND);
    RivalLoses(DOCUMENTED, 1000 * SECOND, Entry(701, lost), Entry(1001, other));
  }

  /** Nor is it for an event a full window old: it empties the current second. */
  lemma {:induction false} BoundaryEventDropsCurrent(lost: string, other: string)
    requires lost != other
    ensures Loses(DOCUMENTED, 1000 * SECOND, Entry(1000, lost), Entry(700, other))
  {
    OneSecondBuckets(1000 * SECOND);
    RivalLoses(DOCUMENTED, 1000 * SECOND, Entry(1000, lost), Entry(700, other));
  }
}

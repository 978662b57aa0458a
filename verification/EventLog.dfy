/** EventLog: accepted events as a plain list, filtering and counting. */
module EventLog {

  /** An accepted event: its bucket second and its normalized query. */
  datatype Entry = Entry(second: int, query: string)

  /** The events that satisfy `keep`, in order. */
  function Filter(keep: Entry -> bool, log: seq<Entry>): seq<Entry> {
    if log == [] then []
    else
      var rest, last := Filter(keep, log[..|log| - 1]), log[|log| - 1];
      if keep(last) then rest + [last] else rest
  }

  lemma {:induction false} FilterMember(keep: Entry -> bool, log: seq<Entry>)
    ensures forall e :: e in Filter(keep, log) <==> e in log && keep(e)
    ensures |Filter(keep, log)| <= |log|
  {
    if log == [] {
    } else {
      FilterMember(keep, log[..|log| - 1]);
      assert log == log[..|log| - 1] + [log[|log| - 1]];
    }
  }

  lemma {:induction false} FilterAppend(keep: Entry -> bool, log: seq<Entry>, e: Entry)
    ensures Filter(keep, log + [e]) == Filter(keep, log) + if keep(e) then [e] else []
  {
    assert (log + [e])[..|log|] == log;
  }

  lemma {:induction false} FilterConcat(keep: Entry -> bool, a: seq<Entry>, b: seq<Entry>)
    ensures Filter(keep, a + b) == Filter(keep, a) + Filter(keep, b)
  {
    if b == [] {
      assert a + b == a;
    } else {
      FilterConcat(keep, a, b[..|b| - 1]);
      assert a + b == a + b[..|b| - 1] + [b[|b| - 1]];
      FilterAppend(keep, a + b[..|b| - 1], b[|b| - 1]);
    }
  }

  /** Filtering twice is filtering once by the conjunction. */
  lemma {:induction false} FilterTwice(p: Entry -> bool, q: Entry -> bool, both: Entry -> bool, log: seq<Entry>)
    requires forall e :: e in log ==> (both(e) <==> p(e) && q(e))
    ensures Filter(p, Filter(q, log)) == Filter(both, log)
  {
    if log == [] {
    } else {
      var front, last := log[..|log| - 1], log[|log| - 1];
      FilterTwice(p, q, both, front);
      FilterAppend(p, Filter(q, front), last);
      assert last in log;
    }
  }

  lemma {:induction false} FilterSame(p: Entry -> bool, q: Entry -> bool, log: seq<Entry>)
    requires forall e :: e in log ==> (p(e) <==> q(e))
    ensures Filter(p, log) == Filter(q, log)
  {
    if log == [] {
    } else {
      FilterSame(p, q, log[..|log| - 1]);
      assert log[|log| - 1] in log;
    }
  }

  lemma {:induction false} FilterAll(keep: Entry -> bool, log: seq<Entry>)
    requires forall e :: e in log ==> keep(e)
    ensures Filter(keep, log) == log
  {
    if log == [] {
    } else {
      FilterAll(keep, log[..|log| - 1]);
      assert log[|log| - 1] in log;
      assert log == log[..|log| - 1] + [log[|log| - 1]];
    }
  }

  lemma {:induction false} FilterNone(keep: Entry -> bool, log: seq<Entry>)
    requires forall e :: e in log ==> !keep(e)
    ensures Filter(keep, log) == []
  {
    if log == [] {
    } else {
      FilterNone(keep, log[..|log| - 1]);
      assert log[|log| - 1] in log;
    }
  }

  lemma {:induction false} FilterDrops(keep: Entry -> bool, log: seq<Entry>, e: Entry)
    requires e in log && !keep(e)
    ensures |Filter(keep, log)| < |log|
  {
    var front, last := log[..|log| - 1], log[|log| - 1];
    assert log == front + [last];
    FilterMember(keep, front);
    if e in front {
      FilterDrops(keep, front, e);
    }
  }

  /** Two disjoint filters count together what their union counts. */
  lemma {:induction false} FilterPartition(p: Entry -> bool, q: Entry -> bool, either: Entry -> bool, log: seq<Entry>)
    requires forall e :: e in log ==> (either(e) <==> p(e) || q(e)) && !(p(e) && q(e))
    ensures |Filter(either, log)| == |Filter(p, log)| + |Filter(q, log)|
  {
    if log == [] {
    } else {
      FilterPartition(p, q, either, log[..|log| - 1]);
      assert log[|log| - 1] in log;
    }
  }

  function And(p: Entry -> bool, q: Entry -> bool): Entry -> bool {
    (e: Entry) => p(e) && q(e)
  }

  lemma {:induction false} FilterCommutes(p: Entry -> bool, q: Entry -> bool, log: seq<Entry>)
    ensures Filter(p, Filter(q, log)) == Filter(q, Filter(p, log))
  {
    FilterTwice(p, q, And(p, q), log);
    FilterTwice(q, p, And(p, q), log);
  }

  function HasQuery(q: string): Entry -> bool {
    (e: Entry) => e.query == q
  }

  function Occurrences(log: seq<Entry>, q: string): nat {
    |Filter(HasQuery(q), log)|
  }

  function Queries(log: seq<Entry>): set<string> {
    set e | e in log :: e.query
  }

  /** The counter map of a list of events: present exactly for the queries that occur. */
  function Counts(log: seq<Entry>): map<string, int> {
    map q | q in Queries(log) :: Occurrences(log, q)
  }

  /** Go's read of a map of counters: zero for a missing key. */
  function Get(m: map<string, int>, q: string): int {
    if q in m then m[q] else 0
  }

  lemma {:induction false} OccursIffPositive(log: seq<Entry>, q: string)
    ensures q in Queries(log) <==> Occurrences(log, q) > 0
  {
    if q in Queries(log) {
      FilterMember(HasQuery(q), log);
      var e :| e in log && e.query == q;
      assert e in Filter(HasQuery(q), log);
    } else {
      FilterNone(HasQuery(q), log);
    }
  }

  /** Counters are determined by their non-zero readings. */
  lemma {:induction false} CountsDetermined(m: map<string, int>, log: seq<Entry>)
    requires forall q :: q in m ==> m[q] > 0
    requires forall q :: Get(m, q) == Occurrences(log, q)
    ensures m == Counts(log)
  {
    forall q ensures q in m <==> q in Counts(log) {
      OccursIffPositive(log, q);
      assert Get(m, q) == Occurrences(log, q);
    }
    forall q | q in m ensures m[q] == Counts(log)[q] {
      assert Get(m, q) == Occurrences(log, q);
    }
  }

  lemma {:induction false} CountsReading(log: seq<Entry>)
    ensures forall q :: Get(Counts(log), q) == Occurrences(log, q)
    ensures forall q :: q in Counts(log) ==> Counts(log)[q] > 0
  {
    forall q ensures Get(Counts(log), q) == Occurrences(log, q) && (q in Counts(log) ==> Counts(log)[q] > 0) {
      OccursIffPositive(log, q);
    }
  }

  /** Two lists have the given counts if and only if their counter maps read so. */
  lemma {:induction false} ReadingsAgree(a: seq<Entry>, b: seq<Entry>, f: string -> nat)
    ensures (forall q :: Occurrences(a, q) == f(q)) && (forall q :: Occurrences(b, q) == f(q))
            <==> forall q :: Get(Counts(a), q) == Get(Counts(b), q) == f(q)
  {
    CountsReading(a);
    CountsReading(b);
  }

  lemma {:induction false} CountsAppend(log: seq<Entry>, e: Entry)
    ensures Counts(log + [e]) == Counts(log)[e.query := Get(Counts(log), e.query) + 1]
  {
    CountsReading(log);
    var m := Counts(log)[e.query := Get(Counts(log), e.query) + 1];
    forall q ensures Get(m, q) == Occurrences(log + [e], q) {
      FilterAppend(HasQuery(q), log, e);
      assert Get(Counts(log), q) == Occurrences(log, q);
    }
    CountsDetermined(m, log + [e]);
  }

  /** The occurrences in a part of the list and in the rest of it add up. */
  lemma {:induction false} OccurrencesSplit(
      part: Entry -> bool, rest: Entry -> bool, either: Entry -> bool, log: seq<Entry>, q: string)
    requires forall e :: e in log ==> (either(e) <==> part(e) || rest(e)) && !(part(e) && rest(e))
    ensures Occurrences(Filter(either, log), q)
            == Occurrences(Filter(part, log), q) + Occurrences(Filter(rest, log), q)
  {
    FilterMember(HasQuery(q), log);
    FilterPartition(part, rest, either, Filter(HasQuery(q), log));
    FilterCommutes(HasQuery(q), either, log);
    FilterCommutes(HasQuery(q), part, log);
    FilterCommutes(HasQuery(q), rest, log);
  }

  /** Dropping an event lowers the count of its query. */
  lemma {:induction false} OccurrencesDrop(keep: Entry -> bool, log: seq<Entry>, x: Entry)
    requires x in log && !keep(x)
    ensures Occurrences(Filter(keep, log), x.query) < Occurrences(log, x.query)
  {
    FilterMember(HasQuery(x.query), log);
    FilterDrops(keep, Filter(HasQuery(x.query), log), x);
    FilterCommutes(HasQuery(x.query), keep, log);
  }

  lemma {:induction false} OccurrencesAppend(log: seq<Entry>, e: Entry, q: string)
    ensures Occurrences(log + [e], q) == Occurrences(log, q) + if e.query == q then 1 else 0
  {
    FilterAppend(HasQuery(q), log, e);
  }
}

/** Service: the event handler that composes stop list, limiter and aggregator, behind the consumer. */
module Service {
  import opened Aggregation
  import opened Errors
  import opened EventLog
  import opened GoTime
  import opened KafkaConsumer
  import opened Normalizers
  import opened Ranking
  import opened SlidingWindow
  import opened StopList
  import opened Text

  // ---------- What the stop list can promise ----------

  /** The stop list protects a query if, whatever is blocked, an event that passes the check is not
      counted under a blocked key. */
  ghost predicate Protected(lower: Lower, query: string, maxRunes: int) {
    forall words: set<string> ::
      (NormalSet(lower, words) && StopCanon(lower, query) !in words && Normalized(lower, query, maxRunes).Ok?) ==>
        Normalized(lower, query, maxRunes).value !in words
  }

  /** Exactly the queries that have no gap of space-and-control runes, or that are too long to be
      counted at all, are protected. */
  lemma {:induction false} ProtectedIffNoControlGap(lower: Lower, query: string, maxRunes: int)
    ensures Protected(lower, query, maxRunes)
            <==> !HasControlGap(query) || Normalized(lower, query, maxRunes).Err?
  {
    AgreeIffNoControlGap(lower, query);
    if HasControlGap(query) && Normalized(lower, query, maxRunes).Ok? {
      StopCanonOfCanon(lower, query);
      var words := {Canon(lower, query)};
      assert NormalSet(lower, words) && StopCanon(lower, query) !in words && Canon(lower, query) in words;
    }
  }

  /** A query with a gap is never empty, so only its length can keep it from being counted. */
  lemma {:induction false} GapIsRejectedOnlyForLength(lower: Lower, query: string, maxRunes: int)
    requires HasControlGap(query) && Normalized(lower, query, maxRunes).Err?
    ensures Normalized(lower, query, maxRunes) == Err(QueryTooLong)
  {
    NormalizersInStep(lower, query);
    WordsAreNormal(lower, query);
    JoinEnds(lower, Words(lower, query));
  }

  /** Every query with a gap that is short enough as it is written gets past some stop list. */
  lemma {:induction false} GapIsUnprotected(lower: Lower, query: string, maxRunes: int)
    requires HasControlGap(query) && |query| <= if maxRunes <= 0 then DEFAULT_MAX_QUERY_RUNES else maxRunes
    ensures !Protected(lower, query, maxRunes)
  {
    WrittenNotLonger(lower, query);
    ProtectedIffNoControlGap(lower, query, maxRunes);
    if Normalized(lower, query, maxRunes).Err? {
      GapIsRejectedOnlyForLength(lower, query, maxRunes);
    }
  }

  /** A tab between two letters gets past some stop list: one that blocks the two letters with a
      space between them. */
  lemma {:induction false} TabIsUnprotected(lower: Lower, maxRunes: int)
    requires maxRunes <= 0 || maxRunes >= 3
    ensures !Protected(lower, "a\tb", maxRunes)
  {
    assert Gap("a\tb", 0, 1, 2);
    GapIsUnprotected(lower, "a\tb", maxRunes);
  }

  // ---------- The handler ----------

  /** The limiter's answer; its only error is the end of the context. */
  datatype LimiterReply = Allowed | Limited | LimiterError(error: ContextError)

  /** The handler's error for an event that is not blocked: that of the limiter, or of the context at the end. */
  function HandlerError(limiter: LimiterReply, addContext: Option<ContextError>): Option<Error> {
    match limiter
    case LimiterError(e) => Some(e)
    case Limited => None
    case Allowed => if addContext.Some? then Some(addContext.value) else None
  }

  /** An event that reached the window: its query, its key, and the blocked words it was checked against. */
  datatype Admission = Admission(query: string, key: string, snapshot: set<string>)

  ghost predicate Checked(lower: Lower, a: Admission) {
    && a.key == Canon(lower, a.query)
    && StopCanon(lower, a.query) !in a.snapshot
    && (!HasControlGap(a.query) ==> a.key !in a.snapshot)
  }

  /** One checked admission for every accepted event, in order. */
  ghost predicate Admitted(lower: Lower, admissions: seq<Admission>, history: seq<Entry>) {
    && |admissions| == |history|
    && (forall i :: 0 <= i < |history| ==> history[i].query == admissions[i].key)
    && (forall i :: 0 <= i < |admissions| ==> Checked(lower, admissions[i]))
  }

  /** The books of the service: how many events got which status, the steps of the aggregator, and the
      admissions. */
  datatype Ledger = Ledger(
    stopped: nat, rateLimited: nat, accepted: nat, expired: nat, invalid: nat,
    trace: seq<Op>, admissions: seq<Admission>)

  /** The books after an event that the handler passed on to the aggregator, by the verdict on it. */
  function PassedOn(
      books: Ledger, query: string, verdict: Verdict, words: set<string>,
      addContext: Option<ContextError>, now: int): Ledger
  {
    if addContext.Some? then books
    else
      match verdict
      case Invalid(_) => books.(invalid := books.invalid + 1)
      case Expired => books.(expired := books.expired + 1)
      case Accepted(entry) =>
        books.(accepted := books.accepted + 1,
               trace := books.trace + [SlidingWindow.Add(now, entry)],
               admissions := books.admissions + [Admission(query, entry.query, words)])
  }

  /** Field by field. */
  lemma {:induction false} PassedOnFields(
      books: Ledger, query: string, v: Verdict, words: set<string>, addContext: Option<ContextError>, now: int)
    ensures var r, ok := PassedOn(books, query, v, words, addContext, now), addContext.None?;
            && r.stopped == books.stopped && r.rateLimited == books.rateLimited
            && r.accepted == books.accepted + (if ok && v.Accepted? then 1 else 0)
            && r.expired == books.expired + (if ok && v.Expired? then 1 else 0)
            && r.invalid == books.invalid + (if ok && v.Invalid? then 1 else 0)
            && r.trace == books.trace + (if ok && v.Accepted? then [SlidingWindow.Add(now, v.entry)] else [])
  {
    assert books.trace + [] == books.trace;
  }

  /** The books after an event that was checked against `words`. */
  function AfterEvent(
      cfg: Config, lower: Lower, books: Ledger, event: SearchEvent, blocked: bool, words: set<string>,
      limiter: LimiterReply, addContext: Option<ContextError>, now: int): Ledger
    requires cfg.Valid()
  {
    if blocked then books.(stopped := books.stopped + 1)
    else
      match limiter
      case LimiterError(_) => books
      case Limited => books.(rateLimited := books.rateLimited + 1)
      case Allowed => PassedOn(books, event.query, Judge(cfg, lower, event, now), words, addContext, now)
  }

  /** The events disposed of, whatever their fate. */
  function Total(books: Ledger): nat {
    books.stopped + books.rateLimited + books.accepted + books.expired + books.invalid
  }

  /** Every event is disposed of once, unless the handler fails. */
  lemma {:induction false} DisposedOnce(
      cfg: Config, lower: Lower, books: Ledger, event: SearchEvent, blocked: bool, words: set<string>,
      limiter: LimiterReply, addContext: Option<ContextError>, now: int)
    requires cfg.Valid()
    ensures Total(AfterEvent(cfg, lower, books, event, blocked, words, limiter, addContext, now))
            == Total(books) + if blocked || HandlerError(limiter, addContext).None? then 1 else 0
  {
  }

  /** The fate of every event, from the check, the limiter's answer, the context, its time and its words: which
      status is observed, and under which key and in which bucket it is counted. */
  lemma {:induction false} EventFate(
      cfg: Config, lower: Lower, books: Ledger, event: SearchEvent, blocked: bool, words: set<string>,
      limiter: LimiterReply, addContext: Option<ContextError>, now: int)
    requires cfg.Valid()
    ensures var r := AfterEvent(cfg, lower, books, event, blocked, words, limiter, addContext, now);
            var judged := !blocked && limiter == Allowed && addContext == None;
            var key := Join(Words(lower, event.query));
            var expired := event.timestamp != ZERO_TIME && event.timestamp < now - cfg.window;
            var accepted := && event.timestamp != ZERO_TIME
                            && now - cfg.window <= event.timestamp <= now + cfg.allowedFutureSkew
                            && Words(lower, event.query) != [] && |key| <= cfg.maxQueryRunes;
            && r.stopped == books.stopped + (if blocked then 1 else 0)
            && r.rateLimited == books.rateLimited + (if !blocked && limiter == Limited then 1 else 0)
            && r.accepted == books.accepted + (if judged && accepted then 1 else 0)
            && r.expired == books.expired + (if judged && expired then 1 else 0)
            && r.invalid == books.invalid + (if judged && !accepted && !expired then 1 else 0)
            && r.trace
               == books.trace
                  + (if judged && accepted
                     then [SlidingWindow.Add(now, Entry(BucketSecond(event.timestamp, cfg.bucketSize), key))] else [])
            && r.admissions
               == books.admissions + (if judged && accepted then [Admission(event.query, key, words)] else [])
  {
    VerdictIff(cfg, lower, event, now);
    assert books.trace + [] == books.trace && books.admissions + [] == books.admissions;
  }

  /** What the world answers in one round of the service's consumer. */
  datatype ServiceRound = ServiceRound(
    fetch: Result<Message>,
    fetchSleep: Option<ContextError>,
    decode: Result<SearchEvent>,
    limiter: LimiterReply,
    addContext: Option<ContextError>,
    now: int,
    commits: nat -> CommitReply)

  /** What the consumer learns of a round: the decoder's error and the handler's. */
  function AsRound(round: ServiceRound, blocked: bool): Round {
    Round(round.fetch, round.fetchSleep,
          if round.decode.Err? then Some(round.decode.error) else None,
          if round.decode.Err? || blocked then None else HandlerError(round.limiter, round.addContext),
          round.commits)
  }

  /** The verdict on a fetched message, from the answers to it: handled unless decoder, limiter or context fail. */
  lemma {:induction false} VerdictOnRound(m: Message, round: ServiceRound, blocked: bool)
    ensures var v := KafkaConsumer.Verdict(m, AsRound(round, blocked).decode, AsRound(round, blocked).handle);
            && (v == Action.Handled(m) <==>
                round.decode.Ok?
                && (blocked || round.limiter.Limited? || (round.limiter.Allowed? && round.addContext.None?)))
            && (v == Rejected(m, true) <==> round.decode == Err(DecodeError))
            && (v == Rejected(m, false) <==> round.decode == Err(ValidationError))
            && (v.Failed? && round.decode.Err? ==> v == Failed(m, round.decode.error))
            && (v.Failed? && round.decode.Ok? ==>
                  v == Failed(m, if round.limiter.LimiterError? then round.limiter.error else round.addContext.value))
  {
  }

  /** A message in hand: the answers of its round, and whether its query was blocked when it was checked. */
  datatype InFlight = InFlight(message: Message, round: ServiceRound, blocked: bool)

  /** The two steps of a consumer round, up to and including the stop-list check, and from there on;
      a tick of the rebuild timer; an update of the stop list. */
  datatype ServiceOp =
    | Begin(round: ServiceRound)
    | Finish
    | Tick(now: int)
    | Block(word: string)
    | Unblock(word: string)

  /** All that a run of the service changes, except what the trace determines: whether its consumer still runs,
      the message in hand and the words it was checked against, the blocked words, the books, the consumer's log. */
  datatype ServiceState = ServiceState(
    running: bool, pending: Option<InFlight>, pendingWords: set<string>,
    words: set<string>, books: Ledger, log: seq<Action>)

  /** One step of the service; the consumer takes none when its run has ended. */
  function ServiceStep(cfg: Config, lower: Lower, retries: nat, st: ServiceState, op: ServiceOp): ServiceState
    requires cfg.Valid()
  {
    match op
    case Begin(round) =>
      if st.running && st.pending.None? then AfterBegin(st, round, Blocks(lower, st.words, round)) else st
    case Finish => if st.pending.Some? then AfterFinish(cfg, lower, retries, st, st.pending.value) else st
    case Tick(now) => st.(books := st.books.(trace := st.books.trace + [SlidingWindow.Rebuild(now)]))
    case Block(word) => st.(words := AfterAdd(lower, st.words, word))
    case Unblock(word) => st.(words := AfterRemove(lower, st.words, word))
  }

  /** Is the query of a decoded message among the words? */
  predicate Blocks(lower: Lower, words: set<string>, round: ServiceRound) {
    round.decode.Ok? && StopCanon(lower, round.decode.value.query) in words
  }

  function AfterBegin(st: ServiceState, round: ServiceRound, blocked: bool): ServiceState {
    match round.fetch
    case Err(e) =>
      st.(running := !IsContextError(e) && round.fetchSleep.None?,
          log := st.log + if IsContextError(e) then [] else [ReadFailed])
    case Ok(m) =>
      st.(pending := Some(InFlight(m, round, blocked)), pendingWords := st.words, log := st.log + [Fetched(m)])
  }

  function AfterFinish(cfg: Config, lower: Lower, retries: nat, st: ServiceState, f: InFlight): ServiceState
    requires cfg.Valid()
  {
    var answers := AsRound(f.round, f.blocked);
    st.(running := DeliveryExit(retries, f.message, answers).Running?,
        pending := None,
        books := if f.round.decode.Err? then st.books
                 else AfterEvent(cfg, lower, st.books, f.round.decode.value, f.blocked, st.pendingWords,
                                 f.round.limiter, f.round.addContext, f.round.now),
        log := st.log + DeliveryActions(retries, f.message, answers))
  }

  /** Both steps of a round, with nothing in between. */
  function AfterRound(cfg: Config, lower: Lower, retries: nat, st: ServiceState, round: ServiceRound): ServiceState
    requires cfg.Valid()
  {
    var begun := AfterBegin(st, round, Blocks(lower, st.words, round));
    if begun.pending.Some? then AfterFinish(cfg, lower, retries, begun, begun.pending.value) else begun
  }

  /** A whole round: without a decoded event the books stay as they are; a decoded one is checked against the words
      blocked now, and meets its fate with the round's answers. The calls are those of the consumer for these
      answers, and the blocked words stay as they are. */
  lemma {:induction false} WholeRound(cfg: Config, lower: Lower, retries: nat, st: ServiceState, round: ServiceRound)
    requires cfg.Valid() && st.pending.None?
    ensures var r := AfterRound(cfg, lower, retries, st, round);
            var blocked := round.decode.Ok? && StopCanon(lower, round.decode.value.query) in st.words;
            && r.pending.None? && r.words == st.words
            && r.log == st.log + RoundActions(retries, AsRound(round, blocked))
            && (r.running <==> RoundExit(retries, AsRound(round, blocked)).Running?)
            && (round.fetch.Err? || round.decode.Err? ==> r.books == st.books)
            && (round.fetch.Ok? && round.decode.Ok? ==>
                  r.books == AfterEvent(cfg, lower, st.books, round.decode.value, blocked, st.words,
                                        round.limiter, round.addContext, round.now))
  {
    if round.fetch.Ok? {
      var blocked := round.decode.Ok? && StopCanon(lower, round.decode.value.query) in st.words;
      var m := round.fetch.value;
      Regroup(st.log, [Fetched(m)], DeliveryActions(retries, m, AsRound(round, blocked)));
    }
  }

  function RunService(cfg: Config, lower: Lower, retries: nat, st: ServiceState, ops: seq<ServiceOp>): ServiceState
    requires cfg.Valid()
  {
    if ops == [] then st
    else ServiceStep(cfg, lower, retries, RunService(cfg, lower, retries, st, Front(ops)), Last(ops))
  }

  lemma {:induction false} RunServiceAppend(
      cfg: Config, lower: Lower, retries: nat, st: ServiceState, ops: seq<ServiceOp>, op: ServiceOp)
    requires cfg.Valid()
    ensures RunService(cfg, lower, retries, st, []) == st
    ensures RunService(cfg, lower, retries, st, ops + [op])
            == ServiceStep(cfg, lower, retries, RunService(cfg, lower, retries, st, ops), op)
  {
    assert Front(ops + [op]) == ops;
  }

  // ---------- A blocked key stays out, over every run of the service ----------

  /** The key is blocked, also for the message in hand, which was checked. */
  ghost predicate Guards(lower: Lower, st: ServiceState, key: string) {
    && key in st.words
    && (st.pending.Some? ==>
          && key in st.pendingWords
          && (st.pending.value.round.decode.Ok? ==>
                (st.pending.value.blocked <==>
                 StopCanon(lower, st.pending.value.round.decode.value.query) in st.pendingWords)))
  }

  /** An admission under the key, if there is one, is of a query with a control gap. */
  ghost predicate OnlyThroughGaps(admissions: seq<Admission>, from: nat, key: string) {
    forall i :: from <= i < |admissions| && admissions[i].key == key ==> HasControlGap(admissions[i].query)
  }

  /** An event that passed a check against words with the key among them has another key, or a control gap. */
  lemma {:induction false} PassedHasOtherKey(
      cfg: Config, lower: Lower, books: Ledger, event: SearchEvent, blocked: bool, words: set<string>,
      limiter: LimiterReply, addContext: Option<ContextError>, now: int, from: nat, key: string)
    requires cfg.Valid() && key in words && (blocked <==> StopCanon(lower, event.query) in words)
    requires from <= |books.admissions| && OnlyThroughGaps(books.admissions, from, key)
    ensures var r := AfterEvent(cfg, lower, books, event, blocked, words, limiter, addContext, now);
            from <= |r.admissions| && OnlyThroughGaps(r.admissions, from, key)
  {
    AcceptedIff(cfg, lower, event, now);
    AgreeIffNoControlGap(lower, event.query);
  }

  lemma {:induction false} GuardedStep(
      cfg: Config, lower: Lower, retries: nat, st: ServiceState, op: ServiceOp, from: nat, key: string)
    requires cfg.Valid() && Guards(lower, st, key) && (op.Unblock? ==> StopCanon(lower, op.word) != key)
    requires from <= |st.books.admissions| && OnlyThroughGaps(st.books.admissions, from, key)
    ensures var r := ServiceStep(cfg, lower, retries, st, op);
            && Guards(lower, r, key)
            && from <= |r.books.admissions| && OnlyThroughGaps(r.books.admissions, from, key)
  {
    if op.Finish? && st.pending.Some? {
      var f := st.pending.value;
      if f.round.decode.Ok? {
        PassedHasOtherKey(cfg, lower, st.books, f.round.decode.value, f.blocked, st.pendingWords,
                          f.round.limiter, f.round.addContext, f.round.now, from, key);
      }
    }
  }

  /** From a state in which a key is blocked, over every interleaving of consumer steps, ticks and stop-list updates
      that does not unblock it: no event is counted under the key, except for queries with a control gap. */
  lemma {:induction false} BlockedStaysOut(
      cfg: Config, lower: Lower, retries: nat, st: ServiceState, ops: seq<ServiceOp>, key: string)
    requires cfg.Valid() && Guards(lower, st, key)
    requires forall op :: op in ops && op.Unblock? ==> StopCanon(lower, op.word) != key
    ensures var r, from := RunService(cfg, lower, retries, st, ops), |st.books.admissions|;
            && Guards(lower, r, key)
            && from <= |r.books.admissions| && OnlyThroughGaps(r.books.admissions, from, key)
  {
    if ops == [] {
    } else {
      assert forall op :: op in Front(ops) ==> op in ops;
      BlockedStaysOut(cfg, lower, retries, st, Front(ops), key);
      GuardedStep(cfg, lower, retries, RunService(cfg, lower, retries, st, Front(ops)), Last(ops),
                  |st.books.admissions|, key);
    }
  }

  /** An aggregator that nobody touched is as valid as it was. */
  twostate lemma {:induction false} Untouched(agg: Aggregator)
    requires old(agg.Valid()) && unchanged(agg) && unchanged(agg.buckets)
    ensures agg.Valid()
  {
    assert agg.buckets[..] == old(agg.buckets[..]);
  }

  /** The running service. Its methods reason about whole components, so their proofs hide what normal forms,
      verdicts, replays and tallies are made of. */
  class App {
    const stopWords: Manager
    const agg: Aggregator
    const consumer: Consumer

    /** Events observed by the handler itself. */
    var stoppedEvents: nat
    var rateLimitedEvents: nat

    /** The message between its stop-list check and the rest of its handling, and the blocked words
        that it was checked against. */
    var pending: Option<InFlight>
    ghost var pendingWords: set<string>

    ghost var admissions: seq<Admission>

    constructor (stopWords: Manager, agg: Aggregator, consumer: Consumer)
      requires consumer.Valid() && consumer.log == [] && agg.lower == stopWords.lower
      requires agg.trace == [] && agg.acceptedEvents + agg.expiredEvents + agg.invalidEvents == 0
      ensures Valid() && pending.None?
      ensures this.stopWords == stopWords && this.agg == agg && this.consumer == consumer
    {
      this.stopWords, this.agg, this.consumer := stopWords, agg, consumer;
      stoppedEvents, rateLimitedEvents, admissions := 0, 0, [];
      pending, pendingWords := None, {};
    }

    /** Every accepted event was checked; updates of the stop list do not matter to it. */
    ghost predicate Sound()
      reads this`admissions, agg`trace
    {
      && agg.lower == stopWords.lower
      && Admitted(agg.lower, admissions, History(agg.trace))
    }

    ghost function Books(): Ledger
      reads this`stoppedEvents, this`rateLimitedEvents, this`admissions,
            agg`acceptedEvents, agg`expiredEvents, agg`invalidEvents, agg`trace
    {
      Ledger(stoppedEvents, rateLimitedEvents, agg.acceptedEvents, agg.expiredEvents, agg.invalidEvents,
             agg.trace, admissions)
    }

    ghost function Outcomes(): nat
      reads this`stoppedEvents, this`rateLimitedEvents, this`admissions,
            agg`acceptedEvents, agg`expiredEvents, agg`invalidEvents, agg`trace
    {
      Total(Books())
    }

    /** The message in hand is the one that was fetched last, with the result of its check. */
    ghost predicate PendingChecked()
      reads this`pending, this`pendingWords, consumer
    {
      pending.Some? ==>
        && consumer.Phase() == Holding(pending.value.message)
        && (pending.value.round.decode.Ok? ==>
              (pending.value.blocked <==>
               StopCanon(agg.lower, pending.value.round.decode.value.query) in pendingWords))
    }

    /** Every message counted as processed is one disposed event. */
    ghost predicate Valid()
      reads this, agg`trace, agg`acceptedEvents, agg`expiredEvents, agg`invalidEvents, consumer
    {
      Sound() && consumer.Valid() && consumer.metrics.processed == Outcomes() && PendingChecked()
    }

    /** The handler: it fails only with the context, and disposes of the event otherwise. */
    method HandleSearchEvent(event: SearchEvent, limiter: LimiterReply, addContext: Option<ContextError>, now: int)
      returns (err: Option<Error>)
      requires agg.Valid() && Sound()
      modifies this`stoppedEvents, this`rateLimitedEvents, this`admissions, agg, agg.buckets
      ensures agg.Valid() && Sound()
      ensures Outcomes() == old(Outcomes()) + if err.None? then 1 else 0
      ensures Books() == AfterEvent(agg.cfg, agg.lower, old(Books()), event,
                                    StopCanon(agg.lower, event.query) in stopWords.Words(), stopWords.Words(),
                                    limiter, addContext, now)
      ensures err == if StopCanon(agg.lower, event.query) in stopWords.Words() then None
                     else HandlerError(limiter, addContext)
    {
      hide StopCanon, Canon, Judge, Replay, History, Tally, PhaseAfter;
      ghost var words := stopWords.Words();
      var blocked := stopWords.Contains(event.query);
      err := HandleChecked(event, blocked, words, limiter, addContext, now);
      assert stopWords.Words() == words;
    }

    /** The handler after its stop-list check; the list may have changed since. */
    method HandleChecked(event: SearchEvent, blocked: bool, ghost words: set<string>, limiter: LimiterReply,
                         addContext: Option<ContextError>, now: int)
      returns (err: Option<Error>)
      requires agg.Valid() && Sound() && (blocked <==> StopCanon(agg.lower, event.query) in words)
      modifies this`stoppedEvents, this`rateLimitedEvents, this`admissions, agg, agg.buckets
      ensures agg.Valid() && Sound()
      ensures Outcomes() == old(Outcomes()) + if err.None? then 1 else 0
      ensures Books() == AfterEvent(agg.cfg, agg.lower, old(Books()), event, blocked, words, limiter, addContext, now)
      ensures err == if blocked then None else HandlerError(limiter, addContext)
    {
      hide StopCanon, Canon, Judge, Replay, History, Tally, PhaseAfter;
      DisposedOnce(agg.cfg, agg.lower, Books(), event, blocked, words, limiter, addContext, now);
      if blocked {
        stoppedEvents := stoppedEvents + 1;
        Untouched(agg);
        return None;
      }
      match limiter {
        case LimiterError(e) => return Some(e);
        case Limited =>
          rateLimitedEvents := rateLimitedEvents + 1;
          Untouched(agg);
          return None;
        case Allowed =>
      }
      err := CountAllowed(event, words, addContext, now);
    }

    /** An event that is neither blocked nor limited. */
    method CountAllowed(event: SearchEvent, ghost words: set<string>, addContext: Option<ContextError>, now: int)
      returns (err: Option<Error>)
      requires agg.Valid() && Sound() && StopCanon(agg.lower, event.query) !in words
      modifies this`admissions, agg, agg.buckets
      ensures agg.Valid() && Sound()
      ensures err == if addContext.Some? then Some(addContext.value) else None
      ensures var v := Judge(agg.cfg, agg.lower, event, now);
              Books() == PassedOn(old(Books()), event.query, v, words, addContext, now)
    {
      hide StopCanon, Canon, Judge, Replay, History, Tally, PhaseAfter;
      ghost var books, v := Books(), Judge(agg.cfg, agg.lower, event, now);
      err := Aggregate(event, v, addContext, now);
      Settle(books, event.query, v, words, addContext, now);
    }

    /** The aggregator took the step for the verdict and counted it, unless the context had ended. */
    ghost predicate Took(books: Ledger, v: Verdict, ok: bool, now: int)
      reads this`stoppedEvents, this`rateLimitedEvents, this`admissions,
            agg`acceptedEvents, agg`expiredEvents, agg`invalidEvents, agg`trace
    {
      && stoppedEvents == books.stopped && rateLimitedEvents == books.rateLimited && admissions == books.admissions
      && agg.acceptedEvents == books.accepted + (if ok && v.Accepted? then 1 else 0)
      && agg.expiredEvents == books.expired + (if ok && v.Expired? then 1 else 0)
      && agg.invalidEvents == books.invalid + (if ok && v.Invalid? then 1 else 0)
      && agg.trace == books.trace + if ok && v.Accepted? then [SlidingWindow.Add(now, v.entry)] else []
    }

    /** The last step of the handler: an event that the aggregator's validation rejects is
        disposed of, too. */
    method Aggregate(event: SearchEvent, ghost v: Verdict, addContext: Option<ContextError>, now: int)
      returns (err: Option<Error>)
      requires agg.Valid() && v == Judge(agg.cfg, agg.lower, event, now)
      modifies agg, agg.buckets
      ensures agg.Valid() && Took(old(Books()), v, addContext.None?, now)
      ensures err == if addContext.Some? then Some(addContext.value) else None
    {
      hide StopCanon, Canon, Words, Join, Replay, History, Tally, PhaseAfter;
      var addErr := agg.Add(addContext, event, now);
      if addErr.Some? {
        if IsValidationError(addErr.value) {
          return None;
        }
        return addErr;
      }
      return None;
    }

    /** Records the admission that goes with the aggregator's step. */
    ghost method Settle(
        books: Ledger, query: string, v: Verdict, words: set<string>, addContext: Option<ContextError>, now: int)
      requires agg.Valid() && Took(books, v, addContext.None?, now) && agg.lower == stopWords.lower
      requires Admitted(agg.lower, books.admissions, History(books.trace)) && StopCanon(agg.lower, query) !in words
      requires v.Accepted? ==> v.entry.query == Canon(agg.lower, query)
      modifies this`admissions
      ensures agg.Valid() && Sound() && Books() == PassedOn(books, query, v, words, addContext, now)
    {
      PassedOnFields(books, query, v, words, addContext, now);
      PassedOnIsAdmitted(agg.lower, books, query, v, words, addContext, now);
      admissions := PassedOn(books, query, v, words, addContext, now).admissions;
      Untouched(agg);
    }

    /** Where a run of the service stands. */
    ghost function Now(running: bool): ServiceState
      reads this, agg`acceptedEvents, agg`expiredEvents, agg`invalidEvents, agg`trace, consumer,
            stopWords, stopWords.published
    {
      ServiceState(running, pending, pendingWords, stopWords.Words(), Books(), consumer.log)
    }

    /** The first step of a round: fetch, decode, and read the stop list once. */
    method BeginRound(round: ServiceRound, ghost blocked: bool) returns (exit: Exit)
      requires agg.Valid() && Valid() && pending.None? && consumer.Phase() == AtFetch
      requires blocked == Blocks(agg.lower, stopWords.Words(), round)
      modifies this`pending, this`pendingWords, consumer
      ensures agg.Valid() && Valid()
      ensures round.fetch.Ok? ==>
                && exit == Running && consumer.log == old(consumer.log) + [Fetched(round.fetch.value)]
                && pending == Some(InFlight(round.fetch.value, round, blocked))
                && pendingWords == stopWords.Words()
      ensures round.fetch.Err? ==>
                var ended := round.fetch.error in {Canceled, DeadlineExceeded};
                && pending.None? && pendingWords == old(pendingWords) && consumer.Phase() == AtFetch
                && consumer.log == old(consumer.log) + (if ended then [] else [ReadFailed])
                && exit == if ended || round.fetchSleep.Some? then Stopped else Running
    {
      hide StopCanon, Canon, Judge, Replay, History, Tally, PhaseAfter;
      exit := consumer.Fetch(round.fetch, round.fetchSleep);
      Untouched(agg);
      assert Valid();
      if round.fetch.Ok? {
        Check(round.fetch.value, round);
      }
    }

    /** Reads the stop list for a message that was decoded, and keeps it in hand. */
    method Check(message: Message, round: ServiceRound)
      requires agg.Valid() && Valid() && consumer.Phase() == Holding(message)
      modifies this`pending, this`pendingWords
      ensures agg.Valid() && Valid()
      ensures pending == Some(InFlight(message, round, Blocks(agg.lower, stopWords.Words(), round)))
      ensures pendingWords == stopWords.Words()
    {
      hide StopCanon, Canon, Judge, Replay, History, Tally, PhaseAfter;
      var blocked := false;
      if round.decode.Ok? {
        blocked := stopWords.Contains(round.decode.value.query);
      }
      pending, pendingWords := Some(InFlight(message, round, blocked)), stopWords.Words();
      Untouched(agg);
    }

    /** The second step, for the message in hand: the rest of the handler, and the commit. */
    method FinishRound(ghost f: InFlight, ghost words: set<string>) returns (exit: Exit)
      requires agg.Valid() && Valid() && pending == Some(f) && pendingWords == words
      modifies this, agg, agg.buckets, consumer
      ensures agg.Valid() && Valid() && pending.None? && pendingWords == words
      ensures exit.Running? ==> consumer.Phase() == AtFetch
      // A message that is not decoded changes no books; a decoded event is handled as it was checked.
      ensures f.round.decode.Err? ==> Books() == old(Books())
      ensures f.round.decode.Ok? ==>
                Books() == AfterEvent(agg.cfg, agg.lower, old(Books()), f.round.decode.value, f.blocked, words,
                                      f.round.limiter, f.round.addContext, f.round.now)
      // The verdict and the commit calls for these answers, and how the round ends.
      ensures var actions := DeliveryActions(consumer.commitRetries, f.message, AsRound(f.round, f.blocked));
              consumer.log == old(consumer.log) + actions
      ensures exit == DeliveryExit(consumer.commitRetries, f.message, AsRound(f.round, f.blocked))
    {
      hide StopCanon, Canon, Judge, Replay, History, Tally, PhaseAfter;
      var InFlight(message, round, blocked) := pending.value;
      var handle := Dispatch(round, blocked);
      label Dispatched:
      var decode := if round.decode.Err? then Some(round.decode.error) else None;
      exit := consumer.Deliver(message, Round(round.fetch, round.fetchSleep, decode, handle, round.commits));
      pending := None;
      Untouched@Dispatched(agg);
    }

    /** The handler is called for a message that was decoded. */
    method Dispatch(round: ServiceRound, blocked: bool) returns (handle: Option<Error>)
      requires agg.Valid() && Sound()
      requires round.decode.Ok? ==> (blocked <==> StopCanon(agg.lower, round.decode.value.query) in pendingWords)
      modifies this`stoppedEvents, this`rateLimitedEvents, this`admissions, agg, agg.buckets
      ensures agg.Valid() && Sound()
      ensures Outcomes() == old(Outcomes()) + if round.decode.Ok? && handle.None? then 1 else 0
      ensures round.decode.Err? ==> handle.None? && Books() == old(Books())
      ensures round.decode.Ok? ==>
                && handle == (if blocked then None else HandlerError(round.limiter, round.addContext))
                && Books() == AfterEvent(agg.cfg, agg.lower, old(Books()), round.decode.value, blocked,
                                         pendingWords, round.limiter, round.addContext, round.now)
    {
      hide StopCanon, Canon, Judge, Replay, History, Tally, PhaseAfter;
      handle := None;
      if round.decode.Ok? {
        handle := HandleChecked(round.decode.value, blocked, pendingWords,
                                round.limiter, round.addContext, round.now);
      }
    }

    /** A whole round of the consumer with this handler. */
    method ConsumeOnce(round: ServiceRound) returns (exit: Exit)
      requires agg.Valid() && Valid() && pending.None? && consumer.Phase() == AtFetch
      modifies this, agg, agg.buckets, consumer
      ensures agg.Valid() && Valid() && pending.None?
      ensures exit.Running? ==> consumer.Phase() == AtFetch
      ensures exit == RoundExit(consumer.commitRetries, AsRound(round, Blocks(agg.lower, stopWords.Words(), round)))
      ensures Now(exit.Running?) == AfterRound(agg.cfg, agg.lower, consumer.commitRetries, old(Now(true)), round)
    {
      hide StopCanon, Canon, Judge, Replay, History, Tally, PhaseAfter;
      ghost var blocked := Blocks(agg.lower, stopWords.Words(), round);
      exit := TakeBegin(round, blocked);
      if pending.Some? {
        exit := TakeFinish(pending.value);
      }
    }

    /** The first step, as a step of the service. */
    method TakeBegin(round: ServiceRound, ghost blocked: bool) returns (exit: Exit)
      requires agg.Valid() && Valid() && pending.None? && consumer.Phase() == AtFetch
      requires blocked == Blocks(agg.lower, stopWords.Words(), round)
      modifies this`pending, this`pendingWords, consumer
      ensures agg.Valid() && Valid()
      ensures Now(exit.Running?) == AfterBegin(old(Now(true)), round, blocked)
      ensures exit.Running? && pending.None? ==> consumer.Phase() == AtFetch
      ensures exit.Running? || exit.Stopped?
    {
      hide StopCanon, Canon, Judge, Replay, History, Tally, PhaseAfter;
      exit := BeginRound(round, blocked);
    }

    /** The second step, as a step of the service. */
    method TakeFinish(ghost f: InFlight) returns (exit: Exit)
      requires agg.Valid() && Valid() && pending == Some(f)
      modifies this, agg, agg.buckets, consumer
      ensures agg.Valid() && Valid()
      ensures Now(exit.Running?) == AfterFinish(agg.cfg, agg.lower, consumer.commitRetries, old(Now(true)), f)
      ensures exit.Running? ==> consumer.Phase() == AtFetch
      ensures exit == DeliveryExit(consumer.commitRetries, f.message, AsRound(f.round, f.blocked))
    {
      hide StopCanon, Canon, Judge, Replay, History, Tally, PhaseAfter;
      exit := FinishRound(f, pendingWords);
    }

    /** A tick of the timer: the Top-N is rebuilt, and nothing is admitted. */
    method Rebuild(ctx: Option<Error>, now: int) returns (err: Option<Error>)
      requires agg.Valid() && Sound()
      modifies agg, agg.buckets
      ensures agg.Valid() && Sound() && err == ctx
      ensures Books() == old(Books()).(trace := old(agg.trace) + if ctx.None? then [SlidingWindow.Rebuild(now)] else [])
      ensures ctx.None? ==> !agg.dirty && agg.topCache == TopN(agg.counters, agg.cfg.maxLimit)
    {
      hide StopCanon, Canon, Judge, Replay, History, Tally, PhaseAfter;
      ghost var next := agg.trace + if ctx.None? then [SlidingWindow.Rebuild(now)] else [];
      RebuildAdmitsNothing(agg.lower, admissions, agg.trace, now);
      err := agg.RebuildTop(ctx, now);
      assert agg.trace == next;
    }

    /** An update of the stop list touches nothing else. */
    method Update(word: string, block: bool)
      requires agg.Valid() && Valid() && stopWords.Valid()
      modifies stopWords
      ensures agg.Valid() && Valid() && stopWords.Valid()
      ensures stopWords.Words() == if block then AfterAdd(stopWords.lower, old(stopWords.Words()), word)
                                   else AfterRemove(stopWords.lower, old(stopWords.Words()), word)
    {
      hide StopCanon, Canon, Judge, Replay, History, Tally, PhaseAfter;
      if block {
        var _ := stopWords.Add(word);
      } else {
        var _ := stopWords.Remove(word);
      }
      Untouched(agg);
    }

    /** Where it stands after one more step. */
    ghost function Next(st: ServiceState, op: ServiceOp): ServiceState
      requires agg.cfg.Valid()
    {
      ServiceStep(agg.cfg, agg.lower, consumer.commitRetries, st, op)
    }

    /** Everything that can happen to the service, in any order, with stop-list updates and rebuilds also
        between the check of an event and its count: every interleaving takes exactly these steps, after which
        the components are valid, all counted events were checked, and the metrics balance. */
    method Drive(ops: seq<ServiceOp>) returns (running: bool)
      requires agg.Valid() && Valid() && stopWords.Valid() && pending.None? && consumer.Phase() == AtFetch
      modifies this, agg, agg.buckets, consumer, stopWords
      ensures agg.Valid() && Valid() && stopWords.Valid()
      ensures Now(running) == RunService(agg.cfg, agg.lower, consumer.commitRetries, old(Now(true)), ops)
    {
      hide StopCanon, Canon, Judge, Replay, History, Tally, PhaseAfter;
      running := true;
      for k := 0 to |ops|
        invariant agg.Valid() && Valid() && stopWords.Valid()
        invariant running && pending.None? ==> consumer.Phase() == AtFetch
        invariant Now(running) == RunService(agg.cfg, agg.lower, consumer.commitRetries, old(Now(true)), ops[..k])
      {
        running := PerformNext(ops, k, running, old(Now(true)));
      }
      assert ops[..|ops|] == ops;
    }

    /** One step more of a run. */
    method PerformNext(ops: seq<ServiceOp>, k: nat, running: bool, ghost start: ServiceState) returns (still: bool)
      requires agg.Valid() && Valid() && stopWords.Valid() && k < |ops|
      requires running && pending.None? ==> consumer.Phase() == AtFetch
      requires Now(running) == RunService(agg.cfg, agg.lower, consumer.commitRetries, start, ops[..k])
      modifies this, agg, agg.buckets, consumer, stopWords
      ensures agg.Valid() && Valid() && stopWords.Valid()
      ensures still && pending.None? ==> consumer.Phase() == AtFetch
      ensures Now(still) == RunService(agg.cfg, agg.lower, consumer.commitRetries, start, ops[..k + 1])
    {
      hide StopCanon, Canon, Judge, Replay, History, Tally, PhaseAfter;
      assert ops[..k + 1] == ops[..k] + [ops[k]];
      RunServiceAppend(agg.cfg, agg.lower, consumer.commitRetries, start, ops[..k], ops[k]);
      still := Perform(ops[k], running);
    }

    /** One step of the service. */
    method Perform(op: ServiceOp, running: bool) returns (stillRunning: bool)
      requires agg.Valid() && Valid() && stopWords.Valid()
      requires running && pending.None? ==> consumer.Phase() == AtFetch
      modifies this, agg, agg.buckets, consumer, stopWords
      ensures agg.Valid() && Valid() && stopWords.Valid()
      ensures stillRunning && pending.None? ==> consumer.Phase() == AtFetch
      ensures Now(stillRunning) == Next(old(Now(running)), op)
      ensures op.Tick? ==>
                && agg.trace == old(agg.trace) + [SlidingWindow.Rebuild(op.now)]
                && !agg.dirty && agg.topCache == TopN(agg.counters, agg.cfg.maxLimit)
      ensures op.Block? && StopCanon(agg.lower, op.word) != "" ==> StopCanon(agg.lower, op.word) in stopWords.Words()
      ensures op.Unblock? ==> StopCanon(agg.lower, op.word) !in stopWords.Words()
    {
      hide StopCanon, Canon, Judge, Replay, History, Tally, PhaseAfter;
      stillRunning := running;
      match op {
        case Begin(round) =>
          if running && pending.None? {
            var exit := TakeBegin(round, Blocks(agg.lower, stopWords.Words(), round));
            stillRunning := exit.Running?;
          }
        case Finish =>
          if pending.Some? {
            var exit := TakeFinish(pending.value);
            stillRunning := exit.Running?;
          }
        case Tick(now) =>
          TakeTick(now, running);
        case _ =>
          TakeUpdate(op, running);
      }
    }

    /** A tick of the timer, as a step of the service. */
    method TakeTick(now: int, ghost running: bool)
      requires agg.Valid() && Valid()
      modifies agg, agg.buckets
      ensures agg.Valid() && Valid()
      ensures Now(running) == Next(old(Now(running)), Tick(now))
      ensures agg.trace == old(agg.trace) + [SlidingWindow.Rebuild(now)]
      ensures !agg.dirty && agg.topCache == TopN(agg.counters, agg.cfg.maxLimit)
    {
      hide StopCanon, Canon, TopN, Replay, History, Tally, PhaseAfter;
      var _ := Rebuild(None, now);
    }

    /** An update of the stop list, as a step of the service. */
    method TakeUpdate(op: ServiceOp, ghost running: bool)
      requires agg.Valid() && Valid() && stopWords.Valid() && (op.Block? || op.Unblock?)
      modifies stopWords
      ensures agg.Valid() && Valid() && stopWords.Valid()
      ensures Now(running) == Next(old(Now(running)), op)
      ensures op.Block? && StopCanon(agg.lower, op.word) != "" ==> StopCanon(agg.lower, op.word) in stopWords.Words()
      ensures op.Unblock? ==> StopCanon(agg.lower, op.word) !in stopWords.Words()
    {
      hide StopCanon, Canon, Judge, Replay, History, Tally, PhaseAfter;
      Update(op.word, op.Block?);
    }

    /** A key that is counted was admitted: checked against the snapshot read at that time. */
    lemma {:induction false} CountedKeysWereChecked(key: string)
      requires agg.Valid() && Sound() && key in agg.counters
      ensures exists a :: a in admissions && a.key == key && Checked(agg.lower, a)
    {
      LiveAreAccepted(agg.cfg.Shape(), agg.created, agg.trace);
      KeyWasChecked(agg.lower, admissions, History(agg.trace), agg.live, key);
    }
  }

  lemma {:induction false} PassedIsChecked(lower: Lower, query: string, words: set<string>)
    requires StopCanon(lower, query) !in words
    ensures Checked(lower, Admission(query, Canon(lower, query), words))
  {
    AgreeIffNoControlGap(lower, query);
  }

  lemma {:induction false} AdmittedAppend(
      lower: Lower, admissions: seq<Admission>, history: seq<Entry>, a: Admission, e: Entry)
    requires Admitted(lower, admissions, history) && Checked(lower, a) && e.query == a.key
    ensures Admitted(lower, admissions + [a], history + [e])
  {
  }

  lemma {:induction false} AdmitOne(
      lower: Lower, admissions: seq<Admission>, trace: seq<Op>, query: string, words: set<string>, op: Op)
    requires Admitted(lower, admissions, History(trace)) && StopCanon(lower, query) !in words
    requires op.Add? && op.entry.query == Canon(lower, query)
    ensures Admitted(lower, admissions + [Admission(query, Canon(lower, query), words)], History(trace + [op]))
  {
    HistoryAppend(trace, op);
    PassedIsChecked(lower, query, words);
    AdmittedAppend(lower, admissions, History(trace), Admission(query, Canon(lower, query), words), op.entry);
  }

  /** An event that passed its check leaves every accepted event checked. */
  lemma {:induction false} PassedOnIsAdmitted(
      lower: Lower, books: Ledger, query: string, v: Verdict, words: set<string>,
      addContext: Option<ContextError>, now: int)
    requires Admitted(lower, books.admissions, History(books.trace)) && StopCanon(lower, query) !in words
    requires v.Accepted? ==> v.entry.query == Canon(lower, query)
    ensures var r := PassedOn(books, query, v, words, addContext, now);
            Admitted(lower, r.admissions, History(r.trace))
  {
    if v.Accepted? {
      AdmitOne(lower, books.admissions, books.trace, query, words, SlidingWindow.Add(now, v.entry));
    }
  }

  lemma {:induction false} RebuildAdmitsNothing(lower: Lower, admissions: seq<Admission>, trace: seq<Op>, now: int)
    requires Admitted(lower, admissions, History(trace))
    ensures Admitted(lower, admissions, History(trace + [SlidingWindow.Rebuild(now)]))
    ensures Admitted(lower, admissions, History(trace + []))
  {
    HistoryAppend(trace, SlidingWindow.Rebuild(now));
    assert trace + [] == trace;
  }

  lemma {:induction false} KeyWasChecked(
      lower: Lower, admissions: seq<Admission>, history: seq<Entry>, live: seq<Entry>, key: string)
    requires Admitted(lower, admissions, history) && key in Counts(live)
    requires forall e :: e in live ==> e in history
    ensures exists a :: a in admissions && a.key == key && Checked(lower, a)
  {
    var e :| e in live && e.query == key;
    var i :| 0 <= i < |history| && history[i] == e;
    assert admissions[i] in admissions;
  }
}

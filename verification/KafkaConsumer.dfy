/** KafkaConsumer: the fetch, process, commit loop against an arbitrary reader, decoder and
    handler. A run is judged by the log of its calls and verdicts. */
module KafkaConsumer {
  import opened Errors
  import opened GoTime

  datatype Message = Message(partition: int, offset: int)

  datatype Action =
    | ReadFailed
    | Fetched(message: Message)
    | Handled(message: Message)
    | Rejected(message: Message, malformed: bool)
    | Failed(message: Message, error: Error)
    | CommitFailed(message: Message, error: Error)
    | Committed(message: Message)

  predicate IsVerdict(a: Action, m: Message) {
    a == Handled(m) || (a.Rejected? && a.message == m)
  }

  predicate IsCommit(a: Action) {
    a.CommitFailed? || a.Committed?
  }

  // ---------- The protocol ----------

  /** Where a run stands: about to fetch, holding an undecided message, committing a decided one
      after some failed attempts, or at its end. */
  datatype Phase =
    | AtFetch
    | Holding(message: Message)
    | Cleared(message: Message, attempts: nat)
    | Ended
    | Broken

  function Next(retries: nat, phase: Phase, action: Action): Phase {
    match phase
    case AtFetch =>
      if action.ReadFailed? then AtFetch else if action.Fetched? then Holding(action.message) else Broken
    case Holding(m) =>
      if IsVerdict(action, m) then Cleared(m, 0)
      else if action.Failed? && action.message == m then
        if IsContextError(action.error) then Ended else AtFetch
      else Broken
    case Cleared(m, k) =>
      if !IsCommit(action) || action.message != m || k >= retries then Broken
      else if action.Committed? then AtFetch
      else if IsContextError(action.error) || k + 1 == retries then Ended
      else Cleared(m, k + 1)
    case _ => Broken
  }

  function PhaseAfter(retries: nat, log: seq<Action>): Phase {
    if log == [] then AtFetch
    else Next(retries, PhaseAfter(retries, log[..|log| - 1]), log[|log| - 1])
  }

  predicate Follows(retries: nat, log: seq<Action>) {
    PhaseAfter(retries, log) != Broken
  }

  lemma {:induction false} PhaseAppend(retries: nat, log: seq<Action>, a: Action)
    ensures PhaseAfter(retries, log + [a]) == Next(retries, PhaseAfter(retries, log), a)
  {
    assert (log + [a])[..|log|] == log;
  }

  lemma {:induction false} PrefixFollows(retries: nat, log: seq<Action>, n: nat)
    requires Follows(retries, log) && n <= |log|
    ensures Follows(retries, log[..n])
    ensures n < |log| ==> PhaseAfter(retries, log[..n + 1]) == Next(retries, PhaseAfter(retries, log[..n]), log[n])
    decreases |log| - n
  {
    if n < |log| {
      assert log[..n + 1][..n] == log[..n];
      PrefixFollows(retries, log, n + 1);
    } else {
      assert log[..n] == log;
    }
  }

  // ---------- What the protocol guarantees about every log ----------

  /** The attempt at `i` comes after `k` failed attempts for the same message, those right after the
      verdict on it, and that right after it was fetched. */
  predicate CommitContext(log: seq<Action>, i: nat, k: nat) {
    && k + 2 <= i < |log| && IsCommit(log[i])
    && log[i - k - 2] == Fetched(log[i].message)
    && IsVerdict(log[i - k - 1], log[i].message)
    && forall j :: i - k <= j < i ==>
         log[j].CommitFailed? && log[j].message == log[i].message && !IsContextError(log[j].error)
  }

  lemma {:induction false} ClearedHistory(retries: nat, log: seq<Action>)
    ensures PhaseAfter(retries, log).Holding? ==>
              log != [] && log[|log| - 1] == Fetched(PhaseAfter(retries, log).message)
    ensures PhaseAfter(retries, log).Cleared? ==>
              var m, k, n := PhaseAfter(retries, log).message, PhaseAfter(retries, log).attempts, |log|;
              && k + 2 <= n && (k == 0 || k < retries)
              && log[n - k - 2] == Fetched(m) && IsVerdict(log[n - k - 1], m)
              && forall j :: n - k <= j < n ==>
                   log[j].CommitFailed? && log[j].message == m && !IsContextError(log[j].error)
  {
    if log == [] {
    } else {
      ClearedHistory(retries, log[..|log| - 1]);
    }
  }

  /** A commit call is an attempt for the message in hand, after those that failed. */
  lemma {:induction false} CommitHasContext(retries: nat, log: seq<Action>, i: nat)
    requires Follows(retries, log) && i < |log| && IsCommit(log[i])
    ensures var phase := PhaseAfter(retries, log[..i]);
            && phase.Cleared? && phase.attempts < retries && CommitContext(log, i, phase.attempts)
            && PhaseAfter(retries, log[..i + 1]) == Next(retries, phase, log[i]) != Broken
  {
    PrefixFollows(retries, log, i);
    PrefixFollows(retries, log, i + 1);
    ClearedHistory(retries, log[..i]);
  }

  lemma {:induction false} NothingAfterTheEnd(retries: nat, log: seq<Action>, n: nat)
    requires Follows(retries, log) && n <= |log| && PhaseAfter(retries, log[..n]).Ended?
    ensures n == |log|
  {
    PrefixFollows(retries, log, n);
    if n < |log| {
      PrefixFollows(retries, log, n + 1);
    }
  }

  /** Commit safety: every commit call is for the message fetched last, after it was handled or
      judged invalid; it is one of at most `retries` attempts, and a last failed one ends the run. */
  lemma {:induction false} CommitSafety(retries: nat, log: seq<Action>, i: nat)
    requires Follows(retries, log) && i < |log| && IsCommit(log[i])
    ensures exists k: nat :: k < retries && CommitContext(log, i, k)
              && (log[i].CommitFailed? && k + 1 == retries ==> i == |log| - 1)
  {
    CommitHasContext(retries, log, i);
    if PhaseAfter(retries, log[..i + 1]).Ended? {
      NothingAfterTheEnd(retries, log, i + 1);
    }
  }

  /** Between the two positions the message was committed, or its processing failed for a reason
      other than the end of the context. */
  predicate SettledAt(log: seq<Action>, j: int, m: Message)
    requires 0 <= j < |log|
  {
    log[j] == Committed(m) || (log[j].Failed? && log[j].message == m && !IsContextError(log[j].error))
  }

  ghost predicate Settled(log: seq<Action>, from: nat, to: nat, m: Message)
    requires to <= |log|
  {
    exists j :: from < j < to && SettledAt(log, j, m)
  }

  lemma {:induction false} UnsettledStays(retries: nat, log: seq<Action>, f: nat, n: nat)
    requires Follows(retries, log) && f < n <= |log| && log[f].Fetched?
    ensures var m, phase := log[f].message, PhaseAfter(retries, log[..n]);
            || Settled(log, f, n, m)
            || phase == Holding(m) || (phase.Cleared? && phase.message == m) || phase.Ended?
  {
    var m := log[f].message;
    PrefixFollows(retries, log, n - 1);
    PrefixFollows(retries, log, n);
    if n == f + 1 {
    } else {
      UnsettledStays(retries, log, f, n - 1);
      if Settled(log, f, n - 1, m) {
        var j :| f < j < n - 1 && SettledAt(log, j, m);
        assert SettledAt(log, j, m);
      } else {
        assert SettledAt(log, n - 1, m) ==> Settled(log, f, n, m);
      }
    }
  }

  /** No message is passed over: before the next call to the reader for a message, the last one
      was committed or failed to be processed. */
  lemma {:induction false} FetchAfterSettled(retries: nat, log: seq<Action>, f: nat, g: nat)
    requires Follows(retries, log) && f < g < |log| && log[f].Fetched?
    requires log[g].Fetched? || log[g].ReadFailed?
    ensures Settled(log, f, g, log[f].message)
  {
    UnsettledStays(retries, log, f, g);
    PrefixFollows(retries, log, g);
    PrefixFollows(retries, log, g + 1);
  }

  // ---------- Metrics ----------

  datatype Metrics = Metrics(
    received: nat, processed: nat, invalid: nat, failed: nat,
    readErrors: nat, commitErrors: nat, decodeErrors: nat)

  const NO_METRICS := Metrics(0, 0, 0, 0, 0, 0, 0)

  /** What one action adds to the metrics. A commit that the end of the context interrupts
      counts nothing. */
  function Counted(m: Metrics, a: Action): Metrics {
    match a
    case ReadFailed => m.(readErrors := m.readErrors + 1, failed := m.failed + 1)
    case Fetched(_) => m.(received := m.received + 1)
    case Handled(_) => m.(processed := m.processed + 1)
    case Rejected(_, malformed) =>
      m.(invalid := m.invalid + 1, decodeErrors := m.decodeErrors + if malformed then 1 else 0)
    case Failed(_, _) => m.(failed := m.failed + 1)
    case CommitFailed(_, e) =>
      if IsContextError(e) then m else m.(commitErrors := m.commitErrors + 1, failed := m.failed + 1)
    case Committed(_) => m
  }

  function Tally(log: seq<Action>): Metrics {
    if log == [] then NO_METRICS else Counted(Tally(log[..|log| - 1]), log[|log| - 1])
  }

  function NumberOf(p: Action -> bool, log: seq<Action>): nat {
    if log == [] then 0 else NumberOf(p, log[..|log| - 1]) + if p(log[|log| - 1]) then 1 else 0
  }

  /** Each metric is the number of the actions that it is named after; a commit that failed counts unless the
      context had ended. */
  lemma {:induction false} MetricsAreNumbers(log: seq<Action>)
    ensures var t := Tally(log);
            && t.received == NumberOf((a: Action) => a.Fetched?, log)
            && t.processed == NumberOf((a: Action) => a.Handled?, log)
            && t.invalid == NumberOf((a: Action) => a.Rejected?, log)
            && t.decodeErrors == NumberOf((a: Action) => a.Rejected? && a.malformed, log)
            && t.readErrors == NumberOf((a: Action) => a.ReadFailed?, log)
            && t.commitErrors
               == NumberOf((a: Action) => a.CommitFailed? && a.error != Canceled && a.error != DeadlineExceeded, log)
            && t.failed == t.readErrors + t.commitErrors + NumberOf((a: Action) => a.Failed?, log)
  {
    if log == [] {
    } else {
      MetricsAreNumbers(log[..|log| - 1]);
    }
  }

  /** Metric conservation: everything received or failed to be read or committed is accounted for
      by exactly one outcome, except a message still in hand. */
  lemma {:induction false} MetricsBalance(retries: nat, log: seq<Action>)
    requires Follows(retries, log)
    ensures var t := Tally(log);
            && t.received + t.readErrors + t.commitErrors
               == t.processed + t.invalid + t.failed + (if PhaseAfter(retries, log).Holding? then 1 else 0)
            && t.decodeErrors <= t.invalid
  {
    if log == [] {
    } else {
      var front := log[..|log| - 1];
      PrefixFollows(retries, log, |log| - 1);
      MetricsBalance(retries, front);
    }
  }

  // ---------- The loop ----------

  /** One commit call and the back-off sleep after it, if it fails. */
  datatype CommitReply = CommitReply(result: Option<Error>, sleep: Option<ContextError>)

  type ContextError = e: Error | IsContextError(e) witness Canceled

  /** What the world answers in one round of the loop. */
  datatype Round = Round(
    fetch: Result<Message>,
    fetchSleep: Option<ContextError>,
    decode: Option<Error>,
    handle: Option<Error>,
    commits: nat -> CommitReply)

  datatype Exit = Running | Stopped | CommitExhausted(error: Error)

  /** The verdict on a message, from what the decoder and the handler say. */
  function Verdict(message: Message, decode: Option<Error>, handle: Option<Error>): Action {
    match decode
    case Some(e) =>
      if e.DecodeError? || e.ValidationError? then Rejected(message, e.DecodeError?) else Failed(message, e)
    case None =>
      match handle
      case Some(e) => if IsValidationError(e) then Rejected(message, false) else Failed(message, e)
      case None => Handled(message)
  }

  /** A failed attempt after which the next one is made. */
  predicate Retries(reply: CommitReply) {
    reply.result.Some? && !IsContextError(reply.result.value) && reply.sleep.None?
  }

  function Attempt(message: Message, reply: CommitReply): Action {
    if reply.result.None? then Committed(message) else CommitFailed(message, reply.result.value)
  }

  /** The commit calls made for a message from the given attempt on. Attempts are numbered from 1. */
  function CommitActions(retries: nat, message: Message, commits: nat -> CommitReply, attempt: nat): seq<Action>
    decreases retries + 1 - attempt
  {
    if attempt > retries then []
    else
      [Attempt(message, commits(attempt))]
      + if Retries(commits(attempt)) then CommitActions(retries, message, commits, attempt + 1) else []
  }

  /** What is returned in the end, when `last` is the error of the attempt before. */
  function CommitError(retries: nat, commits: nat -> CommitReply, attempt: nat, last: Option<Error>): Option<Error>
    decreases retries + 1 - attempt
  {
    if attempt > retries then last
    else
      var reply := commits(attempt);
      if Retries(reply) then CommitError(retries, commits, attempt + 1, reply.result)
      else if reply.result.Some? && !IsContextError(reply.result.value) && reply.sleep.Some?
      then Some(reply.sleep.value)
      else reply.result
  }

  /** Attempt `k` succeeds, and all attempts before it are of the kind that is repeated. */
  ghost predicate SucceedsAt(commits: nat -> CommitReply, attempt: nat, k: nat) {
    attempt <= k && commits(k).result.None? && forall j: nat :: attempt <= j < k ==> Retries(commits(j))
  }

  ghost predicate Succeeds(retries: nat, commits: nat -> CommitReply, attempt: nat) {
    exists k: nat :: k <= retries && SucceedsAt(commits, attempt, k)
  }

  lemma {:induction false} SucceedsLater(retries: nat, commits: nat -> CommitReply, attempt: nat)
    requires Retries(commits(attempt))
    ensures Succeeds(retries, commits, attempt) <==> Succeeds(retries, commits, attempt + 1)
  {
    if Succeeds(retries, commits, attempt) {
      var k: nat :| k <= retries && SucceedsAt(commits, attempt, k);
      assert k != attempt;
      assert SucceedsAt(commits, attempt + 1, k);
    }
    if Succeeds(retries, commits, attempt + 1) {
      var k: nat :| k <= retries && SucceedsAt(commits, attempt + 1, k);
      assert SucceedsAt(commits, attempt, k);
    }
  }

  /** A decided message is committed if and only if one of the attempts succeeds before the context
      ends; only when all attempts have failed is a non-context error returned. */
  lemma {:induction false} CommitMeaning(retries: nat, commits: nat -> CommitReply, attempt: nat, last: Option<Error>)
    requires attempt <= retries || last.Some?
    ensures CommitError(retries, commits, attempt, last).None? <==> Succeeds(retries, commits, attempt)
    ensures var err := CommitError(retries, commits, attempt, last);
            err.Some? && !IsContextError(err.value) ==>
              forall j: nat :: attempt <= j <= retries ==> Retries(commits(j))
    decreases retries + 1 - attempt
  {
    if attempt > retries {
    } else {
      var reply := commits(attempt);
      if Retries(reply) {
        CommitMeaning(retries, commits, attempt + 1, reply.result);
        SucceedsLater(retries, commits, attempt);
      } else if reply.result.None? {
        assert SucceedsAt(commits, attempt, attempt);
      } else {
        assert forall k: nat :: SucceedsAt(commits, attempt, k) ==> k == attempt;
      }
    }
  }

  /** Attempt `k` failed, the context goes on, and so did the sleep after it: the next attempt is made. */
  ghost predicate TriedAgain(commits: nat -> CommitReply, k: nat) {
    && commits(k).result.Some? && commits(k).result.value != Canceled && commits(k).result.value != DeadlineExceeded
    && commits(k).sleep.None?
  }

  /** The calls from the given attempt on, one by one: the next call repeats the last one for the same message
      if and only if that failed, the context goes on, and attempts are left. The error is that of the last call,
      or of the sleep that was interrupted after it. */
  lemma {:induction false} CommitCalls(
      retries: nat, message: Message, commits: nat -> CommitReply, attempt: nat, last: Option<Error>)
    requires attempt <= retries
    ensures var calls := CommitActions(retries, message, commits, attempt);
            var n := attempt + |calls| - 1;
            var err := CommitError(retries, commits, attempt, last);
            && attempt <= n <= retries
            && (forall j :: 0 <= j < |calls| ==>
                  calls[j] == match commits(attempt + j).result
                              case None => Committed(message)
                              case Some(e) => CommitFailed(message, e))
            && (forall k: nat :: attempt <= k < n ==> TriedAgain(commits, k))
            && (n < retries ==> !TriedAgain(commits, n))
            && err == if commits(n).result.Some? && !IsContextError(commits(n).result.value) && commits(n).sleep.Some?
                      then Some(commits(n).sleep.value) else commits(n).result
    decreases retries - attempt
  {
    if Retries(commits(attempt)) && attempt < retries {
      CommitCalls(retries, message, commits, attempt + 1, commits(attempt).result);
    } else {
      assert CommitActions(retries, message, commits, attempt) == [Attempt(message, commits(attempt))];
    }
  }

  /** The calls and verdicts of one round, and how it ends. */
  function RoundActions(retries: nat, round: Round): seq<Action> {
    match round.fetch
    case Err(e) => if IsContextError(e) then [] else [ReadFailed]
    case Ok(m) =>
      [Fetched(m)] + DeliveryActions(retries, m, round)
  }

  /** What is done with a fetched message. */
  function DeliveryActions(retries: nat, m: Message, round: Round): seq<Action> {
    var v := Verdict(m, round.decode, round.handle);
    [v] + if v.Failed? then [] else CommitActions(retries, m, round.commits, 1)
  }

  function RoundExit(retries: nat, round: Round): Exit {
    match round.fetch
    case Err(e) => if IsContextError(e) || round.fetchSleep.Some? then Stopped else Running
    case Ok(m) => DeliveryExit(retries, m, round)
  }

  function DeliveryExit(retries: nat, m: Message, round: Round): Exit {
    var v := Verdict(m, round.decode, round.handle);
    if v.Failed? then if IsContextError(v.error) then Stopped else Running
    else
      var err := CommitError(retries, round.commits, 1, None);
      if err.None? then Running
      else if IsContextError(err.value) then Stopped
      else CommitExhausted(err.value)
  }

  /** A message that was malformed, invalid, handled, or refused by the aggregator's validation is committed. */
  predicate Committable(decode: Option<Error>, handle: Option<Error>) {
    match decode
    case Some(e) => e == DecodeError || e == ValidationError
    case None => handle.None? || handle.value in {EmptyQuery, QueryTooLong, InvalidTimestamp, EventFromFuture}
  }

  /** Commit calls follow exactly for a committable message. The run goes on after a commit and after any failure
      to process; it stops with the context, or with the error of the last commit call. */
  lemma {:induction false} DeliveryMeaning(retries: Pos, m: Message, round: Round)
    ensures var actions := DeliveryActions(retries, m, round);
            && |actions| >= 1
            && (Committable(round.decode, round.handle) <==> |actions| > 1)
            && (|actions| > 1 ==> IsCommit(actions[1]) && actions[1].message == m)
    ensures var committable := Committable(round.decode, round.handle);
            var failure := if round.decode.Some? then round.decode else round.handle;
            var err := if committable then CommitError(retries, round.commits, 1, None) else failure;
            DeliveryExit(retries, m, round)
            == match err
               case None => Running
               case Some(e) =>
                 if e in {Canceled, DeadlineExceeded} then Stopped
                 else if committable then CommitExhausted(e) else Running
  {
  }

  /** How a run ends: with the first round that does not go on. */
  function RunExit(retries: nat, rounds: seq<Round>): Exit {
    if rounds == [] then Running
    else
      var before := RunExit(retries, rounds[..|rounds| - 1]);
      if before.Running? then RoundExit(retries, rounds[|rounds| - 1]) else before
  }

  function RunActions(retries: nat, rounds: seq<Round>): seq<Action> {
    if rounds == [] then []
    else
      var front := rounds[..|rounds| - 1];
      RunActions(retries, front)
      + if RunExit(retries, front).Running? then RoundActions(retries, rounds[|rounds| - 1]) else []
  }

  /** One more round takes part in a run if the run has not ended. */
  lemma {:induction false} RunAppend(retries: nat, rounds: seq<Round>, round: Round)
    ensures RunActions(retries, []) == [] && RunExit(retries, []) == Running
    ensures RunExit(retries, rounds).Running? ==>
              && RunActions(retries, rounds + [round]) == RunActions(retries, rounds) + RoundActions(retries, round)
              && RunExit(retries, rounds + [round]) == RoundExit(retries, round)
    ensures !RunExit(retries, rounds).Running? ==>
              && RunActions(retries, rounds + [round]) == RunActions(retries, rounds)
              && RunExit(retries, rounds + [round]) == RunExit(retries, rounds)
  {
    assert (rounds + [round])[..|rounds|] == rounds;
  }

  lemma {:induction false} RunPrefix(retries: nat, rounds: seq<Round>, k: nat)
    requires k < |rounds| && RunExit(retries, rounds[..k]).Running?
    ensures RunActions(retries, rounds[..k + 1]) == RunActions(retries, rounds[..k]) + RoundActions(retries, rounds[k])
    ensures RunExit(retries, rounds[..k + 1]) == RoundExit(retries, rounds[k])
  {
    assert rounds[..k + 1][..k] == rounds[..k] && rounds[..k + 1][k] == rounds[k];
  }

  /** After its end nothing is added to a run. */
  lemma {:induction false} EndedStays(retries: nat, rounds: seq<Round>, n: nat)
    requires n <= |rounds| && !RunExit(retries, rounds[..n]).Running?
    ensures RunExit(retries, rounds) == RunExit(retries, rounds[..n])
    ensures RunActions(retries, rounds) == RunActions(retries, rounds[..n])
    decreases |rounds|
  {
    if n == |rounds| {
      assert rounds[..n] == rounds;
    } else {
      var front := rounds[..|rounds| - 1];
      assert front[..n] == rounds[..n] && rounds == front + [rounds[|rounds| - 1]];
      EndedStays(retries, front, n);
      RunAppend(retries, front, rounds[|rounds| - 1]);
    }
  }

  /** The run ends in round `k`, the first that does not go on. */
  ghost predicate EndsIn(retries: nat, rounds: seq<Round>, k: nat) {
    && k < |rounds| && !RoundExit(retries, rounds[k]).Running?
    && forall j :: 0 <= j < k ==> RoundExit(retries, rounds[j]).Running?
  }

  /** A run that goes on has no round that does not; one that has ended, ended in a certain round. */
  lemma {:induction false} RunExitMeaning(retries: nat, rounds: seq<Round>)
    ensures RunExit(retries, rounds).Running? <==>
            forall k :: 0 <= k < |rounds| ==> RoundExit(retries, rounds[k]).Running?
    ensures !RunExit(retries, rounds).Running? ==>
              exists k: nat :: EndsIn(retries, rounds, k) && RunExit(retries, rounds) == RoundExit(retries, rounds[k])
  {
    if rounds == [] {
    } else {
      var front, last := rounds[..|rounds| - 1], rounds[|rounds| - 1];
      RunExitMeaning(retries, front);
      RunAppend(retries, front, last);
      assert rounds == front + [last];
      ExitAppend(retries, front, last);
    }
  }

  lemma {:induction false} ExitAppend(retries: nat, rounds: seq<Round>, last: Round)
    ensures forall k: nat :: EndsIn(retries, rounds, k) ==>
              EndsIn(retries, rounds + [last], k) && (rounds + [last])[k] == rounds[k]
    ensures (forall k :: 0 <= k < |rounds + [last]| ==> RoundExit(retries, (rounds + [last])[k]).Running?) <==>
            && RoundExit(retries, last).Running?
            && forall k :: 0 <= k < |rounds| ==> RoundExit(retries, rounds[k]).Running?
    ensures (forall k :: 0 <= k < |rounds| ==> RoundExit(retries, rounds[k]).Running?)
            && !RoundExit(retries, last).Running? ==>
              EndsIn(retries, rounds + [last], |rounds|) && (rounds + [last])[|rounds|] == last
  {
    var all := rounds + [last];
    assert all[|rounds|] == last;
    assert forall k :: 0 <= k < |rounds| ==> all[k] == rounds[k];
  }

  lemma {:induction false} Regroup(a: seq<Action>, b: seq<Action>, c: seq<Action>)
    ensures a + (b + c) == a + b + c
  {
  }

  /** Between the two readings, commit calls may have failed; nothing else was counted. */
  ghost predicate OnlyCommitsFailed(before: Metrics, after: Metrics) {
    && after.commitErrors >= before.commitErrors
    && after == before.(commitErrors := after.commitErrors,
                        failed := before.failed + (after.commitErrors - before.commitErrors))
  }

  /** The verdict on a message was counted once, then perhaps commit calls that failed: as processed when both
      decoder and handler succeeded, as invalid when it is committed all the same, as failed otherwise. */
  ghost predicate Judged(
    before: Metrics, after: Metrics, decode: Option<Error>, handle: Option<Error>, committed: bool) {
    var processed := decode.None? && handle.None?;
    && (!committed ==> after.commitErrors == before.commitErrors)
    && OnlyCommitsFailed(
         before.(processed := before.processed + (if processed then 1 else 0),
                 invalid := before.invalid + (if committed && !processed then 1 else 0),
                 decodeErrors := before.decodeErrors + (if decode == Some(DecodeError) then 1 else 0),
                 failed := before.failed + (if committed then 0 else 1)),
         after)
  }

  class Consumer {
    const commitRetries: Pos

    /** The pause after a failed call, in nanoseconds. */
    const retryBackoff: Pos

    var metrics: Metrics
    ghost var log: seq<Action>

    ghost predicate Valid()
      reads this
    {
      Follows(commitRetries, log) && metrics == Tally(log)
    }

    ghost function Phase(): Phase
      reads this
    {
      PhaseAfter(commitRetries, log)
    }

    constructor (commitRetries: int, retryBackoff: int)
      ensures Valid() && log == []
      ensures this.commitRetries == if commitRetries <= 0 then 3 else commitRetries
      ensures this.retryBackoff == if retryBackoff <= 0 then SECOND / 2 else retryBackoff
    {
      this.commitRetries := if commitRetries <= 0 then 3 else commitRetries;
      this.retryBackoff := if retryBackoff <= 0 then SECOND / 2 else retryBackoff;
      metrics := NO_METRICS;
      log := [];
    }

    /** Records a call or a verdict, and counts it. */
    method Record(a: Action)
      requires Valid() && Next(commitRetries, Phase(), a) != Broken
      modifies this
      ensures Valid()
      ensures log == old(log) + [a] && metrics == Counted(old(metrics), a)
      ensures Phase() == Next(commitRetries, old(Phase()), a)
    {
      PhaseAppend(commitRetries, log, a);
      assert (log + [a])[..|log|] == log;
      metrics := Counted(metrics, a);
      log := log + [a];
    }

    /** Decoding and handling of the message in hand. */
    method ProcessMessage(message: Message, decode: Option<Error>, handle: Option<Error>)
      returns (shouldCommit: bool, err: Option<Error>)
      requires Valid() && Phase() == Holding(message)
      modifies this
      ensures Valid()
      ensures shouldCommit ==> err.None? && Phase() == Cleared(message, 0)
      ensures shouldCommit <==> !Verdict(message, decode, handle).Failed?
      ensures !shouldCommit ==>
                && err == Some(Verdict(message, decode, handle).error)
                && Phase() == if IsContextError(err.value) then Ended else AtFetch
      ensures log == old(log) + [Verdict(message, decode, handle)]
      // Malformed and invalid messages are committed like handled ones; other failures are not.
      ensures shouldCommit <==>
              || decode in {Some(DecodeError), Some(ValidationError)}
              || (decode.None?
                  && (handle.None?
                      || handle.value in {EmptyQuery, QueryTooLong, InvalidTimestamp, EventFromFuture}))
      ensures shouldCommit <==> Committable(decode, handle)
      ensures !shouldCommit ==> err == if decode.Some? then decode else handle
      ensures var was, processed := old(metrics), decode.None? && handle.None?;
              metrics == was.(processed := was.processed + (if processed then 1 else 0),
                              invalid := was.invalid + (if shouldCommit && !processed then 1 else 0),
                              decodeErrors := was.decodeErrors + (if decode == Some(DecodeError) then 1 else 0),
                              failed := was.failed + (if shouldCommit then 0 else 1))
    {
      if decode.Some? {
        if decode.value.DecodeError? {
          Record(Rejected(message, true));
          return true, None;
        }
        if decode.value.ValidationError? {
          Record(Rejected(message, false));
          return true, None;
        }
        Record(Failed(message, decode.value));
        return false, decode;
      }
      if handle.Some? {
        if IsValidationError(handle.value) {
          Record(Rejected(message, false));
          return true, None;
        }
        Record(Failed(message, handle.value));
        return false, handle;
      }
      Record(Handled(message));
      return true, None;
    }

    /** At most `commitRetries` attempts; the error of the last one when all fail. */
    method CommitWithRetry(message: Message, commits: nat -> CommitReply) returns (err: Option<Error>)
      requires Valid() && Phase() == Cleared(message, 0)
      modifies this
      ensures Valid() && !Phase().Holding?
      ensures err.None? ==> Phase() == AtFetch
      ensures err.Some? && !IsContextError(err.value) ==> Phase() == Ended
      ensures log == old(log) + CommitActions(commitRetries, message, commits, 1)
      ensures err == CommitError(commitRetries, commits, 1, None)
      ensures OnlyCommitsFailed(old(metrics), metrics)
    {
      err := None;
      ghost var all := old(log) + CommitActions(commitRetries, message, commits, 1);
      for attempt := 1 to commitRetries + 1
        invariant Valid()
        invariant attempt <= commitRetries ==> Phase() == Cleared(message, attempt - 1)
        invariant attempt > commitRetries ==> Phase() == Ended && err.Some?
        invariant log + CommitActions(commitRetries, message, commits, attempt) == all
        invariant CommitError(commitRetries, commits, attempt, err) == CommitError(commitRetries, commits, 1, None)
        invariant OnlyCommitsFailed(old(metrics), metrics)
      {
        var reply := commits(attempt);
        ghost var rest := if Retries(reply) then CommitActions(commitRetries, message, commits, attempt + 1) else [];
        Regroup(log, [Attempt(message, reply)], rest);
        if reply.result.Some? {
          Record(CommitFailed(message, reply.result.value));
          if IsContextError(reply.result.value) {
            return reply.result;
          }
          err := reply.result;
          if reply.sleep.Some? {
            return Some(reply.sleep.value);
          }
          continue;
        }
        Record(Committed(message));
        return None;
      }
    }

    /** The first call of a round: a message in hand, or the way the round ends. */
    method Fetch(fetch: Result<Message>, fetchSleep: Option<ContextError>) returns (exit: Exit)
      requires Valid() && Phase() == AtFetch
      modifies this
      ensures Valid()
      ensures fetch.Ok? ==>
                && exit == Running && Phase() == Holding(fetch.value) && log == old(log) + [Fetched(fetch.value)]
                && metrics == old(metrics).(received := old(metrics).received + 1)
      ensures fetch.Err? ==>
                && Phase() == AtFetch
                && metrics == (if IsContextError(fetch.error) then old(metrics)
                               else old(metrics).(readErrors := old(metrics).readErrors + 1,
                                                  failed := old(metrics).failed + 1))
                && log == old(log) + (if IsContextError(fetch.error) then [] else [ReadFailed])
                && exit == if IsContextError(fetch.error) || fetchSleep.Some? then Stopped else Running
    {
      if fetch.Err? {
        if IsContextError(fetch.error) {
          return Stopped;
        }
        Record(ReadFailed);
        if fetchSleep.Some? {
          return Stopped;
        }
        return Running;
      }
      Record(Fetched(fetch.value));
      return Running;
    }

    /** One round of the loop: what it calls and how it ends, for every answer of the world. */
    method RunOnce(round: Round) returns (exit: Exit)
      requires Valid() && Phase() == AtFetch
      modifies this
      ensures Valid() && !Phase().Holding?
      ensures exit.Running? ==> Phase() == AtFetch
      ensures exit.CommitExhausted? ==> Phase() == Ended
      ensures log == old(log) + RoundActions(commitRetries, round) && exit == RoundExit(commitRetries, round)
      // Without a message: the run stops with the context, otherwise a read error is counted.
      ensures round.fetch.Err? ==>
                var was, ended := old(metrics), round.fetch.error in {Canceled, DeadlineExceeded};
                && exit == (if ended || round.fetchSleep.Some? then Stopped else Running)
                && log == old(log) + (if ended then [] else [ReadFailed])
                && metrics == if ended then was else was.(readErrors := was.readErrors + 1, failed := was.failed + 1)
      // With a message: it was received, and the verdict on it was counted.
      ensures round.fetch.Ok? ==>
                var n, was, committable := |old(log)|, old(metrics), Committable(round.decode, round.handle);
                && |log| >= n + 2 && log[n] == Fetched(round.fetch.value)
                && (committable <==> |log| > n + 2)
                && (committable ==> IsCommit(log[n + 2]) && log[n + 2].message == round.fetch.value)
                && Judged(was.(received := was.received + 1), metrics, round.decode, round.handle, committable)
    {
      exit := Fetch(round.fetch, round.fetchSleep);
      if round.fetch.Ok? {
        ghost var m := round.fetch.value;
        Regroup(old(log), [Fetched(m)], DeliveryActions(commitRetries, m, round));
        DeliveryMeaning(commitRetries, m, round);
        exit := Deliver(round.fetch.value, round);
      }
    }

    /** Processes the message in hand and commits it if it was decided. */
    method Deliver(message: Message, round: Round) returns (exit: Exit)
      requires Valid() && Phase() == Holding(message)
      modifies this
      ensures Valid() && !Phase().Holding?
      ensures exit.Running? ==> Phase() == AtFetch
      ensures exit.CommitExhausted? ==> Phase() == Ended
      ensures log == old(log) + DeliveryActions(commitRetries, message, round)
      ensures exit == DeliveryExit(commitRetries, message, round)
      ensures Judged(old(metrics), metrics, round.decode, round.handle, Committable(round.decode, round.handle))
    {
      var shouldCommit, err := ProcessMessage(message, round.decode, round.handle);
      if err.Some? && IsContextError(err.value) {
        return Stopped;
      }
      if !shouldCommit {
        return Running;
      }
      var commitErr := CommitWithRetry(message, round.commits);
      if commitErr.Some? {
        if IsContextError(commitErr.value) {
          return Stopped;
        }
        return CommitExhausted(commitErr.value);
      }
      return Running;
    }

    /** The loop, for every finite part of a run. */
    method Loop(rounds: seq<Round>) returns (exit: Exit)
      requires Valid() && Phase() == AtFetch
      modifies this
      ensures Valid() && !Phase().Holding?
      ensures log == old(log) + RunActions(commitRetries, rounds)
      ensures exit == RunExit(commitRetries, rounds)
      ensures exit.Running? ==> Phase() == AtFetch
      ensures exit.CommitExhausted? ==> Phase() == Ended
    {
      exit := Running;
      for k := 0 to |rounds|
        invariant Valid() && exit == Running == RunExit(commitRetries, rounds[..k]) && Phase() == AtFetch
        invariant log == old(log) + RunActions(commitRetries, rounds[..k])
      {
        exit := RunNext(rounds, k, old(log));
        if !exit.Running? {
          EndedStays(commitRetries, rounds, k + 1);
          return;
        }
      }
      assert rounds[..|rounds|] == rounds;
    }

    /** One round more of a run that goes on. */
    method RunNext(rounds: seq<Round>, k: nat, ghost start: seq<Action>) returns (exit: Exit)
      requires Valid() && Phase() == AtFetch && k < |rounds| && RunExit(commitRetries, rounds[..k]).Running?
      requires log == start + RunActions(commitRetries, rounds[..k])
      modifies this
      ensures Valid() && !Phase().Holding?
      ensures log == start + RunActions(commitRetries, rounds[..k + 1])
      ensures exit == RunExit(commitRetries, rounds[..k + 1])
      ensures exit.Running? ==> Phase() == AtFetch
      ensures exit.CommitExhausted? ==> Phase() == Ended
    {
      RunPrefix(commitRetries, rounds, k);
      Regroup(start, RunActions(commitRetries, rounds[..k]), RoundActions(commitRetries, rounds[k]));
      exit := Play(rounds[k]);
    }

    method Play(round: Round) returns (exit: Exit)
      requires Valid() && Phase() == AtFetch
      modifies this
      ensures Valid() && !Phase().Holding?
      ensures log == old(log) + RoundActions(commitRetries, round) && exit == RoundExit(commitRetries, round)
      ensures exit.Running? ==> Phase() == AtFetch
      ensures exit.CommitExhausted? ==> Phase() == Ended
    {
      exit := RunOnce(round);
    }

    /** Every finite part of a run: its log follows the protocol and its metrics balance, at each
        loop head and at the exit. */
    method Run(rounds: seq<Round>) returns (exit: Exit)
      requires Valid() && Phase() == AtFetch
      modifies this
      ensures Valid() && log == old(log) + RunActions(commitRetries, rounds)
      ensures exit.Running? <==> forall k :: 0 <= k < |rounds| ==> RoundExit(commitRetries, rounds[k]).Running?
      ensures !exit.Running? ==>
                exists k: nat :: EndsIn(commitRetries, rounds, k) && exit == RoundExit(commitRetries, rounds[k])
      ensures exit.Running? ==> Phase() == AtFetch
      ensures exit.CommitExhausted? ==> Phase() == Ended
      ensures metrics.received + metrics.readErrors + metrics.commitErrors
              == metrics.processed + metrics.invalid + metrics.failed
      ensures metrics.decodeErrors <= metrics.invalid
    {
      exit := Loop(rounds);
      RunExitMeaning(commitRetries, rounds);
      MetricsBalance(commitRetries, log);
    }
  }
}

/** Api: the operations of the search-trends API on the aggregator and the stop list. */
module Api {
  import opened Aggregation
  import opened Errors
  import opened EventLog
  import opened GoTime
  import opened Normalizers
  import opened Ranking
  import opened StopList
  import opened Text

  datatype Status = StatusCanceled | StatusDeadlineExceeded | StatusInternal | StatusInvalidArgument

  datatype Response<+T> = Success(value: T) | Failure(status: Status)

  function ToStatus(e: Error): (status: Status)
    ensures status == StatusCanceled <==> e == Canceled
    ensures status == StatusDeadlineExceeded <==> e == DeadlineExceeded
    ensures status != StatusInvalidArgument
  {
    match e
    case Canceled => StatusCanceled
    case DeadlineExceeded => StatusDeadlineExceeded
    case _ => StatusInternal
  }

  datatype StopWordReply = StopWordReply(word: string, applied: bool, message: string)

  const MAX_STOP_WORD_RUNES := 256

  /** The largest `int` of a 64-bit platform, and the range of a `uint32`. */
  const MAX_INT: int := 0x7FFF_FFFF_FFFF_FFFF
  const TWO_TO_THE_32: int := 0x1_0000_0000

  /** The word that a stop-list request is about: a key of the aggregator. */
  function RequestedWord(lower: Lower, req: Option<string>): Option<string> {
    if req.None? then None
    else
      match Normalized(lower, req.value, MAX_STOP_WORD_RUNES)
      case Ok(word) => Some(word)
      case Err(_) => None
  }

  method ValidateStopWordRequest(lower: Lower, req: Option<string>) returns (word: Option<string>)
    ensures word == RequestedWord(lower, req)
    ensures word.None? <==>
            || req.None?
            || Words(lower, req.value) == []
            || |Join(Words(lower, req.value))| > 256
    ensures word.Some? ==> word.value == Join(Words(lower, req.value))
    ensures word.Some? ==> word.value != "" && StopCanon(lower, word.value) == word.value
  {
    if req.None? {
      return None;
    }
    var trimmed := TrimSpace(req.value);
    CanonEmptyIff(lower, req.value);
    TrimKeepsWords(lower, req.value);
    if trimmed == "" {
      return None;
    }
    var normalized := NormalizeQuery(lower, trimmed, MAX_STOP_WORD_RUNES);
    if normalized.Err? {
      return None;
    }
    StopCanonOfCanon(lower, trimmed);
    return Some(normalized.value);
  }

  /** Copies the items with a positive count. */
  method PositiveOnly(all: seq<TopItem>) returns (items: seq<TopItem>)
    ensures (forall x :: x in all ==> x.count > 0) ==> items == all
    ensures forall x :: x in items <==> x in all && x.count > 0
  {
    items := [];
    for k := 0 to |all|
      invariant (forall x :: x in all ==> x.count > 0) ==> items == all[..k]
      invariant forall x :: x in items <==> x in all[..k] && x.count > 0
    {
      assert all[k] in all;
      assert all[..k + 1] == all[..k] + [all[k]];
      if all[k].count <= 0 {
        continue;
      }
      items := items + [all[k]];
    }
    assert all[..|all|] == all;
  }

  class SearchTrendsHandler {
    const topProvider: Aggregator
    const stopWords: Manager

    constructor (topProvider: Aggregator, stopWords: Manager)
      ensures this.topProvider == topProvider && this.stopWords == stopWords
    {
      this.topProvider, this.stopWords := topProvider, stopWords;
    }

    /** The API's Top-N is the cached one: its filter for non-positive counts never drops an item.
        Without a request the default limit applies; a limit that is no `int` is refused. */
    method GetTop(ctx: Option<Error>, req: Option<nat>) returns (r: Response<Snapshot>)
      requires topProvider.Valid()
      ensures req.Some? && req.value > MAX_INT ==> r == Failure(StatusInvalidArgument)
      ensures !(req.Some? && req.value > MAX_INT) && ctx.Some? ==> r == Failure(ToStatus(ctx.value))
      ensures !(req.Some? && req.value > MAX_INT) && ctx.None? ==>
                var limit := topProvider.cfg.NormalizeLimit(if req.Some? then req.value else 0);
                r == Success(Snapshot(TopN(Counts(topProvider.Machine().cached), limit),
                                      topProvider.Machine().generatedAt,
                                      (topProvider.cfg.window / SECOND) % TWO_TO_THE_32))
      ensures r.Success? && topProvider.InWindow() ==>
                var limit := topProvider.cfg.NormalizeLimit(if req.Some? then req.value else 0);
                r.value.items == TopN(Counts(topProvider.PublishedEvents()), limit)
    {
      var limit := 0;
      if req.Some? {
        if req.value > MAX_INT {
          return Failure(StatusInvalidArgument);
        }
        limit := req.value;
      }
      var snapshot := topProvider.TakeSnapshot(ctx, limit);
      if snapshot.Err? {
        return Failure(ToStatus(snapshot.error));
      }
      TopNMeaning(Counts(topProvider.Machine().cached), topProvider.cfg.NormalizeLimit(limit));
      var items := PositiveOnly(snapshot.value.items);
      return Success(Snapshot(items, snapshot.value.generatedAt, snapshot.value.windowSeconds % TWO_TO_THE_32));
    }

    /** "already exists" exactly when the returned word was blocked before. */
    method AddStopWord(ctx: Option<Error>, req: Option<string>) returns (r: Response<StopWordReply>)
      requires stopWords.Valid()
      modifies stopWords
      ensures stopWords.Valid()
      ensures ctx.Some? ==> r == Failure(ToStatus(ctx.value))
      ensures ctx.None? && RequestedWord(stopWords.lower, req).None? ==> r == Failure(StatusInvalidArgument)
      ensures ctx.Some? || RequestedWord(stopWords.lower, req).None? ==> stopWords.Words() == old(stopWords.Words())
      ensures ctx.None? && RequestedWord(stopWords.lower, req).Some? ==>
                var word := RequestedWord(stopWords.lower, req).value;
                && stopWords.Words() == old(stopWords.Words()) + {word}
                && r == Success(if word in old(stopWords.Words()) then StopWordReply(word, false, "already exists")
                                else StopWordReply(word, true, "added"))
    {
      if ctx.Some? {
        return Failure(ToStatus(ctx.value));
      }
      var word := ValidateStopWordRequest(stopWords.lower, req);
      if word.None? {
        return Failure(StatusInvalidArgument);
      }
      var applied := stopWords.Add(word.value);
      return Success(StopWordReply(word.value, applied, if applied then "added" else "already exists"));
    }

    /** "not found" exactly when the returned word was not blocked before. */
    method RemoveStopWord(ctx: Option<Error>, req: Option<string>) returns (r: Response<StopWordReply>)
      requires stopWords.Valid()
      modifies stopWords
      ensures stopWords.Valid()
      ensures ctx.Some? ==> r == Failure(ToStatus(ctx.value))
      ensures ctx.None? && RequestedWord(stopWords.lower, req).None? ==> r == Failure(StatusInvalidArgument)
      ensures ctx.Some? || RequestedWord(stopWords.lower, req).None? ==> stopWords.Words() == old(stopWords.Words())
      ensures ctx.None? && RequestedWord(stopWords.lower, req).Some? ==>
                var word := RequestedWord(stopWords.lower, req).value;
                && stopWords.Words() == old(stopWords.Words()) - {word}
                && r == Success(if word in old(stopWords.Words()) then StopWordReply(word, true, "removed")
                                else StopWordReply(word, false, "not found"))
    {
      if ctx.Some? {
        return Failure(ToStatus(ctx.value));
      }
      var word := ValidateStopWordRequest(stopWords.lower, req);
      if word.None? {
        return Failure(StatusInvalidArgument);
      }
      var applied := stopWords.Remove(word.value);
      return Success(StopWordReply(word.value, applied, if applied then "removed" else "not found"));
    }
  }
}

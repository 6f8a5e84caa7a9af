/** The in-memory leaderboard cache: one refresh cycle and the read path. */
module Cache {
  import opened Wrappers
  import Leaderboard

  /** Why a refresh cycle ended early. */
  datatype RefreshError = NetworkError | ParseError | DataShapeError

  /** The `affiliates` field of the service's reply. `Falsy` covers a missing
      field and one holding `null`, `false`, `0` or the empty string;
      `NotAnArray` a truthy value of another kind. A body of JSON `null` is
      also counted as `Falsy`: reading its field throws, which likewise ends
      the cycle with the cache untouched. */
  datatype AffiliatesField = Falsy | NotAnArray | Affiliates(entries: seq<Leaderboard.RawEntry>)

  /** What the request and the body parse produced. */
  datatype FetchOutcome = RequestFailed | BodyNotJson | Body(affiliates: AffiliatesField)

  /** The cached snapshot, shared by the refresh cycle and the read path. */
  datatype CacheState = CacheState(snapshot: seq<Leaderboard.Entry>)

  /** The cache at start-up: an empty leaderboard. */
  function Init(): (c: CacheState)
    ensures |c.snapshot| == 0
  {
    CacheState([])
  }

  /** The body of one refresh cycle: the leaderboard built from a
      well-shaped reply, or why the cycle stopped. */
  function Cycle(f: FetchOutcome): (r: Result<seq<Leaderboard.Entry>, RefreshError>)
    ensures r.Success? <==> f.Body? && f.affiliates.Affiliates?
    ensures f == RequestFailed ==> r == Failure(NetworkError)
    ensures f == BodyNotJson ==> r == Failure(ParseError)
    ensures f.Body? && !f.affiliates.Affiliates? ==> r == Failure(DataShapeError)
    ensures r.Success? ==> |r.value| <= Leaderboard.TopN
  {
    match f
    case RequestFailed => Failure(NetworkError)
    case BodyNotJson => Failure(ParseError)
    case Body(field) =>
      match field
      case Falsy => Failure(DataShapeError)
      case NotAnArray => Failure(DataShapeError)
      case Affiliates(entries) => Success(Leaderboard.BuildLeaderboard(entries))
  }

  /** One refresh: a failed cycle leaves the cache as it was; a successful
      one replaces the snapshot wholesale, whatever it held before. */
  function Refresh(c: CacheState, f: FetchOutcome): (c': CacheState)
    ensures Cycle(f).Failure? ==> c' == c
    ensures Cycle(f).Success? ==> c'.snapshot == Cycle(f).value
  {
    match Cycle(f)
    case Failure(_) => c
    case Success(board) => CacheState(board)
  }

  /** The read path returns the snapshot as it stands. */
  function Serve(c: CacheState): (board: seq<Leaderboard.Entry>)
    ensures board == c.snapshot
  {
    c.snapshot
  }

  /** What every snapshot the cache can hold satisfies: at most ten rows,
      each with equal wager fields and a name of at most seven characters. */
  ghost predicate WellFormed(c: CacheState) {
    && |c.snapshot| <= Leaderboard.TopN
    && forall k :: 0 <= k < |c.snapshot| ==>
         c.snapshot[k].weightedWager == c.snapshot[k].wagered && |c.snapshot[k].username| <= 7
  }

  /** The cache after a run of refresh cycles from start-up. */
  function Run(history: seq<FetchOutcome>): (c: CacheState)
    ensures |c.snapshot| <= Leaderboard.TopN
  {
    if |history| == 0 then Init() else Refresh(Run(history[..|history| - 1]), history[|history| - 1])
  }

  /** The snapshot a run should leave, read off the history directly: the
      board built from the latest well-shaped reply, or the empty board if
      there was none. */
  function LatestBoard(history: seq<FetchOutcome>): seq<Leaderboard.Entry> {
    if |history| == 0 then []
    else
      var f := history[|history| - 1];
      if f.Body? && f.affiliates.Affiliates? then Leaderboard.BuildLeaderboard(f.affiliates.entries)
      else LatestBoard(history[..|history| - 1])
  }

  /** A refresh keeps the cache well formed. */
  lemma RefreshPreservesWellFormed(c: CacheState, f: FetchOutcome)
    requires WellFormed(c)
    ensures WellFormed(Refresh(c, f))
  {
    if Cycle(f).Success? {
      Leaderboard.BoardShape(f.affiliates.entries);
    }
  }

  /** Every run leaves a well-formed cache, and what it serves is the board
      of the latest well-shaped reply (empty before the first one). */
  lemma {:induction false} RunServesLatestBoard(history: seq<FetchOutcome>)
    ensures WellFormed(Run(history))
    ensures Serve(Run(history)) == LatestBoard(history)
  {
    if |history| > 0 {
      var prefix := history[..|history| - 1];
      RunServesLatestBoard(prefix);
      RefreshPreservesWellFormed(Run(prefix), history[|history| - 1]);
    }
  }

  /** A reply without an `affiliates` array, after a successful refresh,
      leaves the earlier leaderboard in place. */
  lemma MalformedReplyKeepsSnapshot(entries: seq<Leaderboard.RawEntry>)
    ensures Serve(Run([Body(Affiliates(entries)), Body(Falsy)])) == Leaderboard.BuildLeaderboard(entries)
  {
    assert [Body(Affiliates(entries)), Body(Falsy)][..1] == [Body(Affiliates(entries))];
    assert [Body(Affiliates(entries))][..0] == [];
  }
}

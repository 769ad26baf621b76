/** Batched authorization of a list of ids against a store that may answer, fail or stay silent. */
module FilterAuthorized {
  import opened Text

  type Id = string

  // ---------------------------------------------------------------- the surroundings

  /** One entry of a batch response. `corr` is the position in the batch that the correlation id names. */
  datatype Entry = Entry(corr: nat, failed: bool, allowed: bool)

  datatype Reply = Entries(entries: seq<Entry>) | TransportError

  /** One round-trip: the chunk it serves, its turn within that chunk, and the ids it asks about. */
  datatype Trip = Trip(chunk: nat, turn: nat, batch: seq<Id>)

  /** Everything outside the function. `store` is arbitrary: it may answer each trip as it likes. */
  datatype Env = Env(
    restriction: Id -> bool,
    before: Option<Id -> Option<bool>>,
    after: Option<(Id, bool) -> Option<bool>>,
    store: Trip -> Reply,
    abortedBeforeWave: nat -> bool,
    abortedBeforeRetry: nat -> bool)
  {
    function Before(id: Id): Option<bool> { if before.Some? then before.value(id) else None }

    /** The verdict after the `afterCheck` hook. */
    function Final(id: Id, allowed: bool): bool {
      if after.Some? && after.value(id, allowed).Some? then after.value(id, allowed).value else allowed
    }

    function Heard(t: Trip): seq<Entry> {
      match store(t) case Entries(es) => es case TransportError => []
    }
  }

  datatype Failure = StoreSilent | StoreUnreachable | Aborted

  datatype Result = Ok(allowed: set<Id>) | Err(failure: Failure)

  /** What one degraded chunk reports to the operator. */
  datatype Report = Report(candidates: nat, unanswered: nat, recovered: nat)

  const BATCH_CHECK_MAX: nat := 50
  const BATCH_RETRY_WIDTH: nat := 10
  const MAX_LANES: nat := 8

  // ---------------------------------------------------------------- one trip

  /** An entry that carries a verdict about an id of the batch. */
  predicate Speaks(batch: seq<Id>, e: Entry) { e.corr < |batch| && !e.failed }

  /** The ids a trip settled. */
  function Answered(batch: seq<Id>, es: seq<Entry>): set<Id> {
    set e | e in es && Speaks(batch, e) :: batch[e.corr]
  }

  /** The ids a trip granted. */
  function Granted(env: Env, batch: seq<Id>, es: seq<Entry>): set<Id> {
    set e | e in es && Speaks(batch, e) && env.Final(batch[e.corr], e.allowed) :: batch[e.corr]
  }

  function Without(ids: seq<Id>, gone: set<Id>): (r: seq<Id>)
    ensures |r| <= |ids|
    ensures forall id :: id in r <==> id in ids && id !in gone
    ensures |r| == |ids| <==> forall id :: id in ids ==> id !in gone
  {
    if ids == [] then []
    else
      var rest := Without(ids[1..], gone);
      assert forall id :: id in ids <==> id == ids[0] || id in ids[1..];
      if ids[0] in gone then rest
      else
        assert forall id :: id in [ids[0]] + rest <==> id == ids[0] || id in rest;
        [ids[0]] + rest
  }

  method AskStore(env: Env, t: Trip) returns (granted: set<Id>, unanswered: seq<Id>)
    requires env.store(t).Entries?
    ensures granted == GivenIn(env, t) && unanswered == SilentIn(env, t)
  {
    var result := env.store(t).entries;
    var answered: set<Id> := {};
    granted := {};
    for i := 0 to |result|
      invariant answered == Answered(t.batch, result[..i])
      invariant granted == Granted(env, t.batch, result[..i])
    {
      var e := result[i];
      assert result[..i + 1] == result[..i] + [e];
      if e.corr < |t.batch| && !e.failed {
        answered := answered + {t.batch[e.corr]};
        if env.Final(t.batch[e.corr], e.allowed) { granted := granted + {t.batch[e.corr]}; }
      }
    }
    assert result[..|result|] == result;
    unanswered := Without(t.batch, answered);
  }

  function GivenIn(env: Env, t: Trip): set<Id> { Granted(env, t.batch, env.Heard(t)) }

  function SilentIn(env: Env, t: Trip): seq<Id> { Without(t.batch, Answered(t.batch, env.Heard(t))) }

  // ---------------------------------------------------------------- chunks

  /** Consecutive slices of width `n`, the last one possibly shorter. */
  function Chunked(ids: seq<Id>, n: nat): (chunks: seq<seq<Id>>)
    requires n > 0
    ensures forall k :: 0 <= k < |chunks| ==> 0 < |chunks[k]| <= n
    decreases |ids|
  {
    if ids == [] then [] else if |ids| <= n then [ids] else [ids[..n]] + Chunked(ids[n..], n)
  }

  predicate InSome(chunks: seq<seq<Id>>, id: Id) { exists k :: 0 <= k < |chunks| && id in chunks[k] }

  /** Chunking neither drops nor invents an id. */
  lemma {:induction false} ChunkedMembers(ids: seq<Id>, n: nat, id: Id)
    requires n > 0
    ensures id in ids <==> InSome(Chunked(ids, n), id)
    decreases |ids|
  {
    if |ids| <= n {
      if ids != [] { assert Chunked(ids, n)[0] == ids; }
    } else {
      ChunkedMembers(ids[n..], n, id);
      var rest, all := Chunked(ids[n..], n), Chunked(ids, n);
      assert all == [ids[..n]] + rest && ids == ids[..n] + ids[n..];
      if id in ids[..n] { assert id in all[0]; }
      if k :| 0 <= k < |rest| && id in rest[k] { assert id in all[k + 1]; }
      if k :| 0 <= k < |all| && id in all[k] { assert k > 0 ==> id in rest[k - 1]; }
    }
  }

  method SplitIntoChunks(ids: seq<Id>, n: nat) returns (chunks: seq<seq<Id>>)
    requires n > 0
    ensures chunks == Chunked(ids, n)
  {
    hide Chunked;
    chunks := [];
    var i := 0;
    assert ids[0..] == ids;
    while i < |ids|
      invariant i <= |ids| && chunks + Chunked(ids[i..], n) == Chunked(ids, n)
    {
      var j := if i + n <= |ids| then i + n else |ids|;
      ChunkStep(ids[i..], n);
      assert ids[i..][..j - i] == ids[i..j] && ids[i..][j - i..] == ids[j..];
      chunks := chunks + [ids[i..j]];
      i := j;
    }
    ChunkStep([], n);
    assert ids[i..] == [] && chunks + [] == chunks;
  }

  lemma ChunkStep(ids: seq<Id>, n: nat)
    requires n > 0
    ensures Chunked(ids, n) ==
      if ids == [] then []
      else if |ids| <= n then [ids[..|ids|]] + Chunked(ids[|ids|..], n)
      else [ids[..n]] + Chunked(ids[n..], n)
  {
    assert ids[..|ids|] == ids && ids[|ids|..] == [];
  }

  /** The narrower trips that re-ask what the first trip left silent. */
  function RetryTrips(c: nat, batches: seq<seq<Id>>, turn: nat): (trips: seq<Trip>)
    ensures |trips| == |batches|
    ensures forall k :: 0 <= k < |trips| ==> trips[k] == Trip(c, turn + k, batches[k])
  {
    if batches == [] then [] else [Trip(c, turn, batches[0])] + RetryTrips(c, batches[1..], turn + 1)
  }

  function FirstTrip(c: nat, chunk: seq<Id>): Trip { Trip(c, 0, chunk) }

  function Retries(env: Env, c: nat, chunk: seq<Id>): seq<Trip> {
    RetryTrips(c, Chunked(SilentIn(env, FirstTrip(c, chunk)), BATCH_RETRY_WIDTH), 1)
  }

  function GivenBy(env: Env, trips: seq<Trip>): set<Id> {
    set t, id | t in trips && id in GivenIn(env, t) :: id
  }

  /** The ids still without a verdict after some trips. */
  function SilentAfter(env: Env, trips: seq<Trip>): seq<Id> {
    if trips == [] then [] else SilentIn(env, trips[0]) + SilentAfter(env, trips[1..])
  }

  predicate AnyLost(env: Env, trips: seq<Trip>) {
    exists k :: 0 <= k < |trips| && env.store(trips[k]).TransportError?
  }

  /** What becomes of one chunk: its granted ids, or the reason the whole request fails. */
  function ChunkResult(env: Env, c: nat, chunk: seq<Id>): Result {
    var first := FirstTrip(c, chunk);
    var retries := Retries(env, c, chunk);
    if env.store(first).TransportError? then Err(StoreUnreachable)
    else if SilentIn(env, first) == [] then Ok(GivenIn(env, first))
    else if env.abortedBeforeRetry(c) then Err(Aborted)
    else if AnyLost(env, retries) then Err(StoreUnreachable)
    else if |SilentAfter(env, retries)| == |chunk| then Err(StoreSilent)
    else Ok(GivenBy(env, [first] + retries))
  }

  /** The trips a chunk makes when none of them fails to return. */
  function ChunkTrips(env: Env, c: nat, chunk: seq<Id>): seq<Trip> {
    [FirstTrip(c, chunk)] + Retries(env, c, chunk)
  }

  lemma SilentAfterAppend(env: Env, a: seq<Trip>, t: Trip)
    ensures SilentAfter(env, a + [t]) == SilentAfter(env, a) + SilentIn(env, t)
  {
    hide SilentIn;
    if a == [] {
      assert a + [t] == [t] && SilentAfter(env, [t][1..]) == [];
    } else {
      SilentAfterAppend(env, a[1..], t);
      assert (a + [t])[1..] == a[1..] + [t];
    }
  }

  lemma NothingSilent(env: Env, c: nat, chunk: seq<Id>)
    requires SilentIn(env, FirstTrip(c, chunk)) == []
    ensures Retries(env, c, chunk) == [] && GivenBy(env, ChunkTrips(env, c, chunk)) == GivenIn(env, FirstTrip(c, chunk))
  {
    hide SilentIn, GivenIn;
  }

  method RunChunk(env: Env, c: nat, chunk: seq<Id>) returns (r: Result, log: seq<Trip>, report: Option<Report>)
    requires chunk != []
    ensures r == ChunkResult(env, c, chunk)
    ensures log <= ChunkTrips(env, c, chunk) && (r.Ok? ==> log == ChunkTrips(env, c, chunk))
    ensures report == ReportOf(env, c, chunk)
  {
    hide SilentIn, GivenIn, Chunked, SilentAfter, AnyLost;
    var first := FirstTrip(c, chunk);
    log, report := [first], None;
    if env.store(first).TransportError? { return Err(StoreUnreachable), log, None; }
    var granted, unanswered := AskStore(env, first);
    if unanswered == [] {
      NothingSilent(env, c, chunk);
      return Ok(granted), log, None;
    }
    if env.abortedBeforeRetry(c) { return Err(Aborted), log, None; }
    var batches := SplitIntoChunks(unanswered, BATCH_RETRY_WIDTH);
    ghost var retries := Retries(env, c, chunk);
    var lost, more, stillSilent, retryLog := RunRetries(env, c, batches);
    log := log + retryLog;
    if lost { return Err(StoreUnreachable), log, None; }
    GivenBySplits(env, first, retries);
    SilentTotals(env, c, chunk);
    RetriesOnlyRecover(env, retries);
    granted := granted + more;
    report := Some(Report(|chunk|, |stillSilent|, |unanswered| - |stillSilent|));
    r := if |stillSilent| == |chunk| then Err(StoreSilent) else Ok(granted);
  }

  /** A report is made for every chunk whose first trip left an id silent, once its retries are over. */
  function ReportOf(env: Env, c: nat, chunk: seq<Id>): Option<Report> {
    var silent := SilentIn(env, FirstTrip(c, chunk));
    var retries := Retries(env, c, chunk);
    if env.store(FirstTrip(c, chunk)).TransportError? || silent == []
       || env.abortedBeforeRetry(c) || AnyLost(env, retries) then None
    else
      SilentTotals(env, c, chunk);
      RetriesOnlyRecover(env, retries);
      var after := |SilentAfter(env, retries)|;
      Some(Report(|chunk|, after, |silent| - after))
  }

  lemma GivenBySplits(env: Env, t: Trip, trips: seq<Trip>)
    ensures GivenBy(env, [t] + trips) == GivenIn(env, t) + GivenBy(env, trips)
  {
    hide GivenIn;
  }

  lemma GivenByAppend(env: Env, trips: seq<Trip>, t: Trip)
    ensures GivenBy(env, trips + [t]) == GivenBy(env, trips) + GivenIn(env, t)
  {
    hide GivenIn;
  }

  /** The narrower pass, one trip after the other; it stops at the first trip that does not return. */
  method RunRetries(env: Env, c: nat, batches: seq<seq<Id>>)
    returns (lost: bool, granted: set<Id>, stillSilent: seq<Id>, log: seq<Trip>)
    ensures var trips := RetryTrips(c, batches, 1);
      lost == AnyLost(env, trips) && log <= trips
      && (!lost ==> log == trips && granted == GivenBy(env, trips) && stillSilent == SilentAfter(env, trips))
  {
    hide SilentIn, GivenIn, SilentAfter, GivenBy, RetryTrips;
    ghost var trips := RetryTrips(c, batches, 1);
    lost, granted, stillSilent, log := false, {}, [], [];
    NothingYet(env);
    for k := 0 to |batches|
      invariant log == trips[..k] && granted == GivenBy(env, log) && stillSilent == SilentAfter(env, log)
      invariant forall m :: 0 <= m < k ==> env.store(trips[m]).Entries?
    {
      var t := Trip(c, 1 + k, batches[k]);
      assert trips[k] == t && trips[..k + 1] == trips[..k] + [t];
      if env.store(t).TransportError? {
        return true, granted, stillSilent, log + [t];
      }
      var more, silent := AskStore(env, t);
      SilentAfterAppend(env, log, t);
      GivenByAppend(env, log, t);
      granted, stillSilent, log := granted + more, stillSilent + silent, log + [t];
    }
    assert trips[..|batches|] == trips;
  }

  lemma NothingYet(env: Env)
    ensures GivenBy(env, []) == {} && SilentAfter(env, []) == []
  {
  }

  function TotalAsked(trips: seq<Trip>): nat { if trips == [] then 0 else |trips[0].batch| + TotalAsked(trips[1..]) }

  /** Re-asking can only shrink the silent remainder; it stays whole exactly when no retry heard anything. */
  lemma {:induction false} RetriesOnlyRecover(env: Env, trips: seq<Trip>)
    ensures |SilentAfter(env, trips)| <= TotalAsked(trips)
    ensures |SilentAfter(env, trips)| == TotalAsked(trips) <==>
      forall t :: t in trips ==> |SilentIn(env, t)| == |t.batch|
  {
    hide Without;
    if trips != [] {
      RetriesOnlyRecover(env, trips[1..]);
      assert forall t :: t in trips <==> t == trips[0] || t in trips[1..];
    }
  }

  lemma {:induction false} TotalOfRetries(c: nat, ids: seq<Id>, n: nat, turn: nat)
    requires n > 0
    ensures TotalAsked(RetryTrips(c, Chunked(ids, n), turn)) == |ids|
    decreases |ids|
  {
    ChunkStep(ids, n);
    if ids != [] {
      var k := if |ids| <= n then |ids| else n;
      TotalOfRetries(c, ids[k..], n, turn + 1);
      var rest := Chunked(ids[k..], n);
      assert ([ids[..k]] + rest)[1..] == rest;
      hide Chunked;
      assert RetryTrips(c, [ids[..k]] + rest, turn) == [Trip(c, turn, ids[..k])] + RetryTrips(c, rest, turn + 1);
    }
  }

  lemma SilentTotals(env: Env, c: nat, chunk: seq<Id>)
    ensures TotalAsked(Retries(env, c, chunk)) == |SilentIn(env, FirstTrip(c, chunk))| <= |chunk|
  {
    TotalOfRetries(c, SilentIn(env, FirstTrip(c, chunk)), BATCH_RETRY_WIDTH, 1);
  }

  // ---------------------------------------------------------------- the whole request

  /** The ids that reach the store: unrestricted, and not short-circuited by the `beforeCheck` hook. */
  function ToBatch(env: Env, ids: seq<Id>): (r: seq<Id>)
    ensures forall id :: id in r <==> id in ids && env.restriction(id) && env.Before(id) == None
  {
    if ids == [] then []
    else (if env.restriction(ids[0]) && env.Before(ids[0]) == None then [ids[0]] else []) + ToBatch(env, ids[1..])
  }

  /** The ids the `beforeCheck` hook allows on its own. */
  function ShortCircuited(env: Env, ids: seq<Id>): set<Id> {
    set id | id in ids && env.restriction(id) && env.Before(id) == Some(true)
  }

  function ChunksOf(env: Env, ids: seq<Id>): seq<seq<Id>> { Chunked(ToBatch(env, ids), BATCH_CHECK_MAX) }

  function Lanes(concurrency: int): (lanes: nat)
    ensures 1 <= lanes <= MAX_LANES
  { if concurrency < 1 then 1 else if concurrency > MAX_LANES then MAX_LANES else concurrency }

  /** The trips of all chunks from the `c`-th on. */
  function TripsFrom(env: Env, chunks: seq<seq<Id>>, c: nat): seq<Trip>
    requires c <= |chunks|
    decreases |chunks| - c
  {
    if c == |chunks| then [] else ChunkTrips(env, c, chunks[c]) + TripsFrom(env, chunks, c + 1)
  }

  function AllTrips(env: Env, ids: seq<Id>): seq<Trip> { TripsFrom(env, ChunksOf(env, ids), 0) }

  /** The request fails when a wave is aborted before it starts or one of its chunks fails. */
  predicate Fails(env: Env, chunks: seq<seq<Id>>, lanes: nat)
    requires lanes > 0
  {
    exists c :: 0 <= c < |chunks| && (env.abortedBeforeWave(c / lanes) || ChunkResult(env, c, chunks[c]).Err?)
  }

  method SelectIds(env: Env, ids: seq<Id>) returns (out: set<Id>, toBatch: seq<Id>)
    ensures out == ShortCircuited(env, ids) && toBatch == ToBatch(env, ids)
  {
    hide ToBatch, ShortCircuited;
    out, toBatch := {}, [];
    SelectNone(env);
    assert ids[..0] == [];
    for i := 0 to |ids|
      invariant toBatch == ToBatch(env, ids[..i]) && out == ShortCircuited(env, ids[..i])
    {
      var id := ids[i];
      SelectOne(env, ids[..i], id);
      assert ids[..i + 1] == ids[..i] + [id];
      if env.restriction(id) {
        if env.Before(id).Some? {
          if env.Before(id).value { out := out + {id}; }
        } else {
          toBatch := toBatch + [id];
        }
      }
    }
    assert ids[..|ids|] == ids;
  }

  lemma SelectNone(env: Env)
    ensures ToBatch(env, []) == [] && ShortCircuited(env, []) == {}
  {
  }

  lemma {:induction false} SelectOne(env: Env, ids: seq<Id>, id: Id)
    ensures ToBatch(env, ids + [id]) ==
      ToBatch(env, ids) + if env.restriction(id) && env.Before(id) == None then [id] else []
    ensures ShortCircuited(env, ids + [id]) ==
      ShortCircuited(env, ids) + if env.restriction(id) && env.Before(id) == Some(true) then {id} else {}
  {
    if ids == [] {
      assert [] + [id] == [id] && [id][1..] == [];
    } else {
      assert (ids + [id])[1..] == ids[1..] + [id];
      SelectOne(env, ids[1..], id);
    }
  }

  /** What a normal return holds. */
  function Expected(env: Env, ids: seq<Id>): set<Id> {
    ShortCircuited(env, ids) + GivenBy(env, AllTrips(env, ids))
  }

  lemma GivenByConcat(env: Env, a: seq<Trip>, b: seq<Trip>)
    ensures GivenBy(env, a + b) == GivenBy(env, a) + GivenBy(env, b)
  {
    hide GivenIn;
  }

  lemma {:induction false} TripsSplit(env: Env, chunks: seq<seq<Id>>, a: nat, b: nat)
    requires a <= b <= |chunks|
    ensures TripsFrom(env, chunks, a) == TripsIn(env, chunks, a, b) + TripsFrom(env, chunks, b)
    decreases b - a
  {
    hide ChunkTrips;
    if a < b { TripsSplit(env, chunks, a + 1, b); }
  }

  /** The trips of chunks `a..b`. */
  function TripsIn(env: Env, chunks: seq<seq<Id>>, a: nat, b: nat): seq<Trip>
    requires a <= b <= |chunks|
    decreases b - a
  {
    if a == b then [] else ChunkTrips(env, a, chunks[a]) + TripsIn(env, chunks, a + 1, b)
  }

  lemma {:induction false} TripsInExtends(env: Env, chunks: seq<seq<Id>>, a: nat, b: nat)
    requires a <= b < |chunks|
    ensures TripsIn(env, chunks, a, b + 1) == TripsIn(env, chunks, a, b) + ChunkTrips(env, b, chunks[b])
    decreases b - a
  {
    hide ChunkTrips;
    if a == b {
      assert TripsIn(env, chunks, b + 1, b + 1) == [];
    } else {
      TripsInExtends(env, chunks, a + 1, b);
    }
  }

  lemma ChunkGives(env: Env, c: nat, chunk: seq<Id>)
    requires ChunkResult(env, c, chunk).Ok?
    ensures ChunkResult(env, c, chunk).allowed == GivenBy(env, ChunkTrips(env, c, chunk))
  {
    hide SilentIn, GivenIn, Retries, GivenBy, AnyLost, SilentAfter;
    if SilentIn(env, FirstTrip(c, chunk)) == [] { NothingSilent(env, c, chunk); }
  }

  ghost predicate NoFailure(env: Env, chunks: seq<seq<Id>>, a: nat, b: nat)
    requires a <= b <= |chunks|
  { forall c :: a <= c < b ==> ChunkResult(env, c, chunks[c]).Ok? }

  /** One wave: every chunk of it runs, and only then is a failure looked at. */
  method RunWave(env: Env, chunks: seq<seq<Id>>, from: nat, to: nat)
    returns (granted: set<Id>, failure: Option<Failure>, log: seq<Trip>)
    requires from <= to <= |chunks| && forall k :: 0 <= k < |chunks| ==> chunks[k] != []
    ensures failure.None? <==> NoFailure(env, chunks, from, to)
    ensures failure.Some? ==> exists c :: from <= c < to && ChunkResult(env, c, chunks[c]) == Err(failure.value)
    ensures failure.None? ==>
      log == TripsIn(env, chunks, from, to) && granted == GivenBy(env, TripsIn(env, chunks, from, to))
    ensures forall t :: t in log ==> t in TripsIn(env, chunks, from, to)
  {
    hide ChunkResult, GivenBy, ChunkTrips, ReportOf, TripsIn;
    granted, failure, log := {}, None, [];
    NoTrips(env, chunks, from);
    for c := from to to
      invariant failure.None? <==> NoFailure(env, chunks, from, c)
      invariant failure.Some? ==> exists k :: from <= k < c && ChunkResult(env, k, chunks[k]) == Err(failure.value)
      invariant failure.None? ==>
        log == TripsIn(env, chunks, from, c) && granted == GivenBy(env, TripsIn(env, chunks, from, c))
      invariant forall t :: t in log ==> t in TripsIn(env, chunks, from, c)
    {
      var r, trips, _ := RunChunk(env, c, chunks[c]);
      TripsInExtends(env, chunks, from, c);
      GivenByConcat(env, TripsIn(env, chunks, from, c), ChunkTrips(env, c, chunks[c]));
      log := log + trips;
      match r {
        case Ok(more) =>
          ChunkGives(env, c, chunks[c]);
          granted := granted + more;
        case Err(f) =>
          if failure.None? { failure := Some(f); }
      }
    }
  }

  lemma NoTrips(env: Env, chunks: seq<seq<Id>>, c: nat)
    requires c <= |chunks|
    ensures TripsIn(env, chunks, c, c) == [] && GivenBy(env, []) == {}
  {
  }

  method FilterAuthorized(env: Env, ids: seq<Id>, concurrency: int) returns (r: Result, log: seq<Trip>)
    ensures r.Ok? <==> !Fails(env, ChunksOf(env, ids), Lanes(concurrency))
    ensures r.Ok? ==> r.allowed == Expected(env, ids) && log == AllTrips(env, ids)
    ensures r.Err? ==> CauseOf(env, ChunksOf(env, ids), Lanes(concurrency), r.failure)
    ensures forall t :: t in log ==> t in AllTrips(env, ids)
  {
    hide ChunkResult, GivenBy, Chunked, ToBatch, ShortCircuited, TripsFrom, Fails, CauseOf;
    var out, toBatch := SelectIds(env, ids);
    var chunks := SplitIntoChunks(toBatch, BATCH_CHECK_MAX);
    var granted, failure;
    granted, failure, log := RunWaves(env, chunks, Lanes(concurrency));
    r := if failure.Some? then Err(failure.value) else Ok(out + granted);
  }

  /** A failure always has a cause: a chunk that failed that way, or a wave the requester abandoned. */
  ghost predicate CauseOf(env: Env, chunks: seq<seq<Id>>, lanes: nat, failure: Failure)
    requires lanes > 0
  {
    exists c :: 0 <= c < |chunks|
      && (ChunkResult(env, c, chunks[c]) == Err(failure) || (failure == Aborted && env.abortedBeforeWave(c / lanes)))
  }

  /** The waves, one after the other, `lanes` chunks each. */
  method RunWaves(env: Env, chunks: seq<seq<Id>>, lanes: nat)
    returns (granted: set<Id>, failure: Option<Failure>, log: seq<Trip>)
    requires lanes > 0 && forall k :: 0 <= k < |chunks| ==> chunks[k] != []
    ensures failure.Some? <==> Fails(env, chunks, lanes)
    ensures failure.Some? ==> CauseOf(env, chunks, lanes, failure.value)
    ensures failure.None? ==> log == TripsFrom(env, chunks, 0) && granted == GivenBy(env, log)
    ensures forall t :: t in log ==> t in TripsFrom(env, chunks, 0)
  {
    hide ChunkResult, GivenBy, TripsIn, TripsFrom;
    granted, failure, log := {}, None, [];
    var i, wave := 0, 0;
    NoTrips(env, chunks, 0);
    while i < |chunks|
      invariant failure.None? && i <= |chunks| && (i < |chunks| ==> i == wave * lanes)
      invariant NoFailure(env, chunks, 0, i)
      invariant forall c :: 0 <= c < i ==> !env.abortedBeforeWave(c / lanes)
      invariant log == TripsIn(env, chunks, 0, i) && granted == GivenBy(env, log)
      decreases |chunks| - i
    {
      WaveOf(i, wave, lanes, i);
      var next := if i + lanes <= |chunks| then i + lanes else |chunks|;
      TripsConcat(env, chunks, 0, i, next);
      if env.abortedBeforeWave(wave) {
        LogIsPartial(env, chunks, i, log);
        return granted, Some(Aborted), log;
      }
      var more, trips;
      more, failure, trips := RunWave(env, chunks, i, next);
      if failure.Some? {
        LogIsPartial(env, chunks, next, log + trips);
        return granted, failure, log + trips;
      }
      GivenByConcat(env, log, trips);
      forall c | i <= c < next ensures !env.abortedBeforeWave(c / lanes) { WaveOf(i, wave, lanes, c); }
      granted, log, i, wave := granted + more, log + trips, next, wave + 1;
    }
    TripsSplit(env, chunks, 0, |chunks|);
    NoTripsLeft(env, chunks);
  }

  lemma LogIsPartial(env: Env, chunks: seq<seq<Id>>, n: nat, log: seq<Trip>)
    requires n <= |chunks| && forall t :: t in log ==> t in TripsIn(env, chunks, 0, n)
    ensures forall t :: t in log ==> t in TripsFrom(env, chunks, 0)
  {
    hide TripsIn, TripsFrom;
    TripsSplit(env, chunks, 0, n);
  }

  lemma NoTripsLeft(env: Env, chunks: seq<seq<Id>>)
    ensures TripsFrom(env, chunks, |chunks|) == []
  {
  }

  lemma {:induction false} TripsConcat(env: Env, chunks: seq<seq<Id>>, a: nat, b: nat, c: nat)
    requires a <= b <= c <= |chunks|
    ensures TripsIn(env, chunks, a, c) == TripsIn(env, chunks, a, b) + TripsIn(env, chunks, b, c)
    decreases b - a
  {
    hide ChunkTrips;
    if a < b { TripsConcat(env, chunks, a + 1, b, c); }
  }

  lemma WaveOf(i: nat, wave: nat, lanes: nat, c: nat)
    requires lanes > 0 && i == wave * lanes && i <= c < i + lanes
    ensures c / lanes == wave
  {
    var q := c / lanes;
    QuotientBounds(c, lanes);
    if q < wave { TimesMonotone(q + 1, wave, lanes); }
    if q > wave { TimesMonotone(wave + 1, q, lanes); }
  }

  lemma QuotientBounds(c: nat, n: nat)
    requires n > 0
    ensures (c / n) * n <= c < (c / n + 1) * n
  {
  }

  lemma TimesMonotone(a: nat, b: nat, n: nat)
    requires a <= b
    ensures a * n <= b * n
  {
    assert b * n == a * n + (b - a) * n;
  }
}

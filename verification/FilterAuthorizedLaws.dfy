/** What the batched filter promises about the ids it returns, and about the trips it makes. */
module FilterAuthorizedLaws {
  import opened Text
  import opened FilterAuthorized

  // ---------------------------------------------------------------- which trips are made

  lemma {:induction false} TripComesFrom(env: Env, chunks: seq<seq<Id>>, c: nat, t: Trip)
    requires c <= |chunks|
    ensures t in TripsFrom(env, chunks, c) <==>
      c <= t.chunk < |chunks| && t in ChunkTrips(env, t.chunk, chunks[t.chunk])
    decreases |chunks| - c
  {
    hide Retries;
    if c < |chunks| {
      TripComesFrom(env, chunks, c + 1, t);
      if t in ChunkTrips(env, c, chunks[c]) { ChunkTripIs(env, c, chunks[c], t); }
    }
  }

  /** A chunk's first trip asks about the whole chunk; each retry re-asks a few ids, all of them silent
      on the first trip. */
  lemma ChunkTripIs(env: Env, c: nat, chunk: seq<Id>, t: Trip)
    requires t in ChunkTrips(env, c, chunk)
    ensures t.chunk == c && t.turn < |ChunkTrips(env, c, chunk)|
    ensures t.turn == 0 ==> t.batch == chunk
    ensures t.turn > 0 ==> 0 < |t.batch| <= BATCH_RETRY_WIDTH
    ensures t.turn > 0 ==> forall id :: id in t.batch ==> id in SilentIn(env, FirstTrip(c, chunk))
  {
    hide SilentIn, Chunked;
    if t != FirstTrip(c, chunk) {
      var silent := SilentIn(env, FirstTrip(c, chunk));
      var batches, retries := Chunked(silent, BATCH_RETRY_WIDTH), Retries(env, c, chunk);
      var k :| 0 <= k < |retries| && retries[k] == t;
      forall id | id in t.batch ensures id in silent {
        assert id in batches[k];
        ChunkedMembers(silent, BATCH_RETRY_WIDTH, id);
      }
    }
  }

  lemma {:induction false} RetryCount(ids: seq<Id>)
    ensures |Chunked(ids, BATCH_RETRY_WIDTH)| * BATCH_RETRY_WIDTH < |ids| + BATCH_RETRY_WIDTH
    decreases |ids|
  {
    if |ids| > BATCH_RETRY_WIDTH { RetryCount(ids[BATCH_RETRY_WIDTH..]); }
  }

  /** Every round-trip asks about at most 50 ids, every retry about at most 10, and no chunk makes more
      than six. */
  lemma TripsAreNarrow(env: Env, ids: seq<Id>, t: Trip)
    requires t in AllTrips(env, ids)
    ensures t.chunk < |ChunksOf(env, ids)|
    ensures 0 < |t.batch| <= BATCH_CHECK_MAX && t.turn <= 5
    ensures t.turn > 0 ==> |t.batch| <= BATCH_RETRY_WIDTH
    ensures |ChunkTrips(env, t.chunk, ChunksOf(env, ids)[t.chunk])| <= 6
  {
    hide SilentIn, TripsFrom, ToBatch;
    var chunks := ChunksOf(env, ids);
    TripComesFrom(env, chunks, 0, t);
    ChunkTripIs(env, t.chunk, chunks[t.chunk], t);
    RetryCount(SilentIn(env, FirstTrip(t.chunk, chunks[t.chunk])));
    SilentTotals(env, t.chunk, chunks[t.chunk]);
  }

  /** A retry asks only about ids its chunk's first trip left without a verdict. */
  lemma RetriedWasSilent(env: Env, ids: seq<Id>, t: Trip, id: Id)
    requires t in AllTrips(env, ids) && t.turn > 0 && id in t.batch
    ensures t.chunk < |ChunksOf(env, ids)|
    ensures var first := FirstTrip(t.chunk, ChunksOf(env, ids)[t.chunk]);
      id in first.batch && id !in Answered(first.batch, env.Heard(first))
  {
    hide TripsFrom, ToBatch, Chunked, Answered;
    TripComesFrom(env, ChunksOf(env, ids), 0, t);
    ChunkTripIs(env, t.chunk, ChunksOf(env, ids)[t.chunk], t);
  }

  predicate Distinct(ids: seq<Id>) { forall i, j :: 0 <= i < j < |ids| ==> ids[i] != ids[j] }

  lemma {:induction false} ToBatchDistinct(env: Env, ids: seq<Id>)
    requires Distinct(ids)
    ensures Distinct(ToBatch(env, ids))
  {
    if ids != [] {
      assert forall i :: 0 <= i < |ids[1..]| ==> ids[1..][i] == ids[i + 1];
      ToBatchDistinct(env, ids[1..]);
      ConsDistinct(ids[0], ToBatch(env, ids[1..]));
    }
  }

  lemma ConsDistinct(id: Id, ids: seq<Id>)
    requires Distinct(ids) && id !in ids
    ensures Distinct([id] + ids)
  {
  }

  lemma {:induction false} WithoutDistinct(ids: seq<Id>, gone: set<Id>)
    requires Distinct(ids)
    ensures Distinct(Without(ids, gone))
  {
    if ids != [] {
      assert forall i :: 0 <= i < |ids[1..]| ==> ids[1..][i] == ids[i + 1];
      WithoutDistinct(ids[1..], gone);
      ConsDistinct(ids[0], Without(ids[1..], gone));
    }
  }

  /** The slices of distinct ids are distinct and share none. */
  lemma {:induction false} ChunkedDistinct(ids: seq<Id>, n: nat, k: nat, m: nat, id: Id)
    requires n > 0 && Distinct(ids) && k < |Chunked(ids, n)| && m < |Chunked(ids, n)|
    ensures Distinct(Chunked(ids, n)[k])
    ensures id in Chunked(ids, n)[k] && id in Chunked(ids, n)[m] ==> k == m
    decreases |ids|
  {
    if |ids| > n {
      var rest := ids[n..];
      assert forall i :: 0 <= i < |rest| ==> rest[i] == ids[i + n];
      assert forall id :: id in ids[..n] ==> id !in rest;
      assert Chunked(ids, n)[1..] == Chunked(rest, n);
      ChunkedMembers(rest, n, id);
      if k > 0 || m > 0 {
        ChunkedDistinct(rest, n, if k > 0 then k - 1 else 0, if m > 0 then m - 1 else 0, id);
      }
    }
  }

  /** Two retries of one chunk that ask about one id are one retry. */
  lemma RetriesApart(env: Env, c: nat, chunk: seq<Id>, t: Trip, u: Trip, id: Id)
    requires Distinct(chunk) && t in Retries(env, c, chunk) && u in Retries(env, c, chunk)
    requires id in t.batch && id in u.batch
    ensures t == u
  {
    var silent, retries := SilentIn(env, FirstTrip(c, chunk)), Retries(env, c, chunk);
    WithoutDistinct(chunk, Answered(chunk, env.Heard(FirstTrip(c, chunk))));
    hide SilentIn, Chunked, Distinct;
    var k :| 0 <= k < |retries| && retries[k] == t;
    var m :| 0 <= m < |retries| && retries[m] == u;
    ChunkedDistinct(silent, BATCH_RETRY_WIDTH, k, m, id);
  }

  /** Among all the trips of a request for distinct ids, an id with a verdict is never asked about again: of
      two trips that ask about one id, one is the first of their chunk, heard nothing about it, and the other
      is the one retry that took it up. */
  lemma AnsweredIsNotReasked(env: Env, ids: seq<Id>, t: Trip, u: Trip, id: Id)
    requires Distinct(ids) && t in AllTrips(env, ids) && u in AllTrips(env, ids) && t != u
    requires id in t.batch && id in u.batch
    ensures t.chunk == u.chunk && (t.turn == 0 <==> u.turn > 0)
    ensures t.turn < u.turn ==> id !in Answered(t.batch, env.Heard(t))
  {
    hide TripsFrom, ToBatch, Chunked, Answered, Distinct, Retries, SilentIn;
    var chunks := ChunksOf(env, ids);
    TripComesFrom(env, chunks, 0, t);
    TripComesFrom(env, chunks, 0, u);
    var mine, theirs := chunks[t.chunk], chunks[u.chunk];
    ChunkTripIs(env, t.chunk, mine, t);
    ChunkTripIs(env, u.chunk, theirs, u);
    SilentIsInBatch(env, FirstTrip(t.chunk, mine), id);
    SilentIsInBatch(env, FirstTrip(u.chunk, theirs), id);
    ToBatchDistinct(env, ids);
    ChunkedDistinct(ToBatch(env, ids), BATCH_CHECK_MAX, t.chunk, u.chunk, id);
    if t.turn > 0 && u.turn > 0 { RetriesApart(env, t.chunk, mine, t, u, id); }
    if t.turn == 0 && u.turn > 0 { RetriedWasSilent(env, ids, u, id); }
  }

  /** Every id that reaches the store is asked about, and only such ids are. */
  lemma AskedIffUnsettled(env: Env, ids: seq<Id>, id: Id)
    ensures (exists t :: t in AllTrips(env, ids) && id in t.batch) <==>
      id in ids && env.restriction(id) && env.Before(id) == None
  {
    hide TripsFrom, ToBatch, Chunked, SilentIn;
    var chunks := ChunksOf(env, ids);
    ChunkedMembers(ToBatch(env, ids), BATCH_CHECK_MAX, id);
    if k :| 0 <= k < |chunks| && id in chunks[k] {
      var t := FirstTrip(k, chunks[k]);
      assert t in ChunkTrips(env, k, chunks[k]);
      TripComesFrom(env, chunks, 0, t);
    }
    if t :| t in AllTrips(env, ids) && id in t.batch {
      TripComesFrom(env, chunks, 0, t);
      ChunkTripIs(env, t.chunk, chunks[t.chunk], t);
      SilentIsInBatch(env, FirstTrip(t.chunk, chunks[t.chunk]), id);
      assert id in chunks[t.chunk];
    }
  }

  lemma SilentIsInBatch(env: Env, t: Trip, id: Id)
    ensures id in SilentIn(env, t) ==> id in t.batch
  {
  }

  // ---------------------------------------------------------------- against the pointwise check

  /** `check` for one id, given what the store would answer about it. */
  function Check(env: Env, verdict: Id -> bool, id: Id): bool {
    env.restriction(id)
    && if env.Before(id).Some? then env.Before(id).value else env.Final(id, verdict(id))
  }

  /** Whenever the store carries a verdict about an id, it is this one. */
  ghost predicate Truthful(env: Env, ids: seq<Id>, verdict: Id -> bool) {
    forall t, e :: t in AllTrips(env, ids) && e in env.Heard(t) && Speaks(t.batch, e) ==>
      e.allowed == verdict(t.batch[e.corr])
  }

  /** Some trip carried a verdict about the id. */
  ghost predicate WasAnswered(env: Env, ids: seq<Id>, id: Id) {
    exists t :: t in AllTrips(env, ids) && id in Answered(t.batch, env.Heard(t))
  }

  ghost predicate WasGranted(env: Env, ids: seq<Id>, id: Id) {
    exists t :: t in AllTrips(env, ids) && id in GivenIn(env, t)
  }

  /** A normal return holds exactly the ids that pass the restriction and are allowed by the
      `beforeCheck` hook or by an actual verdict; silence and errors never allow. */
  lemma ReturnIsExact(env: Env, ids: seq<Id>, id: Id)
    ensures id in Expected(env, ids) <==>
      id in ids && env.restriction(id)
      && (env.Before(id) == Some(true) || (env.Before(id) == None && WasGranted(env, ids, id)))
  {
    hide AllTrips, ToBatch, GivenIn;
    AskedIffUnsettled(env, ids, id);
    if t :| t in AllTrips(env, ids) && id in GivenIn(env, t) { GrantedWasAsked(env, t, id); }
  }

  lemma GrantedWasAsked(env: Env, t: Trip, id: Id)
    requires id in GivenIn(env, t)
    ensures id in t.batch && id in Answered(t.batch, env.Heard(t))
  {
  }

  lemma GrantedIsVerdict(env: Env, ids: seq<Id>, verdict: Id -> bool, t: Trip, id: Id)
    requires Truthful(env, ids, verdict) && t in AllTrips(env, ids)
    ensures id in GivenIn(env, t) <==> id in Answered(t.batch, env.Heard(t)) && env.Final(id, verdict(id))
  {
    hide AllTrips;
    if id in Answered(t.batch, env.Heard(t)) {
      var e :| e in env.Heard(t) && Speaks(t.batch, e) && t.batch[e.corr] == id;
      assert e.allowed == verdict(id);
    }
    if id in GivenIn(env, t) {
      var e :| e in env.Heard(t) && Speaks(t.batch, e) && t.batch[e.corr] == id && env.Final(id, e.allowed);
      assert e.allowed == verdict(id);
    }
  }

  /** Against a store that never contradicts itself, a normal return is the pointwise `check`, minus the
      ids no trip ever spoke about; if all were answered it is the pointwise `check` itself. */
  lemma ReturnIsPointwiseCheck(env: Env, ids: seq<Id>, verdict: Id -> bool)
    requires Truthful(env, ids, verdict)
    ensures forall id :: id in Expected(env, ids) <==>
      id in ids && Check(env, verdict, id)
      && (env.Before(id).Some? || WasAnswered(env, ids, id))
    ensures (forall id :: id in ids && env.restriction(id) && env.Before(id) == None ==> WasAnswered(env, ids, id))
      ==> Expected(env, ids) == set id | id in ids && Check(env, verdict, id)
  {
    hide AllTrips, Expected, GivenIn, Answered;
    forall id
      ensures id in Expected(env, ids) <==>
        id in ids && Check(env, verdict, id) && (env.Before(id).Some? || WasAnswered(env, ids, id))
    {
      ReturnIsExact(env, ids, id);
      forall t | t in AllTrips(env, ids)
        ensures id in GivenIn(env, t) <==> id in Answered(t.batch, env.Heard(t)) && env.Final(id, verdict(id))
      {
        GrantedIsVerdict(env, ids, verdict, t, id);
      }
    }
  }

  // ---------------------------------------------------------------- when the request is refused

  lemma HeardNothing(env: Env, t: Trip)
    ensures |SilentIn(env, t)| == |t.batch| <==> Answered(t.batch, env.Heard(t)) == {}
  {
    var answered := Answered(t.batch, env.Heard(t));
    if answered != {} {
      var id :| id in answered;
      assert id in t.batch;
    }
  }

  lemma TripsOfChunk(env: Env, c: nat, chunk: seq<Id>)
    ensures forall t :: t in ChunkTrips(env, c, chunk) <==> t == FirstTrip(c, chunk) || t in Retries(env, c, chunk)
    ensures AnyLost(env, ChunkTrips(env, c, chunk)) <==>
      env.store(FirstTrip(c, chunk)).TransportError? || AnyLost(env, Retries(env, c, chunk))
  {
    hide Retries;
    var first, retries, all := FirstTrip(c, chunk), Retries(env, c, chunk), ChunkTrips(env, c, chunk);
    assert all[0] == first && forall k :: 0 <= k < |retries| ==> all[k + 1] == retries[k];
    if k :| 0 <= k < |retries| && env.store(retries[k]).TransportError? { assert env.store(all[k + 1]).TransportError?; }
    if k :| 0 <= k < |all| && env.store(all[k]).TransportError? { assert k > 0 ==> env.store(retries[k - 1]).TransportError?; }
  }

  /** Once all of a chunk's trips returned, the chunk is refused exactly when none of them carried a
      verdict about any id. */
  lemma RefusedIffWhollySilent(env: Env, c: nat, chunk: seq<Id>)
    requires chunk != [] && !AnyLost(env, ChunkTrips(env, c, chunk)) && !env.abortedBeforeRetry(c)
    ensures ChunkResult(env, c, chunk) == Err(StoreSilent) <==>
      forall t :: t in ChunkTrips(env, c, chunk) ==> Answered(t.batch, env.Heard(t)) == {}
    ensures ChunkResult(env, c, chunk).Err? ==> ChunkResult(env, c, chunk) == Err(StoreSilent)
  {
    hide SilentIn, Answered, SilentAfter, Retries, GivenBy, GivenIn, AnyLost, ChunkTrips;
    var first, retries, all := FirstTrip(c, chunk), Retries(env, c, chunk), ChunkTrips(env, c, chunk);
    TripsOfChunk(env, c, chunk);
    HeardNothing(env, first);
    SilentTotals(env, c, chunk);
    RetriesOnlyRecover(env, retries);
    forall t | t in retries
      ensures |SilentIn(env, t)| == |t.batch| <==> Answered(t.batch, env.Heard(t)) == {}
    {
      HeardNothing(env, t);
    }
  }
}

/** Which authorization store a deployment binds to: the decision table, and the boot protocol that runs
    it under an advisory lock while an external store creation cannot be rolled back. */
module StoreBinding {
  import opened FiniteSets
  import opened Text

  type StoreId = nat
  type Pid = nat

  // ---------------------------------------------------------------- the decision table

  datatype Refusal =
    | NamedCandidateGone(store: StoreId)
    | BoundStoreLost(bound: StoreId)
    | Mismatch(bound: StoreId, candidate: StoreId)
    | MismatchBothGone(bound: StoreId, candidate: StoreId)
    | AmbiguousName(stores: set<StoreId>)

  datatype Decision = Adopt(store: StoreId) | Proceed(store: StoreId) | Create | Refuse(reason: Refusal)

  /** `decideStoreBinding`. A liveness fact is `None` when it was not asked for. */
  function Decide(row: Option<StoreId>, candidate: Option<StoreId>,
                  candidateIsLive: Option<bool>, boundIsLive: Option<bool>): Decision
  {
    match (row, candidate)
    case (None, None) => Create
    case (None, Some(c)) => if candidateIsLive == Some(true) then Adopt(c) else Refuse(NamedCandidateGone(c))
    case (Some(b), None) => Refuse(BoundStoreLost(b))
    case (Some(b), Some(c)) =>
      if c == b then if candidateIsLive == Some(true) then Proceed(b) else Refuse(BoundStoreLost(b))
      else if candidateIsLive == Some(true) then Refuse(Mismatch(b, c))
      else if boundIsLive == Some(false) then Refuse(MismatchBothGone(b, c))
      else Refuse(Mismatch(b, c))
  }

  /** The verdict of a boot that read `row` and settled on `candidate`, with the liveness questions the
      orchestrator asks: never about a missing candidate, and about the bound store only when it differs. */
  function Verdict(row: Option<StoreId>, candidate: Option<StoreId>, live: set<StoreId>): Decision {
    Decide(row, candidate,
      if candidate.Some? then Some(candidate.value in live) else None,
      if row.None? || candidate == row then None else Some(row.value in live))
  }

  // ---------------------------------------------------------------- the search by name

  datatype Store = Store(id: StoreId, name: string)

  datatype Search = Found(store: StoreId) | NotFound | Ambiguous(stores: seq<StoreId>)

  function NamedIds(stores: seq<Store>, name: string): (ids: seq<StoreId>)
    ensures forall id :: id in ids <==> Store(id, name) in stores
  {
    if stores == [] then []
    else
      assert forall x :: x in stores <==> x == stores[0] || x in stores[1..];
      (if stores[0].name == name then [stores[0].id] else []) + NamedIds(stores[1..], name)
  }

  /** `searchByName`: never picks between several stores of one name. */
  function SearchByName(stores: seq<Store>, name: string): Search {
    var ids := NamedIds(stores, name);
    if |ids| == 0 then NotFound else if |ids| == 1 then Found(ids[0]) else Ambiguous(ids)
  }

  /** The search says what is true of the set of stores, whatever order the pages listed them in. */
  lemma SearchIsExact(stores: seq<Store>, name: string)
    requires forall j, k :: 0 <= j < k < |stores| ==> stores[j].id != stores[k].id
    ensures var named := set x | x in stores && x.name == name :: x.id;
      match SearchByName(stores, name)
      case NotFound => named == {}
      case Found(id) => named == {id}
      case Ambiguous(ids) => |named| >= 2 && forall id :: id in ids <==> id in named
  {
    var ids := NamedIds(stores, name);
    var named := set x | x in stores && x.name == name :: x.id;
    forall id ensures id in named <==> id in ids {
      if id in ids { assert Store(id, name) in stores; }
    }
    if |ids| == 1 {
      assert ids[0] in ids;
      assert named == {ids[0]};
    } else if |ids| >= 2 {
      NamedIdsDistinct(stores, name);
      assert ids[0] in ids && ids[1] in ids && ids[0] != ids[1];
      assert {ids[0], ids[1]} <= named;
      SubsetSize({ids[0], ids[1]}, named);
    }
  }

  predicate Distinct(ids: seq<StoreId>) { forall j, k :: 0 <= j < k < |ids| ==> ids[j] != ids[k] }

  lemma {:induction false} NamedIdsDistinct(stores: seq<Store>, name: string)
    requires forall j, k :: 0 <= j < k < |stores| ==> stores[j].id != stores[k].id
    ensures Distinct(NamedIds(stores, name))
  {
    if stores != [] {
      var rest := stores[1..];
      assert forall k :: 0 <= k < |rest| ==> rest[k] == stores[k + 1];
      NamedIdsDistinct(rest, name);
      var ids := NamedIds(rest, name);
      forall id | id in ids ensures id != stores[0].id {
        var k :| 0 <= k < |rest| && rest[k] == Store(id, name);
        assert stores[k + 1].id == id;
      }
      assert Distinct([stores[0].id] + ids) by {
        forall j, k | 0 <= j < k < |ids| + 1 ensures ([stores[0].id] + ids)[j] != ([stores[0].id] + ids)[k] {
          assert ([stores[0].id] + ids)[k] == ids[k - 1] && ids[k - 1] in ids;
        }
      }
    }
  }

  // ---------------------------------------------------------------- the boot protocol

  datatype Outcome = Bound(store: StoreId, created: bool) | Refused(reason: Refusal) | WaitForMigration

  /** Where one booting process stands. `Written` has an uncommitted row; `Returning` only has to end its
      transaction. `row` is what the process read. */
  datatype Proc =
    | Idle
    | Waiting(explicit: Option<StoreId>)
    | Holding(explicit: Option<StoreId>)
    | HasRead(explicit: Option<StoreId>, row: Option<StoreId>)
    | Searched(row: Option<StoreId>, candidate: Option<StoreId>)
    | Adopting(store: StoreId)
    | Creating
    | Created(store: StoreId)
    | Written(store: StoreId, isNew: bool)
    | Returning(outcome: Outcome)
    | Done(outcome: Outcome)

  predicate InLock(p: Proc) { !p.Idle? && !p.Waiting? && !p.Done? }

  /** The shared database and store server, and every process. `named` are the live stores that carry the
      product's name, `made` the stores boots created under the lock, `results` every store a boot ever bound to.
      `adrift` counts creations still under way after their transaction ended, `strays` what came of them, and
      `lost` how often that happened. */
  datatype World = World(
    table: bool, row: Option<StoreId>, live: set<StoreId>, named: set<StoreId>, made: set<StoreId>,
    results: set<StoreId>, lock: Option<Pid>, procs: map<Pid, Proc>, adrift: nat, strays: set<StoreId>, lost: nat)

  function At(w: World, p: Pid): Proc { if p in w.procs then w.procs[p] else Idle }

  function Put(w: World, p: Pid, q: Proc): World { w.(procs := w.procs[p := q]) }

  /** The transaction of `p` ends without effect: the lock is released and an uncommitted row is gone. */
  function Rollback(w: World, p: Pid): World { Put(w, p, Idle).(lock := if InLock(At(w, p)) then None else w.lock) }

  function Candidate(explicit: Option<StoreId>, named: set<StoreId>): Option<Option<StoreId>> {
    if explicit.Some? then Some(explicit)
    else if named == {} then Some(None)
    else if exists id :: id in named && named == {id} then
      var id :| id in named && named == {id};
      Some(Some(id))
    else None
  }

  datatype Action =
    | Migrate
    | Boot(explicit: Option<StoreId>)
    | Acquire
    | ReadRow
    | FindCandidate
    | CheckLiveness
    | CreateStore(id: StoreId)
    | InsertRow
    | Commit
    | Crash
    | LoseSession
    | StrayCreate(id: StoreId)

  /** A boot that has seen no row and no store: it goes on to create one. */
  predicate WillCreate(q: Proc) { q.Creating? || (q.Searched? && q.row == None && q.candidate == None) }

  /** One that does, or that has still to search while there is no store to find; only it can create one. */
  predicate MayCreate(q: Proc, named: set<StoreId>) {
    WillCreate(q) || (q.HasRead? && q.explicit == None && q.row == None && named == {})
  }

  /** One step of process `p`; an action that is not enabled changes nothing. A crash, like an error thrown
      by any call, rolls the transaction back. A store that was created stays. A lost session ends the
      transaction too, but a boot on its way to create a store, which asks another server, still may. */
  function Next(w: World, p: Pid, a: Action): World {
    match (a, At(w, p))
    case (Migrate, _) => w.(table := true)
    case (Boot(e), Idle) => Put(w, p, Waiting(e))
    case (Boot(e), Done(_)) => Put(w, p, Waiting(e))
    case (Acquire, Waiting(e)) => if w.lock == None then Put(w, p, Holding(e)).(lock := Some(p)) else w
    case (ReadRow, Holding(e)) => Put(w, p, if w.table then HasRead(e, w.row) else Returning(WaitForMigration))
    case (FindCandidate, HasRead(e, r)) =>
      (match Candidate(e, w.named)
       case Some(c) => Put(w, p, Searched(r, c))
       case None => Put(w, p, Returning(Refused(AmbiguousName(w.named)))))
    case (CheckLiveness, Searched(r, c)) =>
      (match Verdict(r, c, w.live)
       case Create => Put(w, p, Creating)
       case Adopt(s) => Put(w, p, Adopting(s))
       case Proceed(s) => Put(w, p, Returning(Bound(s, false)))
       case Refuse(why) => Put(w, p, Returning(Refused(why))))
    case (CreateStore(f), Creating) =>
      if f in w.live then w
      else Put(w, p, Created(f)).(live := w.live + {f}, named := w.named + {f}, made := w.made + {f})
    case (InsertRow, Adopting(s)) => if w.row == None then Put(w, p, Written(s, false)) else Rollback(w, p)
    case (InsertRow, Created(s)) => if w.row == None then Put(w, p, Written(s, true)) else Rollback(w, p)
    case (Commit, Written(s, isNew)) =>
      Put(w, p, Done(Bound(s, isNew))).(row := Some(s), lock := None, results := w.results + {s})
    case (Commit, Returning(o)) =>
      Put(w, p, Done(o)).(lock := None, results := w.results + (if o.Bound? then {o.store} else {}))
    case (Crash, _) => Rollback(w, p)
    case (LoseSession, q) =>
      if MayCreate(q, w.named) then Rollback(w, p).(adrift := w.adrift + 1, lost := w.lost + 1) else Rollback(w, p)
    case (StrayCreate(f), _) =>
      if w.adrift == 0 || f in w.live then w
      else w.(adrift := w.adrift - 1, live := w.live + {f}, named := w.named + {f}, strays := w.strays + {f})
    case (_, _) => w
  }

  function Run(w: World, steps: seq<(Pid, Action)>): World
    decreases |steps|
  {
    if steps == [] then w else Run(Next(w, steps[0].0, steps[0].1), steps[1..])
  }

  /** A database and store server before any boot: nothing running, the lock free. */
  predicate Start(w: World) {
    w.lock == None && w.made == {} && w.results == {} && w.procs == map[] && w.named <= w.live
    && w.adrift == 0 && w.strays == {} && w.lost == 0
  }

  // ---------------------------------------------------------------- what every step keeps

  /** What a process has learned is still true. */
  predicate Knows(w: World, q: Proc) {
    match q
    case HasRead(_, r) => w.table && r == w.row
    case Searched(r, c) => w.table && r == w.row && (c == None ==> w.made == {} && w.named <= w.strays)
    case Adopting(_) => w.row == None
    case Creating => w.table && w.row == None && w.made == {} && w.named <= w.strays
    case Created(s) => w.table && w.row == None && w.made == {s} && s in w.named && w.named <= {s} + w.strays
    case Written(s, _) => w.row == None
    case Returning(Bound(s, _)) => w.row == Some(s)
    case Done(Bound(s, _)) => s in w.results
    case _ => true
  }

  ghost predicate Inv(w: World) {
    && (forall p: Pid :: InLock(At(w, p)) <==> w.lock == Some(p))
    && (forall p: Pid :: Knows(w, At(w, p)))
    && w.made <= w.named <= w.live && w.strays <= w.named
    && |w.made| <= 1 && w.made !! w.strays && |w.strays| + w.adrift <= w.lost
    && (forall s :: s in w.results ==> w.row == Some(s))
  }

  /** A move inside the lock that only records what the holder now knows. */
  lemma PutKeepsInv(w: World, p: Pid, q: Proc)
    requires Inv(w) && InLock(At(w, p)) && InLock(q) && Knows(w, q)
    ensures Inv(Put(w, p, q))
  {
    var n := Put(w, p, q);
    forall x: Pid ensures Knows(n, At(n, x)) && (InLock(At(n, x)) <==> n.lock == Some(x)) {
      if x != p { assert At(n, x) == At(w, x) && Knows(w, At(w, x)); }
    }
  }

  lemma RollbackKeepsInv(w: World, p: Pid)
    requires Inv(w)
    ensures Inv(Rollback(w, p))
  {
    var n := Rollback(w, p);
    forall x: Pid ensures Knows(n, At(n, x)) && (InLock(At(n, x)) <==> n.lock == Some(x)) {
      if x != p { assert At(n, x) == At(w, x) && Knows(w, At(w, x)); }
    }
  }

  lemma EnterKeepsInv(w: World, p: Pid, e: Option<StoreId>)
    requires Inv(w)
    ensures !InLock(At(w, p)) ==> Inv(Put(w, p, Waiting(e)))
    ensures w.lock == None ==> Inv(Put(w, p, Holding(e)).(lock := Some(p)))
  {
    if w.lock == None {
      var n := Put(w, p, Holding(e)).(lock := Some(p));
      forall x: Pid ensures Knows(n, At(n, x)) && (InLock(At(n, x)) <==> n.lock == Some(x)) {
        if x != p { assert At(n, x) == At(w, x) && Knows(w, At(w, x)); }
      }
    }
    if !InLock(At(w, p)) {
      var n := Put(w, p, Waiting(e));
      forall x: Pid ensures Knows(n, At(n, x)) && (InLock(At(n, x)) <==> n.lock == Some(x)) {
        if x != p { assert At(n, x) == At(w, x) && Knows(w, At(w, x)); }
      }
    }
  }

  lemma LoseKeepsInv(w: World, p: Pid)
    requires Inv(w)
    ensures Inv(Next(w, p, LoseSession))
  {
    hide Rollback;
    RollbackKeepsInv(w, p);
    var m, n := Rollback(w, p), Next(w, p, LoseSession);
    RollbackKeepsStores(w, p);
    forall x: Pid ensures Knows(n, At(n, x)) && (InLock(At(n, x)) <==> n.lock == Some(x)) {
      assert At(n, x) == At(m, x) && Knows(m, At(m, x));
    }
  }

  lemma RollbackKeepsStores(w: World, p: Pid)
    ensures var n := Rollback(w, p);
      n.adrift == w.adrift && n.strays == w.strays && n.lost == w.lost
  {
  }

  lemma StrayKeepsInv(w: World, p: Pid, f: StoreId)
    requires Inv(w)
    ensures Inv(Next(w, p, StrayCreate(f)))
  {
    StrayArrives(w, p, f);
    hide Next;
    if w.adrift > 0 && f !in w.live { LandedKeepsInv(w, f); }
  }

  lemma LandedKeepsInv(w: World, f: StoreId)
    requires Inv(w) && w.adrift > 0 && f !in w.live
    ensures Inv(w.(adrift := w.adrift - 1, live := w.live + {f}, named := w.named + {f}, strays := w.strays + {f}))
  {
    var n := w.(adrift := w.adrift - 1, live := w.live + {f}, named := w.named + {f}, strays := w.strays + {f});
    forall x: Pid ensures Knows(n, At(n, x)) && (InLock(At(n, x)) <==> n.lock == Some(x)) {
      assert At(n, x) == At(w, x) && Knows(w, At(w, x));
    }
  }

  /** Only the holder's own knowledge speaks of a row, a name or a made store, so only it can be upset. */
  lemma OthersKnow(w: World, n: World, p: Pid, x: Pid)
    requires Inv(w) && InLock(At(w, p)) && x != p
    requires w.results <= n.results
    ensures !InLock(At(w, x)) && Knows(n, At(w, x))
  {
    assert Knows(w, At(w, x));
  }

  lemma CreateKeepsInv(w: World, p: Pid, f: StoreId)
    requires Inv(w) && At(w, p).Creating? && f !in w.live
    ensures Inv(Next(w, p, CreateStore(f)))
  {
    assert Knows(w, At(w, p));
    assert w.made == {};
    var n := Next(w, p, CreateStore(f));
    assert n.made == {f};
    forall x: Pid ensures Knows(n, At(n, x)) && (InLock(At(n, x)) <==> n.lock == Some(x)) {
      if x != p { assert At(n, x) == At(w, x); OthersKnow(w, n, p, x); }
    }
  }

  lemma CommitKeepsInv(w: World, p: Pid)
    requires Inv(w) && (At(w, p).Written? || At(w, p).Returning?)
    ensures Inv(Next(w, p, Commit))
    ensures w.row.Some? ==> Next(w, p, Commit).row == w.row
  {
    assert Knows(w, At(w, p));
    var n := Next(w, p, Commit);
    forall x: Pid ensures Knows(n, At(n, x)) && (InLock(At(n, x)) <==> n.lock == Some(x)) {
      if x != p { assert At(n, x) == At(w, x); OthersKnow(w, n, p, x); }
    }
  }

  lemma MigrateKeepsInv(w: World, p: Pid)
    requires Inv(w)
    ensures Inv(Next(w, p, Migrate))
  {
    var n := Next(w, p, Migrate);
    forall x: Pid ensures Knows(n, At(n, x)) { assert At(n, x) == At(w, x) && Knows(w, At(w, x)); }
  }

  lemma NextKeepsInv(w: World, p: Pid, a: Action)
    requires Inv(w)
    ensures Inv(Next(w, p, a))
    ensures w.row.Some? ==> Next(w, p, a).row == w.row
    ensures w.made <= Next(w, p, a).made && w.results <= Next(w, p, a).results
  {
    hide Inv, Verdict, Candidate;
    var q := At(w, p);
    HolderKnows(w, p);
    CandidateNone(q, w.named);
    VerdictIsSafe(q, w.live);
    match (a, q) {
      case (Migrate, _) => MigrateKeepsInv(w, p);
      case (Boot(e), _) => EnterKeepsInv(w, p, e);
      case (Acquire, Waiting(e)) => EnterKeepsInv(w, p, e);
      case (CreateStore(f), Creating) => if f !in w.live { CreateKeepsInv(w, p, f); }
      case (Commit, Written(_, _)) => CommitKeepsInv(w, p);
      case (Commit, Returning(_)) => CommitKeepsInv(w, p);
      case (Crash, _) => RollbackKeepsInv(w, p);
      case (LoseSession, _) => LoseKeepsInv(w, p);
      case (StrayCreate(f), _) => StrayKeepsInv(w, p, f);
      case (ReadRow, Holding(_)) => PutKeepsInv(w, p, At(Next(w, p, a), p));
      case (FindCandidate, HasRead(_, _)) => PutKeepsInv(w, p, At(Next(w, p, a), p));
      case (CheckLiveness, Searched(_, _)) => PutKeepsInv(w, p, At(Next(w, p, a), p));
      case (InsertRow, Adopting(s)) => PutKeepsInv(w, p, At(Next(w, p, a), p));
      case (InsertRow, Created(s)) => PutKeepsInv(w, p, At(Next(w, p, a), p));
      case (_, _) =>
    }
  }

  lemma CandidateNone(q: Proc, named: set<StoreId>)
    ensures q.HasRead? ==> (Candidate(q.explicit, named) == Some(None) ==> named == {})
  {}

  lemma VerdictIsSafe(q: Proc, live: set<StoreId>)
    ensures q.Searched? ==>
      match Verdict(q.row, q.candidate, live)
      case Create => q.row == None && q.candidate == None
      case Adopt(s) => q.row == None
      case Proceed(s) => q.row == Some(s)
      case Refuse(_) => true
  {}

  lemma {:induction false} RunKeepsInv(w: World, steps: seq<(Pid, Action)>)
    requires Inv(w)
    ensures Inv(Run(w, steps))
    ensures w.row.Some? ==> Run(w, steps).row == w.row
    ensures w.made <= Run(w, steps).made && w.results <= Run(w, steps).results
    decreases |steps|
  {
    hide Next, Inv;
    if steps != [] {
      NextKeepsInv(w, steps[0].0, steps[0].1);
      RunKeepsInv(Next(w, steps[0].0, steps[0].1), steps[1..]);
    }
  }

  lemma {:induction false} RunAppend(w: World, a: seq<(Pid, Action)>, b: seq<(Pid, Action)>)
    ensures Run(w, a + b) == Run(Run(w, a), b)
    decreases |a|
  {
    hide Next;
    if a == [] {
      assert a + b == b;
    } else {
      assert (a + b)[1..] == a[1..] + b;
      RunAppend(Next(w, a[0].0, a[0].1), a[1..], b);
    }
  }

  // ---------------------------------------------------------------- the theorems over every run

  /** Any number of boots, interleaved step by step, crashing or losing their session anywhere: every store ever
      bound to is the one in the row, no process that creates sees a row, and at most one store is ever created
      under the lock. Each session lost on the way to a creation adds at most one more. */
  lemma EveryBootBindsOneStore(w: World, steps: seq<(Pid, Action)>)
    requires Start(w)
    ensures var n := Run(w, steps);
      && (forall s :: s in n.results ==> n.row == Some(s))
      && (forall p: Pid :: At(n, p).Done? && At(n, p).outcome.Bound? ==> n.row == Some(At(n, p).outcome.store))
      && (forall p: Pid :: At(n, p).Creating? || At(n, p).Created? ==> n.row == None && n.lock == Some(p))
      && |n.made| <= 1 && |n.strays| <= n.lost
  {
    hide Next, Run;
    RunKeepsInv(w, steps);
  }

  /** A committed row is never changed again, and no store is created after it, but for the creations already
      under way when their session was lost. */
  lemma CommittedRowIsFinal(w: World, before: seq<(Pid, Action)>, after: seq<(Pid, Action)>)
    requires Start(w) && Run(w, before).row.Some?
    ensures Run(w, before + after).row == Run(w, before).row
    ensures Run(w, before + after).made == Run(w, before).made
    ensures |Run(w, before + after).strays| <= |Run(w, before).strays| + Run(w, before).adrift
  {
    hide Next, Run, Inv;
    StartIsInv(w);
    RunKeepsInv(w, before);
    RunAppend(w, before, after);
    RunKeepsInv(Run(w, before), after);
    NothingMadeAfterRow(Run(w, before), after);
  }

  lemma NothingMadeOnRow(w: World, p: Pid, a: Action)
    requires Inv(w) && w.row.Some?
    ensures Next(w, p, a).made == w.made
    ensures |Next(w, p, a).strays| + Next(w, p, a).adrift <= |w.strays| + w.adrift
  {
    hide Inv, Next, MayCreate;
    RowStopsCreation(w, p);
    if a.StrayCreate? { StrayIsOfAdrift(w, p, a.id); } else { OnlyCreationMakes(w, p, a); }
  }

  lemma OnlyCreationMakes(w: World, p: Pid, a: Action)
    requires !MayCreate(At(w, p), w.named) && !a.StrayCreate?
    ensures var n := Next(w, p, a); n.made == w.made && n.strays == w.strays && n.adrift == w.adrift
  {
    hide Verdict, Candidate;
  }

  lemma StrayIsOfAdrift(w: World, p: Pid, f: StoreId)
    ensures var n := Next(w, p, StrayCreate(f)); n.made == w.made && |n.strays| + n.adrift <= |w.strays| + w.adrift
  {
  }

  lemma RowStopsCreation(w: World, p: Pid)
    requires Inv(w) && w.row.Some?
    ensures !MayCreate(At(w, p), w.named) && !At(w, p).Creating?
  {
    assert Knows(w, At(w, p));
  }

  lemma {:induction false} NothingMadeAfterRow(w: World, steps: seq<(Pid, Action)>)
    requires Inv(w) && w.row.Some?
    ensures Run(w, steps).made == w.made
    ensures |Run(w, steps).strays| + Run(w, steps).adrift <= |w.strays| + w.adrift
    decreases |steps|
  {
    if steps != [] {
      NextKeepsInv(w, steps[0].0, steps[0].1);
      NothingMadeOnRow(w, steps[0].0, steps[0].1);
      hide Next, Inv;
      NothingMadeAfterRow(Next(w, steps[0].0, steps[0].1), steps[1..]);
    }
  }

  // ---------------------------------------------------------------- one boot, run to its end

  /** Every step one boot of `p` needs; the creation steps do nothing on a boot that does not create. */
  function WholeBoot(p: Pid, explicit: Option<StoreId>, id: StoreId): seq<(Pid, Action)> {
    [(p, Boot(explicit)), (p, Acquire), (p, ReadRow), (p, FindCandidate), (p, CheckLiveness),
     (p, CreateStore(id)), (p, InsertRow), (p, Commit)]
  }

  /** With the lock free a boot always runs to an answer, and this is the answer. */
  function Answer(w: World, explicit: Option<StoreId>, id: StoreId): Outcome {
    if !w.table then WaitForMigration
    else match Candidate(explicit, w.named)
      case None => Refused(AmbiguousName(w.named))
      case Some(c) =>
        match Verdict(w.row, c, w.live)
        case Create => Bound(id, true)
        case Adopt(s) => Bound(s, false)
        case Proceed(s) => Bound(s, false)
        case Refuse(why) => Refused(why)
  }

  /** The stores are as before but for those the boot itself made. */
  predicate Grew(w: World, n: World, extra: set<StoreId>) {
    n.table == w.table && n.live == w.live + extra && n.named == w.named + extra && n.made == w.made + extra
    && n.strays == w.strays && n.adrift == w.adrift && n.lost == w.lost
  }

  function MadeBy(o: Outcome): set<StoreId> { if o.Bound? && o.created then {o.store} else {} }

  /** The boot up to its verdict. */
  lemma BootDecides(w: World, p: Pid, explicit: Option<StoreId>)
    requires Inv(w) && w.lock == None && At(w, p).Idle?
    ensures var n := Next(Next(Next(Next(w, p, Boot(explicit)), p, Acquire), p, ReadRow), p, FindCandidate);
      n == Put(w, p, At(n, p)).(lock := Some(p))
      && At(n, p) == (if !w.table then Returning(WaitForMigration)
                      else match Candidate(explicit, w.named)
                        case None => Returning(Refused(AmbiguousName(w.named)))
                        case Some(c) => Searched(w.row, c))
  {
    hide Candidate, Inv;
    var a := Next(w, p, Boot(explicit));
    var b := Next(a, p, Acquire);
    var c := Next(b, p, ReadRow);
    assert b == Put(w, p, Holding(explicit)).(lock := Some(p));
    assert c == Put(w, p, if w.table then HasRead(explicit, w.row) else Returning(WaitForMigration)).(lock := Some(p));
  }

  /** The boot from its verdict to the end of its transaction. */
  lemma BootFinishes(w: World, p: Pid, id: StoreId)
    requires At(w, p).Searched? || At(w, p).Returning?
    requires At(w, p).Searched? ==> At(w, p).row == w.row
    requires id !in w.live
    ensures var n := Next(Next(Next(Next(w, p, CheckLiveness), p, CreateStore(id)), p, InsertRow), p, Commit);
      && n.lock == None
      && At(n, p) == Done(
          if At(w, p).Returning? then At(w, p).outcome
          else match Verdict(w.row, At(w, p).candidate, w.live)
            case Create => Bound(id, true)
            case Adopt(s) => Bound(s, false)
            case Proceed(s) => Bound(s, false)
            case Refuse(why) => Refused(why))
      && (At(n, p).outcome.Bound? ==> At(w, p).Returning? || n.row == Some(At(n, p).outcome.store))
      && (forall x: Pid :: x != p ==> At(n, x) == At(w, x))
      && Grew(w, n, if At(w, p).Returning? then {} else MadeBy(At(n, p).outcome))
  {
    VerdictIsSafe(At(w, p), w.live);
    AfterVerdict(Next(w, p, CheckLiveness), p, id);
    hide Verdict;
  }

  /** What is left of a boot that knows its verdict. */
  lemma AfterVerdict(w: World, p: Pid, id: StoreId)
    requires id !in w.live
    ensures var n := Next(Next(Next(w, p, CreateStore(id)), p, InsertRow), p, Commit);
      match At(w, p)
      case Returning(o) => n == Put(w, p, Done(o)).(lock := None, results := n.results)
      case Adopting(s) => w.row == None ==> n == Put(w, p, Done(Bound(s, false))).(lock := None, row := Some(s), results := n.results)
      case Creating => w.row == None ==>
        n == Put(w, p, Done(Bound(id, true))).(lock := None, row := Some(id), results := n.results,
               live := w.live + {id}, named := w.named + {id}, made := w.made + {id})
      case _ => true
  {
    hide Candidate, Verdict;
    match At(w, p)
    case Returning(_) => ReturningEnds(w, p, id);
    case Adopting(_) =>
    case Creating =>
    case _ =>
  }

  lemma ReturningEnds(w: World, p: Pid, id: StoreId)
    requires At(w, p).Returning?
    ensures Next(Next(w, p, CreateStore(id)), p, InsertRow) == w
  {
  }

  lemma BootAnswers(w: World, p: Pid, explicit: Option<StoreId>, id: StoreId)
    requires Inv(w) && w.lock == None && At(w, p).Idle? && id !in w.live
    ensures var n := Run(w, WholeBoot(p, explicit, id));
      && n.lock == None && At(n, p) == Done(Answer(w, explicit, id))
      && (Answer(w, explicit, id).Bound? ==> n.row == Some(Answer(w, explicit, id).store))
      && (forall x: Pid :: x != p ==> At(n, x) == At(w, x))
      && Grew(w, n, MadeBy(Answer(w, explicit, id)))
  {
    hide Candidate, Verdict, Inv, Next;
    BootDecides(w, p, explicit);
    var m := Next(Next(Next(Next(w, p, Boot(explicit)), p, Acquire), p, ReadRow), p, FindCandidate);
    BootFinishes(m, p, id);
    BootRuns(w, p, explicit, id);
  }

  lemma BootRuns(w: World, p: Pid, explicit: Option<StoreId>, id: StoreId)
    ensures var m := Next(Next(Next(Next(w, p, Boot(explicit)), p, Acquire), p, ReadRow), p, FindCandidate);
      Run(w, WholeBoot(p, explicit, id))
      == Next(Next(Next(Next(m, p, CheckLiveness), p, CreateStore(id)), p, InsertRow), p, Commit)
  {
    hide Next;
    var acts := [Boot(explicit), Acquire, ReadRow, FindCandidate, CheckLiveness, CreateStore(id), InsertRow, Commit];
    var steps := WholeBoot(p, explicit, id);
    assert steps[0..] == steps;
    UnfoldRun(w, steps, 0);
    UnfoldRun(Next(w, p, acts[0]), steps, 1);
    UnfoldRun(Next(Next(w, p, acts[0]), p, acts[1]), steps, 2);
    UnfoldRun(Next(Next(Next(w, p, acts[0]), p, acts[1]), p, acts[2]), steps, 3);
    var m := Next(Next(Next(Next(w, p, acts[0]), p, acts[1]), p, acts[2]), p, acts[3]);
    UnfoldRun(m, steps, 4);
    UnfoldRun(Next(m, p, acts[4]), steps, 5);
    UnfoldRun(Next(Next(m, p, acts[4]), p, acts[5]), steps, 6);
    UnfoldRun(Next(Next(Next(m, p, acts[4]), p, acts[5]), p, acts[6]), steps, 7);
  }

  lemma UnfoldRun(w: World, steps: seq<(Pid, Action)>, k: nat)
    requires k < |steps|
    ensures Run(w, steps[k..]) == Run(Next(w, steps[k].0, steps[k].1), steps[k + 1..])
    ensures k + 1 == |steps| ==> Run(w, steps[k..]) == Next(w, steps[k].0, steps[k].1)
  {
    assert steps[k..][1..] == steps[k + 1..];
  }

  /** A process that dies between creating the store and committing its row leaves a store no row names; with no
      stray beside it the next unpinned boot, of any process, finds that store and binds to it instead of making another. */
  lemma RecoversAfterCrash(w: World, steps: seq<(Pid, Action)>, p: Pid, q: Pid, id: StoreId)
    requires Start(w) && At(Run(w, steps), p).Created? && Run(w, steps).strays == {}
    requires At(Next(Run(w, steps), p, Crash), q).Idle? && id !in Run(w, steps).live
    ensures var c := Run(w, steps);
      var n := Run(Next(c, p, Crash), WholeBoot(q, None, id));
      At(n, q) == Done(Bound(At(c, p).store, false)) && n.row == Some(At(c, p).store) && n.made == c.made
  {
    hide Run, Next, Inv, Verdict, Candidate;
    StartIsInv(w);
    RunKeepsInv(w, steps);
    var c := Run(w, steps);
    var s := At(c, p).store;
    var d := Next(c, p, Crash);
    CrashLeavesStore(c, p);
    NextKeepsInv(c, p, Crash);
    BootAnswers(d, q, None, id);
    OnlyCandidate(s);
    LiveIsAdopted(s, d.live);
  }

  /** Once a row is committed a later boot either binds to that very store, or refuses: it binds exactly
      when the store is alive and is what the boot was pinned to or the only one that has the name. */
  lemma RebootBindsExactly(w: World, steps: seq<(Pid, Action)>, q: Pid, explicit: Option<StoreId>, id: StoreId)
    requires Start(w) && var c := Run(w, steps); c.row.Some? && c.lock == None && c.table && At(c, q).Idle? && id !in c.live
    ensures var c := Run(w, steps);
      var n := Run(c, WholeBoot(q, explicit, id));
      var s := c.row.value;
      At(n, q).Done?
      && (if s in c.live && (explicit == Some(s) || (explicit == None && c.named == {s}))
          then At(n, q).outcome == Bound(s, false)
          else At(n, q).outcome.Refused?)
  {
    hide Run, Next, Inv, Grew;
    StartIsInv(w);
    RunKeepsInv(w, steps);
    HolderKnows(Run(w, steps), q);
    BootAnswers(Run(w, steps), q, explicit, id);
  }

  /** "The store this deployment was bound to no longer exists" is said of a store that does exist exactly
      when an unpinned boot finds no store of the product's name while the bound one, adopted through a
      pin, carries another name. Every other report of a lost store is true. */
  lemma LostReportIsFalseExactly(s: StoreId, explicit: Option<StoreId>, named: set<StoreId>, live: set<StoreId>)
    requires named <= live
    ensures (match Candidate(explicit, named)
             case Some(c) => Verdict(Some(s), c, live) == Refuse(BoundStoreLost(s)) && s in live
             case None => false)
        <==> explicit == None && named == {} && s in live
  {}

  /** A run that ends in that false report: pin a boot to a store of another name, then boot unpinned. */
  lemma LostReportCanBeFalse()
    ensures var w := World(true, None, {7}, {}, {}, {}, None, map[], 0, {}, 0);
      var n := Run(Run(w, WholeBoot(0, Some(7), 8)), WholeBoot(1, None, 8));
      Start(w) && 7 in n.live && At(n, 1) == Done(Refused(BoundStoreLost(7)))
  {
    hide Run, Next;
    var w := World(true, None, {7}, {}, {}, {}, None, map[], 0, {}, 0);
    BootAnswers(w, 0, Some(7), 8);
    var m := Run(w, WholeBoot(0, Some(7), 8));
    RunKeepsInv(w, WholeBoot(0, Some(7), 8));
    assert m.row == Some(7);
    BootAnswers(m, 1, None, 8);
  }

  /** A run in which a lost session leaves two stores of the name: the second boot binds its own, the first
      one's creation arrives late, and from then on every unpinned boot asks for a pin. */
  lemma LostSessionCanMakeTwo()
    ensures var w := World(true, None, {}, {}, {}, {}, None, map[], 0, {}, 0);
      var m := Run(w, [(0, Boot(None)), (0, Acquire), (0, ReadRow), (0, LoseSession)]);
      var n := Next(Run(m, WholeBoot(1, None, 7)), 0, StrayCreate(8));
      Start(w) && n.row == Some(7) && n.named == {7, 8} && At(Run(n, WholeBoot(2, None, 9)), 2) == Done(Refused(AmbiguousName({7, 8})))
  {
    hide Next, Run, Inv, Candidate, Verdict, Grew;
    var w := World(true, None, {}, {}, {}, {}, None, map[], 0, {}, 0);
    StartIsInv(w);
    var steps := [(0, Boot(None)), (0, Acquire), (0, ReadRow), (0, LoseSession)];
    var m := Run(w, steps);
    SessionIsLost(w);
    RunKeepsInv(w, steps);
    RunKeepsInv(m, WholeBoot(1, None, 7));
    NextKeepsInv(Run(m, WholeBoot(1, None, 7)), 0, StrayCreate(8));
    EmptyBootCreates(m, 1, 7);
    var c := Run(m, WholeBoot(1, None, 7));
    var n := Next(c, 0, StrayCreate(8));
    StrayArrives(c, 0, 8);
    assert At(c, 2) == At(m, 2) == Idle && At(n, 2) == At(c, 2);
    BootAnswers(n, 2, None, 9);
    NoneOfTwo(7, 8);
  }

  lemma EmptyBootCreates(w: World, p: Pid, id: StoreId)
    requires Inv(w) && w.lock == None && At(w, p).Idle? && id !in w.live && w.table && w.row == None && w.named == {}
    ensures var n := Run(w, WholeBoot(p, None, id));
      n.row == Some(id) && n.named == {id} && n.live == w.live + {id} && n.made == w.made + {id} && n.strays == w.strays
      && n.adrift == w.adrift && n.lost == w.lost && n.lock == None && n.table
      && forall x: Pid :: x != p ==> At(n, x) == At(w, x)
  {
    hide Next, Run, Inv, Candidate;
    BootAnswers(w, p, None, id);
    OnlyCandidate(0);
  }

  lemma SessionIsLost(w: World)
    requires w == World(true, None, {}, {}, {}, {}, None, map[], 0, {}, 0)
    ensures Run(w, [(0, Boot(None)), (0, Acquire), (0, ReadRow), (0, LoseSession)])
            == World(true, None, {}, {}, {}, {}, None, map[0 := Idle], 1, {}, 1)
  {
    hide Candidate, Verdict;
    var steps := [(0, Boot(None)), (0, Acquire), (0, ReadRow), (0, LoseSession)];
    var a := Next(w, 0, Boot(None));
    var b := Next(a, 0, Acquire);
    var c := Next(b, 0, ReadRow);
    var d := Next(c, 0, LoseSession);
    assert c.procs == map[0 := HasRead(None, None)] && d.procs == map[0 := Idle];
    assert steps[0..] == steps;
    UnfoldRun(w, steps, 0);
    UnfoldRun(a, steps, 1);
    UnfoldRun(b, steps, 2);
    UnfoldRun(c, steps, 3);
  }

  lemma StrayArrives(w: World, p: Pid, f: StoreId)
    ensures Next(w, p, StrayCreate(f)) ==
            if w.adrift == 0 || f in w.live then w
            else w.(adrift := w.adrift - 1, live := w.live + {f}, named := w.named + {f}, strays := w.strays + {f})
  {
    hide Verdict, Candidate;
  }

  lemma NoneOfTwo(a: StoreId, b: StoreId)
    requires a != b
    ensures Candidate(None, {a, b}) == None
  {
    assert a in {a, b} && b in {a, b};
  }

  lemma CrashLeavesStore(w: World, p: Pid)
    requires Inv(w) && At(w, p).Created? && w.strays == {}
    ensures var d := Next(w, p, Crash);
      d.named == {At(w, p).store} && d.row == None && d.lock == None && d.table && d.live == w.live && d.made == w.made
      && At(w, p).store in d.live
  {
    assert Knows(w, At(w, p));
  }

  lemma OnlyCandidate(s: StoreId)
    ensures Candidate(None, {s}) == Some(Some(s)) && Candidate(None, {}) == Some(None)
  {
    assert s in {s};
  }

  lemma HolderKnows(w: World, p: Pid)
    requires Inv(w)
    ensures Knows(w, At(w, p)) && w.made <= w.named <= w.live
  {}

  lemma StartIsInv(w: World)
    requires Start(w)
    ensures Inv(w)
  {}

  lemma LiveIsAdopted(s: StoreId, live: set<StoreId>)
    requires s in live
    ensures Verdict(None, Some(s), live) == Adopt(s)
  {}
}

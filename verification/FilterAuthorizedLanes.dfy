/** The chunks of one wave run concurrently and add to one shared set; the order of their replies does
    not matter. */
module FilterAuthorizedLanes {
  import opened FilterAuthorized

  /** The shared set, and how many of its trips each chunk of the wave has had answered. */
  datatype Wave = Wave(out: set<Id>, made: seq<nat>)

  /** The chunks `from..to` of a request, running together. */
  datatype Group = Group(env: Env, chunks: seq<seq<Id>>, from: nat, to: nat) {
    predicate Valid() { from <= to <= |chunks| }

    function Trips(l: nat): seq<Trip>
      requires Valid() && l < to - from
    { ChunkTrips(env, from + l, chunks[from + l]) }
  }

  predicate Progress(g: Group, w: Wave)
    requires g.Valid()
  {
    |w.made| == g.to - g.from && forall l :: 0 <= l < |w.made| ==> w.made[l] <= |g.Trips(l)|
  }

  function Start(g: Group, base: set<Id>): (w: Wave)
    requires g.Valid()
    ensures w.out == base && |w.made| == g.to - g.from && forall l :: 0 <= l < |w.made| ==> w.made[l] == 0
  { Wave(base, seq(g.to - g.from, _ => 0)) }

  /** The reply to the next trip of lane `l` arrives; a lane with no trip left does nothing. */
  function Deliver(g: Group, w: Wave, l: nat): (w': Wave)
    requires g.Valid() && Progress(g, w)
    ensures Progress(g, w')
  {
    if l < |w.made| && w.made[l] < |g.Trips(l)| then
      Wave(w.out + GivenIn(g.env, g.Trips(l)[w.made[l]]), w.made[l := w.made[l] + 1])
    else w
  }

  /** The replies arrive in the order of `schedule`. */
  function Deliveries(g: Group, w: Wave, schedule: seq<nat>): (w': Wave)
    requires g.Valid() && Progress(g, w)
    ensures Progress(g, w')
    decreases |schedule|
  {
    if schedule == [] then w else Deliveries(g, Deliver(g, w, schedule[0]), schedule[1..])
  }

  predicate Finished(g: Group, w: Wave)
    requires g.Valid() && Progress(g, w)
  { forall l :: 0 <= l < |w.made| ==> w.made[l] == |g.Trips(l)| }

  /** What the answered trips of the first `n` lanes have granted so far. */
  function GrantedSoFar(g: Group, w: Wave, n: nat): set<Id>
    requires g.Valid() && Progress(g, w) && n <= |w.made|
  {
    if n == 0 then {} else GrantedSoFar(g, w, n - 1) + GivenBy(g.env, g.Trips(n - 1)[..w.made[n - 1]])
  }

  lemma {:induction false} DeliverGrants(g: Group, w: Wave, l: nat, n: nat)
    requires g.Valid() && Progress(g, w) && l < |w.made| && w.made[l] < |g.Trips(l)| && n <= |w.made|
    ensures GrantedSoFar(g, Deliver(g, w, l), n) ==
      GrantedSoFar(g, w, n) + if l < n then GivenIn(g.env, g.Trips(l)[w.made[l]]) else {}
  {
    hide ChunkTrips, GivenBy, GivenIn;
    if n > 0 {
      DeliverGrants(g, w, l, n - 1);
      if l == n - 1 {
        var trips, m := g.Trips(l), w.made[l];
        assert trips[..m + 1] == trips[..m] + [trips[m]];
        GivenByAppend(g.env, trips[..m], trips[m]);
      }
    }
  }

  lemma {:induction false} DeliveriesGrant(g: Group, w: Wave, schedule: seq<nat>, base: set<Id>)
    requires g.Valid() && Progress(g, w) && w.out == base + GrantedSoFar(g, w, |w.made|)
    ensures var w' := Deliveries(g, w, schedule); w'.out == base + GrantedSoFar(g, w', |w'.made|)
    decreases |schedule|
  {
    hide ChunkTrips, GivenIn, GrantedSoFar;
    if schedule != [] {
      var l := schedule[0];
      if l < |w.made| && w.made[l] < |g.Trips(l)| { DeliverGrants(g, w, l, |w.made|); }
      DeliveriesGrant(g, Deliver(g, w, l), schedule[1..], base);
    }
  }

  lemma {:induction false} StartGrants(g: Group, w: Wave, n: nat)
    requires g.Valid() && Progress(g, w) && n <= |w.made| && forall l :: 0 <= l < |w.made| ==> w.made[l] == 0
    ensures GrantedSoFar(g, w, n) == {}
  {
    hide ChunkTrips, GivenIn;
    if n > 0 { StartGrants(g, w, n - 1); }
  }

  lemma {:induction false} FinishedGrants(g: Group, w: Wave, n: nat)
    requires g.Valid() && Progress(g, w) && Finished(g, w) && n <= |w.made|
    ensures GrantedSoFar(g, w, n) == GivenBy(g.env, TripsIn(g.env, g.chunks, g.from, g.from + n))
  {
    hide ChunkTrips, GivenBy;
    NoTrips(g.env, g.chunks, g.from);
    if n > 0 {
      FinishedGrants(g, w, n - 1);
      var trips := g.Trips(n - 1);
      assert trips[..w.made[n - 1]] == trips;
      TripsInExtends(g.env, g.chunks, g.from, g.from + n - 1);
      GivenByConcat(g.env, TripsIn(g.env, g.chunks, g.from, g.from + n - 1), trips);
    }
  }

  /** However the replies of a wave interleave, when all its trips are answered the shared set has grown
      by exactly what running the chunks one after the other adds. */
  lemma InterleavingIsIrrelevant(g: Group, base: set<Id>, schedule: seq<nat>)
    requires g.Valid() && Finished(g, Deliveries(g, Start(g, base), schedule))
    ensures Deliveries(g, Start(g, base), schedule).out
         == base + GivenBy(g.env, TripsIn(g.env, g.chunks, g.from, g.to))
  {
    hide ChunkTrips, GivenBy, GrantedSoFar, TripsIn, Deliveries, Finished, Start;
    var w := Start(g, base);
    StartGrants(g, w, |w.made|);
    DeliveriesGrant(g, w, schedule, base);
    FinishedGrants(g, Deliveries(g, w, schedule), g.to - g.from);
  }
}

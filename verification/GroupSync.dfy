/** Mirroring members' groups into the authorization store: one member's diff is made true of a store that
    may be stale and may fail at any call, and each connection's claim is a slice of the union. */
module GroupSync {
  import opened Text

  /** `group:<gid>#member@user:<sub>` */
  datatype Membership = Membership(sub: string, gid: string)

  datatype Answer = Done | AlreadyConverged | Failed

  /** What the network makes of one call: it works, or it fails before or after the store acted. */
  datatype Fate = Works | FailsBefore | FailsAfter

  const MAX_BATCH := 100

  function ToSet(ts: seq<Membership>): set<Membership> { set t | t in ts }

  predicate Distinct(ts: seq<Membership>) { forall i, j :: 0 <= i < j < |ts| ==> ts[i] != ts[j] }

  /** The group tuples of the store, and the fates of the calls still to come; later calls work. */
  class FgaGroups {
    var tuples: set<Membership>
    var fates: seq<Fate>

    constructor (tuples: set<Membership>, fates: seq<Fate>)
      ensures this.tuples == tuples && this.fates == fates
    {
      this.tuples, this.fates := tuples, fates;
    }

    method NextFate() returns (f: Fate)
      modifies this`fates
    {
      f := Works;
      if fates != [] { f, fates := fates[0], fates[1..]; }
    }

    /** A batch is refused whole when a tuple is already there, or twice in it, or it is too long. */
    method Write(batch: seq<Membership>) returns (a: Answer)
      modifies this
      ensures a == Done ==> tuples == old(tuples) + ToSet(batch)
      ensures a != Done ==> tuples == old(tuples) || tuples == old(tuples) + ToSet(batch)
      ensures a == AlreadyConverged && |batch| == 1 ==> batch[0] in old(tuples)
    {
      var f := NextFate();
      var taken := |batch| <= MAX_BATCH && Distinct(batch) && ToSet(batch) !! tuples;
      if f != FailsBefore && taken { tuples := tuples + ToSet(batch); }
      a := if f != Works then Failed else if taken then Done
           else if exists t :: t in batch && t in tuples then AlreadyConverged else Failed;
    }

    /** A batch is refused whole when a tuple is missing, or twice in it, or it is too long. */
    method Delete(batch: seq<Membership>) returns (a: Answer)
      modifies this
      ensures a == Done ==> tuples == old(tuples) - ToSet(batch)
      ensures a != Done ==> tuples == old(tuples) || tuples == old(tuples) - ToSet(batch)
      ensures a == AlreadyConverged && |batch| == 1 ==> batch[0] !in old(tuples)
    {
      var f := NextFate();
      var taken := |batch| <= MAX_BATCH && Distinct(batch) && ToSet(batch) <= tuples;
      if f != FailsBefore && taken { tuples := tuples - ToSet(batch); }
      a := if f != Works then Failed else if taken then Done
           else if exists t :: t in batch && t !in tuples then AlreadyConverged else Failed;
    }
  }

  // ---------------------------------------------------------------- one member

  /** `groupFgaId` for one tenant. */
  type GroupId = string -> string

  ghost predicate Injective(gid: GroupId) { forall x, y :: gid(x) == gid(y) ==> x == y }

  /** The tuples of the names in `a` that are not in `b`. */
  function Only(gid: GroupId, sub: string, a: seq<string>, b: seq<string>): (ts: seq<Membership>)
    ensures forall t :: t in ts <==> exists g :: g in a && g !in b && t == Membership(sub, gid(g))
  {
    if a == [] then []
    else
      assert forall g :: g in a <==> g == a[0] || g in a[1..];
      (if a[0] !in b then [Membership(sub, gid(a[0]))] else []) + Only(gid, sub, a[1..], b)
  }

  /** The batch first; if it fails, tuple by tuple, where finding the goal already met is success. */
  method ConvergeWrites(fga: FgaGroups, ts: seq<Membership>) returns (ok: bool)
    modifies fga
    ensures ok ==> fga.tuples == old(fga.tuples) + ToSet(ts)
    ensures old(fga.tuples) <= fga.tuples <= old(fga.tuples) + ToSet(ts)
  {
    if ts == [] { return true; }
    var a := fga.Write(ts);
    if a == Done { return true; }
    for i := 0 to |ts|
      invariant old(fga.tuples) + ToSet(ts[..i]) <= fga.tuples <= old(fga.tuples) + ToSet(ts)
    {
      ghost var before := fga.tuples;
      a := fga.Write([ts[i]]);
      assert ToSet([ts[i]]) == {ts[i]};
      assert before <= fga.tuples <= before + {ts[i]};
      if a == Failed { return false; }
      assert ts[..i + 1] == ts[..i] + [ts[i]];
      assert ToSet(ts[..i + 1]) == ToSet(ts[..i]) + {ts[i]};
    }
    assert ts[..|ts|] == ts;
    return true;
  }

  method ConvergeDeletes(fga: FgaGroups, ts: seq<Membership>) returns (ok: bool)
    modifies fga
    ensures ok ==> fga.tuples == old(fga.tuples) - ToSet(ts)
    ensures old(fga.tuples) - ToSet(ts) <= fga.tuples <= old(fga.tuples)
  {
    if ts == [] { return true; }
    var a := fga.Delete(ts);
    if a == Done { return true; }
    for i := 0 to |ts|
      invariant old(fga.tuples) - ToSet(ts) <= fga.tuples <= old(fga.tuples) - ToSet(ts[..i])
    {
      ghost var before := fga.tuples;
      a := fga.Delete([ts[i]]);
      assert ToSet([ts[i]]) == {ts[i]};
      assert before - {ts[i]} <= fga.tuples <= before;
      if a == Failed { return false; }
      assert ts[..i + 1] == ts[..i] + [ts[i]];
      assert ToSet(ts[..i + 1]) == ToSet(ts[..i]) + {ts[i]};
    }
    assert ts[..|ts|] == ts;
    return true;
  }

  /** The group named `g` is one the diff is about. */
  predicate Differs(prev: seq<string>, next: seq<string>, g: string) { (g in prev) != (g in next) }

  /** What the store holds of `t` once the diff has been made true: the diff decides for the member's groups
      that changed, and for nothing else. */
  ghost predicate Wanted(gid: GroupId, sub: string, prev: seq<string>, next: seq<string>, was: bool, t: Membership) {
    if exists g :: Differs(prev, next, g) && t == Membership(sub, gid(g))
    then exists g :: Differs(prev, next, g) && t == Membership(sub, gid(g)) && g in next
    else was
  }

  /** `after` is as far as an attempt that failed can have brought `before`. */
  ghost predicate PartWay(gid: GroupId, sub: string, prev: seq<string>, next: seq<string>,
                          before: set<Membership>, after: set<Membership>)
  {
    forall t :: (t in after ==> t in before || Wanted(gid, sub, prev, next, false, t))
                && (t in before && Wanted(gid, sub, prev, next, true, t) ==> t in after)
  }

  /** `syncMemberGroups`: whatever the store held and however calls failed on the way, a normal return leaves
      exactly the diff made true; a throw leaves part of it. */
  method SyncMemberGroups(fga: FgaGroups, gid: GroupId, sub: string, prev: seq<string>, next: seq<string>)
    returns (ok: bool)
    requires Injective(gid)
    modifies fga
    ensures ok ==> forall t :: t in fga.tuples <==> Wanted(gid, sub, prev, next, t in old(fga.tuples), t)
    ensures PartWay(gid, sub, prev, next, old(fga.tuples), fga.tuples)
  {
    var added, removed := Only(gid, sub, next, prev), Only(gid, sub, prev, next);
    ghost var before := fga.tuples;
    DiffIs(gid, sub, prev, next, before);
    hide Wanted, Injective;
    ok := ConvergeWrites(fga, added);
    if ok { ok := ConvergeDeletes(fga, removed); }
  }

  lemma DiffIs(gid: GroupId, sub: string, prev: seq<string>, next: seq<string>, s: set<Membership>)
    requires Injective(gid)
    ensures var a, r := ToSet(Only(gid, sub, next, prev)), ToSet(Only(gid, sub, prev, next));
      && a !! r
      && (forall t :: t in (s + a) - r <==> Wanted(gid, sub, prev, next, t in s, t))
      && (forall x: set<Membership> :: s - r <= x <= s + a ==> PartWay(gid, sub, prev, next, s, x))
  {
    var a, r := ToSet(Only(gid, sub, next, prev)), ToSet(Only(gid, sub, prev, next));
    forall t ensures t in a ==> t !in r && Wanted(gid, sub, prev, next, false, t) && Wanted(gid, sub, prev, next, true, t)
      ensures t in r ==> !Wanted(gid, sub, prev, next, true, t) && !Wanted(gid, sub, prev, next, false, t)
      ensures t !in a && t !in r ==> Wanted(gid, sub, prev, next, true, t) && !Wanted(gid, sub, prev, next, false, t)
    {
      if t in a {
        var g :| g in next && g !in prev && t == Membership(sub, gid(g));
        assert Differs(prev, next, g);
      }
      if t in r {
        var g :| g in prev && g !in next && t == Membership(sub, gid(g));
        assert Differs(prev, next, g);
      }
    }
  }
}

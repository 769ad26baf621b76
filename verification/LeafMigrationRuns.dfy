/** The migration over whole schedules: pages visited in any order and any number of times, each visit cut
    short anywhere between two batches or run to its end. */
module LeafMigrationRuns {
  import opened Text
  import opened LeafMigration
  import opened LeafMigrationLaws

  /** One visit of the script to a page: the tuples it read, and how many writes and deletes it got through
      before it ended or crashed. */
  datatype Visit = Visit(obj: string, keys: seq<Tuple>, m: nat, n: nat)

  ghost predicate Legal(s: Store, v: Visit) {
    && Lists(s, v.obj, v.keys)
    && v.m <= |Writes(v.obj, v.keys)| && v.n <= |StaleKeys(v.keys)|
    && (v.n > 0 ==> v.m == |Writes(v.obj, v.keys)|)
  }

  predicate Finished(v: Visit) { v.m == |Writes(v.obj, v.keys)| && v.n == |StaleKeys(v.keys)| }

  ghost function Step(s: Store, v: Visit): Store {
    if Legal(s, v) then Partial(s, v.obj, v.keys, v.m, v.n) else s
  }

  ghost predicate LegalRun(s: Store, visits: seq<Visit>)
    decreases |visits|
  {
    visits == [] || (Legal(s, visits[0]) && LegalRun(Step(s, visits[0]), visits[1..]))
  }

  ghost function Run(s: Store, visits: seq<Visit>): Store
    decreases |visits|
  {
    if visits == [] then s else Run(Step(s, visits[0]), visits[1..])
  }

  /** `s` lies between the store before and the migrated one. */
  ghost predicate BetweenAll(s0: Store, s: Store) {
    && (forall q: Key :: Moves(q) && q in s ==> Get(s, q) == Get(s0, q))
    && (forall q: Key :: Moves(q) && q in s0 && q !in s ==> LeafKey(q) in s)
    && (forall q: Key :: !Moves(q) && q in s0 ==> Get(s, q) == Get(s0, q))
    && (forall q: Key :: !Moves(q) && q in s && q !in s0 ==> Get(s, q) == After(s0, q))
  }

  lemma PageIsBetweenAll(s0: Store, s: Store, obj: string)
    requires Between(s0, s, obj)
    ensures BetweenAll(s0, s)
  {
    hide Moves, After;
    forall q: Key | Moves(q) && q in s0 && q !in s ensures LeafKey(q) in s {
      assert q.obj != obj ==> Get(s, q) == Get(s0, q);
    }
  }

  lemma SpaceIsKept(s0: Store, s: Store, obj: string)
    requires BetweenAll(s0, s)
    ensures SpaceLinked(s, obj) <==> SpaceLinked(s0, obj)
  {
    forall k: Key | k.obj == obj && k.relation == "space" ensures k in s <==> k in s0 {
      assert !Moves(k) && OldKey(k) == None && !IsMarker(k);
    }
  }

  /** What the migrated store will be can be read off any moment on the way. */
  lemma TargetIsFixed(s0: Store, s: Store, q: Key)
    requires BetweenAll(s0, s)
    ensures After(s, q) == After(s0, q)
  {
    hide Moves, LeafKey, OldKey, SpaceLinked, IsMarker;
    SpaceIsKept(s0, s, q.obj);
    if !Moves(q) && q !in s && OldKey(q).Some? {
      OldKeyIs(q);
    }
  }

  lemma BetweenTransitive(s0: Store, s: Store, t: Store)
    requires BetweenAll(s0, s) && BetweenAll(s, t)
    ensures BetweenAll(s0, t)
  {
    hide Moves, After;
    forall q: Key | Moves(q) && q in s0 && q !in t ensures LeafKey(q) in t {
      if q !in s {
        LeafKeyInjective(q, q);
        assert Get(t, LeafKey(q)) == Get(s, LeafKey(q));
      }
    }
    forall q: Key | !Moves(q) && q in t && q !in s0 ensures Get(t, q) == After(s0, q) { TargetIsFixed(s0, s, q); }
  }

  lemma BetweenReflexive(s: Store)
    ensures BetweenAll(s, s)
  {}

  lemma StepIsBetween(s: Store, v: Visit)
    requires Legal(s, v)
    ensures Between(s, Step(s, v), v.obj) && BetweenAll(s, Step(s, v))
    ensures Finished(v) ==> Migrated(s, Step(s, v), v.obj)
  {
    hide Between, BetweenAll, Lists, Migrated, Partial;
    PartialIsBetween(s, v.obj, v.keys, v.m, v.n);
    PageIsBetweenAll(s, Step(s, v), v.obj);
    if Finished(v) { CompletedIsMigrated(s, v.obj, v.keys); }
  }

  lemma {:induction false} RunIsBetween(s: Store, visits: seq<Visit>)
    requires LegalRun(s, visits)
    ensures BetweenAll(s, Run(s, visits))
    ensures forall q: Key :: (forall i :: 0 <= i < |visits| ==> visits[i].obj != q.obj) ==> Get(Run(s, visits), q) == Get(s, q)
    decreases |visits|
  {
    hide BetweenAll, Step, Legal;
    if visits == [] {
      BetweenReflexive(s);
    } else {
      var t := Step(s, visits[0]);
      StepIsBetween(s, visits[0]);
      RunIsBetween(t, visits[1..]);
      BetweenTransitive(s, t, Run(t, visits[1..]));
      forall q: Key | forall i :: 0 <= i < |visits| ==> visits[i].obj != q.obj ensures Get(Run(s, visits), q) == Get(s, q) {
        assert visits[0].obj != q.obj;
        assert forall i :: 0 <= i < |visits[1..]| ==> visits[1..][i].obj != q.obj;
      }
    }
  }

  lemma MigratedStays(s0: Store, s: Store, t: Store, obj: string)
    requires BetweenAll(s0, s) && BetweenAll(s, t) && Migrated(s0, s, obj)
    ensures Migrated(s0, t, obj)
  {
    hide Moves, After, Between;
    forall q: Key | q.obj == obj ensures Get(t, q) == After(s0, q) {
      TargetIsFixed(s0, s, q);
      MovedIsGone(s0, q);
      if q !in s && q in t && !Moves(q) { assert Get(t, q) == After(s, q) == Get(s, q); }
    }
  }

  /** Promised by a later moment is promised by an earlier one. */
  lemma MigratedFromBefore(s: Store, t: Store, u: Store, obj: string)
    requires BetweenAll(s, t) && Migrated(t, u, obj)
    ensures Migrated(s, u, obj)
  {
    hide BetweenAll, After;
    forall q: Key | q.obj == obj ensures Get(u, q) == After(s, q) { TargetIsFixed(s, t, q); }
  }

  lemma MigratedReads(s0: Store, s: Store, q: Key)
    requires Migrated(s0, s, q.obj)
    ensures Get(s, q) == After(s0, q)
  {
    hide After;
  }

  lemma {:induction false} FinishedPageIsMigrated(s: Store, visits: seq<Visit>, k: nat)
    requires LegalRun(s, visits) && k < |visits| && Finished(visits[k])
    ensures Migrated(s, Run(s, visits), visits[k].obj)
    decreases |visits|
  {
    hide BetweenAll, Step, Legal, Migrated, Finished;
    var t := Step(s, visits[0]);
    var obj := visits[k].obj;
    StepIsBetween(s, visits[0]);
    RunIsBetween(t, visits[1..]);
    if k == 0 {
      MigratedStays(s, t, Run(t, visits[1..]), obj);
    } else {
      assert visits[1..][k - 1] == visits[k];
      FinishedPageIsMigrated(t, visits[1..], k - 1);
      MigratedFromBefore(s, t, Run(s, visits), obj);
    }
  }

  /** Whatever crashed and was run again on the way, each page that was once visited to its end reads exactly
      as the store before the migration promised, and a page never visited reads as it did. */
  lemma FinalStoreIsFixed(s: Store, visits: seq<Visit>, q: Key)
    requires LegalRun(s, visits)
    ensures (exists k :: 0 <= k < |visits| && visits[k].obj == q.obj && Finished(visits[k]))
            ==> Get(Run(s, visits), q) == After(s, q)
    ensures (forall k :: 0 <= k < |visits| ==> visits[k].obj != q.obj) ==> Get(Run(s, visits), q) == Get(s, q)
  {
    hide LegalRun, Run, Finished, After, Get, BetweenAll;
    RunIsBetween(s, visits);
    if k :| 0 <= k < |visits| && visits[k].obj == q.obj && Finished(visits[k]) { FinishedPageIsMigrated(s, visits, k); }
  }

  /** At every moment of every schedule an original grant is there in its old form, unchanged, or in its leaf
      form; and the leaf has the grant's own condition exactly when no leaf with another condition was there
      before the migration, which the script does not compare. */
  lemma EveryGrantStands(s: Store, visits: seq<Visit>, q: Key)
    requires LegalRun(s, visits) && q in s && Moves(q)
    ensures var t := Run(s, visits);
      (q in t && t[q] == s[q])
      || (LeafKey(q) in t
          && (t[LeafKey(q)] == s[q] <==> LeafKey(q) !in s || s[LeafKey(q)] == s[q]))
  {
    hide LegalRun, Run, Moves;
    RunIsBetween(s, visits);
    LeafKeyInjective(q, q);
    if q !in Run(s, visits) { assert LeafKey(q) in Run(s, visits); }
  }

  /** A page with an unconditional grant and a leaf that expires: migrating it loses the unconditional grant. */
  lemma ConditionCanBeReplaced()
    ensures var grant := Key("user:a", "view_base", "page:1");
      var s := map[grant := None, LeafKey(grant) := Some("non_expired")];
      forall keys :: Lists(s, "page:1", keys) ==>
        var t := Step(s, Visit("page:1", keys, |Writes("page:1", keys)|, |StaleKeys(keys)|));
        grant !in t && Get(t, LeafKey(grant)) == Some(Some("non_expired"))
  {
    hide Lists, Writes, StaleKeys, Migrated;
    var grant := Key("user:a", "view_base", "page:1");
    var s := map[grant := None, LeafKey(grant) := Some("non_expired")];
    forall keys | Lists(s, "page:1", keys)
      ensures var t := Step(s, Visit("page:1", keys, |Writes("page:1", keys)|, |StaleKeys(keys)|));
        grant !in t && Get(t, LeafKey(grant)) == Some(Some("non_expired"))
    {
      var v := Visit("page:1", keys, |Writes("page:1", keys)|, |StaleKeys(keys)|);
      StepIsBetween(s, v);
      MigratedReads(s, Step(s, v), grant);
      MigratedReads(s, Step(s, v), LeafKey(grant));
    }
  }

  /** A run over a migrated page has nothing left to do. */
  lemma MigratedPageNeedsNothing(s: Store, visits: seq<Visit>, k: nat, keys: seq<Tuple>)
    requires LegalRun(s, visits) && k < |visits| && Finished(visits[k])
    requires Lists(Run(s, visits), visits[k].obj, keys)
    ensures Writes(visits[k].obj, keys) == [] && StaleKeys(keys) == []
  {
    hide LegalRun, Run, Finished, Writes, StaleKeys, BetweenAll, OldKey, SpaceLinked, Moves, LeafKey;
    var t, obj := Run(s, visits), visits[k].obj;
    RunIsBetween(s, visits);
    FinishedPageIsMigrated(s, visits, k);
    if Writes(obj, keys) != [] {
      var x := Writes(obj, keys)[0];
      assert x in Writes(obj, keys);
      WritesAreExact(t, obj, keys, x);
      TargetIsFixed(s, t, x.key);
    }
    if StaleKeys(keys) != [] {
      var d := StaleKeys(keys)[0];
      assert d in StaleKeys(keys);
      InStaleKeys(keys, d);
      MovedIsGone(s, d);
    }
  }
}

/** When the caches' two promises fail: which ids share a key, and when the tree's invalidator may fire without
    the dictionary's. */
module CacheInvalidation {
  import Text
  import opened OrderedCache
  import opened ViewerCaches
  import opened CacheRaces

  // ---------------------------------------------------------------- shared keys

  /** Two joins with one separator between parts that hold none part at the same place. */
  lemma DictSplit(t: string, s: string, t2: string, s2: string)
    requires FreeOf(t, '\0') && FreeOf(s, '\0') && DictKey(t2, s2) == DictKey(t, s)
    ensures t2 == t && s2 == s
  {
    var key := DictKey(t, s);
    assert forall i :: 0 <= i < |key| && key[i] == '\0' ==> i == |t|;
    assert key[|t2|] == '\0';
    assert key[..|t|] == t && key[..|t2|] == t2 && key[|t| + 1..] == s && key[|t2| + 1..] == s2;
  }

  /** Another tenant or subject has the same dictionary key exactly when one of the two holds the separator. */
  lemma DictKeyClashesExactly(t: string, s: string)
    ensures (exists t2, s2 :: (t2, s2) != (t, s) && DictKey(t2, s2) == DictKey(t, s)) <==> !FreeOf(t, '\0') || !FreeOf(s, '\0')
  {
    if !FreeOf(t, '\0') {
      var i :| 0 <= i < |t| && t[i] == '\0';
      assert t == t[..i] + "\0" + t[i + 1..];
      assert DictKey(t[..i], t[i + 1..] + "\0" + s) == DictKey(t, s);
    } else if !FreeOf(s, '\0') {
      var i :| 0 <= i < |s| && s[i] == '\0';
      assert s == s[..i] + "\0" + s[i + 1..];
      assert DictKey(t + "\0" + s[..i], s[i + 1..]) == DictKey(t, s);
    } else {
      forall t2, s2 | DictKey(t2, s2) == DictKey(t, s) ensures (t2, s2) == (t, s) { DictSplit(t, s, t2, s2); }
    }
  }

  lemma TreeSplit(t: string, s: string, p: string, t2: string, s2: string, p2: string)
    requires FreeOf(t, ' ') && FreeOf(s, ' ') && FreeOf(p, ' ') && TreeKey(t2, s2, p2) == TreeKey(t, s, p)
    ensures t2 == t && s2 == s && p2 == p
  {
    var key := TreeKey(t, s, p);
    var a, b, a2, b2 := |t|, |t| + 1 + |s|, |t2|, |t2| + 1 + |s2|;
    assert forall i :: 0 <= i < |key| && key[i] == ' ' ==> i == a || i == b;
    assert key[a2] == ' ' && key[b2] == ' ';
    assert key[..a] == t && key[a + 1..b] == s && key[b + 1..] == p;
    assert key[..a2] == t2 && key[a2 + 1..b2] == s2 && key[b2 + 1..] == p2;
  }

  /** Another tenant, subject or space has the same tree key exactly when one of the three holds a blank. */
  lemma TreeKeyClashesExactly(t: string, s: string, p: string)
    ensures (exists t2, s2, p2 :: (t2, s2, p2) != (t, s, p) && TreeKey(t2, s2, p2) == TreeKey(t, s, p))
            <==> !FreeOf(t, ' ') || !FreeOf(s, ' ') || !FreeOf(p, ' ')
  {
    if !FreeOf(t, ' ') {
      var i :| 0 <= i < |t| && t[i] == ' ';
      assert t == t[..i] + " " + t[i + 1..];
      assert TreeKey(t[..i], t[i + 1..], s + " " + p) == TreeKey(t, s, p);
      assert t[..i] != t;
    } else if !FreeOf(s, ' ') {
      var i :| 0 <= i < |s| && s[i] == ' ';
      assert s == s[..i] + " " + s[i + 1..];
      assert TreeKey(t, s[..i], s[i + 1..] + " " + p) == TreeKey(t, s, p);
      assert s[..i] != s;
    } else if !FreeOf(p, ' ') {
      var i :| 0 <= i < |p| && p[i] == ' ';
      assert p == p[..i] + " " + p[i + 1..];
      assert TreeKey(t, s + " " + p[..i], p[i + 1..]) == TreeKey(t, s, p);
      assert s + " " + p[..i] != s;
    } else {
      forall t2, s2, p2 | TreeKey(t2, s2, p2) == TreeKey(t, s, p) ensures (t2, s2, p2) == (t, s, p) {
        TreeSplit(t, s, p, t2, s2, p2);
      }
    }
  }

  lemma OnlyEntryHits<V(!new)>(key: string, e: Entry<V>, asked: string)
    requires e.expires > 0
    ensures Hit([(key, e)], asked, 0).Some? <==> asked == key
  {
    var c: Ordered<V> := [(key, e)];
    assert c[1..] == [] && Lookup(c[1..], asked).None?;
  }

  /** Were the store to answer for one viewer, its verdicts would be served to another exactly when the two
      share a key. */
  lemma SharedKeyIsServedExactly(t: string, s: string, p: string, t2: string, s2: string, p2: string)
    ensures var w := Run(START, [OpenTree(0, t, s, p, 0), ReadStore(0), Finish(0, 0)]);
      Hit(w.tree, TreeKey(t2, s2, p2), 0).Some? <==> TreeKey(t2, s2, p2) == TreeKey(t, s, p)
  {
    var a := [OpenTree(0, t, s, p, 0), ReadStore(0), Finish(0, 0)];
    hide TreeKey;
    var w1 := Next(START, a[0]);
    var w2 := Next(w1, a[1]);
    var w3 := Next(w2, a[2]);
    assert w3.tree == [(TreeKey(t, s, p), Entry(Filled(t, s, p, 0, 2), TTL_MS))];
    OnlyEntryHits(TreeKey(t, s, p), Entry(Filled(t, s, p, 0, 2), TTL_MS), TreeKey(t2, s2, p2));
    assert a[1..][1..] == a[2..] && a[2..][1..] == [];
    assert Run(START, a) == Run(w1, a[1..]) == Run(w2, a[2..]) == Run(w3, []);
  }

  /** Nor could only a fill do that: a request that finds the shared entry would extend it with its own verdicts. */
  lemma SpacedSubjectExtendsAnothersVerdicts()
    ensures var w := Run(START, [OpenTree(0, "t", "a", "b c", 0), ReadStore(0), Finish(0, 0),
                                 OpenTree(1, "t", "a b", "c", 0), ReadStore(1), Finish(1, 0)]);
      var hit := Hit(w.tree, TreeKey("t", "a", "b c"), 0);
      hit.Some? && hit.value.viewer == Viewer("t", "a", "b c")
      && hit.value.askers == {Viewer("t", "a", "b c"), Viewer("t", "a b", "c")}
  {
    var a := [OpenTree(0, "t", "a", "b c", 0), ReadStore(0), Finish(0, 0),
              OpenTree(1, "t", "a b", "c", 0), ReadStore(1), Finish(1, 0)];
    var key := TreeKey("t", "a", "b c");
    assert key == TreeKey("t", "a b", "c");
    hide TreeKey, Run;
    var w2 := Next(Next(START, a[0]), a[1]);
    assert w2.jobs == map[0 := TreeFill("t", "a", "b c", 0, Text.Some(2))];
    var w3 := Next(w2, a[2]);
    var e := Entry(Filled("t", "a", "b c", 0, 2), TTL_MS);
    assert w3.tree == [(key, e)] && w3.jobs == map[];
    OneEntry(key, e);
    var w4 := Next(w3, a[3]);
    assert w4.tree == [(key, e)] && w4.jobs == map[1 := TreeDelta(Viewer("t", "a b", "c"), 0, Text.None)];
    var w5 := Next(w4, a[4]);
    var w6 := Next(w5, a[5]);
    var both := e.(value := Extended(e.value, Viewer("t", "a b", "c"), 0, 5));
    ExtendOne(key, e, Viewer("t", "a b", "c"), 5);
    assert w6.tree == [(key, both)];
    OneEntry(key, both);
    SixSteps(a);
  }

  lemma OneEntry(key: string, e: Entry<Confirm>)
    requires e.expires > 0
    ensures var c: Ordered<Confirm> := [(key, e)]; Lookup(c, key).Some? && Hit(c, key, 0).Some? && Hit(c, key, 0).value == e.value && AfterGet(c, key, 0) == c
  {
  }

  lemma ExtendOne(key: string, e: Entry<Confirm>, asker: Viewer, read: nat)
    ensures Extend([(key, e)], asker, e.value.serial, read) == [(key, e.(value := Extended(e.value, asker, e.value.serial, read)))]
  {
    assert [(key, e)][1..] == [];
  }

  lemma SixSteps(a: seq<Action>)
    requires |a| == 6
    ensures Run(START, a) == Next(Next(Next(Next(Next(Next(START, a[0]), a[1]), a[2]), a[3]), a[4]), a[5])
  {
    hide Next;
    assert a[0..] == a;
    OneStep(START, a, 0);
    OneStep(Next(START, a[0]), a, 1);
    OneStep(Next(Next(START, a[0]), a[1]), a, 2);
    var w3 := Next(Next(Next(START, a[0]), a[1]), a[2]);
    OneStep(w3, a, 3);
    OneStep(Next(w3, a[3]), a, 4);
    OneStep(Next(Next(w3, a[3]), a[4]), a, 5);
  }

  lemma OneStep(w: World, a: seq<Action>, k: nat)
    requires k < |a|
    ensures Run(w, a[k..]) == Run(Next(w, a[k]), a[k + 1..])
    ensures k + 1 == |a| ==> Run(w, a[k..]) == Next(w, a[k])
  {
    hide Next;
    assert a[k..][1..] == a[k + 1..];
  }

  // ---------------------------------------------------------------- everything read was read before now

  predicate JobPast(j: Job, now: nat) { !j.DictOpened? && j.read.Some? ==> j.read.value < now }

  ghost predicate Past(w: World) {
    && (forall x :: x in w.dict ==> x.1.value.oldest < w.now)
    && (forall x :: x in w.tree ==> x.1.value.oldest < w.now)
    && (forall k :: k in w.jobs ==> JobPast(w.jobs[k], w.now))
  }

  lemma FinishKeepsPast(w: World, job: nat, wall: int)
    requires Fresh(w) && Past(w) && job in w.jobs
    ensures Past(Next(w, Finish(job, wall)))
  {
    hide Store, DictKey, TreeKey, Extend, JobSound, AnswerFresh, ConfirmFresh, Bounded;
    assert JobPast(w.jobs[job], w.now);
    match w.jobs[job]
    case DictFill(t, s, _, Some(at)) => StoreIs(w.dict, DictKey(t, s), Answer(t, s, at), wall);
    case TreeFill(t, s, p, _, Some(at)) => StoreIs(w.tree, TreeKey(t, s, p), Filled(t, s, p, w.serial, at), wall);
    case TreeDelta(asker, serial, Some(at)) =>
      forall x | x in Extend(w.tree, asker, serial, at) ensures x.1.value.oldest < w.now { ExtendFrom(w.tree, asker, serial, at, x); }
    case _ =>
  }

  lemma NextKeepsPast(w: World, a: Action)
    requires Fresh(w) && Past(w)
    ensures Past(Next(w, a))
  {
    hide Store, AfterGet, Hit, DropPrefix, DictKey, TreeKey, Extend, FinishJob, JobSound, AnswerFresh, ConfirmFresh, Bounded;
    match a
    case OpenTree(job, t, s, p, wall) => GetIs(w.tree, TreeKey(t, s, p), wall);
    case Finish(job, wall) => if job in w.jobs { FinishKeepsPast(w, job, wall); }
    case GetDict(t, s, wall) => GetIs(w.dict, DictKey(t, s), wall);
    case InvalidateTenant(t) => DropPrefixIs(w.dict, DictKey(t, "")); DropPrefixIs(w.tree, t + " ");
    case ForgetTreeOnly(t) => DropPrefixIs(w.tree, t + " ");
    case _ =>
  }

  lemma {:induction false} RunKeepsPast(w: World, steps: seq<Action>)
    requires Fresh(w) && Past(w) && Ordinary(w, steps)
    ensures Past(Run(w, steps))
    decreases |steps|
  {
    hide Next, Fresh, Past, Named;
    if steps != [] {
      NextKeepsFresh(w, steps[0]);
      NextKeepsPast(w, steps[0]);
      RunKeepsPast(Next(w, steps[0]), steps[1..]);
    }
  }

  // ---------------------------------------------------------------- the tree's invalidator alone

  /** A fill for the tenant that has asked the authorization store and whose generation still stands. */
  predicate ReadFill(w: World, j: Job, t: string) {
    (j.DictFill? || j.TreeFill?) && j.tenant == t && j.seen == GenerationOf(w.generation, t) && j.read.Some?
  }

  /** Nothing computed for the tenant waits to be served or stored, but for what the tree's invalidator drops. */
  ghost predicate NothingComputed(w: World, t: string) {
    && (forall x :: x in w.dict ==> x.1.value.tenant != t)
    && (forall k :: k in w.jobs ==> !ReadFill(w, w.jobs[k], t))
  }

  /** No ordinary run from here ever answers with anything stale. */
  ghost predicate StaysCurrent(w: World) {
    forall steps, t, s, p, wall :: Ordinary(w, steps) ==> Current(Run(w, steps), t, s, p, wall)
  }

  lemma ForgetKeepsNames(w: World, t: string)
    requires Fresh(w) && CleanNames(w)
    ensures CleanNames(Next(w, ForgetTreeOnly(t)))
  {
    hide Fresh, CleanNames, Act;
    assert Named(w, ForgetTreeOnly(t));
    NextKeepsNames(w, ForgetTreeOnly(t));
  }

  lemma ForgetKeepsJob(w: World, t: string, j: Job)
    requires JobSound(w, j) && !ReadFill(w, j, t)
    requires forall x :: x in Next(w, ForgetTreeOnly(t)).tree ==> x in w.tree && x.1.value.viewer.tenant != t
    ensures JobSound(Next(w, ForgetTreeOnly(t)), j)
  {
    hide DropPrefix;
  }

  lemma ForgetKeepsFresh(w: World, t: string)
    requires Fresh(w) && NothingComputed(w, t)
    ensures Fresh(Next(w, ForgetTreeOnly(t)))
  {
    hide DropPrefix, Bounded;
    DropPrefixIs(w.tree, t + " ");
    var n := Next(w, ForgetTreeOnly(t));
    forall x | x in n.dict ensures AnswerFresh(n.changed, x) { assert AnswerFresh(w.changed, x); }
    forall x | x in n.tree ensures ConfirmFresh(n.changed, n.serial, x) && x.1.value.viewer.tenant != t {
      assert ConfirmFresh(w.changed, w.serial, x);
      assert x.1.value.viewer.tenant + " " <= x.0;
    }
    forall k | k in n.jobs ensures JobSound(n, n.jobs[k]) { ForgetKeepsJob(w, t, w.jobs[k]); }
    assert Bounded(n.dict);
    assert Bounded(n.tree);
    forall x ensures LastChange(n.changed, x) < n.now { assert LastChange(w.changed, x) < w.now; }
  }

  lemma FreshStaysCurrent(w: World)
    requires Fresh(w) && CleanNames(w)
    ensures StaysCurrent(w)
  {
    hide Run, Fresh, CleanNames, Current, Ordinary;
    forall steps, t, s, p, wall | Ordinary(w, steps) ensures Current(Run(w, steps), t, s, p, wall) {
      RunKeeps(w, steps);
      FreshIsCurrent(Run(w, steps), t, s, p, wall);
    }
  }

  /** An entry that is there answers at any moment before it expires. */
  lemma EntryHits<V(!new)>(c: Ordered<V>, key: string, e: Entry<V>, wall: int)
    requires Bounded(c) && (key, e) in c && wall < e.expires
    ensures Hit(c, key, wall).Some? && Hit(c, key, wall).value == e.value
  {
    hide Lookup;
    LookupIs(c, key, e);
  }

  lemma KeptAnswerIsStale(w: World, t: string, x: (string, Entry<Answer>))
    requires Fresh(w) && Past(w) && CleanNames(w) && x in w.dict && x.1.value.tenant == t
    ensures !StaysCurrent(Next(w, ForgetTreeOnly(t)))
  {
    hide Hit, DictKey, TreeKey, DropPrefix, FreeOf, JobSound;
    var n := Next(w, ForgetTreeOnly(t));
    var s, wall := x.1.value.subject, x.1.expires - 1;
    assert AnswerFresh(w.changed, x);
    EntryHits(n.dict, DictKey(t, s), x.1, wall);
    assert !Current(n, t, s, "", wall);
    assert Ordinary(n, []) && Run(n, []) == n;
  }

  lemma RunOne(w: World, a: Action)
    requires Named(w, a) && !a.ForgetTreeOnly?
    ensures Ordinary(w, [a]) && Run(w, [a]) == Next(w, a)
  {
    hide Next, Named;
    assert [a][1..] == [];
    assert Ordinary(Next(w, a), []);
    assert Run(Next(w, a), []) == Next(w, a);
  }

  /** After the tree's invalidator has fired alone, each such fill, let finish, is stored and answers its own
      viewer with what was read before the tenant's last change. */
  lemma StoredFillIsStale(w: World, t: string, k: nat)
    requires Fresh(w) && Past(w) && k in w.jobs && ReadFill(w, w.jobs[k], t)
    ensures var n := Next(Next(w, ForgetTreeOnly(t)), Finish(k, 0));
      var j := w.jobs[k];
      && j.read.value < LastChange(n.changed, t)
      && (j.DictFill? ==> HitsWith(n.dict, DictKey(t, j.subject), Answer(t, j.subject, j.read.value)))
      && (j.TreeFill? ==> HitsWith(n.tree, TreeKey(t, j.subject, j.space), Filled(t, j.subject, j.space, w.serial, j.read.value)))
  {
    hide Hit, DictKey, TreeKey, DropPrefix, FreeOf, JobSound, Store;
    var n := Next(w, ForgetTreeOnly(t));
    var j := w.jobs[k];
    var n2 := Next(n, Finish(k, 0));
    assert JobPast(j, w.now);
    DropPrefixIs(w.tree, t + " ");
    if j.DictFill? {
      var v := Answer(t, j.subject, j.read.value);
      StoreIs(n.dict, DictKey(t, j.subject), v, 0);
      EntryHits(n2.dict, DictKey(t, j.subject), Entry(v, TTL_MS), 0);
    } else {
      var v := Filled(t, j.subject, j.space, w.serial, j.read.value);
      StoreIs(n.tree, TreeKey(t, j.subject, j.space), v, 0);
      EntryHits(n2.tree, TreeKey(t, j.subject, j.space), Entry(v, TTL_MS), 0);
    }
  }

  predicate HitsWith<V(!new, ==)>(c: Ordered<V>, key: string, v: V) { Hit(c, key, 0).Some? && Hit(c, key, 0).value == v }

  lemma StoredFillEndsIt(w: World, t: string, k: nat)
    requires Fresh(w) && Past(w) && CleanNames(w) && k in w.jobs && ReadFill(w, w.jobs[k], t)
    ensures !StaysCurrent(Next(w, ForgetTreeOnly(t)))
  {
    hide Hit, DictKey, TreeKey, FreeOf, JobSound, Run, Ordinary, Next, Fresh, Past, StaysCurrent;
    var n, j := Next(w, ForgetTreeOnly(t)), w.jobs[k];
    assert CleanJob(w, j);
    StoredFillIsStale(w, t, k);
    assert !Current(Next(n, Finish(k, 0)), t, j.subject, if j.TreeFill? then j.space else "", 0);
    RunOne(n, Finish(k, 0));
    RunIsStale(n, [Finish(k, 0)], t, j.subject, if j.TreeFill? then j.space else "", 0);
  }

  lemma RunIsStale(w: World, steps: seq<Action>, t: string, s: string, p: string, wall: int)
    requires Ordinary(w, steps) && !Current(Run(w, steps), t, s, p, wall)
    ensures !StaysCurrent(w)
  {
    hide Run, Ordinary, Current;
  }

  lemma StartIsFresh()
    ensures Fresh(START) && CleanNames(START) && Past(START)
  {
  }

  /** After any ordinary run, the tree's invalidator may fire alone exactly when no dictionary of the tenant is
      cached and no fill for it, of either cache, has already read under the generation in force: then nothing
      stale is ever served, and otherwise some ordinary run after it serves something stale. */
  lemma LoneInvalidatorIsSafeExactly(before: seq<Action>, t: string)
    requires Ordinary(START, before)
    ensures var w := Run(START, before);
      StaysCurrent(Next(w, ForgetTreeOnly(t))) <==> NothingComputed(w, t)
  {
    hide Run, Next, Fresh, CleanNames, Past, StaysCurrent, ReadFill, Ordinary;
    var w := Run(START, before);
    StartIsFresh();
    RunKeeps(START, before);
    RunKeepsPast(START, before);
    if NothingComputed(w, t) {
      ForgetKeepsFresh(w, t);
      ForgetKeepsNames(w, t);
      FreshStaysCurrent(Next(w, ForgetTreeOnly(t)));
    } else if x :| x in w.dict && x.1.value.tenant == t {
      KeptAnswerIsStale(w, t, x);
    } else {
      var k :| k in w.jobs && ReadFill(w, w.jobs[k], t);
      StoredFillEndsIt(w, t, k);
    }
  }
}

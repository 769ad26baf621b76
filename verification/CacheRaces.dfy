/** Every interleaving of fills, reads and invalidations over the two viewer caches: nothing served from them
    was computed before the last invalidation of its tenant. Values record who they were computed for and
    the earliest moment any part of them was read from the authorization store. */
module CacheRaces {
  import opened Text
  import opened OrderedCache
  import opened ViewerCaches

  datatype Answer = Answer(tenant: string, subject: string, oldest: nat)

  /** Whom the authorization store was asked for, and where. */
  datatype Viewer = Viewer(tenant: string, subject: string, space: string)

  /** `serial` is the identity of the verdict map, which a later request may extend in place; `askers` are all
      for whom some of it was computed. */
  datatype Confirm = Confirm(viewer: Viewer, serial: nat, oldest: nat, askers: set<Viewer>)

  /** A request between its steps. `read` is when it asked the authorization store. */
  datatype Job =
    | DictOpened(tenant: string, subject: string)
    | DictFill(tenant: string, subject: string, seen: nat, read: Option<nat>)
    | TreeFill(tenant: string, subject: string, space: string, seen: nat, read: Option<nat>)
    | TreeDelta(asker: Viewer, serial: nat, read: Option<nat>)

  datatype World = World(
    now: nat, dict: Ordered<Answer>, tree: Ordered<Confirm>, generation: map<string, nat>,
    inflight: set<string>, jobs: map<nat, Job>, serial: nat, changed: map<string, nat>)

  datatype Action =
    | OpenDict(job: nat, tenant: string, subject: string)
    | CaptureDict(job: nat)
    | OpenTree(job: nat, tenant: string, subject: string, space: string, wall: int)
    | ReadStore(job: nat)
    | Finish(job: nat, wall: int)
    | Fail(job: nat)
    | GetDict(tenant: string, subject: string, wall: int)
    | InvalidateTenant(tenant: string)
    | ForgetTreeOnly(tenant: string)

  /** When the tenant's permissions last changed, in steps; 0 is never. */
  function LastChange(changed: map<string, nat>, tenant: string): nat {
    if tenant in changed then changed[tenant] else 0
  }

  function Drop(jobs: map<nat, Job>, job: nat): map<nat, Job> { jobs - {job} }

  /** Extending a verdict map writes through to the cached entry only while that entry is still cached. */
  function Extend(c: Ordered<Confirm>, asker: Viewer, serial: nat, read: nat): Ordered<Confirm> {
    if c == [] then []
    else [(c[0].0, c[0].1.(value := Extended(c[0].1.value, asker, serial, read)))] + Extend(c[1..], asker, serial, read)
  }

  function Extended(v: Confirm, asker: Viewer, serial: nat, read: nat): Confirm {
    if v.serial != serial then v
    else v.(oldest := if read < v.oldest then read else v.oldest, askers := v.askers + {asker})
  }

  /** The entry a fill stores. */
  function Filled(t: string, s: string, p: string, serial: nat, read: nat): Confirm {
    Confirm(Viewer(t, s, p), serial, read, {Viewer(t, s, p)})
  }

  function FinishJob(w: World, job: nat, j: Job, wall: int): World {
    match j
    case DictFill(t, s, seen, Some(at)) =>
      w.(dict := if seen == GenerationOf(w.generation, t) then Store(w.dict, DictKey(t, s), Answer(t, s, at), wall) else w.dict,
         inflight := w.inflight - {DictKey(t, s)}, jobs := Drop(w.jobs, job))
    case TreeFill(t, s, p, seen, Some(at)) =>
      w.(tree := if seen == GenerationOf(w.generation, t)
                 then Store(w.tree, TreeKey(t, s, p), Filled(t, s, p, w.serial, at), wall) else w.tree,
         serial := w.serial + 1, jobs := Drop(w.jobs, job))
    case TreeDelta(asker, serial, Some(at)) => w.(tree := Extend(w.tree, asker, serial, at), jobs := Drop(w.jobs, job))
    case _ => w
  }

  function FailJob(w: World, job: nat, j: Job): World {
    w.(jobs := Drop(w.jobs, job),
       inflight := if j.DictOpened? || j.DictFill? then w.inflight - {DictKey(j.tenant, j.subject)} else w.inflight)
  }

  function OpenTreeJob(w: World, job: nat, t: string, s: string, p: string, wall: int): World {
    w.(tree := AfterGet(w.tree, TreeKey(t, s, p), wall),
       jobs := w.jobs[job := match Hit(w.tree, TreeKey(t, s, p), wall)
                             case Some(v) => TreeDelta(Viewer(t, s, p), v.serial, None)
                             case None => TreeFill(t, s, p, GenerationOf(w.generation, t), None)])
  }

  /** One synchronous step; an action that is not enabled changes nothing. */
  function Act(w: World, a: Action): World {
    match a
    case OpenDict(job, t, s) =>
      if job in w.jobs || DictKey(t, s) in w.inflight then w
      else w.(inflight := w.inflight + {DictKey(t, s)}, jobs := w.jobs[job := DictOpened(t, s)])
    case CaptureDict(job) =>
      if job in w.jobs && w.jobs[job].DictOpened? then
        var j := w.jobs[job];
        w.(jobs := w.jobs[job := DictFill(j.tenant, j.subject, GenerationOf(w.generation, j.tenant), None)])
      else w
    case OpenTree(job, t, s, p, wall) => if job in w.jobs then w else OpenTreeJob(w, job, t, s, p, wall)
    case ReadStore(job) =>
      if job in w.jobs && !w.jobs[job].DictOpened? && w.jobs[job].read == None
      then w.(jobs := w.jobs[job := w.jobs[job].(read := Some(w.now))]) else w
    case Finish(job, wall) => if job in w.jobs then FinishJob(w, job, w.jobs[job], wall) else w
    case Fail(job) => if job in w.jobs then FailJob(w, job, w.jobs[job]) else w
    case GetDict(t, s, wall) => w.(dict := AfterGet(w.dict, DictKey(t, s), wall))
    case InvalidateTenant(t) =>
      w.(generation := w.generation[t := GenerationOf(w.generation, t) + 1],
         dict := DropPrefix(w.dict, DictKey(t, "")), tree := DropPrefix(w.tree, t + " "),
         changed := w.changed[t := w.now])
    case ForgetTreeOnly(t) => w.(tree := DropPrefix(w.tree, t + " "), changed := w.changed[t := w.now])
  }

  function Next(w: World, a: Action): World { Act(w, a).(now := w.now + 1) }

  function Run(w: World, steps: seq<Action>): World
    decreases |steps|
  {
    if steps == [] then w else Run(Next(w, steps[0]), steps[1..])
  }

  const START := World(1, [], [], map[], {}, map[], 0, map[])

  // ---------------------------------------------------------------- the invariant

  predicate AnswerFresh(changed: map<string, nat>, x: (string, Entry<Answer>)) {
    x.0 == DictKey(x.1.value.tenant, x.1.value.subject) && LastChange(changed, x.1.value.tenant) < x.1.value.oldest
  }

  function ViewerKey(v: Viewer): string { TreeKey(v.tenant, v.subject, v.space) }

  predicate ConfirmFresh(changed: map<string, nat>, serial: nat, x: (string, Entry<Confirm>)) {
    var v := x.1.value;
    x.0 == ViewerKey(v.viewer) && LastChange(changed, v.viewer.tenant) < v.oldest && v.serial < serial
  }

  /** A fill whose generation still stands has read nothing older than its tenant's last change. */
  predicate FillSound(w: World, tenant: string, seen: nat, read: Option<nat>) {
    seen <= GenerationOf(w.generation, tenant)
    && (seen == GenerationOf(w.generation, tenant) && read.Some? ==> LastChange(w.changed, tenant) < read.value)
  }

  /** A delta has read nothing older than the last change of the tenant whose entry it will extend. */
  predicate DeltaSound(w: World, serial: nat, read: Option<nat>) {
    serial < w.serial
    && (read.Some? ==>
          forall x :: x in w.tree && x.1.value.serial == serial ==> LastChange(w.changed, x.1.value.viewer.tenant) < read.value)
  }

  predicate JobSound(w: World, j: Job) {
    match j
    case DictOpened(_, _) => true
    case DictFill(t, _, seen, read) => FillSound(w, t, seen, read)
    case TreeFill(t, _, _, seen, read) => FillSound(w, t, seen, read)
    case TreeDelta(_, serial, read) => DeltaSound(w, serial, read)
  }

  ghost predicate Fresh(w: World) {
    && Bounded(w.dict) && Bounded(w.tree)
    && (forall t :: LastChange(w.changed, t) < w.now)
    && (forall x :: x in w.dict ==> AnswerFresh(w.changed, x))
    && (forall x :: x in w.tree ==> ConfirmFresh(w.changed, w.serial, x))
    && (forall k :: k in w.jobs ==> JobSound(w, w.jobs[k]))
  }

  // ---------------------------------------------------------------- what every step keeps

  /** A step that adds nothing to the caches but possibly one job, and moves no generation. */
  lemma QuietKeepsFresh(w: World, n: World, job: nat)
    requires Fresh(w) && n.changed == w.changed && n.generation == w.generation && n.serial == w.serial
    requires Bounded(n.dict) && Bounded(n.tree) && n.now == w.now + 1
    requires forall x :: x in n.dict ==> x in w.dict
    requires forall x :: x in n.tree ==> x in w.tree
    requires forall k :: k in n.jobs && k != job ==> k in w.jobs && n.jobs[k] == w.jobs[k]
    requires job in n.jobs ==> JobSound(n, n.jobs[job])
    ensures Fresh(n)
  {
    forall k | k in n.jobs ensures JobSound(n, n.jobs[k]) {
      if k != job { assert JobSound(w, w.jobs[k]); }
    }
  }

  lemma OpenTreeKeepsFresh(w: World, job: nat, t: string, s: string, p: string, wall: int)
    requires Fresh(w) && job !in w.jobs
    ensures Fresh(OpenTreeJob(w, job, t, s, p, wall).(now := w.now + 1))
  {
    hide AfterGet, Hit, TreeKey;
    var key := TreeKey(t, s, p);
    GetIs(w.tree, key, wall);
    var n := OpenTreeJob(w, job, t, s, p, wall).(now := w.now + 1);
    assert JobSound(n, n.jobs[job]) by {
      if Hit(w.tree, key, wall).Some? {
        var v := Hit(w.tree, key, wall).value;
        var e: int :| e > wall && (key, Entry(v, e)) in w.tree;
        assert ConfirmFresh(w.changed, w.serial, (key, Entry(v, e)));
      }
    }
    QuietKeepsFresh(w, n, job);
  }

  lemma InvalidateKeepsFresh(w: World, t: string)
    requires Fresh(w)
    ensures Fresh(Next(w, InvalidateTenant(t)))
  {
    hide DropPrefix, Bounded;
    DropPrefixIs(w.dict, DictKey(t, ""));
    DropPrefixIs(w.tree, t + " ");
    var n := Next(w, InvalidateTenant(t));
    forall x | x in n.dict ensures AnswerFresh(n.changed, x) {
      assert AnswerFresh(w.changed, x);
      assert DictKey(x.1.value.tenant, "") <= x.0;
    }
    forall x | x in n.tree ensures ConfirmFresh(n.changed, n.serial, x) && x.1.value.viewer.tenant != t {
      assert ConfirmFresh(w.changed, w.serial, x);
      assert x.1.value.viewer.tenant + " " <= x.0;
    }
    forall k | k in n.jobs ensures JobSound(n, n.jobs[k]) { InvalidateKeepsJob(w, t, w.jobs[k]); }
    assert Bounded(n.dict);
    assert Bounded(n.tree);
    forall x ensures LastChange(n.changed, x) < n.now { assert LastChange(w.changed, x) < w.now; }
  }

  lemma InvalidateKeepsJob(w: World, t: string, j: Job)
    requires JobSound(w, j)
    requires forall x :: x in Next(w, InvalidateTenant(t)).tree ==> x in w.tree && x.1.value.viewer.tenant != t
    ensures JobSound(Next(w, InvalidateTenant(t)), j)
  {
    hide DropPrefix, DictKey;
  }

  lemma DictStoreKeepsFresh(w: World, job: nat, wall: int)
    requires Fresh(w) && job in w.jobs && w.jobs[job].DictFill?
    ensures Fresh(Next(w, Finish(job, wall)))
  {
    hide Store, DictKey;
    var j := w.jobs[job];
    var n := Next(w, Finish(job, wall));
    assert JobSound(w, j);
    if j.read.Some? {
      StoreIs(w.dict, DictKey(j.tenant, j.subject), Answer(j.tenant, j.subject, j.read.value), wall);
      forall x | x in n.dict ensures AnswerFresh(n.changed, x) {
        if x in w.dict { assert AnswerFresh(w.changed, x); }
      }
    }
    forall k | k in n.jobs ensures JobSound(n, n.jobs[k]) { assert JobSound(w, w.jobs[k]); }
  }

  lemma TreeStoreKeepsFresh(w: World, job: nat, wall: int)
    requires Fresh(w) && job in w.jobs && w.jobs[job].TreeFill?
    ensures Fresh(Next(w, Finish(job, wall)))
  {
    hide Store, TreeKey;
    var j := w.jobs[job];
    var n := Next(w, Finish(job, wall));
    assert JobSound(w, j);
    if j.read.Some? {
      StoreIs(w.tree, TreeKey(j.tenant, j.subject, j.space),
              Filled(j.tenant, j.subject, j.space, w.serial, j.read.value), wall);
      forall x | x in n.tree ensures ConfirmFresh(n.changed, n.serial, x) && (x in w.tree || x.1.value.serial == w.serial) {
        if x in w.tree { assert ConfirmFresh(w.changed, w.serial, x); }
      }
    }
    forall k | k in n.jobs ensures JobSound(n, n.jobs[k]) { assert JobSound(w, w.jobs[k]); }
  }

  lemma {:induction false} ExtendIs(c: Ordered<Confirm>, asker: Viewer, serial: nat, read: nat)
    ensures |Extend(c, asker, serial, read)| == |c|
    ensures forall i :: 0 <= i < |c| ==>
              Extend(c, asker, serial, read)[i] == (c[i].0, c[i].1.(value := Extended(c[i].1.value, asker, serial, read)))
  {
    if c != [] { ExtendIs(c[1..], asker, serial, read); }
  }

  lemma ExtendFrom(c: Ordered<Confirm>, asker: Viewer, serial: nat, read: nat, x: (string, Entry<Confirm>))
    requires x in Extend(c, asker, serial, read)
    ensures exists y :: y in c && x == (y.0, y.1.(value := Extended(y.1.value, asker, serial, read)))
  {
    hide Extended;
    ExtendIs(c, asker, serial, read);
    var i :| 0 <= i < |c| && Extend(c, asker, serial, read)[i] == x;
    assert c[i] in c;
  }

  lemma ExtendBounded(c: Ordered<Confirm>, asker: Viewer, serial: nat, read: nat)
    requires Bounded(c)
    ensures Bounded(Extend(c, asker, serial, read))
  {
    hide Extended;
    ExtendIs(c, asker, serial, read);
  }

  lemma ExtendKeepsDelta(w: World, n: World, serial: nat, read: Option<nat>)
    requires DeltaSound(w, serial, read)
    requires n.changed == w.changed && n.serial == w.serial
    requires forall x :: x in n.tree ==>
      exists y :: y in w.tree && y.1.value.serial == x.1.value.serial && y.1.value.viewer.tenant == x.1.value.viewer.tenant
    ensures DeltaSound(n, serial, read)
  {}

  lemma DeltaKeepsFresh(w: World, job: nat, wall: int)
    requires Fresh(w) && job in w.jobs && w.jobs[job].TreeDelta? && w.jobs[job].read.Some?
    ensures Fresh(Next(w, Finish(job, wall)))
  {
    hide Extend, TreeKey, DictKey, Bounded;
    var j := w.jobs[job];
    var n := Next(w, Finish(job, wall));
    assert DeltaSound(w, j.serial, j.read) by { assert JobSound(w, j); }
    ExtendBounded(w.tree, j.asker, j.serial, j.read.value);
    forall x | x in n.tree ensures ConfirmFresh(n.changed, n.serial, x)
        && exists y :: y in w.tree && y.1.value.serial == x.1.value.serial && y.1.value.viewer.tenant == x.1.value.viewer.tenant
    {
      ExtendFrom(w.tree, j.asker, j.serial, j.read.value, x);
      var y :| y in w.tree && x == (y.0, y.1.(value := Extended(y.1.value, j.asker, j.serial, j.read.value)));
      assert ConfirmFresh(w.changed, w.serial, y);
    }
    forall k | k in n.jobs ensures JobSound(n, n.jobs[k]) {
      assert JobSound(w, w.jobs[k]);
      if w.jobs[k].TreeDelta? { ExtendKeepsDelta(w, n, w.jobs[k].serial, w.jobs[k].read); }
    }
  }

  lemma IdleKeepsFresh(w: World)
    requires Fresh(w)
    ensures Fresh(w.(now := w.now + 1))
  {
    forall k | k in w.jobs ensures JobSound(w.(now := w.now + 1), w.jobs[k]) { assert JobSound(w, w.jobs[k]); }
  }

  lemma JobStepKeepsFresh(w: World, job: nat, j: Job, inflight: set<string>)
    requires Fresh(w) && JobSound(w, j)
    ensures Fresh(w.(jobs := w.jobs[job := j], inflight := inflight, now := w.now + 1))
    ensures Fresh(w.(jobs := Drop(w.jobs, job), inflight := inflight, now := w.now + 1))
  {
    hide Bounded, DictKey, AnswerFresh, ConfirmFresh;
    QuietKeepsFresh(w, w.(jobs := w.jobs[job := j], inflight := inflight, now := w.now + 1), job);
    QuietKeepsFresh(w, w.(jobs := Drop(w.jobs, job), inflight := inflight, now := w.now + 1), job);
  }

  lemma ReadKeepsFresh(w: World, job: nat)
    requires Fresh(w)
    ensures Fresh(Next(w, ReadStore(job)))
  {
    hide Bounded, DictKey, AnswerFresh, ConfirmFresh;
    IdleKeepsFresh(w);
    if job in w.jobs && !w.jobs[job].DictOpened? && w.jobs[job].read == None {
      assert JobSound(w, w.jobs[job]);
      JobStepKeepsFresh(w, job, w.jobs[job].(read := Some(w.now)), w.inflight);
    }
  }

  lemma OpenTreeStepKeepsFresh(w: World, job: nat, t: string, s: string, p: string, wall: int)
    requires Fresh(w)
    ensures Fresh(Next(w, OpenTree(job, t, s, p, wall)))
  {
    hide Fresh, OpenTreeJob;
    if job in w.jobs { IdleKeepsFresh(w); } else { OpenTreeKeepsFresh(w, job, t, s, p, wall); }
  }

  lemma OpenDictKeepsFresh(w: World, job: nat, t: string, s: string)
    requires Fresh(w)
    ensures Fresh(Next(w, OpenDict(job, t, s)))
  {
    hide Fresh, DictKey;
    JobStepKeepsFresh(w, job, DictOpened(t, s), Next(w, OpenDict(job, t, s)).inflight);
    IdleKeepsFresh(w);
  }

  lemma CaptureKeepsFresh(w: World, job: nat)
    requires Fresh(w)
    ensures Fresh(Next(w, CaptureDict(job)))
  {
    hide Fresh, DictKey;
    IdleKeepsFresh(w);
    if job in w.jobs && w.jobs[job].DictOpened? {
      JobStepKeepsFresh(w, job, Next(w, CaptureDict(job)).jobs[job], w.inflight);
    }
  }

  lemma FailKeepsFresh(w: World, job: nat)
    requires Fresh(w)
    ensures Fresh(Next(w, Fail(job)))
  {
    hide DictKey, Bounded, AnswerFresh, ConfirmFresh, JobSound;
    IdleKeepsFresh(w);
    if job in w.jobs { JobStepKeepsFresh(w, job, w.jobs[job], Next(w, Fail(job)).inflight); }
  }

  lemma FinishKeepsFresh(w: World, job: nat, wall: int)
    requires Fresh(w)
    ensures Fresh(Next(w, Finish(job, wall)))
  {
    hide Fresh, DictKey, TreeKey, Store, Extend;
    IdleKeepsFresh(w);
    if job in w.jobs && w.jobs[job].DictFill? {
      DictStoreKeepsFresh(w, job, wall);
    } else if job in w.jobs && w.jobs[job].TreeFill? {
      TreeStoreKeepsFresh(w, job, wall);
    } else if job in w.jobs && w.jobs[job].TreeDelta? && w.jobs[job].read.Some? {
      DeltaKeepsFresh(w, job, wall);
    }
  }

  lemma GetKeepsFresh(w: World, t: string, s: string, wall: int)
    requires Fresh(w)
    ensures Fresh(Next(w, GetDict(t, s, wall)))
  {
    hide DictKey, AfterGet, JobSound, AnswerFresh, ConfirmFresh;
    GetIs(w.dict, DictKey(t, s), wall);
    var n := Next(w, GetDict(t, s, wall));
    forall k | k in n.jobs ensures JobSound(n, n.jobs[k]) { SameTreeKeepsJob(w, n, w.jobs[k]); }
  }

  lemma NextKeepsFresh(w: World, a: Action)
    requires Fresh(w) && !a.ForgetTreeOnly?
    ensures Fresh(Next(w, a))
  {
    hide *;
    match a
    case OpenDict(job, t, s) => OpenDictKeepsFresh(w, job, t, s);
    case CaptureDict(job) => CaptureKeepsFresh(w, job);
    case ReadStore(job) => ReadKeepsFresh(w, job);
    case Fail(job) => FailKeepsFresh(w, job);
    case OpenTree(job, t, s, p, wall) => OpenTreeStepKeepsFresh(w, job, t, s, p, wall);
    case Finish(job, wall) => FinishKeepsFresh(w, job, wall);
    case GetDict(t, s, wall) => GetKeepsFresh(w, t, s, wall);
    case InvalidateTenant(t) => InvalidateKeepsFresh(w, t);
  }

  // ---------------------------------------------------------------- what a reader is told

  predicate FreeOf(s: string, c: char) { c !in s }

  /** Up to a first separator that is not in either of them, two texts with equal joins are equal. */
  lemma {:induction false} HeadsAgree(a: string, b: string, ra: string, rb: string, c: char)
    requires FreeOf(a, c) && FreeOf(b, c) && a + [c] + ra == b + [c] + rb
    ensures a == b && ra == rb
  {
    var x, y := a + [c] + ra, b + [c] + rb;
    if a == [] || b == [] {
      assert x[0] == y[0] == c;
      assert x[1..] == y[1..];
      assert a == [] ==> x[1..] == ra;
      assert b == [] ==> y[1..] == rb;
    } else {
      assert x[0] == a[0] && y[0] == b[0];
      assert x[1..] == a[1..] + [c] + ra && y[1..] == b[1..] + [c] + rb;
      HeadsAgree(a[1..], b[1..], ra, rb, c);
      assert a == [a[0]] + a[1..] && b == [b[0]] + b[1..];
    }
  }

  lemma DictKeyIsExact(t: string, s: string, t2: string, s2: string)
    requires FreeOf(t, '\0') && FreeOf(t2, '\0')
    ensures DictKey(t, s) == DictKey(t2, s2) <==> t == t2 && s == s2
    ensures DictKey(t2, "") <= DictKey(t, s) <==> t == t2
  {
    if DictKey(t, s) == DictKey(t2, s2) { HeadsAgree(t, t2, s, s2, '\0'); }
    if DictKey(t2, "") <= DictKey(t, s) {
      var rest := DictKey(t, s)[|t2| + 1..];
      assert t + "\0" + s == t2 + "\0" + rest;
      HeadsAgree(t, t2, s, rest, '\0');
    }
    if t == t2 { assert DictKey(t, s)[..|t| + 1] == DictKey(t2, ""); }
  }

  lemma TreeKeyIsExact(t: string, s: string, p: string, t2: string, s2: string, p2: string)
    requires FreeOf(t, ' ') && FreeOf(t2, ' ') && FreeOf(s, ' ') && FreeOf(s2, ' ')
    ensures TreeKey(t, s, p) == TreeKey(t2, s2, p2) <==> t == t2 && s == s2 && p == p2
  {
    if TreeKey(t, s, p) == TreeKey(t2, s2, p2) {
      assert TreeKey(t, s, p) == t + " " + (s + " " + p);
      assert TreeKey(t2, s2, p2) == t2 + " " + (s2 + " " + p2);
      HeadsAgree(t, t2, s + " " + p, s2 + " " + p2, ' ');
      HeadsAgree(s, s2, p, p2, ' ');
    }
  }

  /** Tenant ids hold no separator, and the authorization store answers for no subject with a blank: it takes
      no id that holds one. */
  predicate Named(w: World, a: Action) {
    match a
    case OpenDict(_, t, _) => FreeOf(t, '\0')
    case OpenTree(_, t, _, _, _) => FreeOf(t, ' ')
    case ReadStore(job) =>
      && (job in w.jobs && w.jobs[job].TreeFill? ==> FreeOf(w.jobs[job].subject, ' '))
      && (job in w.jobs && w.jobs[job].TreeDelta? ==> FreeOf(w.jobs[job].asker.subject, ' '))
    case _ => true
  }

  /** A run of such steps in which both invalidators fire together. */
  predicate Ordinary(w: World, steps: seq<Action>)
    decreases |steps|
  {
    steps != [] ==> Named(w, steps[0]) && !steps[0].ForgetTreeOnly? && Ordinary(Next(w, steps[0]), steps[1..])
  }

  /** An entry names ids free of the key separators, and all of it was computed for its own viewer. */
  predicate CleanEntry(v: Confirm) {
    FreeOf(v.viewer.tenant, ' ') && FreeOf(v.viewer.subject, ' ') && v.askers == {v.viewer}
  }

  /** The entry with this verdict map, if it is still cached, is this viewer's. */
  ghost predicate OwnEntries(tree: Ordered<Confirm>, asker: Viewer, serial: nat) {
    forall x :: x in tree && x.1.value.serial == serial ==> x.1.value.viewer == asker
  }

  /** A request the store answered has a subject it takes, and then extends only its own viewer's entry. */
  ghost predicate CleanJob(w: World, j: Job) {
    match j
    case DictOpened(t, _) => FreeOf(t, '\0')
    case DictFill(t, _, _, _) => FreeOf(t, '\0')
    case TreeFill(t, s, _, _, read) => FreeOf(t, ' ') && (read.Some? ==> FreeOf(s, ' '))
    case TreeDelta(asker, serial, read) =>
      && (read.Some? ==> FreeOf(asker.subject, ' '))
      && (FreeOf(asker.subject, ' ') ==> OwnEntries(w.tree, asker, serial))
  }

  ghost predicate CleanNames(w: World) {
    && (forall x :: x in w.dict ==> FreeOf(x.1.value.tenant, '\0'))
    && (forall x :: x in w.tree ==> CleanEntry(x.1.value))
    && (forall x, y :: x in w.tree && y in w.tree && x.1.value.serial == y.1.value.serial ==> x.1.value.viewer == y.1.value.viewer)
    && (forall k :: k in w.jobs ==> CleanJob(w, w.jobs[k]))
  }

  /** A step that adds to no cache and changes at most one job. */
  lemma QuietKeepsNames(w: World, n: World, job: nat)
    requires CleanNames(w)
    requires forall x :: x in n.dict ==> x in w.dict
    requires forall x :: x in n.tree ==> x in w.tree
    requires forall k :: k in n.jobs && k != job ==> k in w.jobs && n.jobs[k] == w.jobs[k]
    requires job in n.jobs ==> CleanJob(n, n.jobs[job])
    ensures CleanNames(n)
  {
    hide CleanEntry, FreeOf;
    forall k | k in n.jobs ensures CleanJob(n, n.jobs[k]) {
      if k != job { assert CleanJob(w, w.jobs[k]); }
    }
  }

  /** A cached verdict map found by a viewer without blanks is that viewer's own. */
  lemma HitIsOwn(w: World, t: string, s: string, p: string, wall: int)
    requires Fresh(w) && CleanNames(w) && FreeOf(t, ' ') && FreeOf(s, ' ') && Hit(w.tree, TreeKey(t, s, p), wall).Some?
    ensures OwnEntries(w.tree, Viewer(t, s, p), Hit(w.tree, TreeKey(t, s, p), wall).value.serial)
  {
    hide TreeKey, FreeOf, Hit, JobSound, CleanJob, Bounded;
    GetIs(w.tree, TreeKey(t, s, p), wall);
    var v := Hit(w.tree, TreeKey(t, s, p), wall).value;
    var e: int :| e > wall && (TreeKey(t, s, p), Entry(v, e)) in w.tree;
    assert ConfirmFresh(w.changed, w.serial, (TreeKey(t, s, p), Entry(v, e)));
    assert CleanEntry(v);
    TreeKeyIsExact(t, s, p, v.viewer.tenant, v.viewer.subject, v.viewer.space);
  }

  lemma FillKeepsNames(w: World, n: World, job: nat, x: (string, Entry<Confirm>))
    requires Fresh(w) && CleanNames(w) && CleanEntry(x.1.value) && x.1.value.serial == w.serial
    requires n.dict == w.dict && (forall y :: y in n.tree ==> y == x || y in w.tree) && n.jobs == Drop(w.jobs, job)
    ensures CleanNames(n)
  {
    hide CleanEntry, FreeOf, AnswerFresh, Bounded, ViewerKey;
    forall y | y in w.tree ensures y.1.value.serial < w.serial { assert ConfirmFresh(w.changed, w.serial, y); }
    forall k | k in n.jobs ensures CleanJob(n, n.jobs[k]) { assert CleanJob(w, w.jobs[k]) && JobSound(w, w.jobs[k]); }
  }

  lemma DeltaKeepsNames(w: World, job: nat, wall: int)
    requires CleanNames(w) && job in w.jobs && w.jobs[job].TreeDelta? && w.jobs[job].read.Some?
    ensures CleanNames(FinishJob(w, job, w.jobs[job], wall))
  {
    hide Extend, FreeOf;
    var j := w.jobs[job];
    var n := FinishJob(w, job, j, wall);
    assert CleanJob(w, j);
    forall x | x in n.tree
      ensures CleanEntry(x.1.value)
      ensures exists y :: y in w.tree && y.1.value.serial == x.1.value.serial && y.1.value.viewer == x.1.value.viewer
    {
      ExtendFrom(w.tree, j.asker, j.serial, j.read.value, x);
      var y :| y in w.tree && x == (y.0, y.1.(value := Extended(y.1.value, j.asker, j.serial, j.read.value)));
      assert CleanEntry(y.1.value);
    }
    SameOwnersKeepNames(w, n, job);
  }

  lemma SameOwnersKeepNames(w: World, n: World, job: nat)
    requires CleanNames(w) && n.dict == w.dict && n.jobs == Drop(w.jobs, job)
    requires forall x :: x in n.tree ==> CleanEntry(x.1.value)
    requires forall x :: x in n.tree ==>
      exists y :: y in w.tree && y.1.value.serial == x.1.value.serial && y.1.value.viewer == x.1.value.viewer
    ensures CleanNames(n)
  {
    hide CleanEntry, FreeOf;
    forall k | k in n.jobs ensures CleanJob(n, n.jobs[k]) { assert CleanJob(w, w.jobs[k]); }
  }

  lemma FinishKeepsNames(w: World, job: nat, wall: int)
    requires Fresh(w) && CleanNames(w) && job in w.jobs
    ensures CleanNames(FinishJob(w, job, w.jobs[job], wall))
  {
    hide Store, DictKey, TreeKey, FreeOf, Extend, JobSound, AnswerFresh, ConfirmFresh, Bounded, OwnEntries;
    var n := FinishJob(w, job, w.jobs[job], wall);
    assert CleanJob(w, w.jobs[job]);
    match w.jobs[job]
    case DictFill(t, s, _, Some(at)) =>
      StoreIs(w.dict, DictKey(t, s), Answer(t, s, at), wall);
      forall k | k in n.jobs ensures CleanJob(n, n.jobs[k]) { assert CleanJob(w, w.jobs[k]); }
    case TreeFill(t, s, p, seen, Some(at)) =>
      var v := Filled(t, s, p, w.serial, at);
      StoreIs(w.tree, TreeKey(t, s, p), v, wall);
      FillKeepsNames(w, n, job, (TreeKey(t, s, p), Entry(v, wall + TTL_MS)));
    case TreeDelta(_, _, Some(_)) => DeltaKeepsNames(w, job, wall);
    case _ =>
  }

  lemma OpenTreeKeepsNames(w: World, job: nat, t: string, s: string, p: string, wall: int)
    requires Fresh(w) && CleanNames(w) && FreeOf(t, ' ') && job !in w.jobs
    ensures CleanNames(OpenTreeJob(w, job, t, s, p, wall))
  {
    GetIs(w.tree, TreeKey(t, s, p), wall);
    if Hit(w.tree, TreeKey(t, s, p), wall).Some? && FreeOf(s, ' ') { HitIsOwn(w, t, s, p, wall); }
    hide AfterGet, Hit, TreeKey, FreeOf, Fresh, Bounded, CleanNames;
    QuietKeepsNames(w, OpenTreeJob(w, job, t, s, p, wall), job);
  }

  /** A step that only opens, moves or drops one job. */
  lemma JobKeepsNames(w: World, job: nat, j: Job, inflight: set<string>)
    requires CleanNames(w) && CleanJob(w, j)
    ensures CleanNames(w.(jobs := w.jobs[job := j], inflight := inflight, now := w.now + 1))
    ensures CleanNames(w.(jobs := Drop(w.jobs, job), inflight := inflight, now := w.now + 1))
  {
    hide FreeOf, CleanEntry;
    QuietKeepsNames(w, w.(jobs := w.jobs[job := j], inflight := inflight, now := w.now + 1), job);
    QuietKeepsNames(w, w.(jobs := Drop(w.jobs, job), inflight := inflight, now := w.now + 1), job);
  }

  lemma NowKeepsNames(w: World, now: nat)
    requires CleanNames(w)
    ensures CleanNames(w.(now := now))
  {
    hide FreeOf, CleanEntry;
    forall k | k in w.jobs ensures CleanJob(w.(now := now), w.jobs[k]) { assert CleanJob(w, w.jobs[k]); }
  }

  lemma MoveKeepsNames(w: World, a: Action)
    requires CleanNames(w) && Named(w, a) && (a.OpenDict? || a.CaptureDict? || a.ReadStore? || a.Fail?)
    ensures CleanNames(Next(w, a))
  {
    hide DictKey, FreeOf, CleanNames, FinishJob, OpenTreeJob, AfterGet, DropPrefix, CleanJob;
    NowKeepsNames(w, w.now + 1);
    match a
    case OpenDict(job, t, s) =>
      DictJobIsClean(w, t, s);
      JobKeepsNames(w, job, DictOpened(t, s), Next(w, a).inflight);
    case CaptureDict(job) =>
      if job in w.jobs && w.jobs[job].DictOpened? {
        JobIsClean(w, job);
        var j := w.jobs[job];
        JobKeepsNames(w, job, DictFill(j.tenant, j.subject, GenerationOf(w.generation, j.tenant), None), w.inflight);
      }
    case ReadStore(job) =>
      if job in w.jobs && !w.jobs[job].DictOpened? && w.jobs[job].read == None {
        JobIsClean(w, job);
        JobKeepsNames(w, job, w.jobs[job].(read := Some(w.now)), w.inflight);
      }
    case Fail(job) =>
      if job in w.jobs {
        JobIsClean(w, job);
        JobKeepsNames(w, job, w.jobs[job], Next(w, a).inflight);
      }
  }

  lemma DictJobIsClean(w: World, t: string, s: string)
    requires FreeOf(t, '\0')
    ensures CleanJob(w, DictOpened(t, s))
  {
  }

  /** A job's next stage is as clean as the job, once its subject is one the store answers for. */
  lemma JobIsClean(w: World, job: nat)
    requires CleanNames(w) && job in w.jobs
    ensures var j := w.jobs[job];
      && CleanJob(w, j)
      && (j.DictOpened? ==> CleanJob(w, DictFill(j.tenant, j.subject, GenerationOf(w.generation, j.tenant), None)))
      && (Named(w, ReadStore(job)) && !j.DictOpened? ==> CleanJob(w, j.(read := Some(w.now))))
  {
    assert CleanJob(w, w.jobs[job]);
    hide FreeOf, OwnEntries, GenerationOf;
  }

  lemma SmallerKeepsNames(w: World, n: World)
    requires CleanNames(w) && n.jobs == w.jobs
    requires forall x :: x in n.dict ==> x in w.dict
    requires forall x :: x in n.tree ==> x in w.tree
    ensures CleanNames(n)
  {
    hide CleanEntry, FreeOf;
    forall k | k in n.jobs ensures CleanJob(n, n.jobs[k]) { assert CleanJob(w, w.jobs[k]); }
  }

  lemma DropKeepsNames(w: World, a: Action)
    requires Fresh(w) && CleanNames(w) && (a.GetDict? || a.InvalidateTenant? || a.ForgetTreeOnly?)
    ensures CleanNames(Next(w, a))
  {
    hide AfterGet, DropPrefix, DictKey, FreeOf, JobSound, AnswerFresh, ConfirmFresh, Bounded, OwnEntries, CleanEntry;
    var n := Next(w, a);
    match a {
      case GetDict(t, s, wall) => GetIs(w.dict, DictKey(t, s), wall);
      case InvalidateTenant(t) => DropPrefixIs(w.dict, DictKey(t, "")); DropPrefixIs(w.tree, t + " ");
      case ForgetTreeOnly(t) => DropPrefixIs(w.tree, t + " ");
    }
    SmallerKeepsNames(w, n);
  }

  lemma NextKeepsNames(w: World, a: Action)
    requires Fresh(w) && CleanNames(w) && Named(w, a)
    ensures CleanNames(Next(w, a))
  {
    hide AfterGet, DropPrefix, DictKey, FreeOf, Fresh, CleanNames, FinishJob, OpenTreeJob;
    match a
    case OpenTree(job, t, s, p, wall) =>
      if job in w.jobs { NowKeepsNames(w, w.now + 1); } else {
        OpenTreeKeepsNames(w, job, t, s, p, wall);
        NowKeepsNames(OpenTreeJob(w, job, t, s, p, wall), w.now + 1);
      }
    case Finish(job, wall) =>
      if job in w.jobs {
        FinishKeepsNames(w, job, wall);
        NowKeepsNames(FinishJob(w, job, w.jobs[job], wall), w.now + 1);
      } else { NowKeepsNames(w, w.now + 1); }
    case GetDict(_, _, _) => DropKeepsNames(w, a);
    case InvalidateTenant(_) => DropKeepsNames(w, a);
    case ForgetTreeOnly(_) => DropKeepsNames(w, a);
    case _ => MoveKeepsNames(w, a);
  }

  lemma {:induction false} RunKeeps(w: World, steps: seq<Action>)
    requires Fresh(w) && CleanNames(w) && Ordinary(w, steps)
    ensures Fresh(Run(w, steps)) && CleanNames(Run(w, steps))
    decreases |steps|
  {
    hide Next, Fresh, CleanNames, Named;
    if steps != [] {
      NextKeepsFresh(w, steps[0]);
      NextKeepsNames(w, steps[0]);
      RunKeeps(Next(w, steps[0]), steps[1..]);
    }
  }

  /** Whatever a cache answers now was computed for exactly this viewer, every part of it after the tenant's
      last change. */
  predicate Current(w: World, t: string, s: string, p: string, wall: int) {
    && (FreeOf(t, '\0') ==>
          match Hit(w.dict, DictKey(t, s), wall)
          case Some(v) => v.tenant == t && v.subject == s && LastChange(w.changed, t) < v.oldest
          case None => true)
    && (FreeOf(t, ' ') && FreeOf(s, ' ') ==>
          match Hit(w.tree, TreeKey(t, s, p), wall)
          case Some(v) => v.viewer == Viewer(t, s, p) && v.askers == {Viewer(t, s, p)} && LastChange(w.changed, t) < v.oldest
          case None => true)
  }

  lemma FreshIsCurrent(w: World, t: string, s: string, p: string, wall: int)
    requires Fresh(w) && CleanNames(w)
    ensures Current(w, t, s, p, wall)
  {
    hide DictKey, TreeKey, FreeOf, JobSound, Hit;
    GetIs(w.dict, DictKey(t, s), wall);
    GetIs(w.tree, TreeKey(t, s, p), wall);
    if FreeOf(t, '\0') && Hit(w.dict, DictKey(t, s), wall).Some? {
      var v := Hit(w.dict, DictKey(t, s), wall).value;
      var e: int :| e > wall && (DictKey(t, s), Entry(v, e)) in w.dict;
      assert AnswerFresh(w.changed, (DictKey(t, s), Entry(v, e)));
      DictKeyIsExact(t, s, v.tenant, v.subject);
    }
    if FreeOf(t, ' ') && FreeOf(s, ' ') && Hit(w.tree, TreeKey(t, s, p), wall).Some? {
      var v := Hit(w.tree, TreeKey(t, s, p), wall).value;
      var e: int :| e > wall && (TreeKey(t, s, p), Entry(v, e)) in w.tree;
      assert ConfirmFresh(w.changed, w.serial, (TreeKey(t, s, p), Entry(v, e)));
      assert CleanEntry(v);
      TreeKeyIsExact(t, s, p, v.viewer.tenant, v.viewer.subject, v.viewer.space);
    }
  }

  /** In every interleaving of fills, deltas, reads and invalidations, with any clock, both caches only answer
      what is current, and neither ever holds more than its bound. */
  lemma NothingStaleIsServed(steps: seq<Action>, t: string, s: string, p: string, wall: int)
    requires Ordinary(START, steps)
    ensures var w := Run(START, steps);
      Current(w, t, s, p, wall) && |w.dict| <= MAX_ENTRIES && |w.tree| <= MAX_ENTRIES
  {
    RunKeeps(START, steps);
    hide Run, JobSound, Current;
    FreshIsCurrent(Run(START, steps), t, s, p, wall);
  }

  /** Invalidating one tenant leaves every entry of another where it is, in both caches. */
  lemma InvalidationIsPerTenant(steps: seq<Action>, t: string)
    requires Ordinary(START, steps)
    requires FreeOf(t, '\0') && FreeOf(t, ' ')
    ensures var w := Run(START, steps); var n := Next(w, InvalidateTenant(t));
      && (forall x :: x in n.dict <==> x in w.dict && x.1.value.tenant != t)
      && (forall x :: x in n.tree <==> x in w.tree && x.1.value.viewer.tenant != t)
  {
    RunKeeps(START, steps);
    var w := Run(START, steps);
    hide Run, DropPrefix, DictKey, TreeKey, JobSound;
    DropPrefixIs(w.dict, DictKey(t, ""));
    DropPrefixIs(w.tree, t + " ");
    forall x | x in w.dict ensures DictKey(t, "") <= x.0 <==> x.1.value.tenant == t {
      assert AnswerFresh(w.changed, x);
      DictKeyIsExact(x.1.value.tenant, x.1.value.subject, t, "");
    }
    forall x | x in w.tree ensures t + " " <= x.0 <==> x.1.value.viewer.tenant == t {
      assert ConfirmFresh(w.changed, w.serial, x);
      TreePrefixIsExact(x.1.value.viewer.tenant, x.1.value.viewer.subject, x.1.value.viewer.space, t);
    }
  }

  lemma TreePrefixIsExact(t: string, s: string, p: string, t2: string)
    requires FreeOf(t, ' ') && FreeOf(t2, ' ')
    ensures t2 + " " <= TreeKey(t, s, p) <==> t == t2
  {
    assert TreeKey(t, s, p) == t + " " + (s + " " + p);
    if t2 + " " <= TreeKey(t, s, p) {
      var rest := TreeKey(t, s, p)[|t2| + 1..];
      assert TreeKey(t, s, p) == t2 + " " + rest;
      HeadsAgree(t, t2, s + " " + p, rest, ' ');
    }
  }

  /** Were the tree's invalidator ever to fire without the dictionary's, a fill under way would be stored
      after the change it did not see, and served. */
  lemma UnpairedInvalidationServesStale()
    ensures var w := Run(START, [OpenTree(0, "t", "s", "p", 0), ReadStore(0), ForgetTreeOnly("t"), Finish(0, 0)]);
      var hit := Hit(w.tree, TreeKey("t", "s", "p"), 0);
      hit.Some? && hit.value.oldest < LastChange(w.changed, "t")
  {
    var a := [OpenTree(0, "t", "s", "p", 0), ReadStore(0), ForgetTreeOnly("t"), Finish(0, 0)];
    var w1 := Next(START, a[0]);
    var w2 := Next(w1, a[1]);
    var w3 := Next(w2, a[2]);
    var w4 := Next(w3, a[3]);
    assert w2.jobs[0] == TreeFill("t", "s", "p", 0, Some(2));
    assert w3.changed == map["t" := 3] && w3.tree == [];
    assert w4.tree == [(TreeKey("t", "s", "p"), Entry(Filled("t", "s", "p", 0, 2), 5000))];
    assert a[1..][1..] == a[2..] && a[2..][1..] == a[3..] && a[3..][1..] == [];
    assert Run(START, a) == Run(w1, a[1..]) == Run(w2, a[2..]) == Run(w3, a[3..]) == Run(w4, []);
  }

  /** With a space in a subject the tree cache answers one principal with another's verdicts. */
  lemma SpacedSubjectIsServedAnothersVerdicts()
    ensures var w := Run(START, [OpenTree(0, "t", "a b", "c", 0), ReadStore(0), Finish(0, 0)]);
      var hit := Hit(w.tree, TreeKey("t", "a", "b c"), 0);
      hit.Some? && hit.value.askers == {Viewer("t", "a b", "c")}
  {
    var a := [OpenTree(0, "t", "a b", "c", 0), ReadStore(0), Finish(0, 0)];
    var w1 := Next(START, a[0]);
    var w2 := Next(w1, a[1]);
    var w3 := Next(w2, a[2]);
    assert w3.tree == [(TreeKey("t", "a b", "c"), Entry(Filled("t", "a b", "c", 0, 2), 5000))];
    assert TreeKey("t", "a b", "c") == TreeKey("t", "a", "b c");
    assert a[1..][1..] == a[2..] && a[2..][1..] == [];
    assert Run(START, a) == Run(w1, a[1..]) == Run(w2, a[2..]) == Run(w3, []);
  }

  // ---------------------------------------------------------------- single flight

  /** The in-flight mark a job holds. */
  function FillKey(j: Job): Option<string> {
    if j.DictOpened? || j.DictFill? then Some(DictKey(j.tenant, j.subject)) else None
  }

  /** The in-flight marks are exactly the keys of the dictionary fills under way, one fill for each. */
  ghost predicate SingleFlight(w: World) {
    && (forall k :: k in w.jobs && FillKey(w.jobs[k]).Some? ==> FillKey(w.jobs[k]).value in w.inflight)
    && (forall key :: key in w.inflight ==> exists k :: k in w.jobs && FillKey(w.jobs[k]) == Some(key))
    && (forall k, m :: k in w.jobs && m in w.jobs && FillKey(w.jobs[k]).Some? && FillKey(w.jobs[k]) == FillKey(w.jobs[m])
          ==> k == m)
  }

  lemma AddJobKeepsFlight(w: World, n: World, job: nat, j: Job)
    requires SingleFlight(w) && n.jobs == w.jobs[job := j]
    requires job in w.jobs ==> FillKey(j) == FillKey(w.jobs[job])
    requires n.inflight == w.inflight + (if FillKey(j).Some? then {FillKey(j).value} else {})
    requires job !in w.jobs && FillKey(j).Some? ==> FillKey(j).value !in w.inflight
    ensures SingleFlight(n)
  {
    forall key | key in n.inflight ensures exists k :: k in n.jobs && FillKey(n.jobs[k]) == Some(key) {
      if key in w.inflight {
        var k :| k in w.jobs && FillKey(w.jobs[k]) == Some(key);
        assert k in n.jobs && FillKey(n.jobs[k]) == Some(key);
      } else {
        assert FillKey(n.jobs[job]) == Some(key);
      }
    }
  }

  lemma DropJobKeepsFlight(w: World, n: World, job: nat)
    requires SingleFlight(w) && job in w.jobs && n.jobs == Drop(w.jobs, job)
    requires n.inflight == w.inflight - (if FillKey(w.jobs[job]).Some? then {FillKey(w.jobs[job]).value} else {})
    ensures SingleFlight(n)
  {
    forall key | key in n.inflight ensures exists k :: k in n.jobs && FillKey(n.jobs[k]) == Some(key) {
      var k :| k in w.jobs && FillKey(w.jobs[k]) == Some(key);
      assert k in n.jobs && FillKey(n.jobs[k]) == Some(key);
    }
  }

  lemma NextKeepsFlight(w: World, a: Action)
    requires SingleFlight(w)
    ensures SingleFlight(Next(w, a))
  {
    hide SingleFlight, Store, AfterGet, Hit, DropPrefix, DictKey, TreeKey, Extend;
    var n := Next(w, a);
    match a
    case OpenDict(job, t, s) =>
      if !(job in w.jobs || DictKey(t, s) in w.inflight) { AddJobKeepsFlight(w, n, job, n.jobs[job]); } else { SameFlight(w, n); }
    case CaptureDict(job) =>
      if job in w.jobs && w.jobs[job].DictOpened? { MarkHeld(w, job); AddJobKeepsFlight(w, n, job, n.jobs[job]); } else { SameFlight(w, n); }
    case OpenTree(job, _, _, _, _) =>
      if job !in w.jobs { AddJobKeepsFlight(w, n, job, n.jobs[job]); } else { SameFlight(w, n); }
    case ReadStore(job) =>
      if job in w.jobs && !w.jobs[job].DictOpened? && w.jobs[job].read == None {
        MarkHeld(w, job);
        AddJobKeepsFlight(w, n, job, n.jobs[job]);
      } else { SameFlight(w, n); }
    case Finish(job, wall) =>
      if job in w.jobs && !w.jobs[job].DictOpened? && w.jobs[job].read.Some? { DropJobKeepsFlight(w, n, job); }
      else { SameFlight(w, n); }
    case Fail(job) => if job in w.jobs { DropJobKeepsFlight(w, n, job); } else { SameFlight(w, n); }
    case GetDict(_, _, _) => SameFlight(w, n);
    case InvalidateTenant(_) => SameFlight(w, n);
    case ForgetTreeOnly(_) => SameFlight(w, n);
  }

  lemma SameFlight(w: World, n: World)
    requires SingleFlight(w) && n.jobs == w.jobs && n.inflight == w.inflight
    ensures SingleFlight(n)
  {}

  lemma MarkHeld(w: World, job: nat)
    requires SingleFlight(w) && job in w.jobs
    ensures FillKey(w.jobs[job]).Some? ==> FillKey(w.jobs[job]).value in w.inflight
  {}

  lemma {:induction false} RunKeepsFlight(w: World, steps: seq<Action>)
    requires SingleFlight(w)
    ensures SingleFlight(Run(w, steps))
    decreases |steps|
  {
    hide Next, SingleFlight;
    if steps != [] {
      NextKeepsFlight(w, steps[0]);
      RunKeepsFlight(Next(w, steps[0]), steps[1..]);
    }
  }

  /** At most one dictionary fill per viewer is ever under way, and a mark never outlives its fill: a new
      fill is turned away exactly while another of the same key runs. */
  lemma OneFillPerViewer(steps: seq<Action>, job: nat, t: string, s: string)
    requires job !in Run(START, steps).jobs
    ensures var w := Run(START, steps);
      && (job in Next(w, OpenDict(job, t, s)).jobs
          <==> !exists k :: k in w.jobs && FillKey(w.jobs[k]) == Some(DictKey(t, s)))
      && (forall j, k :: j in w.jobs && k in w.jobs && FillKey(w.jobs[j]).Some? && FillKey(w.jobs[j]) == FillKey(w.jobs[k])
            ==> j == k)
      && (w.jobs == map[] ==> w.inflight == {})
  {
    hide Run, DictKey;
    RunKeepsFlight(START, steps);
  }

  /** What a fill or a delta knows depends on the tree, the generations and the changes alone. */
  lemma SameTreeKeepsJob(w: World, n: World, j: Job)
    requires n.tree == w.tree && n.generation == w.generation && n.changed == w.changed && n.serial == w.serial
    ensures JobSound(w, j) ==> JobSound(n, j)
  {}
}

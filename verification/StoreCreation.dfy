/** How many stores boots can still come to make, from any moment of any run: exactly, not only at most. */
module StoreCreation {
  import Text
  import opened StoreBinding

  /** Every store a boot has made, under the lock or adrift. */
  function BootMade(w: World): set<StoreId> { w.made + w.strays }

  /** A creation under the lock is still ahead: none has been, no row is there, and either no store has the name
      or the lock's holder has already searched and found none. */
  predicate CanStillMake(w: World) {
    w.made == {} && w.row.None? && (w.named == {} || (w.lock.Some? && WillCreate(At(w, w.lock.value))))
  }

  /** What there is, what is under way, and what may still be made. */
  function Potential(w: World): nat { |BootMade(w)| + w.adrift + if CanStillMake(w) then 1 else 0 }

  // ---------------------------------------------------------------- no run makes more

  lemma OtherStepsMakeNothing(w: World, p: Pid, a: Action)
    requires !a.StrayCreate? && !(a.CreateStore? && At(w, p).Creating?)
    ensures var n := Next(w, p, a);
      BootMade(n) == BootMade(w) && n.made == w.made && n.named == w.named
      && n.adrift - w.adrift == n.lost - w.lost && w.lost <= n.lost
  {
    hide Verdict, Candidate;
  }

  lemma OtherStepsOpenNothing(w: World, p: Pid, a: Action)
    requires Inv(w) && !a.StrayCreate? && !(a.CreateStore? && At(w, p).Creating?)
    ensures CanStillMake(Next(w, p, a)) ==> CanStillMake(w)
  {
    hide Verdict, Candidate, WillCreate, Inv;
    NextKeepsInv(w, p, a);
    OtherStepsMakeNothing(w, p, a);
    var n := Next(w, p, a);
    if w.named != {} && n.lock.Some? && WillCreate(At(n, n.lock.value)) { WillCreateBefore(w, p, a); }
  }

  /** A process found none only while there was none. */
  lemma WillCreateBefore(w: World, p: Pid, a: Action)
    requires Inv(w) && w.named != {} && !(a.CreateStore? && At(w, p).Creating?)
    requires var n := Next(w, p, a); n.lock.Some? && WillCreate(At(n, n.lock.value))
    ensures w.lock == Next(w, p, a).lock && WillCreate(At(w, w.lock.value))
  {
    hide Verdict, Candidate, Inv;
    var x := Next(w, p, a).lock.value;
    CandidateNone(At(w, p), w.named);
    VerdictIsSafe(At(w, p), w.live);
    HolderHolds(w, p);
    HolderHolds(w, x);
  }

  lemma HolderHolds(w: World, p: Pid)
    requires Inv(w)
    ensures InLock(At(w, p)) <==> w.lock == Text.Some(p)
    ensures At(w, p).HasRead? ==> At(w, p).row == w.row
  {
    assert Knows(w, At(w, p));
  }

  lemma CreationSpendsChance(w: World, p: Pid, f: StoreId)
    requires Inv(w) && At(w, p).Creating?
    ensures Potential(Next(w, p, CreateStore(f))) <= Potential(w) && Next(w, p, CreateStore(f)).lost == w.lost
  {
    HolderHolds(w, p);
    assert Knows(w, At(w, p));
    var n := Next(w, p, CreateStore(f));
    hide Inv, Verdict, Candidate;
    if f !in w.live { assert BootMade(n) == BootMade(w) + {f}; }
  }

  lemma StraySpendsOneAdrift(w: World, p: Pid, f: StoreId)
    ensures Potential(Next(w, p, StrayCreate(f))) <= Potential(w) && Next(w, p, StrayCreate(f)).lost == w.lost
  {
    hide Verdict, Candidate, WillCreate;
    var n := Next(w, p, StrayCreate(f));
    if w.adrift > 0 && f !in w.live { assert BootMade(n) == BootMade(w) + {f}; }
  }

  /** Only a lost session adds to what can be made. */
  lemma NextKeepsPotential(w: World, p: Pid, a: Action)
    requires Inv(w)
    ensures w.lost <= Next(w, p, a).lost
    ensures Potential(Next(w, p, a)) <= Potential(w) + (Next(w, p, a).lost - w.lost)
  {
    hide Inv, Next;
    if a.StrayCreate? {
      StraySpendsOneAdrift(w, p, a.id);
    } else if a.CreateStore? && At(w, p).Creating? {
      CreationSpendsChance(w, p, a.id);
    } else {
      hide CanStillMake;
      OtherStepsMakeNothing(w, p, a);
      OtherStepsOpenNothing(w, p, a);
    }
  }

  lemma {:induction false} RunKeepsPotential(w: World, steps: seq<(Pid, Action)>)
    requires Inv(w)
    ensures w.lost <= Run(w, steps).lost
    ensures |BootMade(Run(w, steps))| <= Potential(w) + (Run(w, steps).lost - w.lost)
    decreases |steps|
  {
    hide Next, Inv, CanStillMake;
    if steps != [] {
      NextKeepsInv(w, steps[0].0, steps[0].1);
      NextKeepsPotential(w, steps[0].0, steps[0].1);
      RunKeepsPotential(Next(w, steps[0].0, steps[0].1), steps[1..]);
    }
  }

  // ---------------------------------------------------------------- some run makes as many

  lemma {:induction false} FreshId(ids: set<StoreId>) returns (f: StoreId)
    ensures f !in ids && forall x :: x in ids ==> x < f
    decreases ids
  {
    if ids == {} {
      f := 0;
    } else {
      var x :| x in ids;
      var g := FreshId(ids - {x});
      f := if g > x then g else x + 1;
      forall y | y in ids ensures y < f { assert y == x || y in ids - {x}; }
    }
  }

  lemma RunStep(w: World, p: Pid, a: Action, more: seq<(Pid, Action)>)
    ensures Run(w, [(p, a)] + more) == Run(Next(w, p, a), more)
  {
    hide Next;
    assert ([(p, a)] + more)[1..] == more;
  }

  lemma RunEnds(w: World)
    ensures Run(w, []) == w
  {
  }

  /** Everything adrift can still land. */
  lemma {:induction false} StraysLand(w: World) returns (more: seq<(Pid, Action)>)
    requires Inv(w)
    ensures var n := Run(w, more); n.lost == w.lost && |BootMade(n)| == |BootMade(w)| + w.adrift
    decreases w.adrift
  {
    hide Next, Run, Inv;
    if w.adrift == 0 {
      more := [];
      RunEnds(w);
    } else {
      var f := FreshId(w.live);
      StrayArrives(w, 0, f);
      NextKeepsInv(w, 0, StrayCreate(f));
      BootMadeLives(w);
      assert BootMade(Next(w, 0, StrayCreate(f))) == BootMade(w) + {f};
      var rest := StraysLand(Next(w, 0, StrayCreate(f)));
      more := [(0, StrayCreate(f))] + rest;
      RunStep(w, 0, StrayCreate(f), rest);
    }
  }

  lemma BootMadeLives(w: World)
    requires Inv(w)
    ensures BootMade(w) <= w.live
  {
  }

  predicate SameStores(w: World, n: World) {
    n.live == w.live && n.named == w.named && n.made == w.made && n.strays == w.strays && n.adrift == w.adrift
    && n.lost == w.lost && n.row == w.row
  }

  lemma HolderDecides(w: World, p: Pid)
    requires WillCreate(At(w, p))
    ensures var m := Next(w, p, CheckLiveness); At(m, p).Creating? && SameStores(w, m)
  {
    NothingIsCreated(w.live);
    hide Verdict, Candidate;
  }

  lemma CreatorCreates(w: World, p: Pid, f: StoreId)
    requires At(w, p).Creating? && f !in w.live
    ensures var n := Next(w, p, CreateStore(f));
      BootMade(n) == BootMade(w) + {f} && n.adrift == w.adrift && n.lost == w.lost
  {
    hide Verdict, Candidate;
  }

  lemma HolderCreates(w: World, p: Pid, f: StoreId)
    requires WillCreate(At(w, p)) && f !in w.live
    ensures var n := Run(w, [(p, CheckLiveness), (p, CreateStore(f))]);
      BootMade(n) == BootMade(w) + {f} && n.adrift == w.adrift && n.lost == w.lost
  {
    hide Run, Next, WillCreate;
    HolderDecides(w, p);
    var m := Next(w, p, CheckLiveness);
    CreatorCreates(m, p, f);
    RunStep(w, p, CheckLiveness, [(p, CreateStore(f))]);
    RunStep(m, p, CreateStore(f), []);
    RunEnds(Next(m, p, CreateStore(f)));
    assert [(p, CheckLiveness)] + [(p, CreateStore(f))] == [(p, CheckLiveness), (p, CreateStore(f))];
    assert [(p, CreateStore(f))] + [] == [(p, CreateStore(f))];
  }

  lemma NothingIsCreated(live: set<StoreId>)
    ensures Verdict(Text.None, Text.None, live) == Create
  {
  }

  lemma StartsOver(w: World, p: Pid)
    requires Inv(w) && (w.lock.None? || w.lock == Text.Some(p))
    ensures var m := Next(Next(w, p, Crash), p, Migrate);
      m.lock.None? && At(m, p) == Idle && m.table && SameStores(w, m)
  {
    HolderHolds(w, p);
    hide Inv, Verdict, Candidate;
  }

  lemma IdleBootCreates(w: World, p: Pid, f: StoreId)
    requires Inv(w) && w.lock.None? && At(w, p) == Idle && w.table && w.named == {} && w.row.None? && f !in w.live
    ensures var n := Run(w, WholeBoot(p, Text.None, f));
      BootMade(n) == BootMade(w) + {f} && n.adrift == w.adrift && n.lost == w.lost && Inv(n)
  {
    hide Run, Inv, WholeBoot;
    EmptyBootCreates(w, p, f);
    RunKeepsInv(w, WholeBoot(p, Text.None, f));
  }

  /** With no store of the name a boot that starts over creates one. */
  lemma FreshBootCreates(w: World, f: StoreId) returns (more: seq<(Pid, Action)>)
    requires Inv(w) && w.named == {} && w.row.None? && f !in w.live
    ensures var n := Run(w, more);
      BootMade(n) == BootMade(w) + {f} && n.adrift == w.adrift && n.lost == w.lost && Inv(n)
  {
    hide Next, Run, Inv, WholeBoot;
    var p := if w.lock.Some? then w.lock.value else 0;
    var m := Next(Next(w, p, Crash), p, Migrate);
    StartsOver(w, p);
    NextKeepsInv(w, p, Crash);
    NextKeepsInv(Next(w, p, Crash), p, Migrate);
    IdleBootCreates(m, p, f);
    more := [(p, Crash)] + ([(p, Migrate)] + WholeBoot(p, Text.None, f));
    RunStep(w, p, Crash, [(p, Migrate)] + WholeBoot(p, Text.None, f));
    RunStep(Next(w, p, Crash), p, Migrate, WholeBoot(p, Text.None, f));
  }

  lemma ChanceIsTaken(w: World) returns (more: seq<(Pid, Action)>)
    requires Inv(w) && CanStillMake(w)
    ensures var n := Run(w, more);
      |BootMade(n)| == |BootMade(w)| + 1 && n.adrift == w.adrift && n.lost == w.lost && Inv(n)
  {
    hide Run, Inv;
    var f := FreshId(w.live);
    BootMadeLives(w);
    if w.named == {} {
      more := FreshBootCreates(w, f);
    } else {
      var p := w.lock.value;
      more := [(p, CheckLiveness), (p, CreateStore(f))];
      HolderCreates(w, p, f);
      RunKeepsInv(w, more);
    }
    assert BootMade(Run(w, more)) == BootMade(w) + {f};
  }

  lemma PotentialIsReached(w: World) returns (more: seq<(Pid, Action)>)
    requires Inv(w)
    ensures Run(w, more).lost == w.lost && |BootMade(Run(w, more))| == Potential(w)
  {
    hide Run, Inv, CanStillMake;
    if CanStillMake(w) {
      var first := ChanceIsTaken(w);
      var rest := StraysLand(Run(w, first));
      more := first + rest;
      RunAppend(w, first, rest);
    } else {
      more := StraysLand(w);
    }
  }

  /** From any moment of any run, some continuation in which no further session is lost on its way to a creation
      has as many stores made by boots as `n`, exactly when `n` is no more than what there is, what is under way
      and what may still be made. So two stores can still come about exactly when these are at least two. */
  lemma StoresToComeExactly(start: World, steps: seq<(Pid, Action)>, n: nat)
    requires Start(start)
    ensures var w := Run(start, steps);
      (exists more :: Run(w, more).lost == w.lost && |BootMade(Run(w, more))| >= n) <==> n <= Potential(w)
  {
    hide Run, Inv, CanStillMake;
    StartIsInv(start);
    RunKeepsInv(start, steps);
    var w := Run(start, steps);
    if more :| Run(w, more).lost == w.lost && |BootMade(Run(w, more))| >= n { RunKeepsPotential(w, more); }
    if n <= Potential(w) { var more := PotentialIsReached(w); }
  }

  /** Each session lost on its way to a creation adds at most one more, to any run from any moment of it. */
  lemma LostSessionsAddOneEach(start: World, steps: seq<(Pid, Action)>, more: seq<(Pid, Action)>)
    requires Start(start)
    ensures var w := Run(start, steps);
      |BootMade(Run(w, more))| <= Potential(w) + (Run(w, more).lost - w.lost)
    ensures |BootMade(Run(start, steps))| <= 1 + Run(start, steps).lost
  {
    hide Run, Inv, CanStillMake;
    StartIsInv(start);
    RunKeepsInv(start, steps);
    RunKeepsPotential(Run(start, steps), more);
    RunKeepsPotential(start, steps);
  }
}

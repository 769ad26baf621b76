/** The second-factor floor: what a tenant may require, and which factor a member may remove, so that enough
    factors of the accepted kind stay on admin accounts. */
module FactorFloor {
  import opened FiniteSets
  import opened Text

  datatype Kind = Totp | Passkey

  datatype Stance = Off | Any | OnlyPasskey | OnlyTotp

  /** A confirmed factor; a passkey answers only at the host it was made on. */
  datatype Factor = Factor(member: string, kind: Kind, host: string)

  datatype Member = Member(admin: bool, active: bool)

  type FactorId = nat

  datatype Tenant = Tenant(stance: Stance, members: map<string, Member>, factors: map<FactorId, Factor>)

  predicate Accepts(stance: Stance, k: Kind) { stance == Off || stance == Any || (stance == OnlyPasskey <==> k == Passkey) }

  function FloorFor(stance: Stance): nat { if stance == OnlyPasskey then 2 else 1 }

  predicate Presentable(f: Factor, host: string) { f.kind == Totp || f.host == host }

  predicate ActiveAdmin(t: Tenant, sub: string) { sub in t.members && t.members[sub].admin && t.members[sub].active }

  /** The factors that count towards the floor of `stance` at `host`. */
  function AdminFactors(t: Tenant, stance: Stance, host: string): set<FactorId> {
    set id | id in t.factors && Accepts(stance, t.factors[id].kind) && Presentable(t.factors[id], host)
             && ActiveAdmin(t, t.factors[id].member)
  }

  /** The accepted factors of one member that can be presented at `host`. */
  function OwnFactors(t: Tenant, sub: string, host: string): set<FactorId> {
    set id | id in t.factors && Accepts(t.stance, t.factors[id].kind) && Presentable(t.factors[id], host)
             && t.factors[id].member == sub
  }

  /** The accepted factors of the other active admins. */
  function OtherFactors(t: Tenant, sub: string, host: string): set<FactorId> {
    set id | id in AdminFactors(t, t.stance, host) && t.factors[id].member != sub
  }

  predicate FloorMet(t: Tenant, stance: Stance, host: string) {
    stance == Off || |AdminFactors(t, stance, host)| >= FloorFor(stance)
  }

  function ActiveMembers(t: Tenant): set<string> { set s | s in t.members && t.members[s].active }

  datatype Refusal = AdminPasskeyFloor | AdminTotpFloor | AdminFactorRequired | PasskeyNeedsSecondMember

  /** `stanceRefusal`; every stance can be enrolled into at a door without a session. */
  function StanceRefusal(t: Tenant, stance: Stance, host: string): Option<Refusal> {
    if stance == Off then None
    else if !FloorMet(t, stance, host) then
      Some(if stance == OnlyPasskey then AdminPasskeyFloor else if stance == OnlyTotp then AdminTotpFloor else AdminFactorRequired)
    else if stance == OnlyPasskey && |ActiveMembers(t)| < 2 then Some(PasskeyNeedsSecondMember)
    else None
  }

  /** `wouldStrandTenant`: what is mine without this factor, and what the other active admins hold. */
  function WouldStrand(t: Tenant, sub: string, id: FactorId, host: string): bool {
    if t.stance == Off then false
    else
      var mine := OwnFactors(t, sub, host) - {id};
      var others := OtherFactors(t, sub, host);
      if |others| + |mine| >= FloorFor(t.stance) then false
      else sub in t.members && t.members[sub].admin
  }

  /** What the members may do, each step a request at some host. A passkey is removed at its own host, where
      it can be presented to confirm the removal. */
  datatype Step =
    | SetStance(stance: Stance, host: string)
    | Enrol(id: FactorId, factor: Factor)
    | Remove(sub: string, id: FactorId, host: string)

  predicate MayRemove(t: Tenant, sub: string, id: FactorId, host: string) {
    id in t.factors && t.factors[id].member == sub && sub in t.members && t.members[sub].active
    && Presentable(t.factors[id], host) && !WouldStrand(t, sub, id, host)
  }

  function Next(t: Tenant, s: Step): Tenant {
    match s
    case SetStance(stance, host) => if StanceRefusal(t, stance, host).Some? then t else t.(stance := stance)
    case Enrol(id, f) =>
      if id in t.factors || f.member !in t.members || !t.members[f.member].active then t
      else t.(factors := t.factors[id := f])
    case Remove(sub, id, host) => if MayRemove(t, sub, id, host) then t.(factors := t.factors - {id}) else t
  }

  function Run(t: Tenant, steps: seq<Step>): Tenant
    decreases |steps|
  {
    if steps == [] then t else Run(Next(t, steps[0]), steps[1..])
  }

  /** Every request of the step arrives at this host. */
  predicate AtHost(s: Step, host: string) { s.Enrol? || s.host == host }

  /** The guard counts rightly: for an active admin it refuses exactly the removals after which the floor
      would not be met, and for anyone else it never refuses. */
  lemma GuardIsExact(t: Tenant, sub: string, id: FactorId, host: string)
    requires id in t.factors && t.factors[id].member == sub && sub in t.members && t.members[sub].active
    ensures WouldStrand(t, sub, id, host) <==>
            t.members[sub].admin && !FloorMet(t.(factors := t.factors - {id}), t.stance, host)
  {
    if t.stance != Off && t.members[sub].admin {
      var after := t.(factors := t.factors - {id});
      var mine := OwnFactors(t, sub, host) - {id};
      var others := OtherFactors(t, sub, host);
      forall k ensures k in AdminFactors(after, t.stance, host) <==> k in others + mine {
        assert k in after.factors <==> k in t.factors && k != id;
      }
      assert AdminFactors(after, t.stance, host) == others + mine;
      assert |others + mine| == |others| + |mine|;
    }
  }

  lemma NextKeepsFloor(t: Tenant, s: Step, host: string)
    requires FloorMet(t, t.stance, host) && AtHost(s, host)
    ensures FloorMet(Next(t, s), Next(t, s).stance, host)
  {
    match s
    case SetStance(stance, _) =>
      if StanceRefusal(t, stance, host).None? {
        assert AdminFactors(t.(stance := stance), stance, host) == AdminFactors(t, stance, host);
      }
    case Enrol(id, f) =>
      SubsetSize(AdminFactors(t, t.stance, host), AdminFactors(Next(t, s), t.stance, host));
    case Remove(sub, id, _) =>
      if MayRemove(t, sub, id, host) {
        GuardIsExact(t, sub, id, host);
        if !t.members[sub].admin { OthersDoNotCount(t, sub, id, host); }
      }
  }

  /** With every request at one host, no sequence of stance changes, enrolments and removals by active members
      ever leaves the requirement in force without enough accepted factors on admin accounts. */
  lemma {:induction false} FloorHoldsInEveryRun(t: Tenant, steps: seq<Step>, host: string)
    requires FloorMet(t, t.stance, host) && forall s :: s in steps ==> AtHost(s, host)
    ensures FloorMet(Run(t, steps), Run(t, steps).stance, host)
    decreases |steps|
  {
    hide Next, FloorMet, AtHost;
    if steps != [] {
      assert steps[0] in steps;
      NextKeepsFloor(t, steps[0], host);
      FloorHoldsInEveryRun(Next(t, steps[0]), steps[1..], host);
    }
  }

  // ---------------------------------------------------------------- several hosts

  /** A step refused at the host it arrives at, or one that the same guard, asked at `host`, would let through. */
  predicate PassesAt(t: Tenant, s: Step, host: string) {
    match s
    case SetStance(stance, at) => StanceRefusal(t, stance, at).Some? || StanceRefusal(t, stance, host).None?
    case Enrol(_, _) => true
    case Remove(sub, id, at) => MayRemove(t, sub, id, at) ==> !WouldStrand(t, sub, id, host)
  }

  /** A request arriving anywhere keeps the floor of a host exactly when it is refused or that host's own guard
      would have let it through. */
  lemma StepKeepsFloorExactly(t: Tenant, s: Step, host: string)
    requires FloorMet(t, t.stance, host)
    ensures FloorMet(Next(t, s), Next(t, s).stance, host) <==> PassesAt(t, s, host)
  {
    match s
    case SetStance(stance, at) =>
      hide FloorMet;
      if StanceRefusal(t, stance, at).None? { StanceKeepsCount(t, stance, host); }
    case Enrol(_, _) => NextKeepsFloor(t, s, host);
    case Remove(sub, id, at) =>
      if MayRemove(t, sub, id, at) {
        GuardIsExact(t, sub, id, host);
        if !t.members[sub].admin { OthersDoNotCount(t, sub, id, host); }
      }
  }

  lemma StanceKeepsCount(t: Tenant, stance: Stance, host: string)
    ensures FloorMet(t.(stance := stance), stance, host) == FloorMet(t, stance, host)
  {
    assert AdminFactors(t.(stance := stance), stance, host) == AdminFactors(t, stance, host);
  }

  /** The floor of `host` is met now and after each step. */
  predicate FloorThroughout(t: Tenant, steps: seq<Step>, host: string)
    decreases |steps|
  {
    FloorMet(t, t.stance, host) && (steps != [] ==> FloorThroughout(Next(t, steps[0]), steps[1..], host))
  }

  /** Each step, in the state it meets, passes at `host`. */
  predicate AllPassAt(t: Tenant, steps: seq<Step>, host: string)
    decreases |steps|
  {
    steps != [] ==> PassesAt(t, steps[0], host) && AllPassAt(Next(t, steps[0]), steps[1..], host)
  }

  /** Over any run of requests at any hosts, the floor of a host never falls exactly when every request either
      is refused where it arrives or would have been let through at that host too. */
  lemma {:induction false} FloorOverHostsExactly(t: Tenant, steps: seq<Step>, host: string)
    requires FloorMet(t, t.stance, host)
    ensures FloorThroughout(t, steps, host) <==> AllPassAt(t, steps, host)
    decreases |steps|
  {
    hide Next, FloorMet, PassesAt;
    if steps != [] {
      StepKeepsFloorExactly(t, steps[0], host);
      if PassesAt(t, steps[0], host) { FloorOverHostsExactly(Next(t, steps[0]), steps[1..], host); }
    }
  }

  /** With requests at two hosts the floor of the first can fall: a passkey of the second host stands in for the
      authenticator that is removed there. */
  lemma TwoHostsCanBreakTheFloor()
    ensures var steps := [Enrol(0, TOTP_X), SetStance(Any, "x"), Enrol(1, KEY_Y), Remove("a", 0, "y")];
      var n := Run(OneAdmin(Off, map[]), steps);
      n.stance == Any && !FloorMet(n, Any, "x")
  {
    hide *;
    var steps := [Enrol(0, TOTP_X), SetStance(Any, "x"), Enrol(1, KEY_Y), Remove("a", 0, "y")];
    var t := OneAdmin(Off, map[]);
    OneAdminEnrols(Off);
    OneAdminRequiresAny();
    OneAdminEnrols(Any);
    OneAdminRemoves();
    Unfold(t, steps);
    Unfold(OneAdmin(Off, map[0 := TOTP_X]), steps[1..]);
    Unfold(OneAdmin(Any, map[0 := TOTP_X]), steps[2..]);
    Unfold(OneAdmin(Any, map[0 := TOTP_X, 1 := KEY_Y]), steps[3..]);
    assert steps[1..][1..] == steps[2..] && steps[2..][1..] == steps[3..] && steps[3..][1..] == [];
    RunNothing(OneAdmin(Any, map[1 := KEY_Y]));
  }

  // A tenant of one admin, with an authenticator and a passkey of another host.

  const TOTP_X := Factor("a", Totp, "x")
  const KEY_Y := Factor("a", Passkey, "y")

  function OneAdmin(stance: Stance, factors: map<FactorId, Factor>): Tenant {
    Tenant(stance, map["a" := Member(true, true)], factors)
  }

  lemma OneAdminEnrols(stance: Stance)
    ensures Next(OneAdmin(stance, map[]), Enrol(0, TOTP_X)) == OneAdmin(stance, map[0 := TOTP_X])
    ensures Next(OneAdmin(stance, map[0 := TOTP_X]), Enrol(1, KEY_Y)) == OneAdmin(stance, map[0 := TOTP_X, 1 := KEY_Y])
  {
    hide MayRemove, StanceRefusal;
  }

  lemma OneAdminRequiresAny()
    ensures Next(OneAdmin(Off, map[0 := TOTP_X]), SetStance(Any, "x")) == OneAdmin(Any, map[0 := TOTP_X])
  {
    hide MayRemove;
    assert AdminFactors(OneAdmin(Off, map[0 := TOTP_X]), Any, "x") == {0};
  }

  lemma OneAdminRemoves()
    ensures Next(OneAdmin(Any, map[0 := TOTP_X, 1 := KEY_Y]), Remove("a", 0, "y")) == OneAdmin(Any, map[1 := KEY_Y])
    ensures OneAdmin(Any, map[1 := KEY_Y]).stance == Any && !FloorMet(OneAdmin(Any, map[1 := KEY_Y]), Any, "x")
  {
    hide StanceRefusal;
    var t := OneAdmin(Any, map[0 := TOTP_X, 1 := KEY_Y]);
    assert OwnFactors(t, "a", "y") - {0} == {1};
    assert t.factors - {0} == map[1 := KEY_Y];
    assert AdminFactors(OneAdmin(Any, map[1 := KEY_Y]), Any, "x") == {};
  }

  lemma RunNothing(t: Tenant)
    ensures Run(t, []) == t
  {}

  lemma Unfold(t: Tenant, steps: seq<Step>)
    requires steps != []
    ensures Run(t, steps) == Run(Next(t, steps[0]), steps[1..])
  {
    hide Next;
  }

  // ---------------------------------------------------------------- overlapping requests

  /** A request passes every check it makes before it writes. */
  predicate Checked(t: Tenant, s: Step) {
    match s
    case SetStance(stance, at) => StanceRefusal(t, stance, at).None?
    case Enrol(id, f) => id !in t.factors && f.member in t.members && t.members[f.member].active
    case Remove(sub, id, at) => MayRemove(t, sub, id, at)
  }

  /** What it then writes, whatever has changed since; a delete names the member beside the factor. */
  function Write(t: Tenant, s: Step): Tenant {
    match s
    case SetStance(stance, _) => t.(stance := stance)
    case Enrol(id, f) => if id in t.factors then t else t.(factors := t.factors[id := f])
    case Remove(sub, id, _) => if id in t.factors && t.factors[id].member == sub then t.(factors := t.factors - {id}) else t
  }

  /** A request on its own checks and writes in one. */
  lemma NextIsCheckedWrite(t: Tenant, s: Step)
    ensures Next(t, s) == if Checked(t, s) then Write(t, s) else t
  {
    hide StanceRefusal, WouldStrand;
  }

  /** The guard of the floor, asked at `host`. */
  predicate GuardPasses(t: Tenant, s: Step, host: string) {
    match s
    case SetStance(stance, _) => StanceRefusal(t, stance, host).None?
    case Enrol(_, _) => true
    case Remove(sub, id, _) => !WouldStrand(t, sub, id, host)
  }

  /** What a passed check says of the members, who stay as they are. */
  predicate Standing(t: Tenant, s: Step) {
    match s
    case SetStance(stance, _) => stance == OnlyPasskey ==> |ActiveMembers(t)| >= 2
    case Enrol(_, _) => true
    case Remove(sub, _, _) => sub in t.members && t.members[sub].active
  }

  lemma CheckedIsStanding(t: Tenant, s: Step)
    requires Checked(t, s)
    ensures Standing(t, s)
  {
    hide WouldStrand, FloorMet, ActiveMembers;
  }

  lemma WriteKeepsStanding(t: Tenant, w: Step, s: Step)
    requires Standing(t, s)
    ensures Standing(Write(t, w), s)
  {
    assert ActiveMembers(Write(t, w)) == ActiveMembers(t);
  }

  /** Whenever a request writes that was checked at some earlier moment, the floor of a host stays met exactly
      when its guard, asked again at that host, would pass now. */
  lemma WriteKeepsFloorExactly(t: Tenant, s: Step, host: string)
    requires FloorMet(t, t.stance, host) && Standing(t, s)
    ensures FloorMet(Write(t, s), Write(t, s).stance, host) <==> GuardPasses(t, s, host)
  {
    match s
    case SetStance(stance, _) =>
      hide FloorMet;
      StanceKeepsCount(t, stance, host);
    case Enrol(id, f) => SubsetSize(AdminFactors(t, t.stance, host), AdminFactors(Write(t, s), t.stance, host));
    case Remove(sub, id, _) =>
      if id in t.factors && t.factors[id].member == sub {
        GuardIsExact(t, sub, id, host);
        if !t.members[sub].admin { OthersDoNotCount(t, sub, id, host); }
      } else {
        GoneStrandsNobody(t, sub, id, host);
      }
  }

  lemma GoneStrandsNobody(t: Tenant, sub: string, id: FactorId, host: string)
    requires FloorMet(t, t.stance, host) && sub in t.members && t.members[sub].active
    requires id !in t.factors || t.factors[id].member != sub
    ensures !WouldStrand(t, sub, id, host)
  {
    if t.stance != Off && t.members[sub].admin {
      var mine, others := OwnFactors(t, sub, host), OtherFactors(t, sub, host);
      assert mine - {id} == mine;
      assert AdminFactors(t, t.stance, host) == others + mine;
      assert |others + mine| == |others| + |mine|;
    }
  }

  /** A tenant and the requests that have been checked and have still to write. */
  datatype Desk = Desk(tenant: Tenant, checked: map<nat, Step>)

  datatype Event = Check(request: nat, step: Step) | Commit(request: nat)

  function After(d: Desk, e: Event): Desk {
    match e
    case Check(r, s) => if r in d.checked || !Checked(d.tenant, s) then d else d.(checked := d.checked[r := s])
    case Commit(r) => if r in d.checked then Desk(Write(d.tenant, d.checked[r]), d.checked - {r}) else d
  }

  ghost predicate AllStanding(d: Desk) { forall r :: r in d.checked ==> Standing(d.tenant, d.checked[r]) }

  lemma AfterKeepsStanding(d: Desk, e: Event)
    requires AllStanding(d)
    ensures AllStanding(After(d, e))
  {
    hide Standing, Checked, Write;
    var n := After(d, e);
    forall r | r in n.checked ensures Standing(n.tenant, n.checked[r]) {
      if e.Check? {
        if r == e.request && r !in d.checked { CheckedIsStanding(d.tenant, e.step); }
      } else if e.request in d.checked {
        WriteKeepsStanding(d.tenant, d.checked[e.request], d.checked[r]);
      }
    }
  }

  predicate FloorKept(d: Desk, events: seq<Event>, host: string)
    decreases |events|
  {
    FloorMet(d.tenant, d.tenant.stance, host) && (events != [] ==> FloorKept(After(d, events[0]), events[1..], host))
  }

  predicate WritesNow(d: Desk, e: Event) { e.Commit? && e.request in d.checked }

  /** Each write is one whose guard would still pass at the moment it is made. */
  predicate AllStillPass(d: Desk, events: seq<Event>, host: string)
    decreases |events|
  {
    events != [] ==>
      && (WritesNow(d, events[0]) ==> GuardPasses(d.tenant, d.checked[events[0].request], host))
      && AllStillPass(After(d, events[0]), events[1..], host)
  }

  lemma {:induction false} DeskKeepsFloorExactly(d: Desk, events: seq<Event>, host: string)
    requires FloorMet(d.tenant, d.tenant.stance, host) && AllStanding(d)
    ensures FloorKept(d, events, host) <==> AllStillPass(d, events, host)
    decreases |events|
  {
    hide FloorMet, GuardPasses, Standing, Checked, Write;
    if events != [] {
      var e := events[0];
      AfterKeepsStanding(d, e);
      if WritesNow(d, e) { WriteKeepsFloorExactly(d.tenant, d.checked[e.request], host); }
      if FloorMet(After(d, e).tenant, After(d, e).tenant.stance, host) { DeskKeepsFloorExactly(After(d, e), events[1..], host); }
    }
  }

  /** Any number of stance changes, enrolments and removals, each checked at one moment and written at another,
      at any hosts: the floor of a host never falls exactly when every write comes while its guard, asked again
      at that host, would still pass. */
  lemma FloorOverOverlapsExactly(t: Tenant, events: seq<Event>, host: string)
    requires FloorMet(t, t.stance, host)
    ensures FloorKept(Desk(t, map[]), events, host) <==> AllStillPass(Desk(t, map[]), events, host)
  {
    hide FloorMet, FloorKept, AllStillPass;
    DeskKeepsFloorExactly(Desk(t, map[]), events, host);
  }

  /** Two requests that both passed their checks before either wrote: the floor stands after both exactly when
      the second would pass again after the first. */
  lemma OverlappingStepsExactly(t: Tenant, a: Step, b: Step, host: string)
    requires FloorMet(t, t.stance, host) && AtHost(a, host) && AtHost(b, host) && Checked(t, a) && Checked(t, b)
    ensures var first := Write(t, a);
      FloorMet(Write(first, b), Write(first, b).stance, host) <==> GuardPasses(first, b, host)
  {
    hide FloorMet, StanceRefusal, WouldStrand, Standing, Write;
    CheckedIsStanding(t, a);
    CheckedIsStanding(t, b);
    WriteKeepsFloorExactly(t, a, host);
    WriteKeepsStanding(t, a, b);
    WriteKeepsFloorExactly(Write(t, a), b, host);
  }

  /** When two removals both check before either deletes, the floor stands after both exactly when the second,
      asked again after the first delete, would not be refused. */
  lemma OverlappingRemovalsExactly(t: Tenant, a: string, i: FactorId, b: string, j: FactorId, host: string)
    requires FloorMet(t, t.stance, host) && i != j && MayRemove(t, a, i, host) && MayRemove(t, b, j, host)
    ensures var first := t.(factors := t.factors - {i});
      FloorMet(first.(factors := first.factors - {j}), t.stance, host) <==> !WouldStrand(first, b, j, host)
  {
    hide WouldStrand, FloorMet;
    OverlappingStepsExactly(t, Remove(a, i, host), Remove(b, j, host), host);
  }

  /** A requirement checked beside the removal of the only factor: both pass, and both go through. */
  lemma StanceOverRemovalCanBreakTheFloor()
    ensures var t := OneAdmin(Off, map[0 := TOTP_X]);
      var a, b := SetStance(Any, "x"), Remove("a", 0, "x");
      FloorMet(t, Off, "x") && Checked(t, a) && Checked(t, b)
      && !FloorMet(Write(Write(t, a), b), Any, "x") && !FloorMet(Write(Write(t, b), a), Any, "x")
  {
    var t := OneAdmin(Off, map[0 := TOTP_X]);
    assert AdminFactors(t, Any, "x") == {0};
    assert AdminFactors(OneAdmin(Any, map[]), Any, "x") == {};
    assert t.factors - {0} == map[];
    hide AdminFactors, MayRemove, WouldStrand;
    assert MayRemove(t, "a", 0, "x") by { OffStrandsNobody(t); }
  }

  lemma OffStrandsNobody(t: Tenant)
    requires t == OneAdmin(Off, map[0 := TOTP_X])
    ensures MayRemove(t, "a", 0, "x")
  {
  }

  lemma OthersDoNotCount(t: Tenant, sub: string, id: FactorId, host: string)
    requires id in t.factors && t.factors[id].member == sub && sub in t.members && !t.members[sub].admin
    ensures FloorMet(t.(factors := t.factors - {id}), t.stance, host) == FloorMet(t, t.stance, host)
  {
    assert AdminFactors(t.(factors := t.factors - {id}), t.stance, host) == AdminFactors(t, t.stance, host);
  }

  /** Two removals that both checked before either deleted can take the tenant below the floor. */
  lemma OverlappingRemovalsCanBreakTheFloor()
    ensures var t := Tenant(Any, map["a" := Member(true, true), "b" := Member(true, true)],
                            map[0 := Factor("a", Totp, "x"), 1 := Factor("b", Totp, "x")]);
      FloorMet(t, Any, "x") && MayRemove(t, "a", 0, "x") && MayRemove(t, "b", 1, "x")
      && !FloorMet(t.(factors := t.factors - {0} - {1}), Any, "x")
  {
    var t := Tenant(Any, map["a" := Member(true, true), "b" := Member(true, true)],
                    map[0 := Factor("a", Totp, "x"), 1 := Factor("b", Totp, "x")]);
    assert AdminFactors(t, Any, "x") == {0, 1};
    GuardIsExact(t, "a", 0, "x");
    GuardIsExact(t, "b", 1, "x");
    assert AdminFactors(t.(factors := t.factors - {0}), Any, "x") == {1};
    assert AdminFactors(t.(factors := t.factors - {1}), Any, "x") == {0};
    assert AdminFactors(t.(factors := t.factors - {0} - {1}), Any, "x") == {};
  }
}

/** Whole runs of the operations on the cluster, and the agreement of the two reconcilers
    (server/handlers/syncer.go, server/kubernetes/sync.go). */
module ClusterRuns {
  import opened Wrappers
  import opened Naming
  import opened Cluster
  import opened Reconcile
  import opened SyncProperties
  import opened KubeSync

  // ---------- Any operation, as a step ----------

  /** `order` is the order in which the API lists a set of names. */
  datatype Op =
    | SyncOp(cycle: Cycle)
    | DevicesOp(request: Request)
    | SingleOp(single: SingleRequest)
    | DeleteOp(ready: bool, id: string, fate: CleanupFate)
    | CleanupOp(listed: bool, order: set<string> -> seq<string>, fates: string -> CleanupFate)

  ghost predicate ListsAll(order: set<string> -> seq<string>) {
    forall names: set<string> :: IsListing(order(names), names)
  }

  function Step(s: State, op: Op): State
    requires WellNamed(s.world)
  {
    match op
    case SyncOp(c) => Sync(s, c)
    case DevicesOp(q) => s.(world := SyncDevicesWorld(s.world, q))
    case SingleOp(q) => s.(world := SingleWorld(s.world, q))
    case DeleteOp(ready, id, fate) => s.(world := DeleteWorld(s.world, ready, id, fate))
    case CleanupOp(listed, order, fates) =>
      if listed
      then s.(world := CleanupWorld(s.world, order(s.world.services.Keys), order(s.world.endpoints.Keys), fates))
      else s
  }

  // ---------- Deletions are acknowledged; anything else may fail ----------

  ghost predicate DeletesSucceed(op: Op) {
    match op
    case SyncOp(c) => forall n: string :: c.cleanup(n) == CleanupFate(Done, Done)
    case DevicesOp(q) => forall n: string :: q.cleanup(n) == CleanupFate(Done, Done)
    case SingleOp(_) => true
    case DeleteOp(_, _, fate) => fate == CleanupFate(Done, Done)
    case CleanupOp(_, order, fates) => ListsAll(order) && forall n: string :: fates(n) == CleanupFate(Done, Done)
  }

  lemma {:induction false} VisitsKeepNoOrphans(s: State, visits: seq<Visit>)
    requires NoOrphans(s.world)
    ensures NoOrphans(VisitAll(s, visits).world)
  {
    if visits != [] { VisitsKeepNoOrphans(s, visits[..|visits| - 1]); }
  }

  lemma {:induction false} ClaimsKeepNoOrphans(w: World, claims: seq<Claim>)
    requires NoOrphans(w)
    ensures NoOrphans(ClaimAll(w, claims))
  {
    if claims != [] { ClaimsKeepNoOrphans(w, claims[..|claims| - 1]); }
  }

  /** A cycle leaves no orphan exactly when every stale Endpoints that survives its
      deletion keeps its Service too. */
  lemma SyncOrphansIff(s: State, c: Cycle)
    requires WellNamed(s.world) && NoOrphans(s.world) && c.Runs()
    ensures NoOrphans(Sync(s, c).world) <==>
      forall n <- s.world.endpoints.Keys - Names(c.visits) ::
        c.cleanup(n).endpoints.Refused? ==> c.cleanup(n).service.Refused?
  {
    var t := VisitAll(s, c.visits);
    VisitsKeepNoOrphans(s, c.visits);
    var stale := s.world.services.Keys - Names(c.visits);
    forall n <- stale ensures n in t.world.endpoints <==> n in s.world.endpoints {
      StaleUntouched(s, c.visits, n);
    }
    var u := Sync(s, c).world;
    if NoOrphans(u) {
      forall n <- s.world.endpoints.Keys - Names(c.visits) | c.cleanup(n).endpoints.Refused?
        ensures c.cleanup(n).service.Refused?
      {
        assert n in stale && n in u.endpoints;
      }
    }
  }

  lemma StaleUntouched(s: State, visits: seq<Visit>, n: string)
    requires WellNamed(s.world) && n in s.world.services && n !in Names(visits)
    ensures At(VisitAll(s, visits).world.endpoints, n) == At(s.world.endpoints, n)
    ensures At(VisitAll(s, visits).world.services, n) == At(s.world.services, n)
  {
    assert |PREFIX| <= |n| && IsObjectName(n);
    CleanupHitsListedName(n);
    UnvisitedUntouched(s, visits, DeviceIdOf(n));
    assert SlotOf(VisitAll(s, visits), DeviceIdOf(n)) == SlotOf(s, DeviceIdOf(n));
  }

  /** Deleting both objects, the Service first and the Endpoints only if that is acknowledged. */
  predicate DeletionOrphansNothing(fate: CleanupFate) {
    fate.service.Refused? || (fate.service.Done? && fate.endpoints.Applied())
  }

  /** The one-shot reconciler skips the Endpoints when the Service's deletion is not
      acknowledged, so a deletion that was applied but whose reply was lost also orphans them. */
  lemma PruneOrphansIff(w: World, names: set<string>, fates: string -> CleanupFate)
    requires NoOrphans(w)
    ensures NoOrphans(Pruned(w, names, fates)) <==>
      forall n <- names * w.endpoints.Keys ::
        DeletionOrphansNothing(fates(n))
  {
    var t := Pruned(w, names, fates);
    if NoOrphans(t) {
      forall n <- names * w.endpoints.Keys ensures DeletionOrphansNothing(fates(n)) {
        assert n in t.endpoints ==> n in t.services;
      }
    }
  }

  lemma DeleteOrphansIff(w: World, name: string, fate: CleanupFate)
    requires NoOrphans(w)
    ensures NoOrphans(PruneOne(w, name, fate)) <==> (name in w.endpoints ==> DeletionOrphansNothing(fate))
  {
    var t := PruneOne(w, name, fate);
    if NoOrphans(t) { assert name in t.endpoints ==> name in t.services; }
  }

  /** How many of the names, in their order, are acknowledged deleted before the first that is not. */
  function Acknowledged(names: seq<string>, fates: string -> Fate): (k: nat)
    ensures k <= |names|
  {
    if names == [] || !fates(names[0]).Done? then 0 else 1 + Acknowledged(names[1..], fates)
  }

  /** The names that are gone: those, and the next if its deletion was applied and its reply lost. */
  function Gone(names: seq<string>, fates: string -> Fate): set<string> {
    var k := Acknowledged(names, fates);
    (set n <- names[..k]) + if k < |names| && fates(names[k]).Lost? then {names[k]} else {}
  }

  lemma {:induction false} RemoveListedRemoves<V>(m: map<string, V>, names: seq<string>, fates: string -> Fate)
    ensures RemoveListed(m, names, fates) == (m - Gone(names, fates), Acknowledged(names, fates) == |names|)
  {
    if names == [] {
      assert m - Gone(names, fates) == m;
    } else if fates(names[0]).Done? {
      RemoveListedRemoves(m - {names[0]}, names[1..], fates);
      var k := Acknowledged(names, fates);
      assert names[..k] == [names[0]] + names[1..][..k - 1];
      assert Gone(names, fates) == {names[0]} + Gone(names[1..], fates);
      assert m - {names[0]} - Gone(names[1..], fates) == m - Gone(names, fates);
    } else {
      assert names[..0] == [];
      assert Gone(names, fates) == if fates(names[0]).Lost? then {names[0]} else {};
      assert m - {} == m;
    }
  }

  lemma {:induction false} AllAcknowledged(names: seq<string>, fates: string -> Fate)
    requires forall n: string :: fates(n).Done?
    ensures Acknowledged(names, fates) == |names|
  {
    if names != [] { AllAcknowledged(names[1..], fates); }
  }

  /** Cleanup that gets past the Services must remove every Endpoints; cleanup that stops among
      the Services must not have removed one that has Endpoints. */
  predicate CleanupOrphansNothing(w: World, services: seq<string>, endpoints: seq<string>,
                                  fates: string -> CleanupFate)
  {
    if Acknowledged(services, ServiceFates(fates)) == |services|
    then w.endpoints.Keys <= Gone(endpoints, EndpointsFates(fates))
    else w.endpoints.Keys !! Gone(services, ServiceFates(fates))
  }

  lemma CleanupOrphansIff(w: World, services: seq<string>, endpoints: seq<string>, fates: string -> CleanupFate)
    requires NoOrphans(w) && IsListing(services, w.services.Keys) && IsListing(endpoints, w.endpoints.Keys)
    ensures NoOrphans(CleanupWorld(w, services, endpoints, fates)) <==>
      CleanupOrphansNothing(w, services, endpoints, fates)
  {
    hide Acknowledged, Gone, ServiceFates, EndpointsFates, CleanupWorld, IsListing;
    CleanupRemoves(w, services, endpoints, fates);
    var gone, rest := Gone(services, ServiceFates(fates)), Gone(endpoints, EndpointsFates(fates));
    if Acknowledged(services, ServiceFates(fates)) == |services| {
      GoneListed(services, w.services.Keys, ServiceFates(fates));
      RemovedKeys(w.endpoints, rest);
      RemovedKeys(w.services, gone);
    } else {
      RemovedKeys(w.services, gone);
    }
  }

  lemma RemovedKeys<V>(m: map<string, V>, names: set<string>)
    ensures (m - names).Keys == m.Keys - names
  {
  }

  /** What cleanup leaves, table by table. */
  lemma CleanupRemoves(w: World, services: seq<string>, endpoints: seq<string>, fates: string -> CleanupFate)
    ensures CleanupWorld(w, services, endpoints, fates) ==
      World(w.services - Gone(services, ServiceFates(fates)),
            if Acknowledged(services, ServiceFates(fates)) == |services|
            then w.endpoints - Gone(endpoints, EndpointsFates(fates)) else w.endpoints)
  {
    hide Acknowledged, Gone, ServiceFates, EndpointsFates, RemoveListed;
    RemoveListedRemoves(w.services, services, ServiceFates(fates));
    RemoveListedRemoves(w.endpoints, endpoints, EndpointsFates(fates));
  }

  lemma GoneListed(names: seq<string>, listed: set<string>, fates: string -> Fate)
    requires Acknowledged(names, fates) == |names| && IsListing(names, listed)
    ensures Gone(names, fates) == listed
  {
    assert names[..|names|] == names;
  }

  /** Cleanup with acknowledged deletions leaves nothing behind, orphans included. */
  lemma CleanupLeavesNothing(w: World, services: seq<string>, endpoints: seq<string>, fates: string -> CleanupFate)
    requires IsListing(services, w.services.Keys) && IsListing(endpoints, w.endpoints.Keys)
    requires forall n: string :: fates(n) == CleanupFate(Done, Done)
    ensures CleanupWorld(w, services, endpoints, fates) == World(map[], map[])
  {
    AllAcknowledged(services, ServiceFates(fates));
    AllAcknowledged(endpoints, EndpointsFates(fates));
    AcknowledgedCleanup(w, services, endpoints, fates);
  }

  lemma AcknowledgedCleanup(w: World, services: seq<string>, endpoints: seq<string>, fates: string -> CleanupFate)
    requires IsListing(services, w.services.Keys) && IsListing(endpoints, w.endpoints.Keys)
    requires Acknowledged(services, ServiceFates(fates)) == |services|
    requires Acknowledged(endpoints, EndpointsFates(fates)) == |endpoints|
    ensures CleanupWorld(w, services, endpoints, fates) == World(map[], map[])
  {
    hide Acknowledged, Gone, ServiceFates, EndpointsFates, CleanupWorld, IsListing;
    CleanupRemoves(w, services, endpoints, fates);
    GoneListed(services, w.services.Keys, ServiceFates(fates));
    GoneListed(endpoints, w.endpoints.Keys, EndpointsFates(fates));
    RemovedKeys(w.services, w.services.Keys);
    RemovedKeys(w.endpoints, w.endpoints.Keys);
  }

  /** Cleanup that is refused a Service half way orphans the Endpoints of those it had deleted. */
  lemma InterruptedCleanupOrphans(w: World, services: seq<string>, endpoints: seq<string>,
                                  fates: string -> CleanupFate, i: nat, j: nat)
    requires NoOrphans(w) && IsListing(services, w.services.Keys) && IsListing(endpoints, w.endpoints.Keys)
    requires i < j < |services| && services[i] in w.endpoints && fates(services[j]).service.Refused?
    requires forall k :: 0 <= k < j ==> fates(services[k]).service.Done?
    ensures !NoOrphans(CleanupWorld(w, services, endpoints, fates))
  {
    AcknowledgedUpTo(services, ServiceFates(fates), j);
    assert services[..j][i] in services[..j];
    CleanupOrphansIff(w, services, endpoints, fates);
  }

  lemma {:induction false} AcknowledgedUpTo(names: seq<string>, fates: string -> Fate, j: nat)
    requires j < |names| && !fates(names[j]).Done?
    requires forall k :: 0 <= k < j ==> fates(names[k]).Done?
    ensures Acknowledged(names, fates) == j
  {
    if j > 0 {
      assert forall k :: 0 <= k < j - 1 ==> names[1..][k] == names[k + 1];
      AcknowledgedUpTo(names[1..], fates, j - 1);
    }
  }

  lemma StepWellNamed(s: State, op: Op)
    requires WellNamed(s.world)
    requires op.CleanupOp? ==> ListsAll(op.order)
    ensures WellNamed(Step(s, op).world)
  {
    match op {
      case SyncOp(c) => SyncWellNamed(s, c);
      case DevicesOp(q) => SyncDevicesWellNamed(s.world, q);
      case SingleOp(q) => ServiceNameIsObjectName(q.id); FoundIsFirst(q.claims, q.id);
      case DeleteOp(_, _, _) =>
      case CleanupOp(_, order, fates) =>
        RemoveListedShrinks(s.world.services, order(s.world.services.Keys), ServiceFates(fates));
        RemoveListedShrinks(s.world.endpoints, order(s.world.endpoints.Keys), EndpointsFates(fates));
    }
  }

  lemma {:induction false} RemoveListedShrinks<V>(m: map<string, V>, names: seq<string>, fates: string -> Fate)
    ensures RemoveListed(m, names, fates).0.Keys <= m.Keys
  {
    if names != [] { RemoveListedShrinks(m - {names[0]}, names[1..], fates); }
  }

  /** The condition of each operation, on the state it starts from and the ends of its calls. */
  predicate OrphansNothing(w: World, op: Op) {
    match op
    case SyncOp(c) =>
      c.Runs() ==> forall n <- w.endpoints.Keys - Names(c.visits) ::
        c.cleanup(n).endpoints.Refused? ==> c.cleanup(n).service.Refused?
    case DevicesOp(q) =>
      q.Runs() ==> forall n <- w.endpoints.Keys - Claimed(HealthyOnly(q.claims)) :: DeletionOrphansNothing(q.cleanup(n))
    case SingleOp(_) => true
    case DeleteOp(ready, id, fate) => ready && ServiceName(id) in w.endpoints ==> DeletionOrphansNothing(fate)
    case CleanupOp(listed, order, fates) =>
      listed ==> CleanupOrphansNothing(w, order(w.services.Keys), order(w.endpoints.Keys), fates)
  }

  lemma DevicesOrphansIff(w: World, q: Request)
    requires NoOrphans(w)
    ensures NoOrphans(SyncDevicesWorld(w, q)) <==> OrphansNothing(w, DevicesOp(q))
  {
    if q.Runs() {
      var claims := HealthyOnly(q.claims);
      var u, stale := ClaimAll(w, claims), w.services.Keys - Claimed(claims);
      ClaimsKeepNoOrphans(w, claims);
      PruneOrphansIff(u, stale, q.cleanup);
      forall n ensures n in stale * u.endpoints.Keys <==> n in w.endpoints.Keys - Claimed(claims) {
        if n !in Claimed(claims) { UnclaimedUntouched(w, claims, n); }
      }
    }
  }

  /** Any operation: from a state without orphans it leaves none exactly under its condition. */
  lemma StepOrphansIff(s: State, op: Op)
    requires WellNamed(s.world) && NoOrphans(s.world)
    requires op.CleanupOp? ==> ListsAll(op.order)
    ensures NoOrphans(Step(s, op).world) <==> OrphansNothing(s.world, op)
  {
    match op {
      case SyncOp(c) => if c.Runs() { SyncOrphansIff(s, c); }
      case DevicesOp(q) => DevicesOrphansIff(s.world, q);
      case SingleOp(q) =>
      case DeleteOp(_, id, fate) => DeleteOrphansIff(s.world, ServiceName(id), fate);
      case CleanupOp(_, order, fates) =>
        CleanupOrphansIff(s.world, order(s.world.services.Keys), order(s.world.endpoints.Keys), fates);
    }
  }

  lemma StepKeepsNoOrphans(s: State, op: Op)
    requires WellNamed(s.world) && NoOrphans(s.world) && DeletesSucceed(op)
    ensures NoOrphans(Step(s, op).world)
  {
    StepOrphansIff(s, op);
    if op.CleanupOp? {
      CleanupLeavesNothing(s.world, op.order(s.world.services.Keys), op.order(s.world.endpoints.Keys), op.fates);
    }
  }

  ghost predicate Runnable(ops: seq<Op>) {
    forall i :: 0 <= i < |ops| && ops[i].CleanupOp? ==> ListsAll(ops[i].order)
  }

  ghost function Run(s: State, ops: seq<Op>): (t: State)
    requires WellNamed(s.world) && Runnable(ops)
    ensures WellNamed(t.world)
  {
    if ops == [] then s
    else
      var n := |ops| - 1;
      var before := Run(s, ops[..n]);
      StepWellNamed(before, ops[n]);
      Step(before, ops[n])
  }

  /** No run of operations whose deletions succeed ever leaves an Endpoints without its Service,
      whatever creates, updates, gets and lists fail. */
  lemma {:induction false} NoOrphansInAnyRun(s: State, ops: seq<Op>)
    requires WellNamed(s.world) && NoOrphans(s.world)
    requires Runnable(ops) && forall i :: 0 <= i < |ops| ==> DeletesSucceed(ops[i])
    ensures NoOrphans(Run(s, ops).world)
  {
    if ops != [] {
      var n := |ops| - 1;
      NoOrphansInAnyRun(s, ops[..n]);
      StepKeepsNoOrphans(Run(s, ops[..n]), ops[n]);
    }
  }

  lemma RunStep(s: State, ops: seq<Op>, i: nat)
    requires WellNamed(s.world) && Runnable(ops) && i < |ops|
    ensures Run(s, ops[..i + 1]) == Step(Run(s, ops[..i]), ops[i])
  {
    assert ops[..i + 1][..i] == ops[..i];
  }

  lemma {:induction false} NoOrphansUpTo(s: State, ops: seq<Op>, i: nat)
    requires WellNamed(s.world) && NoOrphans(s.world) && Runnable(ops) && i <= |ops|
    requires MeetConditions(s, ops, i)
    ensures NoOrphans(Run(s, ops[..i]).world)
  {
    if i == 0 {
      assert Run(s, ops[..0]) == s;
    } else {
      hide Run, OrphansNothing, NoOrphans, Step, WellNamed, ListsAll, MeetConditions, Runnable;
      LastMeetsCondition(s, ops, i);
      NoOrphansUpTo(s, ops, i - 1);
      RunStep(s, ops, i - 1);
      StepOrphansIff(Run(s, ops[..i - 1]), ops[i - 1]);
    }
  }

  ghost predicate MeetConditions(s: State, ops: seq<Op>, i: nat)
    requires WellNamed(s.world) && Runnable(ops) && i <= |ops|
  {
    forall k :: 0 <= k < i ==> OrphansNothing(Run(s, ops[..k]).world, ops[k])
  }

  lemma LastMeetsCondition(s: State, ops: seq<Op>, i: nat)
    requires WellNamed(s.world) && Runnable(ops) && 0 < i <= |ops| && MeetConditions(s, ops, i)
    ensures MeetConditions(s, ops, i - 1) && OrphansNothing(Run(s, ops[..i - 1]).world, ops[i - 1])
    ensures ops[i - 1].CleanupOp? ==> ListsAll(ops[i - 1].order)
  {
    hide Run, OrphansNothing, ListsAll;
  }

  /** A run of any operations is free of orphans throughout exactly when each of its operations
      meets its condition in the state it starts from. */
  lemma NoOrphansThroughoutIff(s: State, ops: seq<Op>)
    requires WellNamed(s.world) && NoOrphans(s.world) && Runnable(ops)
    ensures (forall i :: 0 <= i <= |ops| ==> NoOrphans(Run(s, ops[..i]).world))
       <==> (forall i :: 0 <= i < |ops| ==> OrphansNothing(Run(s, ops[..i]).world, ops[i]))
  {
    hide Run, OrphansNothing, NoOrphans;
    if forall i :: 0 <= i <= |ops| ==> NoOrphans(Run(s, ops[..i]).world) {
      forall i | 0 <= i < |ops| ensures OrphansNothing(Run(s, ops[..i]).world, ops[i]) {
        RunStep(s, ops, i);
        assert NoOrphans(Run(s, ops[..i + 1]).world);
        StepOrphansIff(Run(s, ops[..i]), ops[i]);
      }
    }
    if forall i :: 0 <= i < |ops| ==> OrphansNothing(Run(s, ops[..i]).world, ops[i]) {
      forall i | 0 <= i <= |ops| ensures NoOrphans(Run(s, ops[..i]).world) {
        NoOrphansUpTo(s, ops, i);
      }
    }
  }

  // ---------- An orphan is never cleaned up by reconciling ----------

  /** The operation neither publishes a device of this name nor is asked to delete it. */
  predicate Ignores(op: Op, name: string) {
    match op
    case SyncOp(c) => name !in Names(c.visits)
    case DevicesOp(q) => name !in Claimed(HealthyOnly(q.claims))
    case SingleOp(q) => ServiceName(q.id) != name
    case DeleteOp(_, id, _) => ServiceName(id) != name
    case CleanupOp(_, _, _) => false
  }

  predicate Orphan(w: World, name: string) {
    name in w.endpoints && name !in w.services
  }

  lemma {:induction false} UnclaimedUntouched(w: World, claims: seq<Claim>, name: string)
    requires name !in Claimed(claims)
    ensures At(ClaimAll(w, claims).services, name) == At(w.services, name)
    ensures At(ClaimAll(w, claims).endpoints, name) == At(w.endpoints, name)
  {
    if claims != [] {
      var n := |claims| - 1;
      assert claims[n] in claims && Claimed(claims[..n]) <= Claimed(claims);
      UnclaimedUntouched(w, claims[..n], name);
    }
  }

  lemma OrphanSurvives(s: State, op: Op, name: string)
    requires WellNamed(s.world) && Orphan(s.world, name) && Ignores(op, name)
    ensures Orphan(Step(s, op).world, name)
  {
    match op {
      case SyncOp(c) =>
        if c.Runs() {
          assert |PREFIX| <= |name| && IsObjectName(name);
          CleanupHitsListedName(name);
          UnlistedSlot(s, c, DeviceIdOf(name));
          assert SlotOf(Sync(s, c), DeviceIdOf(name)) == SlotOf(s, DeviceIdOf(name));
        }
      case DevicesOp(q) =>
        UnclaimedUntouched(s.world, HealthyOnly(q.claims), name);
      case SingleOp(q) =>
        FoundIsFirst(q.claims, q.id);
      case DeleteOp(_, _, _) =>
      case CleanupOp(_, _, _) =>
    }
  }

  /** Endpoints left behind without a Service stay for ever, unless the device comes back
      or somebody deletes them by name: no reconciliation looks for them. */
  lemma {:induction false} OrphanSurvivesRuns(s: State, ops: seq<Op>, name: string)
    requires WellNamed(s.world) && Runnable(ops) && Orphan(s.world, name)
    requires forall i :: 0 <= i < |ops| ==> Ignores(ops[i], name)
    ensures Orphan(Run(s, ops).world, name)
  {
    if ops != [] {
      var n := |ops| - 1;
      OrphanSurvivesRuns(s, ops[..n], name);
      OrphanSurvives(Run(s, ops[..n]), ops[n], name);
    }
  }
}

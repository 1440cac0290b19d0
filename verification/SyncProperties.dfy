/** What a reconciliation cycle does to each device, and what repeated cycles converge to. */
module SyncProperties {
  import opened Wrappers
  import opened Naming
  import opened Cluster
  import opened Reconcile

  // ---------- Devices do not interfere ----------

  /** No two visits share their objects; Naming.ValidIdsNameInjectively and the primary key
      of the device table give this for stored devices. */
  predicate DistinctNames(visits: seq<Visit>) {
    forall i, j :: 0 <= i < j < |visits| ==> visits[i].Name() != visits[j].Name()
  }

  /** All that a state holds for one device. */
  datatype Slot = Slot(service: Option<Service>, endpoints: Option<Endpoints>, failures: Option<int>)

  function SlotOf(s: State, id: string): Slot {
    Slot(At(s.world.services, ServiceName(id)), At(s.world.endpoints, ServiceName(id)), At(s.failures, id))
  }

  /** Devices that are not visited keep what they have. */
  lemma {:induction false} UnvisitedUntouched(s: State, visits: seq<Visit>, id: string)
    requires ServiceName(id) !in Names(visits)
    ensures SlotOf(VisitAll(s, visits), id) == SlotOf(s, id)
  {
    if visits != [] {
      var n := |visits| - 1;
      assert Names(visits[..n]) <= Names(visits);
      assert visits[n] in visits && visits[n].Name() in Names(visits);
      UnvisitedUntouched(s, visits[..n], id);
    }
  }

  /** A visit of one device reads and writes only that device's slot. */
  lemma VisitIsLocal(s: State, t: State, v: Visit)
    requires SlotOf(s, v.device.id) == SlotOf(t, v.device.id)
    ensures SlotOf(VisitState(s, v), v.device.id) == SlotOf(VisitState(t, v), v.device.id)
  {
    var n := v.Name();
    assert At(s.world.services, n) == At(t.world.services, n);
    assert At(s.world.endpoints, n) == At(t.world.endpoints, n);
    assert Failures(s, v.device.id) == Failures(t, v.device.id);
  }

  /** The device loop is as if each device were visited alone, whatever the order. */
  lemma {:induction false} VisitedAlone(s: State, visits: seq<Visit>, i: nat)
    requires DistinctNames(visits) && i < |visits|
    ensures SlotOf(VisitAll(s, visits), visits[i].device.id) == SlotOf(VisitState(s, visits[i]), visits[i].device.id)
  {
    var n := |visits| - 1;
    var before, id := visits[..n], visits[i].device.id;
    if i == n {
      assert forall v <- before :: v.Name() != visits[n].Name();
      UnvisitedUntouched(s, before, id);
      VisitIsLocal(VisitAll(s, before), s, visits[n]);
    } else {
      VisitedAlone(s, before, i);
      assert before[i] == visits[i];
      UnvisitedUntouched(VisitAll(s, before), [visits[n]], id);
      assert [visits[n]][..0] == [];
    }
  }

  // ---------- A whole cycle, one device at a time ----------

  /** What the cleanup loop leaves of a device that is no longer listed. */
  function GoneSlot(before: Slot, fate: CleanupFate): Slot {
    if before.service.None? then before
    else Slot(if fate.service.Applied() then None else before.service,
              if fate.endpoints.Applied() then None else before.endpoints,
              None)
  }

  lemma ListedSlot(s: State, c: Cycle, i: nat)
    requires WellNamed(s.world) && c.Runs() && DistinctNames(c.visits) && i < |c.visits|
    ensures SlotOf(Sync(s, c), c.visits[i].device.id) == SlotOf(VisitState(s, c.visits[i]), c.visits[i].device.id)
  {
    var id := c.visits[i].device.id;
    VisitedAlone(s, c.visits, i);
    assert c.visits[i] in c.visits && ServiceName(id) in Names(c.visits);
    CleanupSparesListed(VisitAll(s, c.visits), s.world.services.Keys - Names(c.visits), c.cleanup, id);
  }

  lemma CleanupSparesListed(t: State, stale: set<string>, fates: string -> CleanupFate, id: string)
    requires ObjectNames(stale) && ServiceName(id) !in stale
    ensures SlotOf(Cleanup(t, stale, fates), id) == SlotOf(t, id)
  {
    forall n <- stale ensures DeviceIdOf(n) != id {
      CleanupHitsListedName(n);
    }
  }

  /** For an id in lower case, as every stored id is. */
  lemma UnlistedSlot(s: State, c: Cycle, id: string)
    requires WellNamed(s.world) && c.Runs() && ToLower(id) == id
    requires ServiceName(id) !in Names(c.visits)
    ensures SlotOf(Sync(s, c), id) == GoneSlot(SlotOf(s, id), c.cleanup(ServiceName(id)))
  {
    var stale, n := s.world.services.Keys - Names(c.visits), ServiceName(id);
    UnvisitedUntouched(s, c.visits, id);
    var t := VisitAll(s, c.visits);
    assert SlotOf(t, id) == SlotOf(s, id);
    if n in s.world.services {
      ServiceNameIsObjectName(id);
      assert n in stale && DeviceIdOf(n) == id;
      CleanupEmptiesStale(t, stale, c.cleanup, id);
    } else {
      CleanupSparesListed(t, stale, c.cleanup, id);
    }
  }

  lemma CleanupEmptiesStale(t: State, stale: set<string>, fates: string -> CleanupFate, id: string)
    requires ObjectNames(stale) && ServiceName(id) in stale && DeviceIdOf(ServiceName(id)) == id
    ensures var fate, before := fates(ServiceName(id)), SlotOf(t, id);
      SlotOf(Cleanup(t, stale, fates), id) ==
        Slot(if fate.service.Applied() then None else before.service,
             if fate.endpoints.Applied() then None else before.endpoints, None)
  {
    assert id in set n <- stale :: DeviceIdOf(n);
  }

  // ---------- Error-free cycles ----------

  const ALL_WELL := UpsertFate(Done, Done)

  ghost predicate ErrorFree(c: Cycle) {
    && c.Runs()
    && (forall v <- c.visits :: v.service == ALL_WELL && v.endpoints == ALL_WELL && v.drop == Done)
    && (forall n: string :: c.cleanup(n) == CleanupFate(Done, Done))
  }

  function HealthyNames(visits: seq<Visit>): set<string> {
    set v <- visits | v.Healthy() :: v.Name()
  }

  /** `k` cycles on the same inputs. */
  function Repeat(s: State, c: Cycle, k: nat): State
    requires WellNamed(s.world)
    ensures WellNamed(Repeat(s, c, k).world)
  {
    if k == 0 then s
    else
      SyncWellNamed(Repeat(s, c, k - 1), c);
      Sync(Repeat(s, c, k - 1), c)
  }

  /** What `k` error-free cycles make of a listed device's slot. */
  function SettledSlot(before: Slot, v: Visit, k: nat): Slot {
    if v.Healthy() then
      Slot(Some(Service(v.device.id, v.device.deviceType, ToInt32(v.device.port))),
           Some(Endpoints(v.device.id, v.device.ip, ToInt32(v.device.port))), None)
    else
      var count := (if before.failures.Some? then before.failures.value else 0) + k;
      Slot(before.service, if count >= GRACE_LIMIT then None else before.endpoints, Some(count))
  }

  lemma {:induction false} ListedSettles(s: State, c: Cycle, i: nat, k: nat)
    requires WellNamed(s.world) && ErrorFree(c) && DistinctNames(c.visits) && i < |c.visits| && k > 0
    ensures SlotOf(Repeat(s, c, k), c.visits[i].device.id) ==
            SettledSlot(SlotOf(s, c.visits[i].device.id), c.visits[i], k)
  {
    var t, v := Repeat(s, c, k - 1), c.visits[i];
    ListedSlot(t, c, i);
    CleanVisit(t, v);
    if k > 1 {
      ListedSettles(s, c, i, k - 1);
      SettledAgain(SlotOf(s, v.device.id), v, k - 1);
    }
  }

  lemma SettledAgain(before: Slot, v: Visit, k: nat)
    ensures k > 0 ==> SettledSlot(SettledSlot(before, v, k), v, 1) == SettledSlot(before, v, k + 1)
  {
  }

  lemma CleanVisit(t: State, v: Visit)
    requires v.service == ALL_WELL && v.endpoints == ALL_WELL && v.drop == Done
    ensures SlotOf(VisitState(t, v), v.device.id) == SettledSlot(SlotOf(t, v.device.id), v, 1)
  {
  }

  lemma {:induction false} UnlistedSettles(s: State, c: Cycle, id: string, k: nat)
    requires WellNamed(s.world) && ErrorFree(c) && ToLower(id) == id && k > 0
    requires ServiceName(id) !in Names(c.visits)
    ensures SlotOf(Repeat(s, c, k), id) == GoneSlot(SlotOf(s, id), CleanupFate(Done, Done))
  {
    UnlistedSlot(Repeat(s, c, k - 1), c, id);
    if k > 1 { UnlistedSettles(s, c, id, k - 1); }
  }

  /** States with well-formed names and lower-case counters are determined by their slots. */
  lemma SlotsDetermineWorld(s: World, t: World)
    requires WellNamed(s) && WellNamed(t)
    requires forall id: string :: ToLower(id) == id ==>
      && At(s.services, ServiceName(id)) == At(t.services, ServiceName(id))
      && At(s.endpoints, ServiceName(id)) == At(t.endpoints, ServiceName(id))
    ensures s == t
  {
    forall n: string ensures At(s.services, n) == At(t.services, n) && At(s.endpoints, n) == At(t.endpoints, n) {
      if n in s.services.Keys + s.endpoints.Keys + t.services.Keys + t.endpoints.Keys {
        assert |PREFIX| <= |n| && IsObjectName(n);
        CleanupHitsListedName(n);
        var id := DeviceIdOf(n);
        assert ToLower(id) == id && n == ServiceName(id);
      }
    }
    EqualByLookup(s.services, t.services);
    EqualByLookup(s.endpoints, t.endpoints);
  }

  // ---------- Self-stabilisation ----------

  lemma ListedOutcome(s: State, c: Cycle, v: Visit)
    requires WellNamed(s.world) && ErrorFree(c) && DistinctNames(c.visits) && v in c.visits
    ensures SlotOf(Sync(s, c), v.device.id) == SettledSlot(SlotOf(s, v.device.id), v, 1)
  {
    var i :| 0 <= i < |c.visits| && c.visits[i] == v;
    ListedSlot(s, c, i);
    CleanVisit(s, v);
  }

  lemma UnlistedOutcome(s: State, c: Cycle, n: string)
    requires WellNamed(s.world) && ErrorFree(c) && n !in Names(c.visits)
    ensures n !in Sync(s, c).world.services
    ensures n in Sync(s, c).world.endpoints <==> n in s.world.endpoints && n !in s.world.services
  {
    SyncWellNamed(s, c);
    var t := Sync(s, c);
    if n in t.world.services.Keys + t.world.endpoints.Keys + s.world.endpoints.Keys {
      assert |PREFIX| <= |n| && IsObjectName(n);
      CleanupHitsListedName(n);
      var id := DeviceIdOf(n);
      UnlistedSlot(s, c, id);
      assert SlotOf(t, id) == GoneSlot(SlotOf(s, id), CleanupFate(Done, Done));
    }
  }

  /** One error-free cycle, from any well-named state. */
  lemma SelfStabilises(s: State, c: Cycle)
    requires WellNamed(s.world) && ErrorFree(c) && DistinctNames(c.visits)
    ensures var t := Sync(s, c).world;
      // Services: those of listed devices that were there, and those of healthy devices.
      && t.services.Keys == s.world.services.Keys * Names(c.visits) + HealthyNames(c.visits)
      // Each healthy device has its current type, address and port.
      && (forall v <- c.visits | v.Healthy() ::
            At(t.services, v.Name()) == Some(Service(v.device.id, v.device.deviceType, ToInt32(v.device.port)))
            && At(t.endpoints, v.Name()) == Some(Endpoints(v.device.id, v.device.ip, ToInt32(v.device.port))))
      // An unhealthy device keeps its Service as it was, and its Endpoints within the grace period.
      && (forall v <- c.visits | !v.Healthy() ::
            At(t.services, v.Name()) == At(s.world.services, v.Name())
            && At(t.endpoints, v.Name()) ==
                 if Failures(s, v.device.id) + 1 >= GRACE_LIMIT then None else At(s.world.endpoints, v.Name()))
      // Of unlisted devices, exactly the Endpoints that had no Service remain.
      && (forall n :: n !in Names(c.visits) ==>
            (n in t.endpoints <==> n in s.world.endpoints && n !in s.world.services))
  {
    var t := Sync(s, c).world;
    hide Sync, WellNamed, ErrorFree;
    forall v <- c.visits
      ensures At(t.services, v.Name()) == SettledSlot(SlotOf(s, v.device.id), v, 1).service
      ensures At(t.endpoints, v.Name()) == SettledSlot(SlotOf(s, v.device.id), v, 1).endpoints
    {
      ListedOutcome(s, c, v);
    }
    forall n | n !in Names(c.visits)
      ensures n !in t.services
      ensures n in t.endpoints <==> n in s.world.endpoints && n !in s.world.services
    {
      UnlistedOutcome(s, c, n);
    }
    ServiceKeys(s.world.services, t.services, c.visits);
  }

  lemma ServiceKeys(before: map<string, Service>, after: map<string, Service>, visits: seq<Visit>)
    requires DistinctNames(visits)
    requires forall v <- visits ::
      At(after, v.Name()) ==
        if v.Healthy() then Some(Service(v.device.id, v.device.deviceType, ToInt32(v.device.port)))
        else At(before, v.Name())
    requires forall n :: n !in Names(visits) ==> n !in after
    ensures after.Keys == before.Keys * Names(visits) + HealthyNames(visits)
  {
    forall n ensures n in after.Keys <==> n in before.Keys * Names(visits) + HealthyNames(visits) {
      if n in Names(visits) { ListedNameHealth(visits, n); }
    }
  }

  /** A listed name belongs to one visit, whose health decides whether it is a healthy name. */
  lemma ListedNameHealth(visits: seq<Visit>, n: string)
    requires DistinctNames(visits) && n in Names(visits)
    ensures exists v <- visits :: v.Name() == n && (v.Healthy() <==> n in HealthyNames(visits))
  {
    var v :| v in visits && v.Name() == n;
    if n in HealthyNames(visits) {
      var u :| u in visits && u.Healthy() && u.Name() == n;
      SameNameSameVisit(visits, u, v);
    }
  }

  lemma SameNameSameVisit(visits: seq<Visit>, u: Visit, v: Visit)
    requires DistinctNames(visits) && u in visits && v in visits && u.Name() == v.Name()
    ensures u == v
  {
    var i :| 0 <= i < |visits| && visits[i] == u;
    var j :| 0 <= j < |visits| && visits[j] == v;
  }

  // ---------- Repeated cycles ----------

  /** Running the same error-free cycle again creates nothing and deletes nothing. */
  lemma SecondCycleIsQuiet(s: State, c: Cycle, r: Report)
    requires WellNamed(s.world) && ErrorFree(c) && DistinctNames(c.visits)
    ensures IsReport(r, Sync(s, c).world.services.Keys, c) ==> r.created == [] && r.deleted == [] && r.failed == []
  {
    SelfStabilises(s, c);
    var existing := Sync(s, c).world.services.Keys;
    assert existing <= Names(c.visits);
    assert existing - Names(c.visits) == {};
    QuietReport(existing, c.visits);
  }

  lemma {:induction false} QuietReport(existing: set<string>, visits: seq<Visit>)
    requires forall v <- visits :: v.service == ALL_WELL && v.endpoints == ALL_WELL
    requires HealthyNames(visits) <= existing
    ensures ReportAll(existing, visits).created == [] && ReportAll(existing, visits).failed == []
  {
    if visits != [] {
      var n := |visits| - 1;
      assert HealthyNames(visits[..n]) <= HealthyNames(visits);
      QuietReport(existing, visits[..n]);
      assert visits[n] in visits;
      assert visits[n].Healthy() ==> visits[n].Name() in HealthyNames(visits);
    }
  }

  /** From the third repetition on the cluster no longer changes. */
  lemma ThreeCyclesConverge(s: State, c: Cycle, k: nat)
    requires WellNamed(s.world) && ErrorFree(c) && DistinctNames(c.visits)
    requires forall d <- s.failures :: s.failures[d] >= 0
    requires k >= GRACE_LIMIT
    ensures Repeat(s, c, k).world == Repeat(s, c, GRACE_LIMIT).world
  {
    var t, u := Repeat(s, c, GRACE_LIMIT), Repeat(s, c, k);
    forall id: string | ToLower(id) == id
      ensures SlotOf(t, id).service == SlotOf(u, id).service && SlotOf(t, id).endpoints == SlotOf(u, id).endpoints
    {
      if ServiceName(id) in Names(c.visits) {
        SlotOfName(s, c, id, k);
        SlotOfName(s, c, id, GRACE_LIMIT);
      } else {
        UnlistedSettles(s, c, id, k);
        UnlistedSettles(s, c, id, GRACE_LIMIT);
      }
    }
    SlotsDetermineWorld(t.world, u.world);
  }

  /** A listed name, settled for at least the grace period, in closed form. */
  lemma SlotOfName(s: State, c: Cycle, id: string, k: nat)
    requires WellNamed(s.world) && ErrorFree(c) && DistinctNames(c.visits)
    requires forall d <- s.failures :: s.failures[d] >= 0
    requires k >= GRACE_LIMIT && ServiceName(id) in Names(c.visits)
    ensures exists v <- c.visits ::
      && v.Name() == ServiceName(id)
      && SlotOf(Repeat(s, c, k), id).service ==
           (if v.Healthy() then Some(Service(v.device.id, v.device.deviceType, ToInt32(v.device.port)))
            else At(s.world.services, v.Name()))
      && SlotOf(Repeat(s, c, k), id).endpoints ==
           (if v.Healthy() then Some(Endpoints(v.device.id, v.device.ip, ToInt32(v.device.port))) else None)
      && (forall u <- c.visits :: u.Name() == ServiceName(id) ==> u == v)
  {
    var v :| v in c.visits && v.Name() == ServiceName(id);
    var i :| 0 <= i < |c.visits| && c.visits[i] == v;
    ListedSettles(s, c, i, k);
    forall u <- c.visits | u.Name() == ServiceName(id) ensures u == v {
      SameNameSameVisit(c.visits, u, v);
    }
  }

  // ---------- The order of the device list does not matter ----------

  lemma OrderIrrelevant(s: State, c: Cycle, d: Cycle)
    requires WellNamed(s.world) && c.Runs() && d.Runs() && c.cleanup == d.cleanup
    requires DistinctNames(c.visits) && DistinctNames(d.visits)
    requires forall v :: v in c.visits <==> v in d.visits
    ensures Sync(s, c) == Sync(s, d)
  {
    var t, u := VisitAll(s, c.visits), VisitAll(s, d.visits);
    assert Names(c.visits) == Names(d.visits);
    VisitAllWellNamed(s, c.visits);
    VisitAllWellNamed(s, d.visits);
    forall id: string
      ensures At(t.world.services, ServiceName(id)) == At(u.world.services, ServiceName(id))
      ensures At(t.world.endpoints, ServiceName(id)) == At(u.world.endpoints, ServiceName(id))
    {
      SameObjectsEitherOrder(s, c.visits, d.visits, id);
    }
    SlotsDetermineWorld(t.world, u.world);
    forall id: string ensures At(t.failures, id) == At(u.failures, id) {
      SameCounterEitherOrder(s, c.visits, d.visits, id);
    }
    EqualByLookup(t.failures, u.failures);
  }

  lemma SameObjectsEitherOrder(s: State, a: seq<Visit>, b: seq<Visit>, id: string)
    requires DistinctNames(a) && DistinctNames(b) && forall v :: v in a <==> v in b
    ensures var t, u := VisitAll(s, a).world, VisitAll(s, b).world;
      && At(t.services, ServiceName(id)) == At(u.services, ServiceName(id))
      && At(t.endpoints, ServiceName(id)) == At(u.endpoints, ServiceName(id))
  {
    if v :| v in a && v.Name() == ServiceName(id) {
      SameSlotEitherOrder(s, a, b, v);
    } else {
      UnvisitedUntouched(s, a, id);
      UnvisitedUntouched(s, b, id);
    }
  }

  lemma SameCounterEitherOrder(s: State, a: seq<Visit>, b: seq<Visit>, id: string)
    requires DistinctNames(a) && DistinctNames(b) && forall v :: v in a <==> v in b
    ensures At(VisitAll(s, a).failures, id) == At(VisitAll(s, b).failures, id)
  {
    if v :| v in a && v.device.id == id {
      SameSlotEitherOrder(s, a, b, v);
    } else {
      UncountedUntouched(s, a, id);
      UncountedUntouched(s, b, id);
    }
  }

  lemma SameSlotEitherOrder(s: State, a: seq<Visit>, b: seq<Visit>, v: Visit)
    requires DistinctNames(a) && DistinctNames(b) && v in a && v in b
    ensures SlotOf(VisitAll(s, a), v.device.id) == SlotOf(VisitAll(s, b), v.device.id)
  {
    var i :| 0 <= i < |a| && a[i] == v;
    var j :| 0 <= j < |b| && b[j] == v;
    VisitedAlone(s, a, i);
    VisitedAlone(s, b, j);
  }

  lemma {:induction false} UncountedUntouched(s: State, visits: seq<Visit>, id: string)
    requires forall v <- visits :: v.device.id != id
    ensures At(VisitAll(s, visits).failures, id) == At(s.failures, id)
  {
    if visits != [] {
      assert visits[|visits| - 1] in visits;
      UncountedUntouched(s, visits[..|visits| - 1], id);
    }
  }

  // ---------- The report tells the truth ----------

  function CountHealthy(visits: seq<Visit>): nat {
    if visits == [] then 0
    else CountHealthy(visits[..|visits| - 1]) + if visits[|visits| - 1].Healthy() then 1 else 0
  }

  /** Conservation, in every completed cycle and whatever API calls failed. */
  lemma ReportConserves(r: Report, existing: set<string>, c: Cycle)
    requires IsReport(r, existing, c)
    ensures |r.created| + |r.updated| + |r.failed| == r.totalHealthy == CountHealthy(c.visits)
    ensures (set x <- r.deleted :: x.service) == existing - Names(c.visits)
    ensures |r.deleted| == |existing - Names(c.visits)|
  {
    HealthyAreReported(existing, c.visits);
    var stale := existing - Names(c.visits);
    forall n <- stale ensures n in set x <- r.deleted :: x.service {
      var x :| x in r.deleted && x.service == n;
    }
  }

  lemma {:induction false} HealthyAreReported(existing: set<string>, visits: seq<Visit>)
    ensures var r := ReportAll(existing, visits);
      |r.created| + |r.updated| + |r.failed| == r.totalHealthy == CountHealthy(visits)
  {
    if visits != [] { HealthyAreReported(existing, visits[..|visits| - 1]); }
  }

  /** A device is reported created or updated exactly when it was healthy and both its calls
      were acknowledged, and created exactly when its Service was not there before; it then
      has what it should. It is reported failed, at the call that was not acknowledged, exactly
      when it was healthy and one was not. */
  lemma ReportedIsPublished(s: State, c: Cycle, r: Report, i: nat)
    requires WellNamed(s.world) && c.Runs() && DistinctNames(c.visits) && i < |c.visits|
    ensures IsReport(r, s.world.services.Keys, c) ==>
      ReportsVisit(r, c.visits[i], c.visits[i].Name() in s.world.services)
    ensures Published(c.visits[i]) ==>
      var v, t := c.visits[i], Sync(s, c).world;
      && At(t.services, v.Name()) == Some(Service(v.device.id, v.device.deviceType, ToInt32(v.device.port)))
      && At(t.endpoints, v.Name()) == Some(Endpoints(v.device.id, v.device.ip, ToInt32(v.device.port)))
  {
    ReportedOnce(s.world.services.Keys, c.visits, i);
    ListedSlot(s, c, i);
  }

  /** What a report says of one device. */
  predicate ReportsVisit(r: Report, v: Visit, existed: bool) {
    && (SyncResult(v.device.id, v.Name(), Created) in r.created <==> Published(v) && !existed)
    && (SyncResult(v.device.id, v.Name(), Updated) in r.updated <==> Published(v) && existed)
    && (SyncResult(v.device.id, v.Name(), Failed(AtService)) in r.failed <==> v.Healthy() && !v.service.Reported())
    && (SyncResult(v.device.id, v.Name(), Failed(AtEndpoints)) in r.failed <==>
          v.Healthy() && v.service.Reported() && !v.endpoints.Reported())
  }

  predicate Published(v: Visit) {
    v.Healthy() && v.service.Reported() && v.endpoints.Reported()
  }

  lemma {:induction false} ReportedOnce(existing: set<string>, visits: seq<Visit>, i: nat)
    requires DistinctNames(visits) && i < |visits|
    ensures ReportsVisit(ReportAll(existing, visits), visits[i], visits[i].Name() in existing)
  {
    var n := |visits| - 1;
    if i < n {
      ReportedOnce(existing, visits[..n], i);
      assert visits[..n][i] == visits[i];
    } else {
      OthersReported(existing, visits[..n], visits[n].Name());
    }
  }

  lemma {:induction false} OthersReported(existing: set<string>, visits: seq<Visit>, name: string)
    requires name !in Names(visits)
    ensures var r := ReportAll(existing, visits);
      forall x <- r.created + r.updated + r.failed :: x.service != name
  {
    if visits != [] {
      var n := |visits| - 1;
      assert visits[n] in visits && Names(visits[..n]) <= Names(visits);
      OthersReported(existing, visits[..n], name);
      var before, after := ReportAll(existing, visits[..n]), ReportAll(existing, visits);
      forall x <- after.created + after.updated + after.failed ensures x.service != name {
        assert x in before.created + before.updated + before.failed || x.service == visits[n].Name();
      }
    }
  }

  /** A stale Service is always reported deleted; it is gone exactly when its deletion was applied. */
  lemma ReportedDeletedMayRemain(s: State, c: Cycle, r: Report, name: string)
    requires WellNamed(s.world) && c.Runs() && IsReport(r, s.world.services.Keys, c)
    requires name in s.world.services && name !in Names(c.visits)
    ensures exists x <- r.deleted :: x.service == name
    ensures name !in Sync(s, c).world.services <==> c.cleanup(name).service.Applied()
  {
    assert |PREFIX| <= |name| && IsObjectName(name);
    CleanupHitsListedName(name);
    UnlistedSlot(s, c, DeviceIdOf(name));
    assert name in s.world.services.Keys - Names(c.visits);
  }
}

/** The periodic reconciler and the one-shot reconciler, compared
    (server/handlers/syncer.go, server/kubernetes/sync.go). */
module Agreement {
  import opened Wrappers
  import opened Naming
  import opened Cluster
  import opened Reconcile
  import opened SyncProperties
  import opened KubeSync

  // ---------- The same devices, seen by the one-shot reconciler ----------

  function ClaimOf(v: Visit): Claim {
    Claim(v.device, CheckDeviceHealth(v.device, v.probe), v.service, v.endpoints)
  }

  function ClaimsOf(visits: seq<Visit>): seq<Claim> {
    seq(|visits|, i requires 0 <= i < |visits| => ClaimOf(visits[i]))
  }

  function RequestOf(c: Cycle): Request {
    Request(c.ready, c.storeOk, c.listOk, ClaimsOf(c.visits), c.cleanup)
  }

  function HealthyVisits(visits: seq<Visit>): seq<Visit> {
    if visits == [] then []
    else
      var n := |visits| - 1;
      HealthyVisits(visits[..n]) + if visits[n].Healthy() then [visits[n]] else []
  }

  lemma {:induction false} HealthyClaims(visits: seq<Visit>)
    ensures HealthyOnly(ClaimsOf(visits)) == ClaimsOf(HealthyVisits(visits))
    ensures forall v :: v in HealthyVisits(visits) <==> v in visits && v.Healthy()
    ensures DistinctNames(visits) ==> DistinctNames(HealthyVisits(visits))
  {
    if visits != [] {
      var n := |visits| - 1;
      HealthyClaims(visits[..n]);
      assert ClaimsOf(visits)[..n] == ClaimsOf(visits[..n]);
      var some := HealthyVisits(visits[..n]);
      assert forall v :: v in visits <==> v in visits[..n] || v == visits[n];
      if visits[n].Healthy() {
        assert ClaimsOf(some + [visits[n]]) == ClaimsOf(some) + [ClaimOf(visits[n])];
        if DistinctNames(visits) {
          forall i | 0 <= i < |some| ensures some[i].Name() != visits[n].Name() {
            assert some[i] in visits[..n];
          }
        }
      }
    }
  }

  lemma ClaimingOneIsVisiting(s: State, v: Visit)
    requires v.Healthy()
    ensures ClaimWorld(s.world, ClaimOf(v)) == VisitState(s, v).world
    ensures Claimed([ClaimOf(v)]) == {v.Name()}
  {
    assert ClaimOf(v) in [ClaimOf(v)];
  }

  lemma ClaimedGrows(claims: seq<Claim>, c: Claim)
    ensures Claimed(claims + [c]) == Claimed(claims) + Claimed([c])
  {
  }

  lemma NamesGrow(visits: seq<Visit>)
    requires visits != []
    ensures Names(visits) == Names(visits[..|visits| - 1]) + {visits[|visits| - 1].Name()}
  {
    assert visits == visits[..|visits| - 1] + [visits[|visits| - 1]];
  }

  /** Publishing the claims of healthy devices is visiting those devices. */
  lemma {:induction false} ClaimingIsVisiting(s: State, visits: seq<Visit>)
    requires forall v <- visits :: v.Healthy()
    ensures ClaimAll(s.world, ClaimsOf(visits)) == VisitAll(s, visits).world
    ensures Claimed(ClaimsOf(visits)) == Names(visits)
  {
    if visits == [] {
      assert ClaimsOf(visits) == [];
    } else {
      hide Claimed, Names, ClaimWorld, VisitState, ClaimOf;
      var n := |visits| - 1;
      assert visits[n] in visits && forall v <- visits[..n] :: v in visits;
      ClaimingIsVisiting(s, visits[..n]);
      var claims, c := ClaimsOf(visits[..n]), ClaimOf(visits[n]);
      assert ClaimsOf(visits) == claims + [c] && (claims + [c])[..n] == claims;
      ClaimingOneIsVisiting(VisitAll(s, visits[..n]), visits[n]);
      ClaimedGrows(claims, c);
      NamesGrow(visits);
    }
  }

  // ---------- The one-shot reconciler, one name at a time ----------

  lemma OneShotWorld(s: State, c: Cycle)
    requires c.Runs()
    ensures var visits := HealthyVisits(c.visits);
      && SyncDevicesWorld(s.world, RequestOf(c)) ==
           Pruned(VisitAll(s, visits).world, s.world.services.Keys - Names(visits), c.cleanup)
      && Names(visits) == HealthyNames(c.visits)
  {
    HealthyClaims(c.visits);
    ClaimingIsVisiting(s, HealthyVisits(c.visits));
  }

  lemma OneShotHealthy(s: State, c: Cycle, v: Visit)
    requires ErrorFree(c) && DistinctNames(c.visits) && v in c.visits && v.Healthy()
    ensures var t := SyncDevicesWorld(s.world, RequestOf(c));
      && At(t.services, v.Name()) == Some(Service(v.device.id, v.device.deviceType, ToInt32(v.device.port)))
      && At(t.endpoints, v.Name()) == Some(Endpoints(v.device.id, v.device.ip, ToInt32(v.device.port)))
  {
    OneShotWorld(s, c);
    HealthyClaims(c.visits);
    var visits := HealthyVisits(c.visits);
    var i :| 0 <= i < |visits| && visits[i] == v;
    VisitedAlone(s, visits, i);
    CleanVisit(s, v);
    assert v.Name() in Names(visits);
  }

  lemma OneShotOther(s: State, c: Cycle, id: string)
    requires ErrorFree(c) && ServiceName(id) !in HealthyNames(c.visits)
    ensures var t, n := SyncDevicesWorld(s.world, RequestOf(c)), ServiceName(id);
      && n !in t.services
      && At(t.endpoints, n) == if n in s.world.services then None else At(s.world.endpoints, n)
  {
    OneShotWorld(s, c);
    UnvisitedUntouched(s, HealthyVisits(c.visits), id);
    assert SlotOf(VisitAll(s, HealthyVisits(c.visits)), id) == SlotOf(s, id);
  }

  // ---------- Agreement ----------

  /** A listed unhealthy device whose Endpoints have no Service. */
  predicate OrphanedSick(w: World, v: Visit) {
    !v.Healthy() && v.Name() in w.endpoints && v.Name() !in w.services
  }

  lemma AgreeOnName(s: State, c: Cycle, id: string)
    requires WellNamed(s.world) && ErrorFree(c) && DistinctNames(c.visits) && ToLower(id) == id
    requires forall d <- s.failures :: s.failures[d] >= 0
    ensures var n, a, b := ServiceName(id), Repeat(s, c, GRACE_LIMIT).world, SyncDevicesWorld(s.world, RequestOf(c));
      && (At(a.endpoints, n) == At(b.endpoints, n) <==>
            forall v <- c.visits | v.Name() == n :: !OrphanedSick(s.world, v))
      && At(a.services, n) ==
           if n in Names(c.visits) && n !in HealthyNames(c.visits) then At(s.world.services, n) else At(b.services, n)
  {
    if ServiceName(id) in Names(c.visits) {
      SlotOfName(s, c, id, GRACE_LIMIT);
      ListedNameHealth(c.visits, ServiceName(id));
      if ServiceName(id) in HealthyNames(c.visits) {
        var v :| v in c.visits && v.Healthy() && v.Name() == ServiceName(id);
        OneShotHealthy(s, c, v);
      } else {
        OneShotOther(s, c, id);
      }
    } else {
      UnlistedSettles(s, c, id, GRACE_LIMIT);
      assert HealthyNames(c.visits) <= Names(c.visits);
      OneShotOther(s, c, id);
    }
  }

  /** Three error-free cycles and one error-free one-shot run, on the same devices and probes,
      reach the same Endpoints exactly when no listed unhealthy device starts with orphaned
      Endpoints. Their Services then differ only by those of listed unhealthy devices, which
      the periodic reconciler keeps as they were. */
  lemma ReconcilersAgree(s: State, c: Cycle)
    requires WellNamed(s.world) && ErrorFree(c) && DistinctNames(c.visits)
    requires forall d <- s.failures :: s.failures[d] >= 0
    ensures var a, b := Repeat(s, c, GRACE_LIMIT).world, SyncDevicesWorld(s.world, RequestOf(c));
      && (a.endpoints == b.endpoints <==> forall v <- c.visits :: !OrphanedSick(s.world, v))
      && (forall n :: At(a.services, n) ==
            if n in Names(c.visits) && n !in HealthyNames(c.visits) then At(s.world.services, n) else At(b.services, n))
  {
    EndpointsAgreeIff(s, c);
    forall n: string
      ensures At(Repeat(s, c, GRACE_LIMIT).world.services, n) ==
        if n in Names(c.visits) && n !in HealthyNames(c.visits) then At(s.world.services, n)
        else At(SyncDevicesWorld(s.world, RequestOf(c)).services, n)
    {
      AgreeOnAnyName(s, c, n);
    }
    hide Repeat, SyncDevicesWorld, RequestOf, Names, HealthyNames, WellNamed, ErrorFree, DistinctNames, OrphanedSick;
  }

  lemma EndpointsAgreeIff(s: State, c: Cycle)
    requires WellNamed(s.world) && ErrorFree(c) && DistinctNames(c.visits)
    requires forall d <- s.failures :: s.failures[d] >= 0
    ensures Repeat(s, c, GRACE_LIMIT).world.endpoints == SyncDevicesWorld(s.world, RequestOf(c)).endpoints
       <==> forall v <- c.visits :: !OrphanedSick(s.world, v)
  {
    hide Repeat, SyncDevicesWorld, RequestOf, ErrorFree, DistinctNames, OrphanedSick;
    var a, b := Repeat(s, c, GRACE_LIMIT).world.endpoints, SyncDevicesWorld(s.world, RequestOf(c)).endpoints;
    if a == b {
      forall v <- c.visits ensures !OrphanedSick(s.world, v) {
        AgreeOnAnyName(s, c, v.Name());
      }
    }
    if forall v <- c.visits :: !OrphanedSick(s.world, v) {
      forall n: string ensures At(a, n) == At(b, n) {
        AgreeOnAnyName(s, c, n);
      }
      EqualByLookup(a, b);
    }
  }

  lemma AgreeOnAnyName(s: State, c: Cycle, n: string)
    requires WellNamed(s.world) && ErrorFree(c) && DistinctNames(c.visits)
    requires forall d <- s.failures :: s.failures[d] >= 0
    ensures var a, b := Repeat(s, c, GRACE_LIMIT).world, SyncDevicesWorld(s.world, RequestOf(c));
      && (At(a.endpoints, n) == At(b.endpoints, n) <==>
            forall v <- c.visits | v.Name() == n :: !OrphanedSick(s.world, v))
      && At(a.services, n) ==
           if n in Names(c.visits) && n !in HealthyNames(c.visits) then At(s.world.services, n) else At(b.services, n)
  {
    var a, b := Repeat(s, c, GRACE_LIMIT).world, SyncDevicesWorld(s.world, RequestOf(c));
    SyncDevicesWellNamed(s.world, RequestOf(c));
    if |PREFIX| <= |n| && IsObjectName(n) {
      CleanupHitsListedName(n);
      ServiceNameIsObjectName(DeviceIdOf(n));
      AgreeOnName(s, c, DeviceIdOf(n));
    } else {
      forall v <- c.visits ensures v.Name() != n {
        ServiceNameIsObjectName(v.device.id);
      }
      assert n !in a.services.Keys + a.endpoints.Keys + b.services.Keys + b.endpoints.Keys;
    }
  }

  /** Three cycles are needed: after fewer, from fresh counters, the Endpoints of an unhealthy
      device are still there, while the one-shot reconciler has removed them. */
  lemma TwoCyclesDoNotAgree(s: State, c: Cycle, v: Visit, k: nat)
    requires WellNamed(s.world) && ErrorFree(c) && DistinctNames(c.visits)
    requires v in c.visits && !v.Healthy() && ToLower(v.device.id) == v.device.id && v.device.id !in s.failures
    requires v.Name() in s.world.services && v.Name() in s.world.endpoints && 0 < k < GRACE_LIMIT
    ensures v.Name() in Repeat(s, c, k).world.endpoints
    ensures v.Name() !in SyncDevicesWorld(s.world, RequestOf(c)).endpoints
  {
    var i :| 0 <= i < |c.visits| && c.visits[i] == v;
    ListedSettles(s, c, i, k);
    SickIsNotHealthy(c.visits, v);
    OneShotOther(s, c, v.device.id);
  }

  lemma SickIsNotHealthy(visits: seq<Visit>, v: Visit)
    requires DistinctNames(visits) && v in visits && !v.Healthy()
    ensures v.Name() !in HealthyNames(visits)
  {
    forall u <- visits | u.Healthy() ensures u.Name() != v.Name() {
      if u.Name() == v.Name() { SameNameSameVisit(visits, u, v); }
    }
  }

  // ---------- What the status report shows afterwards ----------

  function Ids(visits: seq<Visit>): seq<string> {
    seq(|visits|, i requires 0 <= i < |visits| => visits[i].device.id)
  }

  lemma {:induction false} SyncedCountIsHealthy(w: World, visits: seq<Visit>)
    requires forall v <- visits :: FullySynced(w, v.device.id) <==> v.Healthy()
    ensures SyncedCount(w, Ids(visits)) == CountHealthy(visits)
  {
    if visits != [] {
      var n := |visits| - 1;
      assert visits[n] in visits && Ids(visits)[..n] == Ids(visits[..n]);
      SyncedCountIsHealthy(w, visits[..n]);
    }
  }

  /** After an error-free one-shot run the status report counts exactly the healthy devices
      as synced; after the periodic reconciler has run for the grace period, likewise. */
  lemma StatusCountsHealthy(s: State, c: Cycle)
    requires WellNamed(s.world) && ErrorFree(c) && DistinctNames(c.visits)
    requires forall d <- s.failures :: s.failures[d] >= 0
    ensures SyncedCount(SyncDevicesWorld(s.world, RequestOf(c)), Ids(c.visits)) == CountHealthy(c.visits)
    ensures SyncedCount(Repeat(s, c, GRACE_LIMIT).world, Ids(c.visits)) == CountHealthy(c.visits)
  {
    var a, b := Repeat(s, c, GRACE_LIMIT).world, SyncDevicesWorld(s.world, RequestOf(c));
    forall v <- c.visits
      ensures (FullySynced(a, v.device.id) <==> v.Healthy()) && (FullySynced(b, v.device.id) <==> v.Healthy())
    {
      SlotOfName(s, c, v.device.id, GRACE_LIMIT);
      if v.Healthy() {
        OneShotHealthy(s, c, v);
      } else {
        SickIsNotHealthy(c.visits, v);
        OneShotOther(s, c, v.device.id);
      }
    }
    SyncedCountIsHealthy(a, c.visits);
    SyncedCountIsHealthy(b, c.visits);
  }

  // ---------- Conservation in the one-shot report ----------

  /** Whatever API calls fail, the four lists together number the healthy devices plus the
      existing Services that no healthy device with an address claims. */
  lemma DevicesReportConserves(r: Report, existing: set<string>, q: Request)
    requires IsDevicesReport(r, existing, q)
    ensures r.totalHealthy == |HealthyOnly(q.claims)|
    ensures |r.created| + |r.updated| + |r.failed| + |r.deleted|
         == r.totalHealthy + |existing - Claimed(HealthyOnly(q.claims))|
  {
    var claims := HealthyOnly(q.claims);
    var start := EMPTY_REPORT.(totalHealthy := |claims|);
    ReportClaimsLength(start, existing, claims);
    PrunedCount(existing - Claimed(claims), q.cleanup);
    hide ReportClaims, HealthyOnly, Claimed, PrunedFully, PrunedPartly;
  }

  lemma PrunedCount(names: set<string>, fates: string -> CleanupFate)
    ensures |PrunedFully(names, fates)| + |PrunedPartly(names, fates)| == |names|
  {
    assert PrunedFully(names, fates) + PrunedPartly(names, fates) == names;
  }

  lemma {:induction false} ReportClaimsLength(start: Report, existing: set<string>, claims: seq<Claim>)
    ensures var r := ReportClaims(start, existing, claims);
      && |r.created| + |r.updated| + |r.failed| == |start.created| + |start.updated| + |start.failed| + |claims|
      && r.totalHealthy == start.totalHealthy
  {
    if claims != [] { ReportClaimsLength(start, existing, claims[..|claims| - 1]); }
  }

  // ---------- The single-device and delete operations ----------

  predicate DistinctClaims(claims: seq<Claim>) {
    forall i, j :: 0 <= i < j < |claims| ==> claims[i].Name() != claims[j].Name()
  }

  predicate SameObjects(w: World, u: World, name: string) {
    At(w.services, name) == At(u.services, name) && At(w.endpoints, name) == At(u.endpoints, name)
  }

  lemma {:induction false} OthersUntouched(w: World, claims: seq<Claim>, name: string)
    requires forall c <- claims :: c.Name() != name
    ensures SameObjects(ClaimAll(w, claims), w, name)
  {
    if claims != [] {
      var n := |claims| - 1;
      assert claims[n] in claims;
      OthersUntouched(w, claims[..n], name);
    }
  }

  lemma {:induction false} ClaimedAlone(w: World, claims: seq<Claim>, i: nat)
    requires DistinctClaims(claims) && i < |claims|
    ensures SameObjects(ClaimAll(w, claims), ClaimWorld(w, claims[i]), claims[i].Name())
  {
    var n := |claims| - 1;
    if i == n {
      OthersUntouched(w, claims[..n], claims[n].Name());
    } else {
      ClaimedAlone(w, claims[..n], i);
      assert claims[..n][i] == claims[i];
    }
  }

  lemma {:induction false} HealthyOnlyKeeps(claims: seq<Claim>)
    ensures forall c :: c in HealthyOnly(claims) <==> c in claims && c.status.Healthy?
    ensures DistinctClaims(claims) ==> DistinctClaims(HealthyOnly(claims))
  {
    if claims != [] {
      var n := |claims| - 1;
      HealthyOnlyKeeps(claims[..n]);
      var some := HealthyOnly(claims[..n]);
      assert forall c :: c in claims <==> c in claims[..n] || c == claims[n];
      if claims[n].status.Healthy? && DistinctClaims(claims) {
        forall i | 0 <= i < |some| ensures some[i].Name() != claims[n].Name() {
          assert some[i] in claims[..n];
        }
      }
    }
  }

  /** The single-device operation does to a healthy device's objects, call by call, what the
      one-shot reconciler does to them, and nothing to any other object. */
  lemma SingleDoesItsShare(w: World, q: Request, id: string, listOk: bool, other: string)
    requires q.Runs() && DistinctClaims(q.claims)
    requires FindClaim(q.claims, id).Some? && FindClaim(q.claims, id).value.status.Healthy?
    requires FindClaim(q.claims, id).value.device.ip != ""
    ensures var u := SingleWorld(w, SingleRequest(true, true, listOk, id, q.claims));
      && SameObjects(u, SyncDevicesWorld(w, q), ServiceName(id))
      && (other != ServiceName(id) ==> SameObjects(u, w, other))
  {
    var c, claims := FindClaim(q.claims, id).value, HealthyOnly(q.claims);
    FoundIsFirst(q.claims, id);
    HealthyOnlyKeeps(q.claims);
    var i :| 0 <= i < |claims| && claims[i] == c;
    ClaimedAlone(w, claims, i);
    assert ServiceName(id) in Claimed(claims);
  }

  /** Deleting a device's objects undoes a single-device operation that found none, whatever
      became of its calls. */
  lemma DeleteUndoesSingle(w: World, q: SingleRequest)
    requires ServiceName(q.id) !in w.services && ServiceName(q.id) !in w.endpoints
    ensures PruneOne(SingleWorld(w, q), ServiceName(q.id), CleanupFate(Done, Done)) == w
  {
    FoundIsFirst(q.claims, q.id);
    var u := PruneOne(SingleWorld(w, q), ServiceName(q.id), CleanupFate(Done, Done));
    assert u.services == w.services && u.endpoints == w.endpoints;
  }

  // ---------- The one-shot report tells the truth ----------

  /** What a report says of one healthy device. */
  predicate ReportsClaim(r: Report, c: Claim, existed: bool) {
    var name := c.Name();
    if c.device.ip == "" then SyncResult(c.device.id, "", Failed(NoAddress)) in r.failed
    else
      && (SyncResult(c.device.id, name, Created) in r.created <==>
            c.service.Reported() && c.endpoints.Reported() && !existed)
      && (SyncResult(c.device.id, name, Updated) in r.updated <==>
            c.service.Reported() && c.endpoints.Reported() && existed)
      && (SyncResult(c.device.id, name, Failed(AtService)) in r.failed <==> !c.service.Reported())
      && (SyncResult(c.device.id, name, Failed(AtEndpoints)) in r.failed <==>
            c.service.Reported() && !c.endpoints.Reported())
  }

  lemma {:induction false} OthersClaimed(start: Report, existing: set<string>, claims: seq<Claim>, name: string)
    requires name != "" && forall c <- claims :: c.Name() != name
    requires forall x <- start.created + start.updated + start.failed :: x.service != name
    ensures var r := ReportClaims(start, existing, claims);
      forall x <- r.created + r.updated + r.failed :: x.service != name
  {
    if claims != [] {
      var n := |claims| - 1;
      assert claims[n] in claims && forall c <- claims[..n] :: c in claims;
      OthersClaimed(start, existing, claims[..n], name);
      var before, after := ReportClaims(start, existing, claims[..n]), ReportClaims(start, existing, claims);
      forall x <- after.created + after.updated + after.failed ensures x.service != name {
        assert x in before.created + before.updated + before.failed || x.service in {"", claims[n].Name()};
      }
    }
  }

  lemma {:induction false} ClaimReported(start: Report, existing: set<string>, claims: seq<Claim>, i: nat)
    requires DistinctClaims(claims) && i < |claims|
    requires start.created == [] && start.updated == [] && start.failed == []
    ensures ReportsClaim(ReportClaims(start, existing, claims), claims[i], claims[i].Name() in existing)
  {
    var n := |claims| - 1;
    var before := ReportClaims(start, existing, claims[..n]);
    if i < n {
      ClaimReported(start, existing, claims[..n], i);
      assert claims[..n][i] == claims[i];
      hide Claimed, DistinctClaims;
      OtherClaimReported(before, existing - Claimed(claims[..n]), claims[n], claims[i], claims[i].Name() in existing);
    } else {
      OthersClaimed(start, existing, claims[..n], claims[n].Name());
      assert claims[n].Name() !in Claimed(claims[..n]);
      OwnClaimReported(before, existing - Claimed(claims[..n]), claims[n]);
    }
  }

  lemma OwnClaimReported(before: Report, unclaimed: set<string>, c: Claim)
    requires forall x <- before.created + before.updated + before.failed :: x.service != c.Name()
    ensures ReportsClaim(ClaimReport(before, unclaimed, c), c, c.Name() in unclaimed)
  {
  }

  lemma OtherClaimReported(before: Report, unclaimed: set<string>, other: Claim, c: Claim, existed: bool)
    requires ReportsClaim(before, c, existed) && other.Name() != c.Name()
    ensures ReportsClaim(ClaimReport(before, unclaimed, other), c, existed)
  {
    assert c.Name() != "";
  }

  /** What a report says of one stale Service. */
  predicate ReportsPruning(r: Report, name: string, fate: CleanupFate)
    requires |PREFIX| <= |name|
  {
    var id := name[|PREFIX|..];
    && (SyncResult(id, name, Deleted) in r.deleted <==> fate.service.Done? && fate.endpoints.Done?)
    && (SyncResult(id, name, Failed(AtDeleteService)) in r.failed <==> !fate.service.Done?)
    && (SyncResult(id, name, Failed(AtDeleteEndpoints)) in r.failed <==> fate.service.Done? && !fate.endpoints.Done?)
  }

  /** Of every healthy device the report says what became of its calls. */
  lemma DevicesReportTells(r: Report, existing: set<string>, q: Request, c: Claim)
    requires DistinctClaims(q.claims) && c in q.claims && c.status.Healthy?
    ensures IsDevicesReport(r, existing, q) ==> ReportsClaim(r, c, c.Name() in existing)
  {
    var claims := HealthyOnly(q.claims);
    HealthyOnlyKeeps(q.claims);
    var i :| 0 <= i < |claims| && claims[i] == c;
    var base := ReportClaims(EMPTY_REPORT.(totalHealthy := |claims|), existing, claims);
    ClaimReported(EMPTY_REPORT.(totalHealthy := |claims|), existing, claims, i);
    if IsDevicesReport(r, existing, q) {
      hide ReportClaims, HealthyOnly, DistinctClaims, Claimed;
      PruningAddsNothing(r, base, existing - Claimed(claims), q.cleanup, c, c.Name() in existing);
    }
  }

  /** Of every stale Service it says whether both deletions were acknowledged, and if not, which
      was the first that was not. */
  lemma PruningReportTells(r: Report, existing: set<string>, q: Request, name: string)
    requires ObjectNames(existing) && name in existing
    ensures IsDevicesReport(r, existing, q) && name !in Claimed(HealthyOnly(q.claims)) ==>
      ReportsPruning(r, name, q.cleanup(name))
  {
    var claims := HealthyOnly(q.claims);
    var start := EMPTY_REPORT.(totalHealthy := |claims|);
    OnlyPublishingFails(start, existing, claims);
    if IsDevicesReport(r, existing, q) && name !in Claimed(claims) {
      hide ReportClaims, HealthyOnly, Claimed;
      ReportsPruned(r, ReportClaims(start, existing, claims), existing - Claimed(claims), q.cleanup, name);
    }
  }

  const PUBLISHING := {Failed(AtService), Failed(AtEndpoints), Failed(NoAddress)}

  lemma {:induction false} OnlyPublishingFails(start: Report, existing: set<string>, claims: seq<Claim>)
    requires start.failed == []
    ensures forall x <- ReportClaims(start, existing, claims).failed :: x.outcome in PUBLISHING
  {
    if claims != [] {
      var n := |claims| - 1;
      OnlyPublishingFails(start, existing, claims[..n]);
      var before := ReportClaims(start, existing, claims[..n]).failed;
      var after := ReportClaims(start, existing, claims).failed;
      assert after == before || after == before + [after[|before|]];
    }
  }

  lemma PruningAddsNothing(r: Report, base: Report, names: set<string>, fates: string -> CleanupFate,
                           c: Claim, existed: bool)
    requires IsPruneReport(r, base, names, fates) && ReportsClaim(base, c, existed)
    ensures ReportsClaim(r, c, existed)
  {
    var added := r.failed[|base.failed|..];
    assert r.failed == base.failed + added;
    forall x <- added ensures x.outcome in {Failed(AtDeleteService), Failed(AtDeleteEndpoints)} {
      assert x.service in PrunedPartly(names, fates);
    }
  }

  lemma ReportsPruned(r: Report, base: Report, names: set<string>, fates: string -> CleanupFate, name: string)
    requires IsPruneReport(r, base, names, fates) && name in names && |PREFIX| <= |name|
    requires forall x <- base.failed :: x.outcome in PUBLISHING
    ensures ReportsPruning(r, name, fates(name))
  {
    var added := r.failed[|base.failed|..];
    assert r.failed == base.failed + added;
    PruneResultListed(r.deleted, PrunedFully(names, fates), fates, name);
    PruneResultListed(added, PrunedPartly(names, fates), fates, name);
    hide PruneResultsOf, PrunedFully, PrunedPartly;
    PrunedEither(names, fates, name);
    forall x: SyncResult | x.outcome in {Failed(AtDeleteService), Failed(AtDeleteEndpoints)}
      ensures x in r.failed <==> x in added
    {
    }
  }

  lemma PrunedEither(names: set<string>, fates: string -> CleanupFate, name: string)
    requires name in names
    ensures name in PrunedFully(names, fates) <==> PruneSucceeds(fates(name))
    ensures name in PrunedPartly(names, fates) <==> !PruneSucceeds(fates(name))
  {
  }

  /** Of one name, results hold its own outcome and no other. */
  lemma PruneResultListed(results: seq<SyncResult>, names: set<string>, fates: string -> CleanupFate, name: string)
    requires PruneResultsOf(results, names, fates) && |PREFIX| <= |name|
    ensures PruneResult(name, fates(name)) in results <==> name in names
    ensures forall x <- results :: x.service == name ==> x == PruneResult(name, fates(name))
  {
    if name in names { var x :| x in results && x.service == name; }
  }

  // ---------- The single-device reply ----------

  /** Its refusals: no client, no list, no such device, a device that is not healthy or has no
      address. None of them changes anything. */
  lemma SingleRefusals(w: World, existing: set<string>, q: SingleRequest)
    ensures !q.ready || !q.fetchOk || (forall c <- q.claims :: c.device.id != q.id) ==> SingleWorld(w, q) == w
    ensures forall i :: IsFirst(q.claims, q.id, i) && (!q.claims[i].status.Healthy? || q.claims[i].device.ip == "") ==>
      SingleWorld(w, q) == w
    ensures var reply := SingleResult(existing, q);
      && (reply == SingleNotReady <==> !q.ready)
      && (reply == SingleFetchFailed <==> q.ready && !q.fetchOk)
      && (reply == DeviceNotFound <==> q.ready && q.fetchOk && forall c <- q.claims :: c.device.id != q.id)
    ensures forall i :: q.ready && q.fetchOk && IsFirst(q.claims, q.id, i) ==>
      var c, reply := q.claims[i], SingleResult(existing, q);
      && reply.SingleDone?
      && (!c.status.Healthy? ==> reply.result == SyncResult(q.id, "", Failed(NotHealthy)))
      && (c.status.Healthy? && c.device.ip == "" ==> reply.result == SyncResult(q.id, "", Failed(NoAddress)))
  {
    FoundIsFirst(q.claims, q.id);
  }

  /** Otherwise it answers what the one-shot reconciler, with the same calls failing, reports of
      the device. */
  lemma SingleReportsAsAll(r: Report, existing: set<string>, q: Request, id: string)
    requires DistinctClaims(q.claims)
    requires FindClaim(q.claims, id).Some? && FindClaim(q.claims, id).value.status.Healthy?
    requires FindClaim(q.claims, id).value.device.ip != ""
    ensures var reply := SingleResult(existing, SingleRequest(true, true, true, id, q.claims));
      && reply.SingleDone?
      && (IsDevicesReport(r, existing, q) ==>
            match reply.result.outcome
            case Created => reply.result in r.created
            case Updated => reply.result in r.updated
            case Failed(_) => reply.result in r.failed
            case Deleted => false)
  {
    FoundIsFirst(q.claims, id);
    DevicesReportTells(r, existing, q, FindClaim(q.claims, id).value);
    hide IsDevicesReport, DistinctClaims, FindClaim;
  }
}

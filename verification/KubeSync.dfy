/** The other operations on the same objects: the one-shot reconciler, the single-device,
    delete and cleanup paths, and the status report (server/kubernetes/sync.go). */
module KubeSync {
  import opened Naming
  import opened Cluster
  import opened Reconcile
  import opened Wrappers

  // ---------- SyncDevices: specification ----------

  /** A device as the API reports it, with how the calls made for it end. */
  datatype Claim = Claim(device: Device, status: Status, service: UpsertFate, endpoints: UpsertFate) {
    function Name(): string { device.Name() }
  }

  datatype Request = Request(ready: bool, fetchOk: bool, listOk: bool,
                             claims: seq<Claim>, cleanup: string -> CleanupFate)
  {
    predicate Runs() { ready && fetchOk && listOk }
  }

  function HealthyOnly(claims: seq<Claim>): seq<Claim> {
    if claims == [] then []
    else
      var n := |claims| - 1;
      HealthyOnly(claims[..n]) + (if claims[n].status.Healthy? then [claims[n]] else [])
  }

  function ClaimWorld(w: World, c: Claim): World {
    if c.device.ip == "" then w else Publish(w, c.device, c.service, c.endpoints)
  }

  function ClaimAll(w: World, claims: seq<Claim>): World {
    if claims == [] then w
    else ClaimWorld(ClaimAll(w, claims[..|claims| - 1]), claims[|claims| - 1])
  }

  /** The names taken off the list of existing Services: those of devices with an address. */
  function Claimed(claims: seq<Claim>): set<string> {
    set c <- claims | c.device.ip != "" :: c.Name()
  }

  /** `unclaimed`: the existing Services no earlier device of the loop has claimed. */
  function ClaimReport(r: Report, unclaimed: set<string>, c: Claim): Report {
    if c.device.ip == "" then Filed(r, SyncResult(c.device.id, "", Failed(NoAddress)))
    else Filed(r, SyncResult(c.device.id, c.Name(),
                             PublishOutcome(c.Name() in unclaimed, c.service, c.endpoints)))
  }

  function ReportClaims(start: Report, existing: set<string>, claims: seq<Claim>): Report {
    if claims == [] then start
    else
      var n := |claims| - 1;
      ClaimReport(ReportClaims(start, existing, claims[..n]), existing - Claimed(claims[..n]), claims[n])
  }

  /** Endpoints are deleted only after the Service's deletion was acknowledged. */
  function Pruned(w: World, names: set<string>, fates: string -> CleanupFate): World {
    World(map n <- w.services | !(n in names && fates(n).service.Applied()) :: w.services[n],
          map n <- w.endpoints | !(n in names && fates(n).service.Reported() && fates(n).endpoints.Applied())
            :: w.endpoints[n])
  }

  function PruneOne(w: World, name: string, fate: CleanupFate): World {
    World(Removed(w.services, name, fate.service),
          if fate.service.Reported() then Removed(w.endpoints, name, fate.endpoints) else w.endpoints)
  }

  predicate PruneSucceeds(fate: CleanupFate) { fate.service.Reported() && fate.endpoints.Reported() }

  /** The names whose two deletions were both acknowledged. */
  function PrunedFully(names: set<string>, fates: string -> CleanupFate): set<string> {
    set n <- names | PruneSucceeds(fates(n))
  }

  function PrunedPartly(names: set<string>, fates: string -> CleanupFate): set<string> {
    names - PrunedFully(names, fates)
  }

  function PruneResult(name: string, fate: CleanupFate): SyncResult
    requires |PREFIX| <= |name|
  {
    SyncResult(DeviceIdOf(name), name,
               if !fate.service.Reported() then Failed(AtDeleteService)
               else if !fate.endpoints.Reported() then Failed(AtDeleteEndpoints)
               else Deleted)
  }

  /** `results` holds the outcome of pruning each of the names, once each, in some order. */
  predicate PruneResultsOf(results: seq<SyncResult>, names: set<string>, fates: string -> CleanupFate) {
    && |results| == |names|
    && (forall r <- results :: r.service in names && |PREFIX| <= |r.service|
                            && r == PruneResult(r.service, fates(r.service)))
    && (forall n <- names :: exists r <- results :: r.service == n)
  }

  function SyncDevicesWorld(w: World, q: Request): World {
    if !q.Runs() then w
    else
      var claims := HealthyOnly(q.claims);
      Pruned(ClaimAll(w, claims), w.services.Keys - Claimed(claims), q.cleanup)
  }

  predicate IsDevicesReport(r: Report, existing: set<string>, q: Request) {
    var claims := HealthyOnly(q.claims);
    var base := ReportClaims(EMPTY_REPORT.(totalHealthy := |claims|), existing, claims);
    IsPruneReport(r, base, existing - Claimed(claims), q.cleanup)
  }

  /** `r` extends `base` by the outcomes of pruning: the deletions that succeeded, and after
      the failures already reported, those that did not. */
  predicate IsPruneReport(r: Report, base: Report, names: set<string>, fates: string -> CleanupFate) {
    && r == base.(deleted := r.deleted, failed := r.failed)
    && base.failed <= r.failed
    && PruneResultsOf(r.deleted, PrunedFully(names, fates), fates)
    && PruneResultsOf(r.failed[|base.failed|..], PrunedPartly(names, fates), fates)
  }

  // ---------- SyncDevices: the method ----------

  datatype DevicesReply = DevicesSynced(report: Report) | NotReady | FetchFailed | ListFailed

  /** Filtering the fetched statuses. */
  method KeepHealthy(claims: seq<Claim>) returns (healthy: seq<Claim>)
    ensures healthy == HealthyOnly(claims)
  {
    healthy := [];
    for i := 0 to |claims|
      invariant healthy == HealthyOnly(claims[..i])
    {
      assert claims[..i + 1][..i] == claims[..i];
      if claims[i].status.Healthy? { healthy := healthy + [claims[i]]; }
    }
    assert claims[..|claims|] == claims;
  }

  method PublishClaim(client: Client, c: Claim, existed: bool, response: Report) returns (response': Report)
    requires c.device.ip != ""
    modifies client
    ensures client.View() == ClaimWorld(old(client.View()), c)
    ensures response' ==
      Filed(response, SyncResult(c.device.id, c.Name(), PublishOutcome(existed, c.service, c.endpoints)))
  {
    response' := response;
    var ok := client.CreateOrUpdateService(c.device.id, c.device.deviceType, c.device.port, c.service);
    if !ok {
      response' := response.(failed := response.failed + [SyncResult(c.device.id, c.Name(), Failed(AtService))]);
      return;
    }
    ok := client.CreateOrUpdateEndpoints(c.device.id, c.device.ip, c.device.port, c.endpoints);
    if !ok {
      response' := response.(failed := response.failed + [SyncResult(c.device.id, c.Name(), Failed(AtEndpoints))]);
      return;
    }
    if existed {
      response' := response.(updated := response.updated + [SyncResult(c.device.id, c.Name(), Updated)]);
    } else {
      response' := response.(created := response.created + [SyncResult(c.device.id, c.Name(), Created)]);
    }
  }

  method TakeClaim(client: Client, c: Claim, unclaimed: set<string>, response: Report)
    returns (response': Report, unclaimed': set<string>)
    modifies client
    ensures client.View() == ClaimWorld(old(client.View()), c)
    ensures response' == ClaimReport(response, unclaimed, c)
    ensures unclaimed' == unclaimed - Claimed([c])
  {
    if c.device.ip == "" {
      response' := response.(failed := response.failed + [SyncResult(c.device.id, "", Failed(NoAddress))]);
      return response', unclaimed;
    }
    var wasExisting := c.Name() in unclaimed;
    unclaimed' := unclaimed - {c.Name()};
    assert c in [c];
    response' := PublishClaim(client, c, wasExisting, response);
  }

  /** The loop over the healthy devices; `stale` starts as the existing Services and loses
      each name as it is processed. */
  method TakeClaims(client: Client, claims: seq<Claim>, existing: set<string>, start: Report)
    returns (response: Report, stale: set<string>)
    modifies client
    ensures client.View() == ClaimAll(old(client.View()), claims)
    ensures response == ReportClaims(start, existing, claims)
    ensures stale == existing - Claimed(claims)
  {
    hide ClaimWorld, ClaimReport;
    response, stale := start, existing;
    ghost var before := client.View();
    for i := 0 to |claims|
      invariant client.View() == ClaimAll(before, claims[..i])
      invariant response == ReportClaims(start, existing, claims[..i])
      invariant stale == existing - Claimed(claims[..i])
    {
      ClaimsGrow(before, start, existing, claims, i);
      response, stale := TakeClaim(client, claims[i], stale, response);
    }
    assert claims[..|claims|] == claims;
  }

  lemma ClaimsGrow(w: World, start: Report, existing: set<string>, claims: seq<Claim>, i: nat)
    requires i < |claims|
    ensures ClaimAll(w, claims[..i + 1]) == ClaimWorld(ClaimAll(w, claims[..i]), claims[i])
    ensures ReportClaims(start, existing, claims[..i + 1]) ==
      ClaimReport(ReportClaims(start, existing, claims[..i]), existing - Claimed(claims[..i]), claims[i])
    ensures Claimed(claims[..i + 1]) == Claimed(claims[..i]) + Claimed([claims[i]])
  {
    var more := claims[..i + 1];
    assert more[..i] == claims[..i] && more[i] == claims[i];
    assert more == claims[..i] + [claims[i]];
  }

  /** One name of the cleanup loop. */
  method Prune(client: Client, name: string, fate: CleanupFate) returns (result: SyncResult)
    requires IsObjectName(name)
    modifies client
    ensures client.View() == PruneOne(old(client.View()), name, fate)
    ensures result == PruneResult(name, fate)
  {
    var deviceId := DeviceIdOf(name);
    CleanupHitsListedName(name);
    var ok := client.DeleteService(deviceId, fate.service);
    if !ok { return SyncResult(deviceId, name, Failed(AtDeleteService)); }
    ok := client.DeleteEndpoints(deviceId, fate.endpoints);
    if !ok { return SyncResult(deviceId, name, Failed(AtDeleteEndpoints)); }
    return SyncResult(deviceId, name, Deleted);
  }

  /** The cleanup loop, over the stale names in any order. */
  method PruneAll(client: Client, stale: set<string>, fates: string -> CleanupFate)
    returns (deleted: seq<SyncResult>, failed: seq<SyncResult>)
    requires ObjectNames(stale)
    modifies client
    ensures client.View() == Pruned(old(client.View()), stale, fates)
    ensures PruneResultsOf(deleted, PrunedFully(stale, fates), fates)
    ensures PruneResultsOf(failed, PrunedPartly(stale, fates), fates)
  {
    deleted, failed := [], [];
    var rest := stale;
    ghost var before, done: set<string> := client.View(), {};
    PruneNothing(before, fates);
    hide Pruned, PruneOne, PruneResult, PruneResultsOf, PrunedFully, PrunedPartly;
    while rest != {}
      invariant rest <= stale && done == stale - rest
      invariant client.View() == Pruned(before, done, fates)
      invariant PruneResultsOf(deleted, PrunedFully(done, fates), fates)
      invariant PruneResultsOf(failed, PrunedPartly(done, fates), fates)
      decreases rest
    {
      var name :| name in rest;
      PrunedGrows(before, done, name, fates);
      ResultsGrow(deleted, failed, done, name, fates);
      var result := Prune(client, name, fates(name));
      if result.outcome.Deleted? {
        deleted := deleted + [result];
      } else {
        failed := failed + [result];
      }
      TakeOne(stale, rest, done, name);
      rest, done := rest - {name}, done + {name};
    }
    assert done == stale;
  }

  lemma PruneNothing(w: World, fates: string -> CleanupFate)
    ensures Pruned(w, {}, fates) == w
    ensures PruneResultsOf([], PrunedFully({}, fates), fates) && PruneResultsOf([], PrunedPartly({}, fates), fates)
  {
    var t := Pruned(w, {}, fates);
    assert t.services == w.services && t.endpoints == w.endpoints;
  }

  lemma PrunedGrows(w: World, done: set<string>, name: string, fates: string -> CleanupFate)
    ensures Pruned(w, done + {name}, fates) == PruneOne(Pruned(w, done, fates), name, fates(name))
  {
  }

  lemma PruneResultsGrow(results: seq<SyncResult>, names: set<string>, name: string, fates: string -> CleanupFate)
    requires PruneResultsOf(results, names, fates) && name !in names && |PREFIX| <= |name|
    ensures PruneResultsOf(results + [PruneResult(name, fates(name))], names + {name}, fates)
  {
    var more := results + [PruneResult(name, fates(name))];
    assert more[|results|] == PruneResult(name, fates(name));
    forall n <- names ensures exists r <- more :: r.service == n {
      var r :| r in results && r.service == n;
      assert r in more;
    }
  }

  lemma PrunedFullyGrows(done: set<string>, name: string, fates: string -> CleanupFate)
    requires name !in done
    ensures var good, good' := PrunedFully(done, fates), PrunedFully(done + {name}, fates);
      if PruneSucceeds(fates(name))
      then good' == good + {name} && done + {name} - good' == done - good
      else good' == good && done + {name} - good' == done - good + {name}
  {
  }

  lemma ResultsGrow(deleted: seq<SyncResult>, failed: seq<SyncResult>, done: set<string>, name: string,
                    fates: string -> CleanupFate)
    requires PruneResultsOf(deleted, PrunedFully(done, fates), fates)
    requires PruneResultsOf(failed, PrunedPartly(done, fates), fates)
    requires name !in done && |PREFIX| <= |name|
    ensures var x, done' := PruneResult(name, fates(name)), done + {name};
      && PruneResultsOf(if x.outcome.Deleted? then deleted + [x] else deleted, PrunedFully(done', fates), fates)
      && PruneResultsOf(if x.outcome.Deleted? then failed else failed + [x], PrunedPartly(done', fates), fates)
  {
    PrunedFullyGrows(done, name, fates);
    var good := PrunedFully(done, fates);
    if PruneSucceeds(fates(name)) {
      PruneResultsGrow(deleted, good, name, fates);
    } else {
      PruneResultsGrow(failed, done - good, name, fates);
    }
  }

  method SyncDevices(client: Client, q: Request) returns (reply: DevicesReply)
    requires WellNamed(client.View())
    modifies client
    ensures client.View() == SyncDevicesWorld(old(client.View()), q)
    ensures WellNamed(client.View())
    ensures !q.Runs() ==> client.View() == old(client.View())
    ensures !q.ready ==> reply == NotReady
    ensures q.ready && !q.fetchOk ==> reply == FetchFailed
    ensures q.ready && q.fetchOk && !q.listOk ==> reply == ListFailed
    ensures q.Runs() ==> reply.DevicesSynced? && IsDevicesReport(reply.report, old(client.services.Keys), q)
  {
    ghost var before := client.View();
    SyncDevicesWellNamed(before, q);
    if !q.ready { return NotReady; }
    if !q.fetchOk { return FetchFailed; }
    var devices := KeepHealthy(q.claims);
    var response := EMPTY_REPORT.(totalHealthy := |devices|);
    if !q.listOk { return ListFailed; }
    var existingServices := client.ListEdgeServices();
    var existing := set n <- existingServices;
    assert existing == before.services.Keys;
    ReportClaimsShape(response, existing, devices);
    var stale;
    response, stale := TakeClaims(client, devices, existing, response);
    var deleted, failed := PruneAll(client, stale, q.cleanup);
    assert (response.failed + failed)[|response.failed|..] == failed;
    return DevicesSynced(response.(deleted := deleted, failed := response.failed + failed));
  }

  lemma {:induction false} ReportClaimsShape(start: Report, existing: set<string>, claims: seq<Claim>)
    ensures var r := ReportClaims(start, existing, claims);
      r.deleted == start.deleted && r.totalHealthy == start.totalHealthy
  {
    if claims != [] { ReportClaimsShape(start, existing, claims[..|claims| - 1]); }
  }

  lemma {:induction false} ClaimAllWellNamed(w: World, claims: seq<Claim>)
    requires WellNamed(w)
    ensures WellNamed(ClaimAll(w, claims))
  {
    if claims != [] {
      ClaimAllWellNamed(w, claims[..|claims| - 1]);
      ServiceNameIsObjectName(claims[|claims| - 1].device.id);
    }
  }

  lemma SyncDevicesWellNamed(w: World, q: Request)
    requires WellNamed(w)
    ensures WellNamed(SyncDevicesWorld(w, q))
  {
    ClaimAllWellNamed(w, HealthyOnly(q.claims));
  }

  // ---------- SyncSingleDevice ----------

  datatype SingleRequest = SingleRequest(ready: bool, fetchOk: bool, listOk: bool, id: string, claims: seq<Claim>)

  datatype SingleReply = SingleNotReady | SingleFetchFailed | DeviceNotFound | SingleDone(result: SyncResult)

  /** The first device of the list with the given id. */
  function FindClaim(claims: seq<Claim>, id: string): Option<Claim> {
    if claims == [] then None
    else if claims[0].device.id == id then Some(claims[0])
    else FindClaim(claims[1..], id)
  }

  predicate IsFirst(claims: seq<Claim>, id: string, i: int) {
    0 <= i < |claims| && claims[i].device.id == id && forall j :: 0 <= j < i ==> claims[j].device.id != id
  }

  /** An id in the list is found, at its first occurrence, and no other is. */
  lemma {:induction false} FoundIsFirst(claims: seq<Claim>, id: string)
    ensures FindClaim(claims, id).Some? <==> exists c <- claims :: c.device.id == id
    ensures FindClaim(claims, id).Some? ==>
      FindClaim(claims, id).value in claims && FindClaim(claims, id).value.device.id == id
    ensures forall i :: IsFirst(claims, id, i) ==> FindClaim(claims, id) == Some(claims[i])
  {
    if claims != [] {
      FoundIsFirst(claims[1..], id);
      assert claims == [claims[0]] + claims[1..];
      forall i | IsFirst(claims, id, i) ensures FindClaim(claims, id) == Some(claims[i]) {
        if i > 0 {
          assert forall j :: 0 <= j < i ==> claims[1..][j] == claims[j + 1];
          assert claims[0].device.id != id && IsFirst(claims[1..], id, i - 1);
        }
      }
    }
  }

  function SingleWorld(w: World, q: SingleRequest): World {
    if !q.ready || !q.fetchOk then w
    else match FindClaim(q.claims, q.id)
      case None => w
      case Some(c) => if c.status.Healthy? then ClaimWorld(w, c) else w
  }

  function SingleResult(existing: set<string>, q: SingleRequest): SingleReply {
    if !q.ready then SingleNotReady
    else if !q.fetchOk then SingleFetchFailed
    else match FindClaim(q.claims, q.id)
      case None => DeviceNotFound
      case Some(c) =>
        SingleDone(
          if !c.status.Healthy? then SyncResult(q.id, "", Failed(NotHealthy))
          else if c.device.ip == "" then SyncResult(q.id, "", Failed(NoAddress))
          else SyncResult(q.id, ServiceName(q.id),
                          PublishOutcome(q.listOk && ServiceName(q.id) in existing, c.service, c.endpoints)))
  }

  method GetDeviceByID(claims: seq<Claim>, id: string) returns (found: Option<Claim>)
    ensures found == FindClaim(claims, id)
    ensures found.Some? <==> exists c <- claims :: c.device.id == id
    ensures found.Some? ==> found.value.device.id == id
  {
    FoundIsFirst(claims, id);
    for i := 0 to |claims|
      invariant FindClaim(claims, id) == FindClaim(claims[i..], id)
    {
      if claims[i].device.id == id { return Some(claims[i]); }
    }
    return None;
  }

  method SyncSingleDevice(client: Client, q: SingleRequest) returns (reply: SingleReply)
    modifies client
    ensures client.View() == SingleWorld(old(client.View()), q)
    ensures reply == SingleResult(old(client.services.Keys), q)
  {
    if !q.ready { return SingleNotReady; }
    if !q.fetchOk { return SingleFetchFailed; }
    var found := GetDeviceByID(q.claims, q.id);
    if found.None? { return DeviceNotFound; }
    var c := found.value;
    if !c.status.Healthy? { return SingleDone(SyncResult(q.id, "", Failed(NotHealthy))); }
    if c.device.ip == "" { return SingleDone(SyncResult(q.id, "", Failed(NoAddress))); }
    var serviceName := ServiceName(q.id);

    // The error of this listing is dropped: on failure there are no names to compare with.
    var services: seq<string> := [];
    if q.listOk { services := client.ListEdgeServices(); }
    var wasExisting := false;
    for i := 0 to |services|
      invariant !wasExisting && serviceName !in services[..i]
    {
      if services[i] == serviceName { wasExisting := true; break; }
    }

    var ok := client.CreateOrUpdateService(c.device.id, c.device.deviceType, c.device.port, c.service);
    if !ok { return SingleDone(SyncResult(q.id, serviceName, Failed(AtService))); }
    ok := client.CreateOrUpdateEndpoints(c.device.id, c.device.ip, c.device.port, c.endpoints);
    if !ok { return SingleDone(SyncResult(q.id, serviceName, Failed(AtEndpoints))); }
    var outcome := Created;
    if wasExisting { outcome := Updated; }
    return SingleDone(SyncResult(q.id, serviceName, outcome));
  }

  // ---------- DeleteDeviceResources ----------

  datatype DeleteReply = DeleteNotReady | DeleteDone(result: SyncResult)

  function DeleteWorld(w: World, ready: bool, id: string, fate: CleanupFate): World {
    if ready then PruneOne(w, ServiceName(id), fate) else w
  }

  method DeleteDeviceResources(client: Client, ready: bool, id: string, fate: CleanupFate) returns (reply: DeleteReply)
    modifies client
    ensures client.View() == DeleteWorld(old(client.View()), ready, id, fate)
    ensures !ready <==> reply == DeleteNotReady
    ensures ready ==>
      && reply.DeleteDone?
      && var outcome := reply.result.outcome;
      && reply.result == SyncResult(id, ServiceName(id), outcome)
      && (outcome == Deleted <==> fate.service.Done? && fate.endpoints.Done?)
      && (outcome == Failed(AtDeleteService) <==> !fate.service.Done?)
      && (outcome == Failed(AtDeleteEndpoints) <==> fate.service.Done? && !fate.endpoints.Done?)
  {
    if !ready { return DeleteNotReady; }
    var serviceName := ServiceName(id);
    var ok := client.DeleteService(id, fate.service);
    if !ok { return DeleteDone(SyncResult(id, serviceName, Failed(AtDeleteService))); }
    ok := client.DeleteEndpoints(id, fate.endpoints);
    if !ok { return DeleteDone(SyncResult(id, serviceName, Failed(AtDeleteEndpoints))); }
    return DeleteDone(SyncResult(id, serviceName, Deleted));
  }

  // ---------- CleanupAllResources ----------

  /** Deleting listed names in turn, stopping at the first error. */
  function RemoveListed<V>(m: map<string, V>, names: seq<string>, fates: string -> Fate): (map<string, V>, bool) {
    if names == [] then (m, true)
    else if !fates(names[0]).Reported() then (Removed(m, names[0], fates(names[0])), false)
    else RemoveListed(m - {names[0]}, names[1..], fates)
  }

  function ServiceFates(fates: string -> CleanupFate): string -> Fate {
    (n: string) => fates(n).service
  }

  function EndpointsFates(fates: string -> CleanupFate): string -> Fate {
    (n: string) => fates(n).endpoints
  }

  /** Endpoints are only touched after every Service's deletion was acknowledged. */
  function CleanupWorld(w: World, services: seq<string>, endpoints: seq<string>, fates: string -> CleanupFate): World {
    var (s, ok) := RemoveListed(w.services, services, ServiceFates(fates));
    World(s, if ok then RemoveListed(w.endpoints, endpoints, EndpointsFates(fates)).0 else w.endpoints)
  }

  datatype CleanupReply = Cleaned(services: seq<string>, endpoints: seq<string>) | CleanupFailed

  method CleanupAllResources(client: Client, ready: bool, listServicesOk: bool, listEndpointsOk: bool,
                             fates: string -> CleanupFate)
    returns (reply: CleanupReply, ghost services: seq<string>, ghost endpoints: seq<string>)
    requires WellNamed(client.View())
    modifies client
    ensures IsListing(services, old(client.services.Keys)) && IsListing(endpoints, old(client.endpoints.Keys))
    ensures client.View() ==
      if ready && listServicesOk && listEndpointsOk
      then CleanupWorld(old(client.View()), services, endpoints, fates)
      else old(client.View())
    ensures reply == Cleaned(services, endpoints) || reply == CleanupFailed
    ensures reply.Cleaned? <==>
      && ready && listServicesOk && listEndpointsOk
      && RemoveListed(old(client.services), services, ServiceFates(fates)).1
      && RemoveListed(old(client.endpoints), endpoints, EndpointsFates(fates)).1
  {
    var names := client.ListEdgeServices();
    var endpointsNames := client.ListEdgeEndpoints();
    services, endpoints := names, endpointsNames;
    if !ready || !listServicesOk || !listEndpointsOk { return CleanupFailed, services, endpoints; }
    var ok := DeleteServices(client, names, ServiceFates(fates));
    if !ok { return CleanupFailed, services, endpoints; }
    ok := DeleteAllEndpoints(client, endpointsNames, EndpointsFates(fates));
    if !ok { return CleanupFailed, services, endpoints; }
    return Cleaned(names, endpointsNames), services, endpoints;
  }

  method DeleteServices(client: Client, names: seq<string>, fates: string -> Fate) returns (ok: bool)
    requires forall n <- names :: |PREFIX| <= |n| && IsObjectName(n)
    modifies client`services
    ensures (client.services, ok) == RemoveListed(old(client.services), names, fates)
  {
    for i := 0 to |names|
      invariant RemoveListed(old(client.services), names, fates) == RemoveListed(client.services, names[i..], fates)
    {
      CleanupHitsListedName(names[i]);
      var done := client.DeleteService(DeviceIdOf(names[i]), fates(names[i]));
      if !done { return false; }
    }
    return true;
  }

  method DeleteAllEndpoints(client: Client, names: seq<string>, fates: string -> Fate) returns (ok: bool)
    requires forall n <- names :: |PREFIX| <= |n| && IsObjectName(n)
    modifies client`endpoints
    ensures (client.endpoints, ok) == RemoveListed(old(client.endpoints), names, fates)
  {
    for i := 0 to |names|
      invariant RemoveListed(old(client.endpoints), names, fates) == RemoveListed(client.endpoints, names[i..], fates)
    {
      CleanupHitsListedName(names[i]);
      var done := client.DeleteEndpoints(DeviceIdOf(names[i]), fates(names[i]));
      if !done { return false; }
    }
    return true;
  }

  // ---------- GetSyncStatus ----------

  datatype ResourceInfo = ResourceInfo(deviceId: string, serviceExists: bool, endpointsExists: bool)

  datatype SyncStatus = SyncStatus(totalResources: nat, totalDevices: nat, synced: nat, unsynced: nat,
                                   resources: seq<ResourceInfo>)

  predicate FullySynced(w: World, id: string) {
    ServiceName(id) in w.services && ServiceName(id) in w.endpoints
  }

  /** How many of the listed devices have both objects. */
  function SyncedCount(w: World, ids: seq<string>): nat {
    if ids == [] then 0
    else SyncedCount(w, ids[..|ids| - 1]) + if FullySynced(w, ids[|ids| - 1]) then 1 else 0
  }

  datatype StatusError = StatusNotReady | StatusFetchFailed | StatusServicesFailed | StatusEndpointsFailed

  datatype StatusReply = StatusOf(status: SyncStatus) | StatusFailed(error: StatusError)

  /** The first of the calls, in their order, that fails. */
  function StatusFailure(ready: bool, fetchOk: bool, servicesOk: bool, endpointsOk: bool): Option<StatusError> {
    if !ready then Some(StatusNotReady)
    else if !fetchOk then Some(StatusFetchFailed)
    else if !servicesOk then Some(StatusServicesFailed)
    else if !endpointsOk then Some(StatusEndpointsFailed)
    else None
  }

  /** What is reported of one device. */
  predicate Informs(info: ResourceInfo, w: World, id: string) {
    && info.deviceId == id
    && (info.serviceExists <==> ServiceName(id) in w.services)
    && (info.endpointsExists <==> ServiceName(id) in w.endpoints)
  }

  method GetSyncStatus(client: Client, ready: bool, fetchOk: bool, servicesOk: bool, endpointsOk: bool,
                       ids: seq<string>)
    returns (reply: StatusReply)
    ensures StatusFailure(ready, fetchOk, servicesOk, endpointsOk) ==
      if reply.StatusFailed? then Some(reply.error) else None
    ensures reply.StatusOf? ==>
      var status := reply.status;
      && status.synced == SyncedCount(client.View(), ids)
      && status.synced + status.unsynced == status.totalDevices == |ids| == |status.resources|
      && status.totalResources == |client.services|
      && forall i :: 0 <= i < |ids| ==> Informs(status.resources[i], client.View(), ids[i])
  {
    if !ready { return StatusFailed(StatusNotReady); }
    if !fetchOk { return StatusFailed(StatusFetchFailed); }
    if !servicesOk { return StatusFailed(StatusServicesFailed); }
    var services := client.ListEdgeServices();
    if !endpointsOk { return StatusFailed(StatusEndpointsFailed); }
    var endpoints := client.ListEdgeEndpoints();
    var resources: seq<ResourceInfo> := [];
    var synced: nat := 0;
    for i := 0 to |ids|
      invariant synced == SyncedCount(client.View(), ids[..i]) && synced <= i
      invariant |resources| == i
      invariant forall j :: 0 <= j < i ==> Informs(resources[j], client.View(), ids[j])
    {
      assert ids[..i + 1][..i] == ids[..i];
      var serviceExists := ServiceName(ids[i]) in services;
      var endpointsExists := ServiceName(ids[i]) in endpoints;
      if serviceExists && endpointsExists { synced := synced + 1; }
      resources := resources + [ResourceInfo(ids[i], serviceExists, endpointsExists)];
    }
    assert ids[..|ids|] == ids;
    return StatusOf(SyncStatus(|services|, |ids|, synced, |ids| - synced, resources));
  }
}

/** One reconciliation cycle: the specification, as functions on the cluster's state.
    The methods proved against it are in Syncer.dfy (server/handlers/syncer.go). */
module Reconcile {
  import opened Naming
  import opened Cluster

  const GRACE_LIMIT := 3

  // ---------- Devices and their health ----------

  datatype Device = Device(id: string, deviceType: string, ip: string, port: int, reloadPort: int) {
    function Name(): string { ServiceName(id) }
  }

  datatype Probe = NoAnswer | Http(code: int)

  datatype Status = Healthy | Unhealthy | Unreachable | Unknown

  /** The probe is the outside world's answer; an address that is missing is never probed. */
  function CheckDeviceHealth(d: Device, probe: Probe): (r: Status)
    ensures r.Healthy? <==> d.ip != "" && d.ip != "unknown" && probe == Http(200)
    ensures r.Unreachable? <==> d.ip != "" && d.ip != "unknown" && probe == NoAnswer
    ensures r.Unknown? <==> d.ip == "" || d.ip == "unknown"
  {
    if d.ip == "" || d.ip == "unknown" then Unknown
    else match probe
      case NoAnswer => Unreachable
      case Http(code) => if code == 200 then Healthy else Unhealthy
  }

  // ---------- The inputs of one cycle ----------

  /** A device as listed, what its probe said, and how the calls made for it end. */
  datatype Visit = Visit(device: Device, probe: Probe,
                         service: UpsertFate, endpoints: UpsertFate, drop: Fate)
  {
    predicate Healthy() { CheckDeviceHealth(device, probe).Healthy? && device.ip != "" }
    function Name(): string { device.Name() }
  }

  datatype Cycle = Cycle(ready: bool, storeOk: bool, listOk: bool,
                         visits: seq<Visit>, cleanup: string -> CleanupFate)
  {
    /** The cycle gets past its three early returns. */
    predicate Runs() { ready && storeOk && listOk }
  }

  // ---------- State ----------

  datatype State = State(world: World, failures: map<string, int>)

  function Failures(s: State, id: string): int {
    if id in s.failures then s.failures[id] else 0
  }

  // ---------- The device loop ----------

  /** Publishing a device: its Service first, its Endpoints only if that was acknowledged. */
  function Publish(w: World, d: Device, service: UpsertFate, endpoints: UpsertFate): World {
    World(Upserted(w.services, d.Name(), Service(d.id, d.deviceType, ToInt32(d.port)), service),
          if service.Reported()
          then Upserted(w.endpoints, d.Name(), Endpoints(d.id, d.ip, ToInt32(d.port)), endpoints)
          else w.endpoints)
  }

  function VisitState(s: State, v: Visit): State {
    if v.Healthy() then
      State(Publish(s.world, v.device, v.service, v.endpoints), s.failures - {v.device.id})
    else
      var count := Failures(s, v.device.id) + 1;
      State(if count >= GRACE_LIMIT
            then World(s.world.services, Removed(s.world.endpoints, v.Name(), v.drop))
            else s.world,
            s.failures[v.device.id := count])
  }

  function VisitAll(s: State, visits: seq<Visit>): State {
    if visits == [] then s
    else VisitState(VisitAll(s, visits[..|visits| - 1]), visits[|visits| - 1])
  }

  /** The warnings logged when a device's grace period is over, with the count reached. */
  function GraceLog(s: State, visits: seq<Visit>): seq<(string, int)> {
    if visits == [] then []
    else
      var n := |visits| - 1;
      var before := GraceLog(s, visits[..n]);
      var count := Failures(VisitAll(s, visits[..n]), visits[n].device.id) + 1;
      if !visits[n].Healthy() && count >= GRACE_LIMIT
      then before + [(visits[n].device.id, count)]
      else before
  }

  function Names(visits: seq<Visit>): set<string> {
    set v <- visits :: v.Name()
  }

  // ---------- The cleanup loop, independent of the order of its names ----------

  function Cleanup(s: State, names: set<string>, fates: string -> CleanupFate): State
    requires ObjectNames(names)
  {
    State(
      World(map n <- s.world.services | !(n in names && fates(n).service.Applied()) :: s.world.services[n],
            map n <- s.world.endpoints | !(n in names && fates(n).endpoints.Applied()) :: s.world.endpoints[n]),
      s.failures - (set n <- names :: DeviceIdOf(n)))
  }

  function Sync(s: State, c: Cycle): State
    requires WellNamed(s.world)
  {
    if !c.Runs() then s
    else Cleanup(VisitAll(s, c.visits), s.world.services.Keys - Names(c.visits), c.cleanup)
  }

  // ---------- The report ----------

  datatype Stage = AtService | AtEndpoints | NoAddress | AtDeleteService | AtDeleteEndpoints | NotHealthy

  datatype Outcome = Created | Updated | Deleted | Failed(stage: Stage)

  datatype SyncResult = SyncResult(deviceId: string, service: string, outcome: Outcome)

  datatype Report = Report(created: seq<SyncResult>, updated: seq<SyncResult>,
                           deleted: seq<SyncResult>, failed: seq<SyncResult>, totalHealthy: nat)

  const EMPTY_REPORT := Report([], [], [], [], 0)

  /** How publishing one device is reported. */
  function PublishOutcome(existed: bool, service: UpsertFate, endpoints: UpsertFate): Outcome {
    if !service.Reported() then Failed(AtService)
    else if !endpoints.Reported() then Failed(AtEndpoints)
    else if existed then Updated
    else Created
  }

  function Filed(r: Report, x: SyncResult): Report {
    match x.outcome
    case Created => r.(created := r.created + [x])
    case Updated => r.(updated := r.updated + [x])
    case Deleted => r.(deleted := r.deleted + [x])
    case Failed(_) => r.(failed := r.failed + [x])
  }

  function VisitReport(r: Report, existing: set<string>, v: Visit): Report {
    if v.Healthy()
    then Filed(r, SyncResult(v.device.id, v.Name(),
                             PublishOutcome(v.Name() in existing, v.service, v.endpoints)))
           .(totalHealthy := r.totalHealthy + 1)
    else r
  }

  function ReportAll(existing: set<string>, visits: seq<Visit>): Report {
    if visits == [] then EMPTY_REPORT
    else VisitReport(ReportAll(existing, visits[..|visits| - 1]), existing, visits[|visits| - 1])
  }

  function DeletedResult(name: string): SyncResult
    requires |PREFIX| <= |name|
  {
    SyncResult(DeviceIdOf(name), name, Deleted)
  }

  /** `results` reports the deletion of exactly the given names, each once, in some order. */
  predicate DeletionsOf(results: seq<SyncResult>, names: set<string>) {
    && |results| == |names|
    && (forall r <- results :: r.service in names && |PREFIX| <= |r.service| && r == DeletedResult(r.service))
    && (forall n <- names :: exists r <- results :: r.service == n)
  }

  /** The report of a completed cycle; only the order of the deletions is open. */
  predicate IsReport(r: Report, existing: set<string>, c: Cycle) {
    && r == ReportAll(existing, c.visits).(deleted := r.deleted)
    && DeletionsOf(r.deleted, existing - Names(c.visits))
  }

  // ---------- Names stay well formed ----------

  lemma VisitWellNamed(s: State, v: Visit)
    requires WellNamed(s.world)
    ensures WellNamed(VisitState(s, v).world)
  {
    ServiceNameIsObjectName(v.device.id);
  }

  lemma {:induction false} VisitAllWellNamed(s: State, visits: seq<Visit>)
    requires WellNamed(s.world)
    ensures WellNamed(VisitAll(s, visits).world)
  {
    if visits != [] {
      VisitAllWellNamed(s, visits[..|visits| - 1]);
      VisitWellNamed(VisitAll(s, visits[..|visits| - 1]), visits[|visits| - 1]);
    }
  }

  lemma SyncWellNamed(s: State, c: Cycle)
    requires WellNamed(s.world)
    ensures WellNamed(Sync(s, c).world)
  {
    VisitAllWellNamed(s, c.visits);
  }
}

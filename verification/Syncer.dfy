/** The periodic reconciler's state and its cycle (server/handlers/syncer.go).
    The locking around a cycle and the goroutine that starts cycles are in SyncerLoop.dfy. */
module SyncerService {
  import opened Naming
  import opened Cluster
  import opened Reconcile
  import opened Wrappers

  datatype SyncError = NotInitialized | ListDevicesFailed | ListServicesFailed

  datatype SyncReply = Synced(report: Report, graceLog: seq<(string, int)>) | Aborted(error: SyncError)

  class Syncer {
    const client: Client
    var failureCounts: map<string, int>

    constructor (client: Client)
      ensures this.client == client && failureCounts == map[]
    {
      this.client := client;
      failureCounts := map[];
    }

    ghost function View(): State
      reads this, client
    {
      State(client.View(), failureCounts)
    }

    /** One pass of the device loop. */
    method VisitDevice(v: Visit, existing: set<string>, response: Report, log: seq<(string, int)>)
      returns (response': Report, log': seq<(string, int)>)
      modifies this, client
      ensures View() == VisitState(old(View()), v)
      ensures response' == VisitReport(response, existing, v)
      ensures var count := Failures(old(View()), v.device.id) + 1;
        log' == if !v.Healthy() && count >= GRACE_LIMIT then log + [(v.device.id, count)] else log
    {
      response', log' := response, log;
      var id := v.device.id;
      var status := CheckDeviceHealth(v.device, v.probe);
      if status.Healthy? && v.device.ip != "" {
        response' := response'.(totalHealthy := response'.totalHealthy + 1);
        failureCounts := failureCounts - {id};
        var wasExisting := v.Name() in existing;

        var ok := client.CreateOrUpdateService(id, v.device.deviceType, v.device.port, v.service);
        if !ok {
          var r := SyncResult(id, v.Name(), Failed(AtService));
          response' := response'.(failed := response'.failed + [r]);
          return;
        }
        ok := client.CreateOrUpdateEndpoints(id, v.device.ip, v.device.port, v.endpoints);
        if !ok {
          var r := SyncResult(id, v.Name(), Failed(AtEndpoints));
          response' := response'.(failed := response'.failed + [r]);
          return;
        }
        if wasExisting {
          response' := response'.(updated := response'.updated + [SyncResult(id, v.Name(), Updated)]);
        } else {
          response' := response'.(created := response'.created + [SyncResult(id, v.Name(), Created)]);
        }
      } else {
        var count := (if id in failureCounts then failureCounts[id] else 0) + 1;
        failureCounts := failureCounts[id := count];
        if count >= GRACE_LIMIT {
          // Grace period exceeded: remove the Endpoints only, keep the Service.
          var _ := client.DeleteEndpoints(id, v.drop);
          log' := log' + [(id, count)];
        }
      }
    }

    /** Removes what belongs to no listed device, taking the names in any order. */
    method CleanUp(stale: set<string>, fates: string -> CleanupFate) returns (deleted: seq<SyncResult>)
      requires ObjectNames(stale)
      modifies this, client
      ensures View() == Cleanup(old(View()), stale, fates)
      ensures DeletionsOf(deleted, stale)
    {
      DeletionsOfNothing();
      hide Cleanup, DeletionsOf;
      deleted := [];
      var rest := stale;
      ghost var start, done: set<string> := View(), {};
      CleanupOfNothing(start, fates);
      while rest != {}
        invariant rest <= stale && done == stale - rest
        invariant View() == Cleanup(start, done, fates)
        invariant DeletionsOf(deleted, done)
        decreases rest
      {
        var name :| name in rest;
        CleanupGrows(start, done, name, fates);
        DeletionsGrow(deleted, done, name);
        DeleteBoth(name, fates(name));
        deleted := deleted + [DeletedResult(name)];
        TakeOne(stale, rest, done, name);
        rest, done := rest - {name}, done + {name};
      }
      assert done == stale;
    }

    method DeleteBoth(name: string, fate: CleanupFate)
      requires IsObjectName(name)
      modifies this, client
      ensures client.services == Removed(old(client.services), name, fate.service)
      ensures client.endpoints == Removed(old(client.endpoints), name, fate.endpoints)
      ensures failureCounts == old(failureCounts) - {DeviceIdOf(name)}
    {
      var deviceId := DeviceIdOf(name);
      CleanupHitsListedName(name);
      var _ := client.DeleteService(deviceId, fate.service);
      var _ := client.DeleteEndpoints(deviceId, fate.endpoints);
      failureCounts := failureCounts - {deviceId};
    }

    /** The device loop. */
    method VisitDevices(visits: seq<Visit>, existing: set<string>)
      returns (response: Report, log: seq<(string, int)>, processed: set<string>)
      modifies this, client
      ensures View() == VisitAll(old(View()), visits)
      ensures response == ReportAll(existing, visits)
      ensures log == GraceLog(old(View()), visits)
      ensures processed == Names(visits)
    {
      hide VisitState, VisitReport, VisitAll, ReportAll, GraceLog, Names;
      response, log, processed := EMPTY_REPORT, [], {};
      ghost var start := View();
      NothingVisited(start, existing, visits);
      for i := 0 to |visits|
        invariant View() == VisitAll(start, visits[..i])
        invariant processed == Names(visits[..i])
        invariant response == ReportAll(existing, visits[..i])
        invariant log == GraceLog(start, visits[..i])
      {
        var v := visits[i];
        VisitsGrow(start, existing, visits, i);
        processed := processed + {v.Name()};
        response, log := VisitDevice(v, existing, response, log);
      }
      assert visits[..|visits|] == visits;
    }

    /** One reconciliation cycle. */
    method Sync(c: Cycle) returns (reply: SyncReply)
      requires WellNamed(client.View())
      modifies this, client
      ensures View() == Reconcile.Sync(old(View()), c)
      ensures WellNamed(client.View())
      ensures !c.Runs() ==> View() == old(View())
      ensures !c.ready ==> reply == Aborted(NotInitialized)
      ensures c.ready && !c.storeOk ==> reply == Aborted(ListDevicesFailed)
      ensures c.ready && c.storeOk && !c.listOk ==> reply == Aborted(ListServicesFailed)
      ensures c.Runs() ==>
        && reply.Synced?
        && IsReport(reply.report, old(client.services.Keys), c)
        && reply.graceLog == GraceLog(old(View()), c.visits)
    {
      ghost var start := View();
      SyncWellNamed(start, c);
      if !c.ready { return Aborted(NotInitialized); }
      if !c.storeOk { return Aborted(ListDevicesFailed); }
      if !c.listOk { return Aborted(ListServicesFailed); }
      var existingServices := client.ListEdgeServices();
      var existing := set n <- existingServices;
      assert existing == start.world.services.Keys;

      var response, log, processed := VisitDevices(c.visits, existing);
      ReportAllDeletesNothing(existing, c.visits);
      var deleted := CleanUp(existing - processed, c.cleanup);
      return Synced(response.(deleted := deleted), log);
    }
  }

  // ---------- Steps of the loop invariants ----------

  lemma NothingVisited(s: State, existing: set<string>, visits: seq<Visit>)
    ensures VisitAll(s, visits[..0]) == s && ReportAll(existing, visits[..0]) == EMPTY_REPORT
    ensures Names(visits[..0]) == {} && GraceLog(s, visits[..0]) == []
  {
  }

  lemma VisitsGrow(s: State, existing: set<string>, visits: seq<Visit>, i: nat)
    requires i < |visits|
    ensures VisitAll(s, visits[..i + 1]) == VisitState(VisitAll(s, visits[..i]), visits[i])
    ensures ReportAll(existing, visits[..i + 1]) == VisitReport(ReportAll(existing, visits[..i]), existing, visits[i])
    ensures Names(visits[..i + 1]) == Names(visits[..i]) + {visits[i].Name()}
    ensures var count := Failures(VisitAll(s, visits[..i]), visits[i].device.id) + 1;
      GraceLog(s, visits[..i + 1]) ==
        if !visits[i].Healthy() && count >= GRACE_LIMIT
        then GraceLog(s, visits[..i]) + [(visits[i].device.id, count)]
        else GraceLog(s, visits[..i])
  {
    var more := visits[..i + 1];
    assert more[..i] == visits[..i] && more[i] == visits[i];
    assert more == visits[..i] + [visits[i]];
  }

  lemma CleanupOfNothing(s: State, fates: string -> CleanupFate)
    ensures Cleanup(s, {}, fates) == s
  {
    var t := Cleanup(s, {}, fates);
    assert t.world.services == s.world.services;
    assert t.world.endpoints == s.world.endpoints;
    assert t.failures == s.failures;
  }

  lemma CleanupGrows(s: State, done: set<string>, name: string, fates: string -> CleanupFate)
    requires ObjectNames(done + {name})
    ensures var t := Cleanup(s, done, fates);
      Cleanup(s, done + {name}, fates) ==
      State(World(Removed(t.world.services, name, fates(name).service),
                  Removed(t.world.endpoints, name, fates(name).endpoints)),
            t.failures - {DeviceIdOf(name)})
  {
  }

  lemma DeletionsOfNothing()
    ensures DeletionsOf([], {})
  {
  }

  lemma DeletionsGrow(results: seq<SyncResult>, names: set<string>, name: string)
    requires DeletionsOf(results, names) && name !in names && |PREFIX| <= |name|
    ensures DeletionsOf(results + [DeletedResult(name)], names + {name})
  {
    var more := results + [DeletedResult(name)];
    assert DeletedResult(name) == more[|results|];
    forall n <- names ensures exists r <- more :: r.service == n {
      var r :| r in results && r.service == n;
      assert r in more;
    }
  }

  lemma {:induction false} ReportAllDeletesNothing(existing: set<string>, visits: seq<Visit>)
    ensures ReportAll(existing, visits).deleted == []
  {
    if visits != [] {
      ReportAllDeletesNothing(existing, visits[..|visits| - 1]);
    }
  }
}

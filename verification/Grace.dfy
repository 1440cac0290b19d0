/** The grace period over whole runs of reconciliation cycles (server/handlers/syncer.go). */
module Grace {
  import opened Wrappers
  import opened Naming
  import opened Cluster
  import opened Reconcile
  import opened SyncProperties

  function Run(s: State, cycles: seq<Cycle>): (t: State)
    requires WellNamed(s.world)
    ensures WellNamed(t.world)
  {
    if cycles == [] then s
    else
      var before := Run(s, cycles[..|cycles| - 1]);
      SyncWellNamed(before, cycles[|cycles| - 1]);
      Sync(before, cycles[|cycles| - 1])
  }

  // ---------- What a cycle means for one device ----------

  /** `Collected`: no longer listed, and its Service was there to be cleaned up. */
  datatype Event = Sick | Well | Collected | Nothing

  function FindVisit(visits: seq<Visit>, id: string): Option<Visit> {
    if visits == [] then None
    else if visits[|visits| - 1].device.id == id then Some(visits[|visits| - 1])
    else FindVisit(visits[..|visits| - 1], id)
  }

  function EventOf(w: World, c: Cycle, id: string): Event {
    if !c.Runs() then Nothing
    else match FindVisit(c.visits, id)
      case Some(v) => if v.Healthy() then Well else Sick
      case None => if ServiceName(id) in w.services && ServiceName(id) !in Names(c.visits) then Collected else Nothing
  }

  function Events(s: State, cycles: seq<Cycle>, id: string): (events: seq<Event>)
    requires WellNamed(s.world)
    ensures |events| == |cycles|
  {
    if cycles == [] then []
    else
      var n := |cycles| - 1;
      Events(s, cycles[..n], id) + [EventOf(Run(s, cycles[..n]).world, cycles[n], id)]
  }

  /** The cycles in which the device was listed and unhealthy, with no later cycle in
      which it was healthy or collected. */
  function SickSinceReset(events: seq<Event>): set<int> {
    set i | 0 <= i < |events| && events[i].Sick?
         && forall j | i < j < |events| :: !events[j].Well? && !events[j].Collected?
  }

  /** Device ids are the primary key of the table they are listed from. */
  predicate DistinctIds(c: Cycle) {
    forall i, j :: 0 <= i < j < |c.visits| ==> c.visits[i].device.id != c.visits[j].device.id
  }

  predicate AllDistinct(cycles: seq<Cycle>) {
    forall i :: 0 <= i < |cycles| ==> DistinctIds(cycles[i])
  }

  /** Distinct ids, all in lower case: what validation and the primary key give. */
  predicate StoredDevices(c: Cycle) {
    DistinctIds(c) && forall v <- c.visits :: ToLower(v.device.id) == v.device.id
  }

  lemma StoredDevicesHaveDistinctNames(c: Cycle)
    requires StoredDevices(c)
    ensures DistinctNames(c.visits)
  {
    forall i, j | 0 <= i < j < |c.visits| ensures c.visits[i].Name() != c.visits[j].Name() {
      assert c.visits[i] in c.visits && c.visits[j] in c.visits;
      NamesCollideIffSameLowercase(c.visits[i].device.id, c.visits[j].device.id);
    }
  }

  // ---------- One cycle's effect on a counter ----------

  lemma {:induction false} FindVisitFinds(visits: seq<Visit>, id: string)
    ensures FindVisit(visits, id).Some? <==> exists v <- visits :: v.device.id == id
    ensures FindVisit(visits, id).Some? ==>
      FindVisit(visits, id).value in visits && FindVisit(visits, id).value.device.id == id
  {
    if visits != [] {
      var n := |visits| - 1;
      FindVisitFinds(visits[..n], id);
      assert visits[n] in visits && forall v <- visits[..n] :: v in visits;
      assert forall v <- visits :: v in visits[..n] || v == visits[n];
    }
  }

  lemma {:induction false} CounterAfterVisits(s: State, visits: seq<Visit>, id: string)
    requires forall i, j :: 0 <= i < j < |visits| ==> visits[i].device.id != visits[j].device.id
    ensures At(VisitAll(s, visits).failures, id) == match FindVisit(visits, id)
      case None => At(s.failures, id)
      case Some(v) => if v.Healthy() then None else Some(Failures(s, id) + 1)
  {
    if visits != [] {
      var n := |visits| - 1;
      CounterAfterVisits(s, visits[..n], id);
      if visits[n].device.id == id {
        FindVisitFinds(visits[..n], id);
        assert FindVisit(visits[..n], id) == None;
      }
    }
  }

  lemma CounterAfterSync(s: State, c: Cycle, id: string)
    requires WellNamed(s.world) && DistinctIds(c) && ToLower(id) == id
    ensures Failures(Sync(s, c), id) == match EventOf(s.world, c, id)
      case Sick => Failures(s, id) + 1
      case Nothing => Failures(s, id)
      case _ => 0
  {
    if c.Runs() {
      CounterAfterVisits(s, c.visits, id);
      FindVisitFinds(c.visits, id);
      var stale, n := s.world.services.Keys - Names(c.visits), ServiceName(id);
      ServiceNameIsObjectName(id);
      if n in stale {
        assert DeviceIdOf(n) == id;
        CleanupEmptiesStale(VisitAll(s, c.visits), stale, c.cleanup, id);
        assert forall v <- c.visits :: v.Name() in Names(c.visits);
      } else {
        CleanupSparesListed(VisitAll(s, c.visits), stale, c.cleanup, id);
      }
    }
  }

  // ---------- The counter over a run ----------

  lemma SickSinceResetStep(events: seq<Event>, e: Event)
    ensures SickSinceReset(events + [e]) == match e
      case Sick => SickSinceReset(events) + {|events|}
      case Nothing => SickSinceReset(events)
      case _ => {}
  {
    var more := events + [e];
    assert more[|events|] == e;
    assert forall i | 0 <= i < |events| :: more[i] == events[i];
  }

  /** The counter of a device is exactly the number of cycles in which it was listed and
      unhealthy since it was last healthy or collected. */
  lemma {:induction false} CounterCountsSickCycles(w: World, cycles: seq<Cycle>, id: string)
    requires WellNamed(w) && AllDistinct(cycles) && ToLower(id) == id
    ensures var s := State(w, map[]);
      Failures(Run(s, cycles), id) == |SickSinceReset(Events(s, cycles, id))|
  {
    var s := State(w, map[]);
    if cycles != [] {
      var n := |cycles| - 1;
      var before, c := Run(s, cycles[..n]), cycles[n];
      CounterCountsSickCycles(w, cycles[..n], id);
      CounterAfterSync(before, c, id);
      SickSinceResetStep(Events(s, cycles[..n], id), EventOf(before.world, c, id));
      assert |Events(s, cycles[..n], id)| !in SickSinceReset(Events(s, cycles[..n], id));
    }
  }

  // ---------- When Endpoints are dropped ----------

  lemma {:induction false} GraceLogEntries(s: State, visits: seq<Visit>, id: string, count: int)
    requires forall i, j :: 0 <= i < j < |visits| ==> visits[i].device.id != visits[j].device.id
    ensures (id, count) in GraceLog(s, visits) <==>
      && FindVisit(visits, id).Some? && !FindVisit(visits, id).value.Healthy()
      && count == Failures(s, id) + 1 >= GRACE_LIMIT
  {
    if visits != [] {
      var n := |visits| - 1;
      GraceLogEntries(s, visits[..n], id, count);
      FindVisitFinds(visits[..n], id);
      if visits[n].device.id == id {
        CounterAfterVisits(s, visits[..n], id);
      }
    }
  }

  /** A run extended by one cycle: its last state, its last event and the count it reaches. */
  lemma OneMoreCycle(w: World, history: seq<Cycle>, c: Cycle, id: string)
    requires WellNamed(w) && AllDistinct(history) && ToLower(id) == id
    ensures var s := State(w, map[]);
      var before, events := Run(s, history), Events(s, history + [c], id);
      && Run(s, history + [c]) == Sync(before, c)
      && events[|history|] == EventOf(before.world, c, id)
      && |SickSinceReset(events)| == match events[|history|]
           case Sick => Failures(before, id) + 1
           case Nothing => Failures(before, id)
           case _ => 0
  {
    var s := State(w, map[]);
    assert (history + [c])[..|history|] == history;
    CounterCountsSickCycles(w, history, id);
    SickSinceResetStep(Events(s, history, id), EventOf(Run(s, history).world, c, id));
    assert |history| !in SickSinceReset(Events(s, history, id));
  }

  /** A cycle logs the end of a device's grace period, and only then attempts to delete its
      Endpoints, exactly when the device has now been sick in at least three cycles since its
      last reset; the logged number is that count. */
  lemma GraceEndsAfterThreeSickCycles(w: World, history: seq<Cycle>, c: Cycle, id: string, count: int)
    requires WellNamed(w) && AllDistinct(history) && DistinctIds(c) && c.Runs() && ToLower(id) == id
    ensures var s := State(w, map[]);
      var events := Events(s, history + [c], id);
      (id, count) in GraceLog(Run(s, history), c.visits) <==>
        events[|history|].Sick? && count == |SickSinceReset(events)| >= GRACE_LIMIT
  {
    OneMoreCycle(w, history, c, id);
    GraceLogEntries(Run(State(w, map[]), history), c.visits, id, count);
    hide SickSinceReset, GraceLog, FindVisit, Events, Run;
  }

  /** The only two ways a cycle makes a device's Endpoints disappear. */
  lemma EndpointsVanishIff(w: World, history: seq<Cycle>, c: Cycle, id: string)
    requires WellNamed(w) && AllDistinct(history) && StoredDevices(c) && ToLower(id) == id
    ensures var s := State(w, map[]);
      var before, events := Run(s, history).world.endpoints, Events(s, history + [c], id);
      ServiceName(id) in before && ServiceName(id) !in Run(s, history + [c]).world.endpoints <==>
        && ServiceName(id) in before
        && (|| (events[|history|].Sick? && |SickSinceReset(events)| >= GRACE_LIMIT && Dropped(c, id))
            || (events[|history|].Collected? && c.cleanup(ServiceName(id)).endpoints.Applied()))
  {
    OneMoreCycle(w, history, c, id);
    var before := Run(State(w, map[]), history);
    if c.Runs() && ServiceName(id) in before.world.endpoints { OneCycleOnEndpoints(before, c, id); }
    hide SickSinceReset, FindVisit, Events, Run, Names;
  }

  /** The deletion attempted for the device in this cycle, if any, takes effect. */
  predicate Dropped(c: Cycle, id: string) {
    FindVisit(c.visits, id).Some? && FindVisit(c.visits, id).value.drop.Applied()
  }

  lemma OneCycleOnEndpoints(s: State, c: Cycle, id: string)
    requires WellNamed(s.world) && c.Runs() && StoredDevices(c) && ToLower(id) == id
    requires ServiceName(id) in s.world.endpoints
    ensures ServiceName(id) !in Sync(s, c).world.endpoints <==> match EventOf(s.world, c, id)
      case Sick => Failures(s, id) + 1 >= GRACE_LIMIT && Dropped(c, id)
      case Collected => c.cleanup(ServiceName(id)).endpoints.Applied()
      case _ => false
  {
    FindVisitFinds(c.visits, id);
    StoredDevicesHaveDistinctNames(c);
    match FindVisit(c.visits, id) {
      case Some(v) =>
        var i :| 0 <= i < |c.visits| && c.visits[i] == v;
        ListedSlot(s, c, i);
        assert SlotOf(Sync(s, c), id) == SlotOf(VisitState(s, v), id);
      case None =>
        forall v <- c.visits ensures v.Name() != ServiceName(id) {
          NamesCollideIffSameLowercase(v.device.id, id);
        }
        UnlistedSlot(s, c, id);
        assert SlotOf(Sync(s, c), id) == GoneSlot(SlotOf(s, id), c.cleanup(ServiceName(id)));
    }
  }
}

/** The grace period over runs in which the other operations come between the cycles
    (server/handlers/syncer.go, server/kubernetes/sync.go). */
module GraceRuns {
  import opened Wrappers
  import opened Naming
  import opened Cluster
  import opened Reconcile
  import opened Grace
  import opened ClusterRuns

  /** Only a cycle of the periodic reconciler means anything to the counters. */
  function EventOfOp(w: World, op: Op, id: string): Event {
    if op.SyncOp? then Grace.EventOf(w, op.cycle, id) else Nothing
  }

  ghost function EventsOf(s: State, ops: seq<Op>, id: string): (events: seq<Event>)
    requires WellNamed(s.world) && Runnable(ops)
    ensures |events| == |ops|
  {
    if ops == [] then []
    else
      var n := |ops| - 1;
      EventsOf(s, ops[..n], id) + [EventOfOp(ClusterRuns.Run(s, ops[..n]).world, ops[n], id)]
  }

  predicate DistinctCycles(ops: seq<Op>) {
    forall i :: 0 <= i < |ops| && ops[i].SyncOp? ==> DistinctIds(ops[i].cycle)
  }

  /** One operation's effect on a counter. */
  lemma CounterAfterOp(s: State, op: Op, id: string)
    requires WellNamed(s.world) && (op.SyncOp? ==> DistinctIds(op.cycle)) && ToLower(id) == id
    ensures Failures(Step(s, op), id) == match EventOfOp(s.world, op, id)
      case Sick => Failures(s, id) + 1
      case Nothing => Failures(s, id)
      case _ => 0
  {
    if op.SyncOp? { CounterAfterSync(s, op.cycle, id); }
  }

  /** In every run of the five operations the counter of a device is the number of cycles in
      which it was listed and unhealthy since it was last healthy or collected by a cycle;
      what the other operations do to its objects only matters through what a cycle then finds. */
  lemma {:induction false} CounterCountsInAnyRun(w: World, ops: seq<Op>, id: string)
    requires WellNamed(w) && Runnable(ops) && DistinctCycles(ops) && ToLower(id) == id
    ensures var s := State(w, map[]);
      Failures(ClusterRuns.Run(s, ops), id) == |SickSinceReset(EventsOf(s, ops, id))|
  {
    var s := State(w, map[]);
    if ops == [] {
      NothingYet(s, id);
    } else {
      var n := |ops| - 1;
      var history, op := ops[..n], ops[n];
      assert ops == history + [op];
      EventsGrow(s, history, op, id);
      hide EventsOf, EventOfOp, ClusterRuns.Run, Runnable, Step, WellNamed, SickSinceReset;
      CounterCountsInAnyRun(w, history, id);
      var before, events := ClusterRuns.Run(s, history), EventsOf(s, history, id);
      CounterAfterOp(before, op, id);
      CountAfterEvent(events, EventOfOp(before.world, op, id));
    }
  }

  lemma NothingYet(s: State, id: string)
    requires WellNamed(s.world) && s.failures == map[]
    ensures Failures(ClusterRuns.Run(s, []), id) == 0 && |SickSinceReset(EventsOf(s, [], id))| == 0
  {
    assert SickSinceReset([]) == {};
  }

  lemma CountAfterEvent(events: seq<Event>, e: Event)
    ensures |SickSinceReset(events + [e])| == match e
      case Sick => |SickSinceReset(events)| + 1
      case Nothing => |SickSinceReset(events)|
      case _ => 0
  {
    SickSinceResetStep(events, e);
    assert |events| !in SickSinceReset(events);
  }

  /** A run of operations extended by one cycle: its state, its last event, its count. */
  lemma OneMoreCycleAfterOps(w: World, history: seq<Op>, c: Cycle, id: string)
    requires WellNamed(w) && Runnable(history) && DistinctCycles(history) && ToLower(id) == id
    ensures Runnable(history + [SyncOp(c)])
    ensures var s := State(w, map[]);
      var before, events := ClusterRuns.Run(s, history), EventsOf(s, history + [SyncOp(c)], id);
      && events[|history|] == Grace.EventOf(before.world, c, id)
      && |SickSinceReset(events)| == match events[|history|]
           case Sick => Failures(before, id) + 1
           case Nothing => Failures(before, id)
           case _ => 0
  {
    var s := State(w, map[]);
    EventsGrow(s, history, SyncOp(c), id);
    CounterCountsInAnyRun(w, history, id);
    var events, e := EventsOf(s, history, id), Grace.EventOf(ClusterRuns.Run(s, history).world, c, id);
    hide EventsOf, Grace.EventOf, ClusterRuns.Run, Runnable, DistinctCycles, WellNamed, SickSinceReset;
    CountAfterEvent(events, e);
  }

  lemma EventsGrow(s: State, history: seq<Op>, op: Op, id: string)
    requires WellNamed(s.world) && Runnable(history + [op])
    ensures Runnable(history)
    ensures ClusterRuns.Run(s, history + [op]) == Step(ClusterRuns.Run(s, history), op)
    ensures EventsOf(s, history + [op], id) ==
      EventsOf(s, history, id) + [EventOfOp(ClusterRuns.Run(s, history).world, op, id)]
  {
    assert (history + [op])[..|history|] == history;
    forall i | 0 <= i < |history| && history[i].CleanupOp? ensures ListsAll(history[i].order) {
      assert (history + [op])[i] == history[i];
    }
  }

  /** After any run of operations a cycle logs the end of a device's grace period, and only then
      attempts to delete its Endpoints, exactly when that makes it sick for the third time or more. */
  lemma GraceEndsInAnyRun(w: World, history: seq<Op>, c: Cycle, id: string, count: int)
    requires WellNamed(w) && Runnable(history) && DistinctCycles(history)
    requires DistinctIds(c) && c.Runs() && ToLower(id) == id
    ensures Runnable(history + [SyncOp(c)])
    ensures var s := State(w, map[]);
      var events := EventsOf(s, history + [SyncOp(c)], id);
      (id, count) in GraceLog(ClusterRuns.Run(s, history), c.visits) <==>
        events[|history|].Sick? && count == |SickSinceReset(events)| >= GRACE_LIMIT
  {
    OneMoreCycleAfterOps(w, history, c, id);
    GraceLogEntries(ClusterRuns.Run(State(w, map[]), history), c.visits, id, count);
    hide SickSinceReset, GraceLog, FindVisit, EventsOf, ClusterRuns.Run;
  }
}

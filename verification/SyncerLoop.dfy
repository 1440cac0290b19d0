/** The goroutines around the periodic reconciler: the ticker loop, callers of TriggerSync and
    one call of Stop, interleaved step by step (server/handlers/syncer.go). */
module SyncerLoop {
  import opened Wrappers
  import opened Naming
  import opened Cluster
  import opened Reconcile
  import Grace

  // ---------- Program counters and shared state ----------

  datatype LoopPc = Selecting | LoopLocking | LoopSyncing | Exited

  /** A call of TriggerSync: waiting for the mutex, in Sync, at its final send. */
  datatype CallPc = CallLocking | CallSyncing | CallSignalling

  datatype StopPc = NotStopped | StopWaiting | StopReturned

  datatype Owner = Loop | Caller(t: nat)

  /** The Sync body under the mutex: its inputs and how many devices it has visited. */
  datatype Body = Body(owner: Owner, cycle: Cycle, existing: set<string>, next: nat)

  datatype Sys = Sys(
    state: State,
    mutex: Option<Body>,
    loop: LoopPc,
    calls: map<nat, CallPc>,
    stop: StopPc,       // stopCh is closed when Stop has been called
    tick: bool,         // the ticker's channel holds a tick
    tokens: nat,        // what resetCh, of capacity one, holds
    done: bool,         // the done channel is closed
    log: seq<Cycle>)    // the completed cycles, in the order the mutex was released

  const RESET_CAPACITY := 1

  function Start(s: State): Sys {
    Sys(s, None, Selecting, map[], NotStopped, false, 0, false, [])
  }

  datatype Action =
    | Tick
    | SelectTick | SelectReset | SelectStop
    | LoopLock(cycle: Cycle)
    | BodyVisit | BodyFinish
    | Call(t: nat) | CallLock(t: nat, cycle: Cycle) | Signal(t: nat)
    | Stop | StopReturn

  predicate Enabled(s: Sys, a: Action) {
    match a
    case Tick => s.loop != Exited
    case SelectTick => s.loop == Selecting && s.tick
    case SelectReset => s.loop == Selecting && s.tokens > 0
    case SelectStop => s.loop == Selecting && s.stop != NotStopped
    case LoopLock(_) => s.loop == LoopLocking && s.mutex.None?
    case BodyVisit => s.mutex.Some? && s.mutex.value.cycle.Runs() && s.mutex.value.next < |s.mutex.value.cycle.visits|
    case BodyFinish =>
      s.mutex.Some? && (s.mutex.value.cycle.Runs() ==> s.mutex.value.next >= |s.mutex.value.cycle.visits|)
    case Call(t) => t !in s.calls
    case CallLock(t, _) => t in s.calls && s.calls[t] == CallLocking && s.mutex.None?
    case Signal(t) => t in s.calls && s.calls[t] == CallSignalling
    case Stop => s.stop == NotStopped
    case StopReturn => s.stop == StopWaiting && s.done
  }

  predicate SafeNames(s: Sys) {
    && WellNamed(s.state.world)
    && (s.mutex.Some? ==> ObjectNames(s.mutex.value.existing))
  }

  function Locked(s: Sys, owner: Owner, c: Cycle): Sys {
    s.(mutex := Some(Body(owner, c, s.state.world.services.Keys, 0)))
  }

  /** Leaving Sync: the cleanup, then the unlock and the owner's next statement. */
  function Finished(s: Sys): Sys
    requires SafeNames(s) && s.mutex.Some?
  {
    var b := s.mutex.value;
    var t := s.(
      state := if b.cycle.Runs()
               then Cleanup(s.state, b.existing - Names(b.cycle.visits), b.cycle.cleanup)
               else s.state,
      mutex := None,
      log := s.log + [b.cycle]);
    match b.owner
    case Loop => t.(loop := Selecting)
    case Caller(c) => t.(calls := t.calls[c := CallSignalling])
  }

  function Next(s: Sys, a: Action): Sys
    requires SafeNames(s) && Enabled(s, a)
  {
    match a
    case Tick => s.(tick := true)
    case SelectTick => s.(tick := false, loop := LoopLocking)
    case SelectReset => s.(tokens := s.tokens - 1, tick := false)   // ticker.Reset
    case SelectStop => s.(loop := Exited, done := true, tick := false)
    case LoopLock(c) => Locked(s, Loop, c).(loop := LoopSyncing)
    case BodyVisit =>
      var b := s.mutex.value;
      s.(state := VisitState(s.state, b.cycle.visits[b.next]), mutex := Some(b.(next := b.next + 1)))
    case BodyFinish => Finished(s)
    case Call(t) => s.(calls := s.calls[t := CallLocking])
    case CallLock(t, c) => Locked(s, Caller(t), c).(calls := s.calls[t := CallSyncing])
    case Signal(t) =>
      // select: send when there is room, otherwise the default branch; then return.
      s.(tokens := if s.tokens < RESET_CAPACITY then s.tokens + 1 else s.tokens, calls := s.calls - {t})
    case Stop => s.(stop := StopWaiting)
    case StopReturn => s.(stop := StopReturned)
  }

  // ---------- Interleavings ----------

  /** The state after a sequence of actions, if each is enabled in turn. */
  function Exec(s: Sys, actions: seq<Action>): (r: Option<Sys>)
    requires SafeNames(s)
    ensures r.Some? ==> SafeNames(r.value)
  {
    if actions == [] then Some(s)
    else
      var n := |actions| - 1;
      match Exec(s, actions[..n])
      case None => None
      case Some(p) =>
        if Enabled(p, actions[n]) then
          NextSafe(p, actions[n]);
          Some(Next(p, actions[n]))
        else None
  }

  lemma NextSafe(s: Sys, a: Action)
    requires SafeNames(s) && Enabled(s, a)
    ensures SafeNames(Next(s, a))
  {
    if a.BodyVisit? {
      VisitWellNamed(s.state, s.mutex.value.cycle.visits[s.mutex.value.next]);
      hide VisitState, WellNamed;
    }
  }

  /** What `Exec` makes of one more action. */
  function OneMore(r: Option<Sys>, a: Action): Option<Sys>
    requires r.Some? ==> SafeNames(r.value)
  {
    if r.Some? && Enabled(r.value, a) then Some(Next(r.value, a)) else None
  }

  lemma ExecOneMore(s: Sys, actions: seq<Action>, a: Action)
    requires SafeNames(s)
    ensures Exec(s, actions + [a]) == OneMore(Exec(s, actions), a)
  {
    hide Next, Enabled, SafeNames;
    assert (actions + [a])[..|actions|] == actions;
  }

  // ---------- Mutual exclusion, the token, and stopping ----------

  predicate Control(s: Sys) {
    // Whoever is in Sync holds the mutex, and only they.
    && (s.loop == LoopSyncing <==> s.mutex.Some? && s.mutex.value.owner == Loop)
    && (forall t <- s.calls :: s.calls[t] == CallSyncing <==> s.mutex.Some? && s.mutex.value.owner == Caller(t))
    && (s.mutex.Some? && s.mutex.value.owner.Caller? ==> s.mutex.value.owner.t in s.calls)
    && s.tokens <= RESET_CAPACITY
    && (s.done <==> s.loop == Exited)
    && (s.done ==> s.stop != NotStopped)
    && (s.stop == StopReturned ==> s.done)
  }

  lemma ControlStep(s: Sys, a: Action)
    requires SafeNames(s) && Enabled(s, a) && Control(s)
    ensures Control(Next(s, a))
  {
    match a {
      case LoopLock(_) => ControlLock(s, a);
      case CallLock(_, _) => ControlLock(s, a);
      case BodyVisit => hide VisitState, SafeNames;
      case BodyFinish => ControlFinish(s);
      case Call(_) => hide SafeNames;
      case Signal(_) => hide SafeNames;
      case _ => hide SafeNames;
    }
  }

  lemma ControlLock(s: Sys, a: Action)
    requires SafeNames(s) && Enabled(s, a) && Control(s) && (a.LoopLock? || a.CallLock?)
    ensures Control(Next(s, a))
  {
    hide SafeNames;
  }

  lemma ControlFinish(s: Sys)
    requires SafeNames(s) && s.mutex.Some? && Control(s)
    ensures Control(Finished(s))
  {
    hide SafeNames, Cleanup;
  }

  // ---------- Serial equivalence ----------

  /** Without a Sync in progress the state is that of the completed cycles run one after
      another; during one, it has advanced by the devices visited so far. */
  predicate Serial(init: State, s: Sys)
    requires WellNamed(init.world)
  {
    var base := Grace.Run(init, s.log);
    match s.mutex
    case None => s.state == base
    case Some(b) =>
      && b.existing == base.world.services.Keys
      && b.next <= |b.cycle.visits|
      && s.state == (if b.cycle.Runs() then VisitAll(base, b.cycle.visits[..b.next]) else base)
  }

  lemma SerialVisit(init: State, s: Sys)
    requires WellNamed(init.world) && SafeNames(s) && Enabled(s, BodyVisit) && Serial(init, s)
    ensures Serial(init, Next(s, BodyVisit))
  {
    hide Grace.Run, VisitState, WellNamed, ObjectNames;
    var b := s.mutex.value;
    var visits := b.cycle.visits;
    assert visits[..b.next + 1][..b.next] == visits[..b.next] && visits[..b.next + 1][b.next] == visits[b.next];
  }

  lemma SerialFinish(init: State, s: Sys)
    requires WellNamed(init.world) && SafeNames(s) && Enabled(s, BodyFinish) && Serial(init, s)
    ensures Serial(init, Next(s, BodyFinish))
  {
    hide Grace.Run, VisitAll, Cleanup, ObjectNames, WellNamed;
    var b := s.mutex.value;
    RunExtends(init, s.log, b.cycle);
    if b.cycle.Runs() { assert b.cycle.visits[..b.next] == b.cycle.visits; }
  }

  lemma RunExtends(init: State, log: seq<Cycle>, c: Cycle)
    requires WellNamed(init.world)
    ensures Grace.Run(init, log + [c]) == Sync(Grace.Run(init, log), c)
  {
    assert (log + [c])[..|log|] == log;
  }

  lemma SerialStep(init: State, s: Sys, a: Action)
    requires WellNamed(init.world) && SafeNames(s) && Enabled(s, a) && Serial(init, s)
    ensures Serial(init, Next(s, a))
  {
    match a {
      case BodyVisit => SerialVisit(init, s);
      case BodyFinish => SerialFinish(init, s);
      case LoopLock(c) => assert c.visits[..0] == [];
      case CallLock(_, c) => assert c.visits[..0] == [];
      case _ =>
    }
  }

  /** Every interleaving keeps both invariants. */
  lemma {:induction false} EveryInterleaving(init: State, actions: seq<Action>)
    requires WellNamed(init.world)
    ensures var r := Exec(Start(init), actions);
      r.Some? ==> Control(r.value) && Serial(init, r.value)
  {
    if actions != [] {
      var n := |actions| - 1;
      EveryInterleaving(init, actions[..n]);
      var p := Exec(Start(init), actions[..n]);
      assert actions == actions[..n] + [actions[n]];
      ExecOneMore(Start(init), actions[..n], actions[n]);
      if p.Some? && Enabled(p.value, actions[n]) {
        ControlStep(p.value, actions[n]);
        SerialStep(init, p.value, actions[n]);
      }
      hide Next, Enabled, Control, Serial;
    }
  }

  predicate LoopAction(a: Action) {
    a.SelectTick? || a.SelectReset? || a.SelectStop? || a.LoopLock?
  }

  /** At every point of every interleaving: at most one Sync body runs, the reset channel holds
      at most one token, and the state is that of whole cycles run in mutex order whenever
      none is in progress. */
  lemma SyncsAreExclusiveAndSerial(init: State, actions: seq<Action>)
    requires WellNamed(init.world) && Exec(Start(init), actions).Some?
    ensures var s := Exec(Start(init), actions).value;
      && (s.loop == LoopSyncing ==> forall t <- s.calls :: s.calls[t] != CallSyncing)
      && (forall t, u | t in s.calls && u in s.calls && s.calls[t] == s.calls[u] == CallSyncing :: t == u)
      && s.tokens <= RESET_CAPACITY
      && (s.mutex.None? ==> s.state == Grace.Run(init, s.log))
  {
    EveryInterleaving(init, actions);
  }

  /** Once Stop has returned the loop has exited, and in no continuation does it act again:
      any Sync that still runs belongs to a caller of TriggerSync. */
  lemma StoppedForGood(init: State, before: seq<Action>, after: seq<Action>)
    requires WellNamed(init.world) && Exec(Start(init), before).Some?
    requires Exec(Start(init), before).value.stop == StopReturned
    requires Exec(Exec(Start(init), before).value, after).Some?
    ensures Exec(Exec(Start(init), before).value, after).value.loop == Exited
    ensures forall a <- after :: !LoopAction(a) && a != Tick
  {
    EveryInterleaving(init, before);
    ExitedStaysExited(Exec(Start(init), before).value, after);
  }

  lemma ExitedStep(s: Sys, a: Action)
    requires SafeNames(s) && Enabled(s, a) && Control(s) && s.loop == Exited
    ensures !LoopAction(a) && a != Tick && Next(s, a).loop == Exited
  {
  }

  lemma {:induction false} ExitedStaysExited(s: Sys, after: seq<Action>)
    requires SafeNames(s) && Control(s) && s.loop == Exited && Exec(s, after).Some?
    ensures Control(Exec(s, after).value) && Exec(s, after).value.loop == Exited
    ensures forall a <- after :: !LoopAction(a) && a != Tick
  {
    if after != [] {
      var n := |after| - 1;
      assert after == after[..n] + [after[n]];
      ExecOneMore(s, after[..n], after[n]);
      ExitedStaysExited(s, after[..n]);
      var p := Exec(s, after[..n]).value;
      ControlStep(p, after[n]);
      ExitedStep(p, after[n]);
      hide Next, Enabled, Control, SafeNames;
    }
  }

  // ---------- TriggerSync never waits for the loop's select ----------

  /** The rest of the Sync body now running. */
  function RestOfBody(s: Sys): seq<Action> {
    if s.mutex.None? then [] else Visiting(VisitsLeft(s)) + [BodyFinish]
  }

  function VisitsLeft(s: Sys): nat
    requires s.mutex.Some?
  {
    var b := s.mutex.value;
    if b.cycle.Runs() && b.next < |b.cycle.visits| then |b.cycle.visits| - b.next else 0
  }

  lemma {:induction false} ExecAppend(s: Sys, first: seq<Action>, second: seq<Action>)
    requires SafeNames(s) && Exec(s, first).Some?
    ensures Exec(s, first + second) == Exec(Exec(s, first).value, second)
    decreases |second|
  {
    ExecNothing(Exec(s, first).value);
    hide Exec, OneMore, SafeNames, Next, Enabled;
    if second == [] {
      assert first + second == first;
    } else {
      var n := |second| - 1;
      var init, last := second[..n], second[n];
      SplitLast(first, second);
      ExecAppend(s, first, init);
      ExecOneMore(s, first + init, last);
      ExecOneMore(Exec(s, first).value, init, last);
    }
  }

  lemma ExecNothing(s: Sys)
    requires SafeNames(s)
    ensures Exec(s, []) == Some(s)
  {
  }

  lemma SplitLast(first: seq<Action>, second: seq<Action>)
    requires second != []
    ensures var n := |second| - 1;
      first + second == first + second[..n] + [second[n]] && second == second[..n] + [second[n]]
  {
  }

  function Visiting(k: nat): seq<Action> {
    seq(k, _ => BodyVisit)
  }

  /** `t` is `s` with `k` more devices visited. */
  ghost predicate Ahead(s: Sys, t: Sys, k: nat)
    requires s.mutex.Some?
  {
    t == s.(state := t.state, mutex := Some(s.mutex.value.(next := s.mutex.value.next + k)))
  }

  /** Visiting on, one step at a time. */
  lemma {:induction false} KeepVisiting(s: Sys, k: nat)
    requires SafeNames(s) && s.mutex.Some? && s.mutex.value.cycle.Runs()
    requires s.mutex.value.next + k <= |s.mutex.value.cycle.visits|
    ensures Exec(s, Visiting(k)).Some? && Ahead(s, Exec(s, Visiting(k)).value, k)
  {
    if k == 0 {
      assert Visiting(0) == [] && Exec(s, []) == Some(s);
    } else {
      assert Visiting(k) == Visiting(k - 1) + [BodyVisit];
      hide Exec, Visiting, SafeNames, Next, Enabled;
      KeepVisiting(s, k - 1);
      ExecOneMore(s, Visiting(k - 1), BodyVisit);
      VisitStep(s, Exec(s, Visiting(k - 1)).value, k - 1);
    }
  }

  lemma VisitStep(s: Sys, t: Sys, k: nat)
    requires SafeNames(t) && s.mutex.Some? && s.mutex.value.cycle.Runs()
    requires Ahead(s, t, k) && s.mutex.value.next + k < |s.mutex.value.cycle.visits|
    ensures Enabled(t, BodyVisit) && Ahead(s, Next(t, BodyVisit), k + 1)
  {
    hide VisitState, SafeNames;
  }

  lemma FinishStep(s: Sys)
    requires SafeNames(s) && s.mutex.Some?
    requires s.mutex.value.cycle.Runs() ==> s.mutex.value.next >= |s.mutex.value.cycle.visits|
    ensures Enabled(s, BodyFinish) && ReleasedFrom(s, Next(s, BodyFinish))
  {
    hide Cleanup, SafeNames;
  }

  predicate ReleasedFrom(s: Sys, t: Sys)
    requires s.mutex.Some?
  {
    && t.mutex.None?
    && t.calls == (match s.mutex.value.owner case Loop => s.calls case Caller(c) => s.calls[c := CallSignalling])
    && t.loop == (match s.mutex.value.owner case Loop => Selecting case Caller(_) => s.loop)
    && t.stop == s.stop && t.done == s.done && t.tokens == s.tokens
  }

  /** The mutex can always be released by its owner alone, which never blocks while holding it. */
  lemma BodyCanFinish(s: Sys)
    requires SafeNames(s) && s.mutex.Some?
    ensures Exec(s, RestOfBody(s)).Some? && ReleasedFrom(s, Exec(s, RestOfBody(s)).value)
  {
    var left := VisitsLeft(s);
    assert Visiting(0) == [] && Exec(s, []) == Some(s);
    hide Exec, SafeNames, Visiting, Next, Enabled;
    if left > 0 { KeepVisiting(s, left); }
    ExecOneMore(s, Visiting(left), BodyFinish);
    FinishStep(Exec(s, Visiting(left)).value);
  }

  /** No action of the loop's own, other than finishing a Sync body it is already in. */
  ghost predicate WithoutLoop(actions: seq<Action>) {
    forall a <- actions :: !LoopAction(a) && !a.Tick?
  }

  /** Takes the mutex to be free, if need be by letting its owner finish. */
  lemma MutexGetsFree(s: Sys) returns (t: Sys)
    requires SafeNames(s) && Control(s)
    ensures Exec(s, RestOfBody(s)) == Some(t) && SafeNames(t) && Control(t) && t.mutex.None?
    ensures s.mutex.Some? ==> ReleasedFrom(s, t)
    ensures s.mutex.None? ==> t == s
  {
    ExecNothing(s);
    if s.mutex.None? { return s; }
    BodyCanFinish(s);
    t := Exec(s, RestOfBody(s)).value;
    ReleasedControl(s, t);
  }

  lemma ReleasedControl(s: Sys, t: Sys)
    requires Control(s) && s.mutex.Some? && ReleasedFrom(s, t)
    ensures Control(t)
  {
  }

  lemma Extend(s: Sys, actions: seq<Action>, a: Action) returns (t: Sys)
    requires SafeNames(s) && Exec(s, actions).Some? && Enabled(Exec(s, actions).value, a)
    ensures Exec(s, actions + [a]) == Some(t) && SafeNames(t) && t == Next(Exec(s, actions).value, a)
  {
    ExecOneMore(s, actions, a);
    t := Next(Exec(s, actions).value, a);
    NextSafe(Exec(s, actions).value, a);
  }

  /** From every reachable state each pending call of TriggerSync can be brought to its return
      with no help from the loop: it waits for the mutex at most, never for the loop's select. */
  lemma TriggerSyncReturns(init: State, before: seq<Action>, t: nat, c: Cycle) returns (rest: seq<Action>)
    requires WellNamed(init.world) && Exec(Start(init), before).Some?
    requires t in Exec(Start(init), before).value.calls
    ensures WithoutLoop(rest)
    ensures var s := Exec(Start(init), before).value;
      Exec(s, rest).Some? && t !in Exec(s, rest).value.calls
  {
    EveryInterleaving(init, before);
    var s := Exec(Start(init), before).value;
    rest := CallReturns(s, t, c);
  }

  predicate WantsMutex(s: Sys, a: Action) {
    match a
    case LoopLock(_) => s.loop == LoopLocking
    case CallLock(t, _) => t in s.calls && s.calls[t] == CallLocking
    case _ => false
  }

  /** What taking the mutex, once free, changes. */
  lemma LockEffect(s: Sys, u: Sys, a: Action)
    requires SafeNames(u) && Control(s) && Control(u) && WantsMutex(s, a) && u.mutex.None?
    requires if s.mutex.Some? then ReleasedFrom(s, u) else u == s
    ensures Enabled(u, a) && Control(Next(u, a)) && Next(u, a).mutex.Some? && Next(u, a).stop == s.stop
    ensures a.LoopLock? ==> Next(u, a).mutex.value.owner == Loop
    ensures a.CallLock? ==> Next(u, a).mutex.value.owner == Caller(a.t)
  {
    ControlStep(u, a);
  }

  lemma Unlocked(s: Sys, v: Sys, t: Sys, a: Action)
    requires v.mutex.Some? && ReleasedFrom(v, t) && v.stop == s.stop
    requires a.LoopLock? ==> v.mutex.value.owner == Loop
    requires a.CallLock? ==> v.mutex.value.owner == Caller(a.t)
    ensures t.stop == s.stop
    ensures a.LoopLock? ==> t.loop == Selecting
    ensures a.CallLock? ==> a.t in t.calls && t.calls[a.t] == CallSignalling
  {
  }

  /** A goroutine waiting for the mutex can take it and run its Sync to the end. */
  lemma LockAndRun(s: Sys, a: Action) returns (rest: seq<Action>, t: Sys)
    requires SafeNames(s) && Control(s) && WantsMutex(s, a)
    ensures Exec(s, rest) == Some(t) && SafeNames(t) && Control(t) && t.stop == s.stop
    ensures a.LoopLock? ==> t.loop == Selecting
    ensures a.CallLock? ==> a.t in t.calls && t.calls[a.t] == CallSignalling
    ensures forall x <- rest :: x.BodyVisit? || x.BodyFinish? || x == a
  {
    hide Exec, SafeNames, Next, Enabled, Control;
    var u := MutexGetsFree(s);
    var first := RestOfBody(s);
    LockEffect(s, u, a);
    var v := Extend(s, first, a);
    t := MutexGetsFree(v);
    Unlocked(s, v, t, a);
    ExecAppend(s, first + [a], RestOfBody(v));
    rest := first + [a] + RestOfBody(v);
  }

  lemma ReachSignalling(s: Sys, t: nat, c: Cycle) returns (rest: seq<Action>, u: Sys)
    requires SafeNames(s) && Control(s) && t in s.calls
    ensures WithoutLoop(rest) && Exec(s, rest) == Some(u) && SafeNames(u)
    ensures t in u.calls && u.calls[t] == CallSignalling
  {
    ExecNothing(s);
    hide Exec, SafeNames;
    match s.calls[t] {
      case CallSignalling => rest, u := [], s;
      case CallSyncing => u := MutexGetsFree(s); rest := RestOfBody(s);
      case CallLocking => rest, u := LockAndRun(s, CallLock(t, c));
    }
  }

  lemma CallReturns(s: Sys, t: nat, c: Cycle) returns (rest: seq<Action>)
    requires SafeNames(s) && Control(s) && t in s.calls
    ensures WithoutLoop(rest) && Exec(s, rest).Some? && t !in Exec(s, rest).value.calls
  {
    var first, u := ReachSignalling(s, t, c);
    hide Exec, SafeNames;
    var w := Extend(s, first, Signal(t));
    rest := first + [Signal(t)];
  }

  /** Likewise Stop, once called, can be brought to its return without another tick or call. */
  lemma StopCanReturn(init: State, before: seq<Action>, c: Cycle) returns (rest: seq<Action>)
    requires WellNamed(init.world) && Exec(Start(init), before).Some?
    requires Exec(Start(init), before).value.stop == StopWaiting
    ensures forall a <- rest :: !a.Tick? && !a.Call?
    ensures var s := Exec(Start(init), before).value;
      Exec(s, rest).Some? && Exec(s, rest).value.stop == StopReturned
  {
    EveryInterleaving(init, before);
    rest := StopReturns(Exec(Start(init), before).value, c);
  }

  lemma ReachSelecting(s: Sys, c: Cycle) returns (rest: seq<Action>, u: Sys)
    requires SafeNames(s) && Control(s) && s.stop == StopWaiting && s.loop != Exited
    ensures forall a <- rest :: !a.Tick? && !a.Call?
    ensures Exec(s, rest) == Some(u) && SafeNames(u) && u.loop == Selecting && u.stop == StopWaiting
  {
    ExecNothing(s);
    hide Exec, SafeNames;
    match s.loop {
      case LoopSyncing => u := MutexGetsFree(s); rest := RestOfBody(s);
      case LoopLocking => rest, u := LockAndRun(s, LoopLock(c));
      case _ => rest, u := [], s;
    }
  }

  lemma StopReturns(s: Sys, c: Cycle) returns (rest: seq<Action>)
    requires SafeNames(s) && Control(s) && s.stop == StopWaiting
    ensures forall a <- rest :: !a.Tick? && !a.Call?
    ensures Exec(s, rest).Some? && Exec(s, rest).value.stop == StopReturned
  {
    ExecNothing(s);
    var u;
    rest, u := [], s;
    if s.loop != Exited {
      rest, u := ReachSelecting(s, c);
      hide Exec, SafeNames, Control;
      u := Extend(s, rest, SelectStop);
      rest := rest + [SelectStop];
    }
    assert u.done && u.stop == StopWaiting;
    hide Exec, SafeNames, Control;
    u := Extend(s, rest, StopReturn);
    rest := rest + [StopReturn];
  }
}

/** What the order of actions says of a run of the periodic reconciler's goroutines: which
    Sync each call and each tick has run (server/handlers/syncer.go). */
module SyncerHistory {
  import opened Wrappers
  import opened Cluster
  import opened Reconcile
  import opened SyncerLoop

  // ---------- Read off the actions alone ----------

  /** How far a goroutine has come: it has asked for a Sync, is in one, or has run one. */
  datatype Progress = Idle | Asking | Inside(cycle: Cycle) | Ran(cycle: Cycle)

  /** A call of TriggerSync; `Idle` before it and after it has returned. */
  function CallProgress(actions: seq<Action>, t: nat): Progress {
    if actions == [] then Idle
    else CallAdvances(CallProgress(actions[..|actions| - 1], t), actions[|actions| - 1], t)
  }

  function CallAdvances(before: Progress, a: Action, t: nat): Progress {
    match a
    case Call(u) => if u == t then Asking else before
    case CallLock(u, c) => if u == t then Inside(c) else before
    case BodyFinish => if before.Inside? then Ran(before.cycle) else before
    case Signal(u) => if u == t then Idle else before
    case _ => before
  }

  /** The loop; `Idle` whenever it selects. */
  function LoopProgress(actions: seq<Action>): Progress {
    if actions == [] then Idle
    else LoopAdvances(LoopProgress(actions[..|actions| - 1]), actions[|actions| - 1])
  }

  function LoopAdvances(before: Progress, a: Action): Progress {
    match a
    case SelectTick => Asking
    case LoopLock(c) => Inside(c)
    case BodyFinish => if before.Inside? then Idle else before
    case _ => before
  }

  predicate IsLock(a: Action) { a.LoopLock? || a.CallLock? }

  predicate IsSelect(a: Action) { a.SelectTick? || a.SelectReset? || a.SelectStop? }

  /** The cycles whose Sync has begun, in order. */
  function Begun(actions: seq<Action>): seq<Cycle> {
    if actions == [] then []
    else
      var last := actions[|actions| - 1];
      Begun(actions[..|actions| - 1]) + if IsLock(last) then [last.cycle] else []
  }

  /** A call has signalled and the loop has not reset its timer since. */
  predicate ResetPending(actions: seq<Action>) {
    actions != [] &&
    match actions[|actions| - 1]
    case Signal(_) => true
    case SelectReset => false
    case _ => ResetPending(actions[..|actions| - 1])
  }

  /** The ticker has fired since the loop last took a tick or reset it, and it has not stopped. */
  predicate TickPending(actions: seq<Action>) {
    actions != [] &&
    match actions[|actions| - 1]
    case Tick => true
    case SelectTick => false
    case SelectReset => false
    case SelectStop => false
    case _ => TickPending(actions[..|actions| - 1])
  }

  function Count(actions: seq<Action>, test: Action -> bool): nat {
    if actions == [] then 0
    else Count(actions[..|actions| - 1], test) + if test(actions[|actions| - 1]) then 1 else 0
  }

  // ---------- The state agrees with the actions ----------

  ghost predicate CallAgrees(s: Sys, t: nat, p: Progress) {
    match p
    case Idle => t !in s.calls
    case Asking => At(s.calls, t) == Some(CallLocking)
    case Inside(c) =>
      && At(s.calls, t) == Some(CallSyncing)
      && s.mutex.Some? && s.mutex.value.owner == Caller(t) && s.mutex.value.cycle == c
    case Ran(c) => At(s.calls, t) == Some(CallSignalling) && c in s.log
  }

  ghost predicate LoopAgrees(s: Sys, p: Progress) {
    match p
    case Idle => s.loop == Selecting || s.loop == Exited
    case Asking => s.loop == LoopLocking
    case Inside(c) => s.loop == LoopSyncing && s.mutex.Some? && s.mutex.value.owner == Loop && s.mutex.value.cycle == c
    case Ran(_) => false
  }

  ghost predicate LogAgrees(s: Sys, begun: seq<Cycle>) {
    begun == s.log + if s.mutex.Some? then [s.mutex.value.cycle] else []
  }

  ghost predicate Agrees(s: Sys, actions: seq<Action>) {
    && LoopAgrees(s, LoopProgress(actions))
    && LogAgrees(s, Begun(actions))
    && s.tokens == (if ResetPending(actions) then 1 else 0)
    && s.tick == TickPending(actions)
  }

  lemma CallStep(s: Sys, a: Action, t: nat, p: Progress)
    requires SafeNames(s) && Enabled(s, a) && Control(s) && CallAgrees(s, t, p)
    ensures CallAgrees(Next(s, a), t, CallAdvances(p, a, t))
  {
    match a {
      case BodyFinish => CallFinish(s, t, p);
      case LoopLock(_) => hide SafeNames;
      case CallLock(_, _) => hide SafeNames;
      case BodyVisit => hide SafeNames, VisitState;
      case _ => hide SafeNames, Control;
    }
  }

  lemma CallFinish(s: Sys, t: nat, p: Progress)
    requires SafeNames(s) && s.mutex.Some? && Control(s) && CallAgrees(s, t, p)
    ensures CallAgrees(Finished(s), t, CallAdvances(p, BodyFinish, t))
  {
    hide SafeNames, Cleanup;
    assert s.mutex.value.cycle in Finished(s).log;
  }

  lemma LoopStep(s: Sys, a: Action, p: Progress)
    requires SafeNames(s) && Enabled(s, a) && Control(s) && LoopAgrees(s, p)
    ensures LoopAgrees(Next(s, a), LoopAdvances(p, a))
  {
    hide SafeNames, VisitState, Cleanup;
  }

  lemma LogStep(s: Sys, a: Action, begun: seq<Cycle>)
    requires SafeNames(s) && Enabled(s, a) && LogAgrees(s, begun)
    ensures LogAgrees(Next(s, a), begun + if IsLock(a) then [a.cycle] else [])
  {
    hide SafeNames, VisitState, Cleanup;
  }

  lemma ChannelStep(s: Sys, a: Action)
    requires SafeNames(s) && Enabled(s, a) && s.tokens <= 1
    ensures Next(s, a).tokens == if a.Signal? then 1 else if a.SelectReset? then 0 else s.tokens
    ensures Next(s, a).tick == if a.Tick? then true else if IsSelect(a) then false else s.tick
  {
    hide SafeNames, VisitState, Cleanup;
  }

  lemma AgreesStep(s: Sys, actions: seq<Action>, a: Action)
    requires SafeNames(s) && Enabled(s, a) && Control(s) && Agrees(s, actions)
    ensures Agrees(Next(s, a), actions + [a])
  {
    hide SafeNames, Next, Enabled, Control, LoopAgrees, LogAgrees, LoopAdvances;
    assert (actions + [a])[..|actions|] == actions;
    LoopStep(s, a, LoopProgress(actions));
    LogStep(s, a, Begun(actions));
    ChannelStep(s, a);
  }

  /** In every interleaving: the loop and each call are where the actions say, the Syncs begun are
      those completed and the one in progress, the reset channel holds a token exactly when a
      signal is pending, and the ticker's channel a tick exactly when one is. */
  lemma {:induction false} StateAgrees(init: State, actions: seq<Action>)
    requires WellNamed(init.world)
    ensures var r := Exec(Start(init), actions);
      r.Some? ==> Agrees(r.value, actions) && forall t :: CallAgrees(r.value, t, CallProgress(actions, t))
  {
    if actions != [] {
      var n := |actions| - 1;
      var before, a := actions[..n], actions[n];
      StateAgrees(init, before);
      EveryInterleaving(init, before);
      var p := Exec(Start(init), before);
      assert actions == before + [a];
      ExecOneMore(Start(init), before, a);
      hide Next, Enabled, Control, Serial, Agrees, CallAgrees, CallProgress, SafeNames, Exec;
      if OneMore(p, a).Some? {
        AgreesStep(p.value, before, a);
        forall t ensures CallAgrees(Next(p.value, a), t, CallProgress(actions, t)) {
          CallStep(p.value, a, t, CallProgress(before, t));
          CallProgressGrows(before, a, t);
        }
      }
    }
  }

  lemma CallProgressGrows(actions: seq<Action>, a: Action, t: nat)
    ensures CallProgress(actions + [a], t) == CallAdvances(CallProgress(actions, t), a, t)
  {
    assert (actions + [a])[..|actions|] == actions;
  }

  // ---------- A call's progress, in positions ----------

  /** A call at i, its lock for a cycle at j, and at m the first end of a Sync body after that. */
  ghost predicate RanBetween(actions: seq<Action>, t: nat, c: Cycle, i: int, j: int, m: int) {
    && 0 <= i < j < m < |actions|
    && actions[i] == Call(t)
    && actions[j] == CallLock(t, c)
    && actions[m] == BodyFinish
    && (forall x :: j < x < m ==> actions[x] != BodyFinish && actions[x] != Call(t))
    && (forall x :: i < x < |actions| ==> actions[x] != Call(t) && actions[x] != Signal(t))
  }

  /** A call at i, not returned, and its lock at j, with no end of a Sync body since. */
  ghost predicate LockedAt(actions: seq<Action>, t: nat, c: Cycle, i: int, j: int) {
    && 0 <= i < j < |actions|
    && actions[i] == Call(t)
    && actions[j] == CallLock(t, c)
    && (forall x :: j < x < |actions| ==> actions[x] != BodyFinish)
    && (forall x :: i < x < |actions| ==> actions[x] != Call(t) && actions[x] != Signal(t))
  }

  ghost predicate CalledAt(actions: seq<Action>, t: nat, i: int) {
    && 0 <= i < |actions|
    && actions[i] == Call(t)
    && (forall x :: i < x < |actions| ==> actions[x] != Call(t) && actions[x] != Signal(t) && !LocksCall(actions[x], t))
  }

  predicate LocksCall(a: Action, t: nat) { a.CallLock? && a.t == t }

  /** What a call's progress means, in positions. */
  ghost predicate Means(actions: seq<Action>, t: nat, p: Progress) {
    match p
    case Idle => true
    case Asking => exists i :: CalledAt(actions, t, i)
    case Inside(c) => exists i, j :: LockedAt(actions, t, c, i, j)
    case Ran(c) => exists i, j, m :: RanBetween(actions, t, c, i, j, m)
  }

  /** In the order the state machine allows: a lock only while asking, a call only while idle. */
  ghost predicate Fits(actions: seq<Action>, a: Action, t: nat) {
    && (a == Call(t) ==> CallProgress(actions, t) == Idle)
    && (LocksCall(a, t) ==> CallProgress(actions, t) == Asking)
  }

  lemma MeansStep(actions: seq<Action>, a: Action, t: nat)
    requires Means(actions, t, CallProgress(actions, t)) && Fits(actions, a, t)
    ensures Means(actions + [a], t, CallProgress(actions + [a], t))
  {
    var more, n := actions + [a], |actions|;
    assert more[..n] == actions && more[n] == a;
    assert forall x :: 0 <= x < n ==> more[x] == actions[x];
    match CallProgress(actions, t) {
      case Idle => if a == Call(t) { assert CalledAt(more, t, n); }
      case Asking =>
        var i :| CalledAt(actions, t, i);
        if LocksCall(a, t) {
          assert LockedAt(more, t, a.cycle, i, n);
        } else if a != Signal(t) {
          assert CalledAt(more, t, i);
        }
      case Inside(c) =>
        var i, j :| LockedAt(actions, t, c, i, j);
        if a == BodyFinish {
          assert RanBetween(more, t, c, i, j, n);
        } else if a != Signal(t) {
          assert LockedAt(more, t, c, i, j);
        }
      case Ran(c) =>
        var i, j, m :| RanBetween(actions, t, c, i, j, m);
        if a != Signal(t) { assert RanBetween(more, t, c, i, j, m); }
    }
  }

  // ---------- Runs, one action at a time ----------

  ghost predicate Runs(init: State, actions: seq<Action>) {
    WellNamed(init.world) && Exec(Start(init), actions).Some?
  }

  ghost function After(init: State, actions: seq<Action>): (s: Sys)
    requires Runs(init, actions)
    ensures SafeNames(s)
  {
    Exec(Start(init), actions).value
  }

  /** The last action of a run is one its state allowed. */
  lemma LastAllowed(init: State, actions: seq<Action>)
    requires Runs(init, actions) && actions != []
    ensures var n := |actions| - 1;
      Runs(init, actions[..n]) && Allowed(After(init, actions[..n]), actions[n])
      && After(init, actions) == Next(After(init, actions[..n]), actions[n])
  {
    var n := |actions| - 1;
    assert actions == actions[..n] + [actions[n]];
    hide Next, Enabled, SafeNames;
    ExecOneMore(Start(init), actions[..n], actions[n]);
  }

  ghost predicate Allowed(s: Sys, a: Action) {
    SafeNames(s) && Enabled(s, a)
  }

  /** What the agreement of state and actions allows next. */
  lemma AllowedFits(init: State, actions: seq<Action>, a: Action, t: nat)
    requires Runs(init, actions) && Allowed(After(init, actions), a)
    ensures Fits(actions, a, t)
    ensures a == Signal(t) ==>
      CallProgress(actions, t).Ran? && CallProgress(actions, t).cycle in After(init, actions).log
    ensures IsSelect(a) ==> LoopProgress(actions) == Idle
    ensures a.LoopLock? ==> LoopProgress(actions) == Asking
  {
    StateAgrees(init, actions);
    var s := After(init, actions);
    assert CallAgrees(s, t, CallProgress(actions, t)) && Agrees(s, actions);
    hide SafeNames, Exec, Begun, ResetPending, TickPending;
  }

  /** A prefix of a run is a run, with a prefix of its log. */
  lemma {:induction false} Prefix(init: State, actions: seq<Action>, k: nat)
    requires Runs(init, actions) && k <= |actions|
    ensures Runs(init, actions[..k]) && After(init, actions[..k]).log <= After(init, actions).log
    decreases |actions|
  {
    hide Runs, After, Next, Allowed;
    if k < |actions| {
      var n := |actions| - 1;
      assert actions[..n][..k] == actions[..k];
      LastAllowed(init, actions);
      Prefix(init, actions[..n], k);
      LogGrows(After(init, actions[..n]), actions[n]);
    } else {
      assert actions[..k] == actions;
    }
  }

  lemma LogGrows(s: Sys, a: Action)
    requires Allowed(s, a)
    ensures s.log <= Next(s, a).log
  {
    hide SafeNames, VisitState, Cleanup;
  }

  /** The action at any position was allowed by the run before it. */
  lemma AllowedAt(init: State, actions: seq<Action>, k: nat)
    requires Runs(init, actions) && k < |actions|
    ensures Runs(init, actions[..k]) && Allowed(After(init, actions[..k]), actions[k])
    ensures After(init, actions[..k]).log <= After(init, actions).log
  {
    hide Runs, After, Next, Allowed;
    Prefix(init, actions, k);
    Prefix(init, actions, k + 1);
    LastAllowed(init, actions[..k + 1]);
    assert actions[..k + 1][..k] == actions[..k];
  }

  // ---------- A call that returns has run its own Sync ----------

  lemma {:induction false} ProgressMeans(init: State, actions: seq<Action>, t: nat)
    requires Runs(init, actions)
    ensures Means(actions, t, CallProgress(actions, t))
  {
    hide Runs, After, Next, Allowed, Means, Fits;
    if actions == [] {
      NothingMeans(t);
    } else {
      var n := |actions| - 1;
      LastAllowed(init, actions);
      ProgressMeans(init, actions[..n], t);
      AllowedFits(init, actions[..n], actions[n], t);
      MeansStep(actions[..n], actions[n], t);
      assert actions == actions[..n] + [actions[n]];
    }
  }

  lemma NothingMeans(t: nat)
    ensures Means([], t, CallProgress([], t))
  {
  }

  /** Every return of TriggerSync comes after its own call, its own lock, and the end of the Sync
      it then ran, which is in the log. */
  lemma TriggerSyncRunsItsSync(init: State, actions: seq<Action>, k: nat, t: nat)
    requires Runs(init, actions) && k < |actions| && actions[k] == Signal(t)
    ensures exists c: Cycle, i, j, m :: RanBetween(actions[..k], t, c, i, j, m) && c in After(init, actions).log
  {
    var before := actions[..k];
    hide Runs, After, Allowed, CallProgress, RanBetween;
    AllowedAt(init, actions, k);
    AllowedFits(init, before, Signal(t), t);
    ProgressMeans(init, before, t);
    var c := CallProgress(before, t).cycle;
    var i, j, m :| RanBetween(before, t, c, i, j, m);
    assert c in After(init, actions).log;
  }

  // ---------- Every tick taken runs one Sync, and nothing else of the loop does ----------

  /** A Sync of the loop begins at l, after a. */
  ghost predicate LockAfter(actions: seq<Action>, a: nat, l: nat) {
    a < l < |actions| && actions[l].LoopLock?
  }

  /** And ends at m. */
  ghost predicate SyncAfter(actions: seq<Action>, a: nat, l: nat, m: nat) {
    LockAfter(actions, a, l) && l < m < |actions| && actions[m] == BodyFinish
  }

  /** After a tick taken at `a`, the loop's progress in positions. */
  ghost predicate TickMeans(actions: seq<Action>, a: nat, p: Progress) {
    match p
    case Idle => exists l: nat, m: nat :: SyncAfter(actions, a, l, m)
    case Asking => true
    case Inside(_) => exists l: nat :: LockAfter(actions, a, l)
    case Ran(_) => false
  }

  lemma TickMeansStep(actions: seq<Action>, x: Action, a: nat)
    requires a < |actions| && TickMeans(actions, a, LoopProgress(actions))
    ensures TickMeans(actions + [x], a, LoopProgress(actions + [x]))
  {
    var more, n := actions + [x], |actions|;
    assert more[..n] == actions && more[n] == x;
    assert forall i :: 0 <= i < n ==> more[i] == actions[i];
    match LoopProgress(actions) {
      case Idle =>
        var l: nat, m: nat :| SyncAfter(actions, a, l, m);
        assert SyncAfter(more, a, l, m);
      case Inside(_) =>
        var l: nat :| LockAfter(actions, a, l);
        assert LockAfter(more, a, l);
        if x == BodyFinish { assert SyncAfter(more, a, l, n); }
      case _ =>
    }
    if x.LoopLock? { assert LockAfter(more, a, n); }
  }

  lemma {:induction false} AfterTick(actions: seq<Action>, a: nat)
    requires a < |actions| && actions[a] == SelectTick
    ensures TickMeans(actions, a, LoopProgress(actions))
  {
    var n := |actions| - 1;
    if a < n {
      hide TickMeans, LoopProgress;
      assert actions == actions[..n] + [actions[n]];
      AfterTick(actions[..n], a);
      TickMeansStep(actions[..n], actions[n], a);
    }
  }

  /** Between a tick taken and the loop's next select, the loop runs a Sync to its end. */
  lemma TickRunsASync(init: State, actions: seq<Action>, a: nat, b: nat)
    requires Runs(init, actions)
    requires a < b < |actions| && actions[a] == SelectTick && IsSelect(actions[b])
    ensures exists l: nat, m: nat :: SyncAfter(actions[..b], a, l, m)
  {
    hide Runs, After, Allowed, LoopProgress;
    AllowedAt(init, actions, b);
    AllowedFits(init, actions[..b], actions[b], 0);
    AfterTick(actions[..b], a);
  }

  /** The loop begins a Sync for each tick it takes and for nothing else, at most one behind. */
  lemma {:induction false} SyncsPerTick(init: State, actions: seq<Action>)
    requires Runs(init, actions)
    ensures Count(actions, (a: Action) => a.SelectTick?) ==
      Count(actions, (a: Action) => a.LoopLock?) + if LoopProgress(actions).Asking? then 1 else 0
  {
    hide Runs, After, Allowed, Next;
    if actions != [] {
      var n := |actions| - 1;
      LastAllowed(init, actions);
      SyncsPerTick(init, actions[..n]);
      AllowedFits(init, actions[..n], actions[n], 0);
    }
  }

  /** The Syncs completed are, in order, those begun by locks of the loop and of calls, save the
      one in progress. */
  lemma LogIsSyncsBegun(init: State, actions: seq<Action>)
    requires Runs(init, actions)
    ensures var s := After(init, actions);
      s.log <= Begun(actions) && |Begun(actions)| == |s.log| + if s.mutex.Some? then 1 else 0
  {
    StateAgrees(init, actions);
  }

  // ---------- A call that returns resets the timer ----------

  /** A TriggerSync that has returned leaves a reset for the loop: the channel holds its token
      until the loop takes it, and taking it clears the tick that was waiting. */
  lemma TriggerSyncResetsTimer(init: State, actions: seq<Action>, k: nat)
    requires Runs(init, actions) && k < |actions| && actions[k].Signal?
    requires forall x :: k < x < |actions| ==> actions[x] != SelectReset
    ensures var s := After(init, actions);
      && s.tokens == 1
      && (s.loop == Selecting ==> Enabled(s, SelectReset))
      && (Enabled(s, SelectReset) ==> Next(s, SelectReset).tokens == 0 && !Next(s, SelectReset).tick)
  {
    StateAgrees(init, actions);
    SignalStays(actions, k);
  }

  lemma {:induction false} SignalStays(actions: seq<Action>, k: nat)
    requires k < |actions| && actions[k].Signal?
    requires forall x :: k < x < |actions| ==> actions[x] != SelectReset
    ensures ResetPending(actions)
  {
    var n := |actions| - 1;
    if k < n {
      assert actions[..n][k] == actions[k];
      SignalStays(actions[..n], k);
    }
  }
}

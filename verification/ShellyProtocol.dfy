/** The Shelly server's connections and RPC calls, as one state machine whose steps are the
    stretches of code between two awaits (exporter/shelly_server.py). */
module ShellyProtocol {
  import opened Wrappers

  // ---------- Messages ----------

  /** A hashable JSON value; also a device id or a request id. */
  type Key = string

  type Socket = nat

  /** What looking a field up in a decoded message yields: some values are not hashable, some
      are false in a condition, and on a message that is no object the test itself may raise. */
  datatype Field = Missing | Raises | Scalar(key: Key, truthy: bool) | Compound(truthy: bool)

  /** `Skipped`: not JSON, or a value that is false in a condition. */
  datatype Message = Skipped | Msg(src: Field, id: Field, body: string)

  // ---------- State ----------

  /** What a connection's handler knows of its device. */
  datatype Identity = Unidentified | Named(device: Key) | Unnameable

  datatype Handler = Handler(fallback: Key, identity: Identity)

  datatype FutureState = Pending | Result(message: Message) | Cancelled

  datatype CallState = Sending | Waiting | Returned(message: Message) | TimedOut | SendError | Aborted {
    predicate InFlight() { Sending? || Waiting? }
  }

  datatype Shelly = Shelly(
    connections: map<Key, Socket>,
    handlers: map<Socket, Handler>,      // one per open connection
    pending: map<Key, FutureState>,
    calls: map<Key, CallState>)          // every send_rpc_request so far, by its request id

  const INITIAL := Shelly(map[], map[], map[], map[])

  // ---------- Steps ----------

  datatype Event =
    | Open(w: Socket, fallback: Key)
    | Receive(w: Socket, m: Message)
    | Close(w: Socket)
    | Begin(id: Key)
    | Sent(id: Key)
    | SendFails(id: Key)
    | TimerFires(id: Key)
    | Resume(id: Key)
    | Cancel(id: Key)

  predicate Enabled(s: Shelly, e: Event) {
    match e
    case Open(w, _) => w !in s.handlers
    case Receive(w, _) => w in s.handlers
    case Close(w) => w in s.handlers
    case Begin(id) => id !in s.calls                     // a fresh UUID
    case Sent(id) => At(s.calls, id) == Some(Sending)
    case SendFails(id) => At(s.calls, id) == Some(Sending)
    case TimerFires(id) => At(s.calls, id) == Some(Waiting) && At(s.pending, id) == Some(Pending)
    case Resume(id) => At(s.calls, id) == Some(Waiting) && id in s.pending && s.pending[id] != Pending
    case Cancel(id) => id in s.calls && s.calls[id].InFlight()
  }

  /** dispatch_rpc_response: whether the message answers a pending request, and its effect. */
  function Dispatch(pending: map<Key, FutureState>, m: Message): (map<Key, FutureState>, bool)
    requires m.Msg?
  {
    if m.id.Scalar? && m.id.key in pending then
      (if pending[m.id.key].Pending? then pending[m.id.key := Result(m)] else pending, true)
    else (pending, false)
  }

  /** The identity a message gives, if its source can be looked up at all. */
  function Identify(h: Handler, m: Message): Option<Identity>
    requires m.Msg?
  {
    match m.src
    case Raises => None
    case Missing => Some(Named(h.fallback))
    case Scalar(k, truthy) => Some(if truthy then Named(k) else Unidentified)
    case Compound(truthy) => Some(if truthy then Unnameable else Unidentified)
  }

  /** Whether a message gets as far as being dispatched. */
  predicate Dispatched(h: Handler, m: Message) {
    && m.Msg?
    && (h.identity.Unidentified? ==> Identify(h, m).Some? && Identify(h, m) != Some(Unnameable))
  }

  function ReceiveStep(s: Shelly, w: Socket, m: Message): Shelly
    requires w in s.handlers
  {
    var h := s.handlers[w];
    if m.Skipped? then s
    else
      var t := if h.identity.Unidentified? && Identify(h, m).Some? then Identified(s, w, Identify(h, m).value) else s;
      if Dispatched(h, m) then t.(pending := Dispatch(s.pending, m).0) else t
  }

  function Identified(s: Shelly, w: Socket, identity: Identity): Shelly
    requires w in s.handlers
  {
    var t := s.(handlers := s.handlers[w := s.handlers[w].(identity := identity)]);
    if identity.Named? then t.(connections := s.connections[identity.device := w]) else t
  }

  function End(s: Shelly, id: Key, outcome: CallState): Shelly {
    s.(pending := s.pending - {id}, calls := s.calls[id := outcome])
  }

  function Next(s: Shelly, e: Event): Shelly
    requires Enabled(s, e)
  {
    match e
    case Open(w, fallback) => s.(handlers := s.handlers[w := Handler(fallback, Unidentified)])
    case Receive(w, m) => ReceiveStep(s, w, m)
    case Close(w) =>
      var t := s.(handlers := s.handlers - {w});
      if s.handlers[w].identity.Named? then t.(connections := s.connections - {s.handlers[w].identity.device}) else t
    case Begin(id) => s.(pending := s.pending[id := Pending], calls := s.calls[id := Sending])
    case Sent(id) => s.(calls := s.calls[id := Waiting])
    case SendFails(id) => End(s, id, SendError)
    case TimerFires(id) => s.(pending := s.pending[id := Cancelled])
    case Resume(id) => End(s, id, if s.pending[id].Result? then Returned(s.pending[id].message) else TimedOut)
    case Cancel(id) => End(s, id, Aborted)
  }

  ghost predicate IsRun(states: seq<Shelly>, events: seq<Event>) {
    && |states| == |events| + 1
    && states[0] == INITIAL
    && forall i :: 0 <= i < |events| ==> Enabled(states[i], events[i]) && states[i + 1] == Next(states[i], events[i])
  }

  // ---------- Correlation: what every step keeps ----------

  predicate Answers(m: Message, id: Key) {
    m.Msg? && m.id.Scalar? && m.id.key == id
  }

  predicate Correlated(s: Shelly) {
    // Exactly the calls in flight have an entry in the table.
    && s.pending.Keys == (set id <- s.calls | s.calls[id].InFlight())
    // A result, pending or returned, carries the request's own id.
    && (forall id <- s.pending :: s.pending[id].Result? ==> Answers(s.pending[id].message, id))
    && (forall id <- s.calls :: s.calls[id].Returned? ==> Answers(s.calls[id].message, id))
    // A future is cancelled only by the timeout of a call that waits.
    && (forall id <- s.pending :: s.pending[id].Cancelled? ==> s.calls[id].Waiting?)
  }

  lemma CorrelatedStep(s: Shelly, e: Event)
    requires Enabled(s, e) && Correlated(s)
    ensures Correlated(Next(s, e))
  {
    match e {
      case Receive(w, m) => CorrelatedReceive(s, w, m);
      case SendFails(id) => CorrelatedEnd(s, id, SendError);
      case Resume(id) =>
        CorrelatedEnd(s, id, if s.pending[id].Result? then Returned(s.pending[id].message) else TimedOut);
      case Cancel(id) => CorrelatedEnd(s, id, Aborted);
      case _ =>
    }
  }

  lemma CorrelatedReceive(s: Shelly, w: Socket, m: Message)
    requires w in s.handlers && Correlated(s)
    ensures Correlated(ReceiveStep(s, w, m))
  {
    hide Identify, Identified;
    var t := ReceiveStep(s, w, m);
    assert t.calls == s.calls && (t.pending == s.pending || (m.Msg? && t.pending == Dispatch(s.pending, m).0)) by {
      SameCalls(s, w, m);
    }
  }

  lemma SameCalls(s: Shelly, w: Socket, m: Message)
    requires w in s.handlers
    ensures ReceiveStep(s, w, m).calls == s.calls
    ensures ReceiveStep(s, w, m).pending == s.pending ||
      (m.Msg? && ReceiveStep(s, w, m).pending == Dispatch(s.pending, m).0)
  {
  }

  lemma CorrelatedEnd(s: Shelly, id: Key, outcome: CallState)
    requires Correlated(s) && !outcome.InFlight()
    requires outcome.Returned? ==> Answers(outcome.message, id)
    ensures Correlated(End(s, id, outcome))
  {
  }

  lemma {:induction false} CorrelatedRun(states: seq<Shelly>, events: seq<Event>, n: nat)
    requires IsRun(states, events) && n < |states|
    ensures Correlated(states[n])
  {
    if n > 0 {
      CorrelatedRun(states, events, n - 1);
      CorrelatedStep(states[n - 1], events[n - 1]);
    }
  }

  /** A future that has its result, or is cancelled, never changes again while its call lives,
      and an ended call never changes at all: each future is completed at most once. */
  lemma SettledOnce(s: Shelly, e: Event, id: Key)
    requires Enabled(s, e) && Correlated(s)
    ensures id in s.pending && s.pending[id] != Pending && id in Next(s, e).pending ==>
      Next(s, e).pending[id] == s.pending[id]
    ensures id in s.calls && !s.calls[id].InFlight() ==>
      At(Next(s, e).calls, id) == At(s.calls, id) && id !in Next(s, e).pending
  {
  }

  /** Over every run: a future that has its result, or is cancelled, stays as it is until its
      call has ended, and an ended call stays ended, with the same outcome and no future. */
  lemma {:induction false} SettledForGood(states: seq<Shelly>, events: seq<Event>, i: nat, j: nat, id: Key)
    requires IsRun(states, events) && i <= j < |states|
    ensures id in states[i].pending && states[i].pending[id] != Pending ==>
      && id in states[j].calls
      && (states[j].calls[id].InFlight() ==> At(states[j].pending, id) == At(states[i].pending, id))
    ensures id in states[i].calls && !states[i].calls[id].InFlight() ==>
      At(states[j].calls, id) == At(states[i].calls, id) && id !in states[j].pending
  {
    CorrelatedRun(states, events, i);
    CorrelatedRun(states, events, j);
    if i < j {
      SettledForGood(states, events, i, j - 1, id);
      CorrelatedRun(states, events, j - 1);
      SettledOnce(states[j - 1], events[j - 1], id);
      CallsStay(states[j - 1], events[j - 1], id);
      assert states[j] == Next(states[j - 1], events[j - 1]);
      hide Next, Enabled, IsRun;
    }
  }

  lemma CallsStay(s: Shelly, e: Event, id: Key)
    requires Enabled(s, e)
    ensures id in s.calls ==> id in Next(s, e).calls
  {
  }

  // ---------- Correlation: which message a call returns ----------

  /** Naming the device by this source raises: looking it up does, or it cannot be registered. */
  predicate Unusable(src: Field) {
    src.Raises? || (src.Compound? && src.truthy)
  }

  /** The event brings a message with this id, on an open connection, and nothing raises before it
      is compared with the pending requests: only a connection that has not identified itself yet
      looks at the source. */
  predicate Delivers(s: Shelly, e: Event, id: Key) {
    && e.Receive? && e.w in s.handlers && Answers(e.m, id)
    && (s.handlers[e.w].identity == Unidentified ==> !Unusable(e.m.src))
  }

  /** A reply to a pending request completes it, on whatever connection it is delivered, unless
      its source is unusable on a connection not yet identified; then nothing changes but, at
      most, that connection's identity. */
  lemma RepliesAreDelivered(s: Shelly, w: Socket, m: Message, id: Key)
    requires w in s.handlers && Answers(m, id) && At(s.pending, id) == Some(Pending)
    ensures var n := Next(s, Receive(w, m));
      if Delivers(s, Receive(w, m), id)
      then n.pending == s.pending[id := Result(m)] && n.calls == s.calls
      else n.pending == s.pending && n.calls == s.calls && n.connections == s.connections
  {
  }

  /** The first usable source names the connection: its own value, or without one the address the
      connection came from; later messages do not. */
  lemma SourcesNameConnections(s: Shelly, w: Socket, m: Message)
    requires w in s.handlers && m.Msg?
    ensures var n, h := Next(s, Receive(w, m)), s.handlers[w];
      && n.handlers.Keys == s.handlers.Keys
      && (h.identity != Unidentified ==> n.handlers == s.handlers && n.connections == s.connections)
      && (h.identity == Unidentified && m.src.Missing? ==>
            n.handlers[w].identity == Named(h.fallback) && n.connections == s.connections[h.fallback := w])
      && (h.identity == Unidentified && m.src.Scalar? && m.src.truthy ==>
            n.handlers[w].identity == Named(m.src.key) && n.connections == s.connections[m.src.key := w])
      && (h.identity == Unidentified && (m.src.Raises? || ((m.src.Scalar? || m.src.Compound?) && !m.src.truthy)) ==>
            n.handlers[w].identity == Unidentified && n.connections == s.connections)
      && (h.identity == Unidentified && m.src.Compound? && m.src.truthy ==>
            n.handlers[w].identity == Unnameable && n.connections == s.connections)
      && forall v <- s.handlers | v != w :: n.handlers[v] == s.handlers[v]
  {
    hide Dispatch, Dispatched;
    var h := s.handlers[w];
    assert Next(s, Receive(w, m)) == ReceiveStep(s, w, m);
    if h.identity == Unidentified && Identify(h, m).Some? {
      var t := Identified(s, w, Identify(h, m).value);
      assert ReceiveStep(s, w, m).handlers == t.handlers && ReceiveStep(s, w, m).connections == t.connections;
    }
  }

  /** The first message with the call's id delivered after the call began, on any connection. */
  function FirstReply(states: seq<Shelly>, events: seq<Event>, n: nat, id: Key): Option<Message>
    requires n <= |events| < |states|
  {
    if n == 0 then None
    else
      var before := FirstReply(states, events, n - 1, id);
      if before.None? && id in states[n - 1].calls && Delivers(states[n - 1], events[n - 1], id)
      then Some(events[n - 1].m)
      else before
  }

  /** The table follows the first reply, until the call times out. */
  predicate FollowsReplies(s: Shelly, id: Key, reply: Option<Message>) {
    && (id !in s.calls ==> reply == None)
    && (id in s.pending ==>
          s.pending[id] == Cancelled || s.pending[id] == (if reply.Some? then Result(reply.value) else Pending))
    && (id in s.calls && s.calls[id].Returned? ==> reply == Some(s.calls[id].message))
  }

  lemma FollowsStep(s: Shelly, e: Event, id: Key, reply: Option<Message>)
    requires Enabled(s, e) && Correlated(s) && FollowsReplies(s, id, reply)
    ensures FollowsReplies(Next(s, e), id,
      if reply.None? && id in s.calls && Delivers(s, e, id) then Some(e.m) else reply)
  {
  }

  /** Over every interleaving: a call that returns, returns the first message with its own id
      that was delivered after it began; a call in flight that has not timed out holds exactly
      that message, if there is one yet. */
  lemma {:induction false} CallsReturnFirstReply(states: seq<Shelly>, events: seq<Event>, n: nat, id: Key)
    requires IsRun(states, events) && n <= |events|
    ensures FollowsReplies(states[n], id, FirstReply(states, events, n, id))
  {
    if n > 0 {
      CallsReturnFirstReply(states, events, n - 1, id);
      CorrelatedRun(states, events, n - 1);
      FollowsStep(states[n - 1], events[n - 1], id, FirstReply(states, events, n - 1, id));
    }
  }

  /** A reply to a call that has ended, or was never made, is claimed by nobody: dispatching
      reports no match, and no future or call changes. */
  lemma LateReplyUnclaimed(s: Shelly, w: Socket, m: Message, id: Key)
    requires Correlated(s) && w in s.handlers && Answers(m, id)
    requires id in s.calls ==> !s.calls[id].InFlight()
    ensures !Dispatch(s.pending, m).1
    ensures Next(s, Receive(w, m)).pending == s.pending && Next(s, Receive(w, m)).calls == s.calls
  {
  }

  /** Between a timeout and the end of its call a reply is taken for an answer, yet lost. */
  lemma ReplyAfterTimeoutIsLost(s: Shelly, w: Socket, m: Message, id: Key)
    requires Correlated(s) && w in s.handlers && Answers(m, id) && At(s.pending, id) == Some(Cancelled)
    ensures Dispatch(s.pending, m) == (s.pending, true)
    ensures Enabled(s, Resume(id)) && Next(s, Resume(id)).calls[id] == TimedOut
  {
  }

  /** No call hangs: from every reachable state each call in flight can end, whatever the
      other side does, after at most three steps of its own. */
  lemma CallsCanEnd(states: seq<Shelly>, events: seq<Event>, n: nat, id: Key) returns (rest: seq<Event>)
    requires IsRun(states, events) && n < |states| && id in states[n].pending
    ensures |rest| <= 3 && (forall e <- rest :: e in {Sent(id), TimerFires(id), Resume(id)})
    ensures var r := Play(states[n], rest);
      && r.Some? && id !in r.value.pending
      && At(r.value.calls, id) == match FirstReply(states, events, n, id)
           case Some(m) => Some(if states[n].pending[id].Cancelled? then TimedOut else Returned(m))
           case None => Some(TimedOut)
  {
    CorrelatedRun(states, events, n);
    CallsReturnFirstReply(states, events, n, id);
    var s := states[n];
    if s.calls[id].Sending? {
      var t := Next(s, Sent(id));
      var more := WaitingCallEnds(t, id);
      rest := [Sent(id)] + more;
      assert rest[1..] == more;
    } else {
      rest := WaitingCallEnds(s, id);
    }
  }

  lemma WaitingCallEnds(s: Shelly, id: Key) returns (rest: seq<Event>)
    requires At(s.calls, id) == Some(Waiting) && id in s.pending
    ensures |rest| <= 2 && (forall e <- rest :: e in {Sent(id), TimerFires(id), Resume(id)})
    ensures var r := Play(s, rest);
      && r.Some? && id !in r.value.pending
      && At(r.value.calls, id) == Some(if s.pending[id].Result? then Returned(s.pending[id].message) else TimedOut)
  {
    var t := s;
    if s.pending[id].Pending? { t := Next(s, TimerFires(id)); }
    var u := Next(t, Resume(id));
    assert Play(u, []) == Some(u);
    assert Play(t, [Resume(id)]) == Some(u);
    rest := if s.pending[id].Pending? then [TimerFires(id), Resume(id)] else [Resume(id)];
    assert [TimerFires(id), Resume(id)][1..] == [Resume(id)];
  }

  function Play(s: Shelly, events: seq<Event>): Option<Shelly>
    decreases |events|
  {
    if events == [] then Some(s)
    else if Enabled(s, events[0]) then Play(Next(s, events[0]), events[1..])
    else None
  }

  // ---------- The registry ----------

  /** A registered connection is open and has identified itself as that device. */
  predicate RegisteredIsLive(s: Shelly) {
    forall d <- s.connections ::
      s.connections[d] in s.handlers && s.handlers[s.connections[d]].identity == Named(d)
  }

  /** A device is registered on a connection exactly when that connection is open and has
      identified itself as the device. */
  predicate Agreement(s: Shelly) {
    && RegisteredIsLive(s)
    && forall w <- s.handlers :: s.handlers[w].identity.Named? ==>
         At(s.connections, s.handlers[w].identity.device) == Some(w)
  }

  /** No two open connections have identified themselves as the same device. */
  predicate OneConnectionEach(s: Shelly) {
    forall v <- s.handlers, w <- s.handlers |
      s.handlers[v].identity.Named? && s.handlers[v].identity == s.handlers[w].identity :: v == w
  }

  /** In every run at all, whatever the connections say. */
  lemma {:induction false} RegisteredIsAlwaysLive(states: seq<Shelly>, events: seq<Event>, n: nat)
    requires IsRun(states, events) && n < |states|
    ensures RegisteredIsLive(states[n])
  {
    if n > 0 {
      RegisteredIsAlwaysLive(states, events, n - 1);
      LiveStep(states[n - 1], events[n - 1]);
    }
  }

  lemma LiveStep(s: Shelly, e: Event)
    requires Enabled(s, e) && RegisteredIsLive(s)
    ensures RegisteredIsLive(Next(s, e))
  {
  }

  lemma AgreementStep(s: Shelly, e: Event)
    requires Enabled(s, e) && Agreement(s) && OneConnectionEach(Next(s, e))
    ensures Agreement(Next(s, e))
  {
    LiveStep(s, e);
    if e.Receive? { AgreementOnReceive(s, e.w, e.m); }
  }

  lemma AgreementOnReceive(s: Shelly, w: Socket, m: Message)
    requires w in s.handlers && Agreement(s) && OneConnectionEach(ReceiveStep(s, w, m))
    ensures Agreement(ReceiveStep(s, w, m))
  {
    LiveStep(s, Receive(w, m));
    var t := ReceiveStep(s, w, m);
    hide Dispatch, Identify, Dispatched;
    forall v <- t.handlers | t.handlers[v].identity.Named?
      ensures At(t.connections, t.handlers[v].identity.device) == Some(v)
    {
      assert v != w ==> t.handlers[v] == s.handlers[v];
    }
  }

  lemma {:induction false} AgreementUpTo(states: seq<Shelly>, events: seq<Event>, n: nat)
    requires IsRun(states, events) && n < |states|
    requires forall i :: 0 <= i <= n ==> OneConnectionEach(states[i])
    ensures Agreement(states[n])
  {
    if n > 0 {
      AgreementUpTo(states, events, n - 1);
      assert states[n] == Next(states[n - 1], events[n - 1]) && OneConnectionEach(states[n]);
      hide Agreement, OneConnectionEach, Next, Enabled;
      AgreementStep(states[n - 1], events[n - 1]);
    }
  }

  /** The registry agrees with the connections throughout a run exactly when at no point of it
      two open connections claim the same device. */
  lemma RegistryAgreesIff(states: seq<Shelly>, events: seq<Event>)
    requires IsRun(states, events)
    ensures (forall i :: 0 <= i < |states| ==> Agreement(states[i]))
       <==> (forall i :: 0 <= i < |states| ==> OneConnectionEach(states[i]))
  {
    if forall i :: 0 <= i < |states| ==> OneConnectionEach(states[i]) {
      forall i | 0 <= i < |states| ensures Agreement(states[i]) {
        AgreementUpTo(states, events, i);
      }
    }
  }

  /** unregister goes by device id: when a device reconnects before its old connection is
      closed, closing the old one drops the entry of the new one, which stays open. */
  lemma StaleHandlerDropsNewEntry(d: Key, m: Message)
    requires m.Msg? && m.src == Scalar(d, true)
    ensures var r := Play(INITIAL, [Open(1, "a"), Receive(1, m), Open(2, "a"), Receive(2, m), Close(1)]);
      r.Some? && r.value.handlers == map[2 := Handler("a", Named(d))] && d !in r.value.connections
  {
    var s1 := Next(INITIAL, Open(1, "a"));
    var s2 := Next(s1, Receive(1, m));
    var s3 := Next(s2, Open(2, "a"));
    var s4 := Next(s3, Receive(2, m));
    var s5 := Next(s4, Close(1));
    assert Play(s4, [Close(1)]) == Some(s5);
    assert Play(s3, [Receive(2, m), Close(1)]) == Some(s5);
    assert Play(s2, [Open(2, "a"), Receive(2, m), Close(1)]) == Some(s5);
    assert Play(s1, [Receive(1, m), Open(2, "a"), Receive(2, m), Close(1)]) == Some(s5);
  }
}

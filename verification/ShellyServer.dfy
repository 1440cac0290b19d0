/** The server's classes, each method one uninterrupted stretch of a coroutine, proved against
    the steps of the protocol (exporter/shelly_server.py). */
module ShellyServer {
  import opened Wrappers
  import opened ShellyProtocol

  class Future {
    var state: FutureState

    constructor ()
      ensures state == Pending
    {
      state := Pending;
    }
  }

  class ConnectionRegistry {
    var connections: map<Key, Socket>

    constructor ()
      ensures connections == map[]
    {
      connections := map[];
    }

    method Register(device: Key, w: Socket)
      modifies this
      ensures connections == old(connections)[device := w]
    {
      connections := connections[device := w];
    }

    method Unregister(device: Key)
      modifies this
      ensures connections == old(connections) - {device}
    {
      if device in connections {
        connections := connections - {device};
      }
    }

    method GetAllDevices() returns (devices: seq<Key>)
      ensures IsListing(devices, connections.Keys)
    {
      devices := [];
      var rest := connections.Keys;
      ghost var done: set<Key> := {};
      while rest != {}
        invariant rest <= connections.Keys && done == connections.Keys - rest && IsListing(devices, done)
        decreases rest
      {
        var d :| d in rest;
        TakeOne(connections.Keys, rest, done, d);
        ListingGrows(devices, done, d);
        devices, rest, done := devices + [d], rest - {d}, done + {d};
      }
      assert done == connections.Keys;
    }

    method GetConnection(device: Key) returns (w: Option<Socket>)
      ensures w == At(connections, device)
    {
      return if device in connections then Some(connections[device]) else None;
    }
  }

  class WebSocketHandler {
    const registry: ConnectionRegistry
    var pendingRequests: map<Key, Future>
    // The suspended coroutines: one handle_connection per open socket, one send_rpc_request per call.
    var handlers: map<Socket, Handler>
    var calls: map<Key, CallState>

    ghost predicate Valid()
      reads this, registry, pendingRequests.Values
    {
      DistinctFutures() && Correlated(View())
    }

    ghost predicate DistinctFutures()
      reads this
    {
      forall i <- pendingRequests, j <- pendingRequests :: pendingRequests[i] == pendingRequests[j] ==> i == j
    }

    ghost function View(): Shelly
      reads this, registry, pendingRequests.Values
    {
      Shelly(registry.connections, handlers, map id <- pendingRequests :: pendingRequests[id].state, calls)
    }

    constructor (registry: ConnectionRegistry)
      requires registry.connections == map[]
      ensures this.registry == registry && Valid() && View() == INITIAL
    {
      this.registry := registry;
      pendingRequests, handlers, calls := map[], map[], map[];
    }

    method Connected(w: Socket, fallback: Key)
      requires Valid() && Enabled(View(), Open(w, fallback))
      modifies this
      ensures Valid() && View() == Next(old(View()), Open(w, fallback))
      ensures pendingRequests == old(pendingRequests)
    {
      ghost var before := View();
      handlers := handlers[w := Handler(fallback, Unidentified)];
      assert View() == Next(before, Open(w, fallback));
      hide Correlated;
      CorrelatedStep(before, Open(w, fallback));
    }

    /** One turn of the receiving loop. */
    method HandleMessage(w: Socket, m: Message)
      requires Valid() && Enabled(View(), Receive(w, m))
      modifies this, registry, pendingRequests.Values
      ensures Valid() && View() == Next(old(View()), Receive(w, m))
      ensures pendingRequests == old(pendingRequests)
    {
      ghost var before := View();
      CorrelatedStep(before, Receive(w, m));
      assert Next(before, Receive(w, m)) == ReceiveStep(before, w, m);
      hide Correlated, Next, Enabled, Dispatch, Identify;
      if m.Skipped? { return; }
      var proceed := IdentifySender(w, m);
      if proceed {
        var _ := DispatchRpcResponse(m);
      }
    }

    /** The first messages of a connection name its device; false when naming it raised. */
    method IdentifySender(w: Socket, m: Message) returns (proceed: bool)
      requires m.Msg? && w in handlers
      modifies this`handlers, registry
      ensures proceed <==> Dispatched(old(handlers[w]), m)
      ensures var h := old(handlers[w]);
        View() == if h.identity.Unidentified? && Identify(h, m).Some?
                  then Identified(old(View()), w, Identify(h, m).value) else old(View())
    {
      var h := handlers[w];
      if !h.identity.Unidentified? { return true; }
      var identity := Identify(h, m);
      if identity.None? { return false; }                 // the lookup raised
      handlers := handlers[w := h.(identity := identity.value)];
      if identity.value.Named? {
        registry.Register(identity.value.device, w);
      }
      return !identity.value.Unnameable?;                 // registering it would raise
    }

    method DispatchRpcResponse(m: Message) returns (matched: bool)
      requires m.Msg?
      requires DistinctFutures()
      modifies pendingRequests.Values
      ensures (View().pending, matched) == Dispatch(old(View().pending), m)
    {
      if m.id.Scalar? && m.id.key in pendingRequests {
        var future := pendingRequests[m.id.key];
        if future.state.Pending? {
          ghost var before := View().pending;
          future.state := Result(m);
          assert View().pending == before[m.id.key := Result(m)];
        }
        return true;
      }
      return false;
    }

    method Disconnected(w: Socket)
      requires Valid() && Enabled(View(), Close(w))
      modifies this, registry
      ensures Valid() && View() == Next(old(View()), Close(w))
      ensures pendingRequests == old(pendingRequests)
    {
      ghost var before := View();
      hide Correlated;
      CorrelatedStep(before, Close(w));
      var identity := handlers[w].identity;
      handlers := handlers - {w};
      if identity.Named? {
        registry.Unregister(identity.device);
      }
      assert View() == Next(before, Close(w));
    }

    /** send_rpc_request up to its first await. */
    method BeginRequest(id: Key)
      requires Valid() && Enabled(View(), Begin(id))
      modifies this
      ensures Valid() && View() == Next(old(View()), Begin(id))
      ensures fresh(pendingRequests.Values - old(pendingRequests.Values))
    {
      ghost var before := View();
      hide Correlated;
      CorrelatedStep(before, Begin(id));
      AddFuture(id);
      calls := calls[id := Sending];
      assert View() == Next(before, Begin(id));
    }

    method AddFuture(id: Key)
      requires DistinctFutures()
      modifies this`pendingRequests
      ensures DistinctFutures() && View() == old(View()).(pending := old(View()).pending[id := Pending])
      ensures fresh(pendingRequests.Values - old(pendingRequests.Values))
    {
      ghost var before := View().pending;
      var future := new Future();
      pendingRequests := pendingRequests[id := future];
      assert View().pending == before[id := Pending];
    }

    method RequestSent(id: Key)
      requires Valid() && Enabled(View(), Sent(id))
      modifies this
      ensures Valid() && View() == Next(old(View()), Sent(id))
      ensures pendingRequests == old(pendingRequests)
    {
      ghost var before := View();
      hide Correlated;
      CorrelatedStep(before, Sent(id));
      calls := calls[id := Waiting];
      assert View() == Next(before, Sent(id));
    }

    /** wait_for gives up: it cancels the future it waits for. */
    method TimeOut(id: Key)
      requires Valid() && Enabled(View(), TimerFires(id))
      modifies pendingRequests.Values
      ensures Valid() && View() == Next(old(View()), TimerFires(id))
    {
      ghost var before := View();
      hide Correlated;
      CorrelatedStep(before, TimerFires(id));
      pendingRequests[id].state := Cancelled;
      assert View().pending == Next(before, TimerFires(id)).pending;
      assert View() == Next(before, TimerFires(id));
    }

    /** The call wakes up; its finally clause takes it off the table in every case. */
    method Wake(id: Key) returns (outcome: CallState)
      requires Valid() && Enabled(View(), Resume(id))
      modifies this
      ensures Valid() && View() == Next(old(View()), Resume(id))
      ensures outcome == calls[id] && (outcome.Returned? || outcome.TimedOut?)
      ensures pendingRequests == old(pendingRequests) - {id}
    {
      ghost var before := View();
      CorrelatedStep(before, Resume(id));
      outcome := match pendingRequests[id].state
        case Result(m) => Returned(m)
        case _ => TimedOut;
      Finish(id, outcome);
    }

    method FailSend(id: Key)
      requires Valid() && Enabled(View(), SendFails(id))
      modifies this
      ensures Valid() && View() == Next(old(View()), SendFails(id))
    {
      CorrelatedStep(View(), SendFails(id));
      Finish(id, SendError);
    }

    method Abort(id: Key)
      requires Valid() && Enabled(View(), Cancel(id))
      modifies this
      ensures Valid() && View() == Next(old(View()), Cancel(id))
    {
      CorrelatedStep(View(), Cancel(id));
      Finish(id, Aborted);
    }

    method Finish(id: Key, outcome: CallState)
      modifies this
      ensures View() == End(old(View()), id, outcome)
      ensures pendingRequests == old(pendingRequests) - {id}
    {
      ghost var before := View();
      pendingRequests := pendingRequests - {id};
      calls := calls[id := outcome];
      assert View().pending == before.pending - {id};
    }
  }
}

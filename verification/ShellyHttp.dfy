/** GET /metrics of the Shelly server: what a call can raise, where it is caught, and what is
    answered (exporter/shelly_server.py). */
module ShellyHttp {
  import opened Wrappers
  import opened ShellyProtocol
  import opened ShellyServer

  // ---------- Exceptions ----------

  datatype Exception = TimeoutError | CancelledError | OtherException {
    /** What an `except Exception` clause catches: cancelling a coroutine is not among it. */
    predicate Ordinary() { !CancelledError? }
  }

  datatype Outcome<+T> = Value(value: T) | Throws(exception: Exception)

  /** What the two awaits of a call give: sending the request, and waiting for its future. */
  datatype Awaits = Awaits(send: Outcome<()>, wait: Outcome<Message>)

  /** The body of the call's try statement. */
  function TryCall(a: Awaits): Outcome<Message> {
    match a.send
    case Throws(e) => Throws(e)
    case Value(_) => a.wait
  }

  /** send_rpc_request: a timeout, of either await, leaves it as a plain exception. */
  function SendRpcRequest(a: Awaits): Outcome<Message> {
    match TryCall(a)
    case Throws(TimeoutError) => Throws(OtherException)
    case outcome => outcome
  }

  /** Reading the fields of a result keeps every ordinary exception to itself. */
  function Extract(reading: Outcome<()>): Outcome<()> {
    if reading.Throws? && reading.exception.Ordinary() then Value(()) else reading
  }

  // ---------- The handler ----------

  /** `Dropped`: the handler itself was cancelled. */
  datatype HttpReply = Status(code: int) | Dropped

  /** The body of the handler's try statement, given what its call gives. */
  function TryServe(connections: map<Key, Socket>, device: Option<Key>, call: Outcome<Message>,
                    hasResult: Message -> bool, reading: Outcome<()>): Outcome<int>
  {
    match device
    case None => Value(404)
    case Some(d) =>
      if d !in connections then Value(502)
      else match call
        case Throws(e) => Throws(e)
        case Value(m) =>
          if !hasResult(m) then Throws(OtherException)
          else match Extract(reading)
            case Throws(e) => Throws(e)
            case Value(_) => Value(200)
  }

  /** Its except clauses, in their order. */
  function Caught(outcome: Outcome<int>): HttpReply {
    match outcome
    case Value(code) => Status(code)
    case Throws(TimeoutError) => Status(504)
    case Throws(e) => if e.Ordinary() then Status(500) else Dropped
  }

  class HttpHandler {
    const registry: ConnectionRegistry

    constructor (registry: ConnectionRegistry)
      ensures this.registry == registry
    {
      this.registry := registry;
    }

    /** `device` is the one it chose, of those connected when it began. */
    method HandleMetrics(a: Awaits, hasResult: Message -> bool, reading: Outcome<()>)
      returns (reply: HttpReply, device: Option<Key>)
      ensures device.Some? <==> registry.connections != map[]
      ensures device.Some? ==> device.value in registry.connections
      ensures reply == Caught(TryServe(registry.connections, device, SendRpcRequest(a), hasResult, reading))
      ensures reply == Status(404) <==> registry.connections == map[]
      ensures reply != Status(502) && reply != Status(504)
    {
      CallsRaisePlainly(a);
      hide SendRpcRequest;
      var outcome;
      outcome, device := Serve(a, hasResult, reading);
      match outcome {
        case Value(code) => reply := Status(code);
        case Throws(TimeoutError) => reply := Status(504);
        case Throws(e) =>
          if e.Ordinary() { reply := Status(500); } else { reply := Dropped; }
      }
    }

    method Serve(a: Awaits, hasResult: Message -> bool, reading: Outcome<()>)
      returns (outcome: Outcome<int>, device: Option<Key>)
      ensures device.Some? <==> registry.connections != map[]
      ensures device.Some? ==> device.value in registry.connections
      ensures outcome == TryServe(registry.connections, device, SendRpcRequest(a), hasResult, reading)
    {
      var devices := registry.GetAllDevices();
      if devices == [] {
        assert registry.connections.Keys == {};
        return Value(404), None;
      }
      assert devices[0] in devices;
      device := Some(devices[0]);
      var w := registry.GetConnection(devices[0]);
      if w.None? { return Value(502), device; }
      var response := SendRpcRequest(a);
      if response.Throws? { return Throws(response.exception), device; }
      if !hasResult(response.value) { return Throws(OtherException), device; }
      var extracted := Extract(reading);
      if extracted.Throws? { return Throws(extracted.exception), device; }
      return Value(200), device;
    }
  }

  // ---------- Which branches are reached ----------

  /** The branch for timeouts is taken exactly when the call itself lets a timeout escape. */
  lemma GatewayTimeoutIff(connections: map<Key, Socket>, device: Option<Key>, call: Outcome<Message>,
                          hasResult: Message -> bool, reading: Outcome<()>)
    ensures Caught(TryServe(connections, device, call, hasResult, reading)) == Status(504) <==>
      device.Some? && device.value in connections && call == Throws(TimeoutError)
  {
  }

  /** Which no call does: it returns its message when both awaits succeed, is cancelled when one
      of them is, and otherwise raises a plain exception. */
  lemma CallsRaisePlainly(a: Awaits)
    ensures SendRpcRequest(a) != Throws(TimeoutError)
    ensures SendRpcRequest(a).Value? <==> a.send.Value? && a.wait.Value?
    ensures SendRpcRequest(a).Value? ==> SendRpcRequest(a).value == a.wait.value
    ensures SendRpcRequest(a) == Throws(CancelledError) <==>
      a.send == Throws(CancelledError) || (a.send.Value? && a.wait == Throws(CancelledError))
  {
  }

  /** The awaits with which a call of the protocol ends as it does. */
  predicate EndsAs(a: Awaits, end: CallState) {
    match end
    case Returned(m) => a == Awaits(Value(()), Value(m))
    case TimedOut => a.send.Value? && a.wait == Throws(TimeoutError)
    case SendError => a.send.Throws? && a.send.exception.Ordinary()
    case Aborted => TryCall(a) == Throws(CancelledError)
    case _ => false
  }

  /** Over every interleaving, for a request served from a connected device: 200 exactly when the
      first message delivered with its call's id carries a result and came in time, no answer
      exactly when it was cancelled, and 500 in every other case: never 404, 502 or 504. */
  lemma MetricsReplyInEveryRun(states: seq<Shelly>, events: seq<Event>, n: nat, id: Key, a: Awaits,
                               connections: map<Key, Socket>, device: Key,
                               hasResult: Message -> bool, reading: Outcome<()>)
    requires IsRun(states, events) && n <= |events| && id in states[n].calls
    requires EndsAs(a, states[n].calls[id]) && device in connections && reading != Throws(CancelledError)
    ensures var reply := Caught(TryServe(connections, Some(device), SendRpcRequest(a), hasResult, reading));
      var end, first := states[n].calls[id], FirstReply(states, events, n, id);
      && (reply == Status(200) <==> end.Returned? && first.Some? && hasResult(first.value))
      && (reply == Dropped <==> end.Aborted?)
      && (reply == Status(500) <==>
            end.TimedOut? || end.SendError? || (end.Returned? && first.Some? && !hasResult(first.value)))
  {
    CallsReturnFirstReply(states, events, n, id);
    hide FirstReply, IsRun;
  }
}

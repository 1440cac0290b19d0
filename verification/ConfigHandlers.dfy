/** The configuration requests: what each does to the table and what it answers
    (server/handlers/config_handlers.go, and PATCH /devices in server/handlers/device_handlers.go). */
module ConfigHandlers {
  import opened Wrappers
  import opened Naming
  import opened JsonValues
  import opened ConfigStore

  const STANDARD := {"device_type", "port", "reload_port", "enabled_metrics", "ip_address"}

  const DEFAULT_PORT := 9100
  const DEFAULT_RELOAD_PORT := 9101

  /** Address syntax and the ranges that are refused, left uninterpreted. */
  datatype IpRules = IpRules(valid: string -> bool, safe: string -> bool) {
    predicate Allows(ip: string) { valid(ip) && safe(ip) }

    function Refusal(ip: string): string
      requires !Allows(ip)
    {
      if !valid(ip) then "invalid_ip_address" else "restricted_ip_address"
    }
  }

  /** The reload request a handler sends to a device, and whether the device accepted it. */
  datatype Reload = NotAsked | Asked(ip: string, port: int, accepted: bool) {
    predicate Triggered() { Asked? && accepted }
  }

  /** `reload` is what was asked of the device; PUT and PATCH answer whether it was triggered. */
  datatype Reply =
    | Done(status: string, reload: Reload)
    | Config(body: JsonObject)
    | Error(code: nat, error: string)

  const SERVER_ERROR := Error(500, "Internal server error")
  const NOT_FOUND := Error(404, "Device not found")
  const BAD_BODY := Error(400, "Invalid request body")

  // ---------- Reading a body ----------

  function Text(body: JsonObject, key: string): Option<string> {
    if key in body && body[key].Str? then Some(body[key].s) else None
  }

  function Number(body: JsonObject, key: string): Option<int> {
    if key in body && body[key].Num? then Some(Truncated(body[key].n)) else None
  }

  function OrDefault(port: int, default: int): int {
    if port == 0 then default else port
  }

  function Port(body: JsonObject, key: string, default: int): int {
    OrDefault(Number(body, key).GetOr(0), default)
  }

  function Strings(items: seq<Json>): seq<string> {
    if items == [] then []
    else
      var before, last := Strings(items[..|items| - 1]), items[|items| - 1];
      if last.Str? then before + [last.s] else before
  }

  function Metrics(body: JsonObject): seq<string> {
    if "enabled_metrics" in body && body["enabled_metrics"].Arr?
    then Strings(body["enabled_metrics"].items)
    else []
  }

  function Extras(body: JsonObject): JsonObject {
    map k <- body | k !in STANDARD :: body[k]
  }

  /** The record PUT and POST build from a body, with the defaults filled in. */
  function FromBody(id: string, body: JsonObject): DeviceConfig
    requires Text(body, "device_type").Some?
  {
    DeviceConfig(id, Text(body, "device_type").value,
                 Port(body, "port", DEFAULT_PORT), Port(body, "reload_port", DEFAULT_RELOAD_PORT),
                 Metrics(body), Extras(body), Text(body, "ip_address").GetOr(""))
  }

  // ---------- GET ----------

  function Strs(metrics: seq<string>): Json {
    Arr(seq(|metrics|, i requires 0 <= i < |metrics| => Str(metrics[i])))
  }

  function Answer(c: DeviceConfig): JsonObject {
    map["device_type" := Str(c.deviceType), "port" := Num(c.port as real), "reload_port" := Num(c.reloadPort as real)]
    + (if |c.metrics| > 0 then map["enabled_metrics" := Strs(c.metrics)] else map[])
    + c.extra
  }

  function Got(t: Table, id: string, up: bool): Reply {
    match Fetched(t, id, up)
    case Err(_) => SERVER_ERROR
    case Ok(None) => NOT_FOUND
    case Ok(Some(c)) => Config(Answer(c))
  }

  // ---------- Asking a device to reload ----------

  /** Only a device with an address is asked. */
  function ReloadOf(c: DeviceConfig, calls: Calls): Reload {
    if c.ip == "" then NotAsked else Asked(c.ip, c.reloadPort, calls.reload)
  }

  // ---------- PUT ----------

  /** A body without an address keeps the stored one, if it can be read. */
  function KeptIp(t: Table, id: string, peek: bool): string {
    match Fetched(t, id, peek)
    case Ok(Some(c)) => c.ip
    case _ => ""
  }

  function Put(t: Table, id: string, body: Option<JsonObject>, calls: Calls, rules: IpRules): (Reply, Table) {
    if !ValidateDeviceID(id).ValidId? then (Error(400, "invalid_device_id"), t)
    else if body.None? then (BAD_BODY, t)
    else if Text(body.value, "device_type").None? then (Error(400, "Missing required field"), t)
    else
      var c := FromBody("", body.value);
      if c.ip != "" && !rules.Allows(c.ip) then (Error(400, rules.Refusal(c.ip)), t)
      else
        var d := if c.ip == "" then c.(ip := KeptIp(t, id, calls.peek)) else c;
        var (created, r, u) := Upserted(t, id, d, calls);
        (if r.Err? then SERVER_ERROR else Done(if created then "registered" else "updated", ReloadOf(d, calls)), u)
  }

  // ---------- POST ----------

  function Post(t: Table, id: string, body: Option<JsonObject>, calls: Calls, rules: IpRules): (Reply, Table) {
    if !ValidateDeviceID(id).ValidId? then (Error(400, "invalid_device_id"), t)
    else if !calls.present then (SERVER_ERROR, t)
    else if id in t then (Error(409, "Device already exists"), t)
    else if body.None? then (BAD_BODY, t)
    else if Text(body.value, "device_type").None? then (Error(400, "Missing required field"), t)
    else
      var c := FromBody(id, body.value);
      if c.ip == "" then (Error(400, "ip_address_required"), t)
      else if !rules.Allows(c.ip) then (Error(400, rules.Refusal(c.ip)), t)
      else
        var (r, u) := Created(t, c, calls.write);
        (if r.Err? then SERVER_ERROR else Done("created", NotAsked), u)
  }

  // ---------- DELETE ----------

  function Remove(t: Table, id: string, calls: Calls): (Reply, Table) {
    var (r, u) := Deleted(t, id, calls.write);
    (if r.Ok? then Done("deleted", NotAsked) else if r.error.NoRows? then NOT_FOUND else SERVER_ERROR, u)
  }

  // ---------- PATCH ----------

  function PatchedText(now: string, v: Option<Json>): string {
    match v
    case Some(Null) => ""
    case Some(Str(s)) => s
    case _ => now
  }

  function PatchedPort(now: int, v: Option<Json>, default: int): int {
    match v
    case Some(Null) => default
    case Some(Num(n)) => Truncated(n)
    case _ => now
  }

  function PatchedMetrics(now: seq<string>, v: Option<Json>): seq<string> {
    match v
    case Some(Null) => []
    case Some(Arr(items)) => Strings(items)
    case _ => now
  }

  /** A null removes an extra key, any other value replaces it. */
  function PatchedExtra(now: JsonObject, p: JsonObject): JsonObject {
    map k <- now.Keys + Extras(p).Keys | k !in Extras(p) || p[k] != Null :: if k in Extras(p) then p[k] else now[k]
  }

  function Patched(c: DeviceConfig, p: JsonObject): DeviceConfig {
    DeviceConfig(c.id,
                 PatchedText(c.deviceType, At(p, "device_type")),
                 PatchedPort(c.port, At(p, "port"), DEFAULT_PORT),
                 PatchedPort(c.reloadPort, At(p, "reload_port"), DEFAULT_RELOAD_PORT),
                 PatchedMetrics(c.metrics, At(p, "enabled_metrics")),
                 PatchedExtra(c.extra, p),
                 Text(p, "ip_address").GetOr(c.ip))
  }

  /** The one reason to refuse a patch: an address that is not allowed. */
  predicate Acceptable(p: JsonObject, rules: IpRules) {
    Text(p, "ip_address").Some? ==> rules.Allows(Text(p, "ip_address").value)
  }

  function Patch(t: Table, id: string, body: Option<JsonObject>, calls: Calls, rules: IpRules): (Reply, Table) {
    match Fetched(t, id, calls.peek)
    case Err(_) => (SERVER_ERROR, t)
    case Ok(None) => (NOT_FOUND, t)
    case Ok(Some(c)) =>
      if body.None? then (BAD_BODY, t)
      else if !Acceptable(body.value, rules) then
        (Error(400, rules.Refusal(Text(body.value, "ip_address").value)), t)
      else
        var (r, u) := Updated(t, id, Patched(c, body.value), calls);
        (if r.Err? then SERVER_ERROR else Done("patched", ReloadOf(Patched(c, body.value), calls)), u)
  }

  // ---------- PATCH /devices ----------

  /** The basic fields only; null is ignored, and so is an empty type. */
  function PatchedBasics(c: DeviceConfig, p: JsonObject): DeviceConfig {
    c.(deviceType := if Text(p, "device_type").GetOr("") != "" then p["device_type"].s else c.deviceType,
       ip := Text(p, "ip_address").GetOr(c.ip),
       port := Number(p, "port").GetOr(c.port),
       reloadPort := Number(p, "reload_port").GetOr(c.reloadPort))
  }

  function PatchDevice(t: Table, id: string, body: Option<JsonObject>, calls: Calls, rules: IpRules): (Reply, Table) {
    match Fetched(t, id, calls.peek)
    case Err(_) => (SERVER_ERROR, t)
    case Ok(None) => (NOT_FOUND, t)
    case Ok(Some(c)) =>
      if body.None? then (BAD_BODY, t)
      else if Text(body.value, "ip_address") == Some("") then (Error(400, "invalid_ip_address"), t)
      else if !Acceptable(body.value, rules) then
        (Error(400, rules.Refusal(Text(body.value, "ip_address").value)), t)
      else
        var (r, u) := Updated(t, id, PatchedBasics(c, body.value), calls);
        (if r.Err? then SERVER_ERROR else Done("updated", NotAsked), u)
  }

  // ---------- Any request ----------

  datatype Request =
    | GetRequest(id: string)
    | PutRequest(id: string, body: Option<JsonObject>)
    | PostRequest(id: string, body: Option<JsonObject>)
    | DeleteRequest(id: string)
    | PatchRequest(id: string, body: Option<JsonObject>)
    | PatchDeviceRequest(id: string, body: Option<JsonObject>)

  function Handle(t: Table, q: Request, calls: Calls, rules: IpRules): (Reply, Table) {
    match q
    case GetRequest(id) => (Got(t, id, calls.peek), t)
    case PutRequest(id, body) => Put(t, id, body, calls, rules)
    case PostRequest(id, body) => Post(t, id, body, calls, rules)
    case DeleteRequest(id) => Remove(t, id, calls)
    case PatchRequest(id, body) => Patch(t, id, body, calls, rules)
    case PatchDeviceRequest(id, body) => PatchDevice(t, id, body, calls, rules)
  }
}

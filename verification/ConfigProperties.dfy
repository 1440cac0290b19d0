/** What the configuration requests promise across calls: round trips, composition of patches,
    and invariants of the table over every run (server/handlers/config_handlers.go). */
module ConfigProperties {
  import opened Wrappers
  import opened Naming
  import opened JsonValues
  import opened ConfigStore
  import opened ConfigHandlers
  import Reconcile
  import SyncProperties
  import Grace

  // ---------- PUT, then GET ----------

  /** What GET answers under a key for a device stored from this body. */
  function Echo(body: JsonObject, key: string): Option<Json> {
    if key == "port" then Some(PortEcho(body, key, 9100.0))
    else if key == "reload_port" then Some(PortEcho(body, key, 9101.0))
    else if key == "enabled_metrics" then (if Metrics(body) != [] then Some(Strs(Metrics(body))) else None)
    else if key == "ip_address" then None
    else At(body, key)
  }

  /** A number that is not cut down to zero is answered without its fraction; all else is replaced. */
  function PortEcho(body: JsonObject, key: string, default: real): Json {
    if key in body && body[key].Num? && !(-1.0 < body[key].n < 1.0)
    then Num(Truncated(body[key].n) as real)
    else Num(default)
  }

  /** The texts of a list are those of its parts, in order; anything else is left out. */
  lemma {:induction false} StringsOfParts(items: seq<Json>, more: seq<Json>)
    ensures Strings(items + more) == Strings(items) + Strings(more)
    decreases |more|
  {
    if more == [] {
      assert items + more == items;
    } else {
      var n := |more| - 1;
      StringsOfParts(items, more[..n]);
      StringsOfLast(items + more);
      StringsOfLast(more);
      hide Strings;
      assert (items + more)[..|items| + n] == items + more[..n];
      assert (items + more)[|items| + n] == more[n];
    }
  }

  lemma StringsOfLast(items: seq<Json>)
    requires items != []
    ensures var n := |items| - 1;
      Strings(items) == Strings(items[..n]) + if items[n].Str? then [items[n].s] else []
  {
  }

  lemma {:induction false} StringsOfStrs(metrics: seq<string>)
    ensures Strings(Strs(metrics).items) == metrics
  {
    if metrics != [] {
      var n := |metrics| - 1;
      StringsOfStrs(metrics[..n]);
      assert Strs(metrics).items[..n] == Strs(metrics[..n]).items;
      assert metrics == metrics[..n] + [metrics[n]];
    }
  }

  /** A list of nothing but strings is stored and answered as it is. */
  lemma {:induction false} StrsOfStrings(items: seq<Json>)
    requires forall x <- items :: x.Str?
    ensures Strs(Strings(items)) == Arr(items)
  {
    if items != [] {
      var n := |items| - 1;
      assert items[n] in items && forall x <- items[..n] :: x in items;
      StrsOfStrings(items[..n]);
      StrsGrow(Strings(items[..n]), items[n].s);
      assert items == items[..n] + [items[n]];
    }
  }

  lemma StrsGrow(metrics: seq<string>, text: string)
    ensures Strs(metrics + [text]) == Arr(Strs(metrics).items + [Str(text)])
  {
    assert Strs(metrics + [text]).items == Strs(metrics).items + [Str(text)];
  }

  lemma PortEchoes(body: JsonObject, key: string, default: int)
    ensures Num(Port(body, key, default) as real) == PortEcho(body, key, default as real)
  {
    if key in body && body[key].Num? { TruncatedTowardZero(body[key].n); }
  }

  lemma AnswerEchoes(id: string, body: JsonObject, ip: string, key: string)
    requires Text(body, "device_type").Some?
    ensures At(Answer(FromBody(id, body).(ip := ip)), key) == Echo(body, key)
  {
    PortEchoes(body, "port", DEFAULT_PORT);
    PortEchoes(body, "reload_port", DEFAULT_RELOAD_PORT);
    hide Port, PortEcho;
    assert key in STANDARD <==>
      key == "device_type" || key == "port" || key == "reload_port" || key == "enabled_metrics" || key == "ip_address";
    assert At(Extras(body), key) == if key in STANDARD then None else At(body, key);
  }

  /** The record an accepted PUT leaves. */
  function Stored(t: Table, id: string, body: JsonObject, peek: bool): DeviceConfig
    requires Text(body, "device_type").Some?
  {
    var c := FromBody(id, body);
    if c.ip == "" then c.(ip := KeptIp(t, id, peek)) else c
  }

  lemma PutStores(t: Table, id: string, body: JsonObject, calls: Calls, rules: IpRules)
    requires Put(t, id, Some(body), calls, rules).0.Done?
    ensures ValidateDeviceID(id).ValidId? && Text(body, "device_type").Some?
    ensures Text(body, "ip_address").GetOr("") == "" || rules.Allows(Text(body, "ip_address").value)
    ensures Put(t, id, Some(body), calls, rules).1 == t[id := Some(Stored(t, id, body, calls.peek))]
  {
    assert FromBody("", body).(id := id) == FromBody(id, body);
  }

  /** After an accepted PUT, GET answers the body's own keys, its standard fields defaulted and
      truncated, and no address; the other devices answer as before. */
  lemma PutThenGet(t: Table, id: string, body: JsonObject, calls: Calls, rules: IpRules, key: string, other: string)
    requires Put(t, id, Some(body), calls, rules).0.Done?
    ensures var u := Put(t, id, Some(body), calls, rules).1;
      && Got(u, id, true).Config?
      && At(Got(u, id, true).body, key) == Echo(body, key)
      && u[id].Some? && (forall ip: string :: ip != "" && HasText(body, "ip_address", ip) ==> u[id].value.ip == ip)
      && (other != id ==> Got(u, other, true) == Got(t, other, true))
  {
    PutStores(t, id, body, calls, rules);
    AnswerEchoes(id, body, Stored(t, id, body, calls.peek).ip, key);
    TextIs(body, "ip_address");
    FromBodyIp(id, body);
    hide Put, Answer, Echo, FromBody;
    assert Stored(t, id, body, calls.peek) == FromBody(id, body).(ip := Stored(t, id, body, calls.peek).ip);
  }

  // ---------- GET, then PUT ----------

  lemma AnswerReadsBack(c: DeviceConfig)
    requires c.extra.Keys !! STANDARD
    ensures Text(Answer(c), "device_type") == Some(c.deviceType) && Text(Answer(c), "ip_address") == None
    ensures FromBody(c.id, Answer(c)) ==
      c.(port := OrDefault(c.port, DEFAULT_PORT), reloadPort := OrDefault(c.reloadPort, DEFAULT_RELOAD_PORT), ip := "")
  {
    var body := Answer(c);
    assert forall key <- STANDARD :: key !in c.extra;
    TruncatedInteger(c.port);
    TruncatedInteger(c.reloadPort);
    StringsOfStrs(c.metrics);
    assert Metrics(body) == c.metrics;
    assert Extras(body) == c.extra;
  }

  /** Putting back what GET answered changes nothing exactly when both ports are non-zero and
      the handler's own reading of the address did not fail (its error is ignored). */
  lemma PutBackIff(t: Table, id: string, c: DeviceConfig, calls: Calls, rules: IpRules)
    requires At(t, id) == Some(Some(c)) && c.id == id && c.extra.Keys !! STANDARD
    requires Put(t, id, Some(Answer(c)), calls, rules).0.Done?
    ensures Put(t, id, Some(Answer(c)), calls, rules).1 == t
       <==> c.port != 0 && c.reloadPort != 0 && (calls.peek || c.ip == "")
  {
    AnswerReadsBack(c);
    PutStores(t, id, Answer(c), calls, rules);
    hide Put, Answer;
    var put := Stored(t, id, Answer(c), calls.peek);
    assert put == c <==> c.port != 0 && c.reloadPort != 0 && (calls.peek || c.ip == "");
    if put == c { assert t[id := Some(put)] == t; } else { assert t[id := Some(put)][id] != t[id]; }
  }

  /** PUT without an address keeps the stored one, unless reading it failed: then it is erased. */
  lemma PutKeepsAddressIff(t: Table, id: string, body: JsonObject, calls: Calls, rules: IpRules)
    requires id in t && t[id].Some? && Text(body, "ip_address").GetOr("") == ""
    requires Put(t, id, Some(body), calls, rules).0.Done?
    ensures var u := Put(t, id, Some(body), calls, rules).1;
      && u[id].value.ip == (if calls.peek then t[id].value.ip else "")
      && (u[id].value.ip == t[id].value.ip <==> calls.peek || t[id].value.ip == "")
  {
    PutStores(t, id, body, calls, rules);
    FromBodyIp(id, body);
    hide Put, FromBody;
  }

  /** The same body put twice stores what it stored once. */
  lemma PutIsIdempotent(t: Table, id: string, body: JsonObject, calls: Calls, again: Calls, rules: IpRules)
    requires Put(t, id, Some(body), calls, rules).0.Done?
    requires Put(Put(t, id, Some(body), calls, rules).1, id, Some(body), again, rules).0.Done?
    ensures var u := Put(t, id, Some(body), calls, rules).1;
      Put(u, id, Some(body), again, rules).1 == u <==>
        again.peek || u[id].value.ip == "" || Text(body, "ip_address").GetOr("") != ""
  {
    var u := Put(t, id, Some(body), calls, rules).1;
    PutStores(t, id, body, calls, rules);
    PutStores(u, id, body, again, rules);
    hide Put, FromBody;
    var once, twice := Stored(t, id, body, calls.peek), Stored(u, id, body, again.peek);
    FromBodyIp(id, body);
    if once == twice { assert u[id := Some(twice)] == u; } else { assert u[id := Some(twice)][id] != u[id]; }
  }

  lemma FromBodyIp(id: string, body: JsonObject)
    requires Text(body, "device_type").Some?
    ensures FromBody(id, body).ip == Text(body, "ip_address").GetOr("")
    ensures FromBody(id, body).id == id && FromBody(id, body).extra.Keys !! STANDARD
  {
  }

  /** Wherever POST creates a device, PUT would have stored the same one. */
  lemma PostIsPutOnNewDevices(t: Table, id: string, body: Option<JsonObject>, calls: Calls, rules: IpRules)
    ensures Post(t, id, body, calls, rules).0.Done? <==>
      id !in t && Put(t, id, body, calls, rules).0.Done? && Text(body.value, "ip_address").GetOr("") != ""
    ensures Post(t, id, body, calls, rules).0.Done? ==>
      Post(t, id, body, calls, rules).1 == Put(t, id, body, calls, rules).1
  {
    if body.Some? && Text(body.value, "device_type").Some? {
      assert FromBody("", body.value).(id := id) == FromBody(id, body.value);
    }
  }

  // ---------- Reloads ----------

  /** A device is asked to reload only by an accepted PUT or PATCH, and then, if it has an
      address, at the address and reload port now stored for it. */
  lemma ReloadsGoToStoredAddress(t: Table, q: Request, calls: Calls, rules: IpRules)
    requires Handle(t, q, calls, rules).0.Done?
    ensures var (reply, u) := Handle(t, q, calls, rules);
      if q.PutRequest? || q.PatchRequest? then
        && q.id in u && u[q.id].Some? && reply.reload == ReloadOf(u[q.id].value, calls)
        && (reply.reload.Triggered() <==> u[q.id].value.ip != "" && calls.reload)
      else reply.reload == NotAsked
  {
    if q.PutRequest? { PutStores(t, q.id, q.body.value, calls, rules); }
  }

  // ---------- PATCH, then GET ----------

  /** What GET answers under a key after a patch. */
  function PatchEcho(c: DeviceConfig, p: JsonObject, key: string): Option<Json> {
    if key == "ip_address" then None
    else if key !in p || Inert(key, p[key]) then At(Answer(c), key)
    else match (key, p[key])
      case ("device_type", Null) => Some(Str(""))
      case ("port", Null) => Some(Num(9100.0))
      case ("reload_port", Null) => Some(Num(9101.0))
      case (_, Null) => None
      case ("port", Num(n)) => Some(Num(Truncated(n) as real))
      case ("reload_port", Num(n)) => Some(Num(Truncated(n) as real))
      case ("enabled_metrics", Arr(items)) => if Strings(items) != [] then Some(Strs(Strings(items))) else None
      case (_, v) => Some(v)
  }

  lemma StandardAnswers(c: DeviceConfig)
    requires c.extra.Keys !! STANDARD
    ensures var a := Answer(c);
      && At(a, "device_type") == Some(Str(c.deviceType))
      && At(a, "port") == Some(Num(c.port as real)) && At(a, "reload_port") == Some(Num(c.reloadPort as real))
      && At(a, "enabled_metrics") == (if c.metrics != [] then Some(Strs(c.metrics)) else None)
      && At(a, "ip_address") == None
    ensures forall key :: key !in STANDARD ==> At(Answer(c), key) == At(c.extra, key)
  {
    assert forall key <- STANDARD :: key !in c.extra;
  }

  /** The record an accepted patch leaves, key by key and in its address. */
  lemma PatchedEchoes(c: DeviceConfig, p: JsonObject, key: string)
    requires c.extra.Keys !! STANDARD
    ensures At(Answer(Patched(c, p)), key) == PatchEcho(c, p, key)
    ensures Patched(c, p).extra.Keys !! STANDARD
    ensures Patched(c, p).ip == if "ip_address" in p && p["ip_address"].Str? then p["ip_address"].s else c.ip
  {
    if key in STANDARD { StandardEcho(c, p, key); } else { ExtraEcho(c, p, key); }
    hide PatchEcho, Answer;
    assert forall k <- STANDARD :: k !in c.extra && k !in Extras(p);
  }

  /** After an accepted PATCH, GET answers, key by key, what the patch says where it has an effect
      and what it answered before elsewhere; the address, never answered, is the patch's or the
      old one, and the other devices answer as before. */
  lemma PatchThenGet(t: Table, id: string, p: JsonObject, calls: Calls, rules: IpRules, key: string, other: string)
    requires Patch(t, id, Some(p), calls, rules).0.Done?
    ensures id in t && t[id].Some?
    ensures var c, u := t[id].value, Patch(t, id, Some(p), calls, rules).1;
      && u.Keys == t.Keys && u[id].Some? && Got(u, id, true).Config?
      && (c.extra.Keys !! STANDARD ==> At(Got(u, id, true).body, key) == PatchEcho(c, p, key))
      && u[id].value.ip == (if "ip_address" in p && p["ip_address"].Str? then p["ip_address"].s else c.ip)
      && (other != id ==> At(u, other) == At(t, other) && Got(u, other, true) == Got(t, other, true))
  {
    var c, u := t[id].value, Patch(t, id, Some(p), calls, rules).1;
    PatchKeepsId(c, p);
    PatchStores(t, id, p, calls, rules);
    hide Patch, Patched, Answer, PatchEcho;
    AnswerIgnoresId(Patched(c, p), id);
    if c.extra.Keys !! STANDARD { PatchedEchoes(c, p, key); }
    PatchedAddress(c, p);
  }

  lemma AnswerIgnoresId(c: DeviceConfig, id: string)
    ensures Answer(c.(id := id)) == Answer(c)
  {
  }

  lemma PatchStores(t: Table, id: string, p: JsonObject, calls: Calls, rules: IpRules)
    requires Patch(t, id, Some(p), calls, rules).0.Done?
    ensures id in t && t[id].Some?
    ensures Patch(t, id, Some(p), calls, rules).1 == t[id := Some(Patched(t[id].value, p).(id := id))]
  {
    hide Patched;
  }

  lemma PatchedAddress(c: DeviceConfig, p: JsonObject)
    ensures Patched(c, p).ip == if "ip_address" in p && p["ip_address"].Str? then p["ip_address"].s else c.ip
  {
  }

  lemma StandardEcho(c: DeviceConfig, p: JsonObject, key: string)
    requires c.extra.Keys !! STANDARD && key in STANDARD
    ensures At(Answer(Patched(c, p)), key) == PatchEcho(c, p, key)
  {
    var d := Patched(c, p);
    assert d.extra.Keys !! STANDARD;
    StandardAnswers(c);
    StandardAnswers(d);
    hide Answer, Strings, Strs, PatchedExtra, Extras, Truncated;
    match key {
      case "port" => hide PatchedText, PatchedMetrics, Text;
      case "reload_port" => hide PatchedText, PatchedMetrics, Text;
      case "enabled_metrics" => hide PatchedText, PatchedPort, Text;
      case "device_type" => hide PatchedPort, PatchedMetrics;
      case "ip_address" => hide PatchedText, PatchedPort, PatchedMetrics;
      case _ =>
    }
  }

  lemma ExtraEcho(c: DeviceConfig, p: JsonObject, key: string)
    requires c.extra.Keys !! STANDARD && key !in STANDARD
    ensures At(Answer(Patched(c, p)), key) == PatchEcho(c, p, key)
  {
    var d := Patched(c, p);
    assert d.extra.Keys !! STANDARD;
    StandardAnswers(c);
    StandardAnswers(d);
    assert key in Extras(p) <==> key in p;
    hide Answer, Strings, Strs, PatchedText, PatchedPort, PatchedMetrics;
  }

  /** The part of a body that PATCH /devices heeds. */
  function Basics(p: JsonObject): JsonObject {
    map k <- p | k in {"device_type", "port", "reload_port", "ip_address"} && p[k] != Null && p[k] != Str("") :: p[k]
  }

  /** PATCH /devices is PATCH /config of the basic keys, without nulls and empty texts, except that
      it refuses an empty address. */
  lemma PatchDeviceIsPatchOfBasics(t: Table, id: string, p: JsonObject, calls: Calls, rules: IpRules)
    requires id in t && t[id].Some? && t[id].value.id == id
    ensures var device := PatchDevice(t, id, Some(p), calls, rules);
      var config := Patch(t, id, Some(Basics(p)), calls, rules);
      if HasText(p, "ip_address", "") then !device.0.Done? && device.1 == t
      else device.1 == config.1 && (device.0.Done? <==> config.0.Done?)
  {
    TextIs(p, "ip_address");
    if Text(p, "ip_address") == Some("") { return; }
    var c, b := t[id].value, Basics(p);
    assert Extras(b) == map[];
    assert PatchedExtra(c.extra, b) == c.extra;
    assert Text(b, "ip_address") == Text(p, "ip_address");
    assert Patched(c, b) == PatchedBasics(c, p);
    hide Patched, PatchedBasics, Updated;
  }

  // ---------- What each request accepts, refuses and answers ----------

  predicate HasText(body: JsonObject, key: string, text: string) {
    key in body && body[key] == Str(text)
  }

  /** The addresses a body names are allowed; `empty` says whether the empty one counts as none. */
  ghost predicate AddressAllowed(body: JsonObject, rules: IpRules, empty: bool) {
    forall ip: string :: HasText(body, "ip_address", ip) ==> (empty && ip == "") || (rules.valid(ip) && rules.safe(ip))
  }

  ghost predicate HasType(body: JsonObject) {
    exists text: string :: HasText(body, "device_type", text)
  }

  lemma TextIs(body: JsonObject, key: string)
    ensures forall text: string :: HasText(body, key, text) <==> Text(body, key) == Some(text)
  {
  }

  /** A valid id, and a body with a type and, if any, an allowed address. */
  ghost predicate PutBodyGood(id: string, body: Option<JsonObject>, rules: IpRules) {
    && HostLabel(id) && |id| <= MAX_ID_LENGTH
    && body.Some? && HasType(body.value) && AddressAllowed(body.value, rules, true)
  }

  /** A body with a type and an allowed address. */
  ghost predicate PostBodyGood(body: Option<JsonObject>, rules: IpRules) {
    && body.Some? && HasType(body.value) && AddressAllowed(body.value, rules, false)
    && exists ip: string :: ip != "" && HasText(body.value, "ip_address", ip)
  }

  /** PUT succeeds exactly for a valid id, a body with a type and, if any, an allowed address, and
      working statements; it says whether the device was new. */
  lemma PutAcceptedIff(t: Table, id: string, body: Option<JsonObject>, calls: Calls, rules: IpRules)
    ensures var reply := Put(t, id, body, calls, rules).0;
      && (reply.Done? <==>
            && PutBodyGood(id, body, rules)
            && calls.present && calls.write && (id in t ==> calls.read && t[id].Some?))
      && (reply.Done? ==> reply.status == if id in t then "updated" else "registered")
      && (reply == Error(400, "invalid_device_id") <==> !(HostLabel(id) && |id| <= MAX_ID_LENGTH))
      && (reply.Done? || reply.Error?)
      && (reply.Error? ==> reply.code == if PutBodyGood(id, body, rules) then 500 else 400)
      && (!reply.Done? ==> Put(t, id, body, calls, rules).1 == t)
  {
    if body.Some? {
      TextIs(body.value, "device_type");
      TextIs(body.value, "ip_address");
      if HasType(body.value) { FromBodyIp("", body.value); }
    }
    hide FromBody;
  }

  /** POST likewise, for a new id and a body with an address; a taken id is a conflict. */
  lemma PostAcceptedIff(t: Table, id: string, body: Option<JsonObject>, calls: Calls, rules: IpRules)
    ensures var reply := Post(t, id, body, calls, rules).0;
      && (reply.Done? <==>
            && HostLabel(id) && |id| <= MAX_ID_LENGTH
            && calls.present && id !in t && calls.write && PostBodyGood(body, rules))
      && (reply.Done? ==> reply.status == "created")
      && (reply == Error(409, "Device already exists") <==>
            HostLabel(id) && |id| <= MAX_ID_LENGTH && calls.present && id in t)
      && (reply.Done? || reply.Error?)
      && (reply.Error? ==>
            (reply.code == 500 <==>
               HostLabel(id) && |id| <= MAX_ID_LENGTH && (!calls.present || (id !in t && PostBodyGood(body, rules)))))
      && (!reply.Done? ==> Post(t, id, body, calls, rules).1 == t)
  {
    if body.Some? {
      TextIs(body.value, "device_type");
      TextIs(body.value, "ip_address");
      if HasType(body.value) { FromBodyIp(id, body.value); }
    }
    hide FromBody;
  }

  /** PATCH succeeds exactly for a stored device, an object and, if any, an allowed address. */
  lemma PatchAcceptedIff(t: Table, id: string, body: Option<JsonObject>, calls: Calls, rules: IpRules)
    ensures var reply := Patch(t, id, body, calls, rules).0;
      && (reply.Done? <==>
            && id in t && t[id].Some? && calls.peek && calls.read && calls.write
            && body.Some? && AddressAllowed(body.value, rules, false))
      && (reply == NOT_FOUND <==> calls.peek && id !in t)
      && (reply.Done? || reply.Error?)
      && (reply.Error? && reply != NOT_FOUND ==>
            reply.code ==
            if calls.peek && t[id].Some? && (body.None? || !AddressAllowed(body.value, rules, false)) then 400 else 500)
      && (!reply.Done? ==> Patch(t, id, body, calls, rules).1 == t)
  {
    if body.Some? { TextIs(body.value, "ip_address"); }
    hide Patched;
  }

  /** DELETE removes the device's row and no other, and answers whether there was one. */
  lemma DeleteThenGet(t: Table, id: string, calls: Calls, other: string)
    ensures var (reply, u) := Remove(t, id, calls);
      && (reply == Done("deleted", NotAsked) <==> calls.write && id in t)
      && (reply == NOT_FOUND <==> calls.write && id !in t)
      && (reply.Done? ==> Got(u, id, true) == NOT_FOUND)
      && (other != id ==> At(u, other) == At(t, other) && Got(u, other, true) == Got(t, other, true))
      && (!reply.Done? ==> u == t)
  {
  }

  /** GET finds a stored device that decodes, and only that. */
  lemma GetIff(t: Table, id: string, up: bool)
    ensures Got(t, id, up).Config? <==> up && id in t && t[id].Some?
    ensures Got(t, id, up) == NOT_FOUND <==> up && id !in t
  {
  }

  // ---------- Two patches and their merge ----------

  /** A value that leaves its standard field alone: of the wrong type, or a null address. */
  predicate Inert(key: string, v: Json) {
    match key
    case "device_type" => !v.Null? && !v.Str?
    case "port" => !v.Null? && !v.Num?
    case "reload_port" => !v.Null? && !v.Num?
    case "enabled_metrics" => !v.Null? && !v.Arr?
    case "ip_address" => !v.Str?
    case _ => false
  }

  /** The second patch hides the first one's effect on a field without having one itself. */
  predicate Shadows(q: JsonObject, p: JsonObject, key: string) {
    key in p && key in q && key in STANDARD && Inert(key, q[key]) && !Inert(key, p[key])
  }

  predicate Composable(p: JsonObject, q: JsonObject) {
    forall key <- STANDARD :: !Shadows(q, p, key)
  }

  lemma ExtrasCompose(now: JsonObject, p: JsonObject, q: JsonObject)
    ensures PatchedExtra(PatchedExtra(now, p), q) == PatchedExtra(now, p + q)
  {
    assert Extras(p + q) == Extras(p) + Extras(q);
    EqualByLookup(PatchedExtra(PatchedExtra(now, p), q), PatchedExtra(now, p + q));
  }

  lemma TypesCompose(now: string, p: JsonObject, q: JsonObject)
    requires !Shadows(q, p, "device_type")
    ensures PatchedText(PatchedText(now, At(p, "device_type")), At(q, "device_type"))
         == PatchedText(now, At(p + q, "device_type"))
  {
  }

  lemma PortsCompose(now: int, p: JsonObject, q: JsonObject, key: string, default: int)
    requires key in {"port", "reload_port"} && !Shadows(q, p, key)
    ensures PatchedPort(PatchedPort(now, At(p, key), default), At(q, key), default)
         == PatchedPort(now, At(p + q, key), default)
  {
  }

  lemma MetricsCompose(now: seq<string>, p: JsonObject, q: JsonObject)
    requires !Shadows(q, p, "enabled_metrics")
    ensures PatchedMetrics(PatchedMetrics(now, At(p, "enabled_metrics")), At(q, "enabled_metrics"))
         == PatchedMetrics(now, At(p + q, "enabled_metrics"))
  {
    hide Strings;
  }

  lemma AddressesCompose(now: string, p: JsonObject, q: JsonObject)
    requires !Shadows(q, p, "ip_address")
    ensures Text(q, "ip_address").GetOr(Text(p, "ip_address").GetOr(now)) == Text(p + q, "ip_address").GetOr(now)
  {
  }

  lemma PatchesCompose(c: DeviceConfig, p: JsonObject, q: JsonObject)
    requires Composable(p, q)
    ensures Patched(Patched(c, p), q) == Patched(c, p + q)
  {
    hide Shadows, PatchedText, PatchedPort, PatchedMetrics, PatchedExtra, Text;
    TypesCompose(c.deviceType, p, q);
    PortsCompose(c.port, p, q, "port", DEFAULT_PORT);
    PortsCompose(c.reloadPort, p, q, "reload_port", DEFAULT_RELOAD_PORT);
    MetricsCompose(c.metrics, p, q);
    AddressesCompose(c.ip, p, q);
    ExtrasCompose(c.extra, p, q);
  }

  /** A record on which the two patches and their merge differ. */
  lemma ShadowedPatchIsLost(p: JsonObject, q: JsonObject, key: string) returns (c: DeviceConfig)
    requires Shadows(q, p, key)
    ensures Patched(Patched(c, p), q) != Patched(c, p + q)
  {
    hide Strings, PatchedExtra;
    var empty := Patched(DeviceConfig("", "", 0, 0, [], map[], ""), p);
    c := DeviceConfig("", empty.deviceType + "x", empty.port + 1, empty.reloadPort + 1,
                      empty.metrics + ["x"], map[], empty.ip + "x");
    var once, twice := Patched(c, p + q), Patched(Patched(c, p), q);
    match key {
      case "device_type" => assert twice.deviceType == empty.deviceType && once.deviceType == c.deviceType;
      case "port" => assert twice.port == empty.port && once.port == c.port;
      case "reload_port" => assert twice.reloadPort == empty.reloadPort && once.reloadPort == c.reloadPort;
      case "enabled_metrics" => assert twice.metrics == empty.metrics && once.metrics == c.metrics;
      case _ => assert twice.ip == empty.ip && once.ip == c.ip;
    }
  }

  /** Patching twice is patching once with the right-biased merge, on every record, exactly
      when the second patch holds no ineffective value under a key the first one changes. */
  lemma PatchesComposeIff(p: JsonObject, q: JsonObject)
    ensures (forall c: DeviceConfig :: Patched(Patched(c, p), q) == Patched(c, p + q)) <==> Composable(p, q)
  {
    if Composable(p, q) {
      forall c: DeviceConfig ensures Patched(Patched(c, p), q) == Patched(c, p + q) {
        PatchesCompose(c, p, q);
      }
    } else {
      var key :| key in STANDARD && Shadows(q, p, key);
      var c := ShadowedPatchIsLost(p, q, key);
    }
  }

  /** The same through the store: two accepted requests leave the table their merge leaves. */
  lemma PatchRequestsCompose(t: Table, id: string, p: JsonObject, q: JsonObject, rules: IpRules)
    requires id in t && t[id].Some? && t[id].value.id == id && Composable(p, q)
    requires Acceptable(p, rules) && Acceptable(q, rules)
    ensures var (_, u) := Patch(t, id, Some(p), ALL_UP, rules);
      Patch(u, id, Some(q), ALL_UP, rules) == Patch(t, id, Some(p + q), ALL_UP, rules)
  {
    var c := t[id].value;
    PatchesCompose(c, p, q);
    hide Patched;
    assert Patched(c, p).id == c.id by { PatchKeepsId(c, p); }
    PatchKeepsId(Patched(c, p), q);
    assert t[id := Some(Patched(c, p))][id := Some(Patched(c, p + q))] == t[id := Some(Patched(c, p + q))];
  }

  lemma PatchKeepsId(c: DeviceConfig, p: JsonObject)
    ensures Patched(c, p).id == c.id
  {
  }

  // ---------- The table over every run ----------

  predicate Sound(t: Table, rules: IpRules) {
    forall id <- t :: SoundRow(id, t[id], rules)
  }

  predicate SoundRow(id: string, row: Option<DeviceConfig>, rules: IpRules) {
    && ValidateDeviceID(id).ValidId?
    && row.Some? && row.value.id == id
    && row.value.extra.Keys !! STANDARD
    && (row.value.ip == "" || rules.Allows(row.value.ip))
  }

  function HandleAll(t: Table, requests: seq<(Request, Calls)>, rules: IpRules): Table {
    if requests == [] then t
    else
      var n := |requests| - 1;
      Handle(HandleAll(t, requests[..n], rules), requests[n].0, requests[n].1, rules).1
  }

  lemma WritesAreSound(t: Table, q: Request, calls: Calls, rules: IpRules)
    requires Sound(t, rules)
    ensures Sound(Handle(t, q, calls, rules).1, rules)
  {
    match q {
      case GetRequest(_) =>
      case DeleteRequest(_) =>
      case PutRequest(id, body) => PutIsSound(t, id, body, calls, rules);
      case PostRequest(id, body) =>
        PostIsPutOnNewDevices(t, id, body, calls, rules);
        PutIsSound(t, id, body, calls, rules);
      case PatchRequest(id, body) =>
        if id in t && body.Some? { assert Patched(t[id].value, body.value).extra.Keys !! STANDARD; }
      case PatchDeviceRequest(id, body) =>
    }
  }

  lemma PutIsSound(t: Table, id: string, body: Option<JsonObject>, calls: Calls, rules: IpRules)
    requires Sound(t, rules)
    ensures Sound(Put(t, id, body, calls, rules).1, rules)
  {
    if Put(t, id, body, calls, rules).0.Done? {
      PutStores(t, id, body.value, calls, rules);
      FromBodyIp(id, body.value);
      hide Put, FromBody;
      var c := Stored(t, id, body.value, calls.peek);
      assert id in t ==> SoundRow(id, t[id], rules);
      assert SoundRow(id, Some(c), rules);
    }
  }

  /** Whatever is asked, and whatever database statements fail: stored ids are validated, rows
      decode, addresses are allowed or empty, and no extra key repeats a standard field. */
  lemma {:induction false} EveryRunIsSound(requests: seq<(Request, Calls)>, rules: IpRules)
    ensures Sound(HandleAll(map[], requests, rules), rules)
  {
    if requests != [] {
      var n := |requests| - 1;
      EveryRunIsSound(requests[..n], rules);
      WritesAreSound(HandleAll(map[], requests[..n], rules), requests[n].0, requests[n].1, rules);
    }
  }

  predicate ZeroIn(body: Option<JsonObject>, key: string) {
    body.Some? && key in body.value && body.value[key].Num? && Truncated(body.value[key].n) == 0
  }

  /** A patch that sets a port to zero: PUT and POST replace a zero, the patches do not. */
  predicate ZeroesPort(q: Request) {
    (q.PatchRequest? || q.PatchDeviceRequest?) && (ZeroIn(q.body, "port") || ZeroIn(q.body, "reload_port"))
  }

  predicate PortsSet(t: Table) {
    forall id <- t | t[id].Some? :: t[id].value.port != 0 && t[id].value.reloadPort != 0
  }

  lemma {:induction false} PortsStaySet(requests: seq<(Request, Calls)>, rules: IpRules)
    requires forall i :: 0 <= i < |requests| ==> !ZeroesPort(requests[i].0)
    ensures PortsSet(HandleAll(map[], requests, rules))
  {
    if requests != [] {
      var n := |requests| - 1;
      PortsStaySet(requests[..n], rules);
      HandleKeepsPorts(HandleAll(map[], requests[..n], rules), requests[n].0, requests[n].1, rules);
    }
  }

  lemma HandleKeepsPorts(t: Table, q: Request, calls: Calls, rules: IpRules)
    requires PortsSet(t) && !ZeroesPort(q)
    ensures PortsSet(Handle(t, q, calls, rules).1)
  {
  }

  // ---------- What reconciliation lists ----------

  function DeviceOf(c: DeviceConfig): Reconcile.Device {
    Reconcile.Device(c.id, c.deviceType, c.ip, c.port, c.reloadPort)
  }

  /** A listing of a table that only requests have written is what the grace and agreement
      theorems assume of the devices: distinct lower-case ids, hence distinct object names. */
  lemma ListedDevicesAreStored(requests: seq<(Request, Calls)>, rules: IpRules,
                               listed: seq<DeviceConfig>, c: Reconcile.Cycle)
    requires IsOrderedList(listed, HandleAll(map[], requests, rules)) && |listed| == |c.visits|
    requires forall i :: 0 <= i < |listed| ==> c.visits[i].device == DeviceOf(listed[i])
    ensures Grace.StoredDevices(c) && SyncProperties.DistinctNames(c.visits)
    ensures forall v <- c.visits :: |v.Name()| <= MAX_NAME_LENGTH
  {
    var t, rows := HandleAll(map[], requests, rules), Ids(listed);
    EveryRunIsSound(requests, rules);
    hide InOrder, HandleAll;
    forall i | 0 <= i < |rows|
      ensures c.visits[i].device.id == rows[i] && ToLower(rows[i]) == rows[i] && |c.visits[i].Name()| <= MAX_NAME_LENGTH
    {
      assert rows[i] in t && SoundRow(rows[i], t[rows[i]], rules);
      HostLabelIsLower(rows[i]);
    }
    forall i, j | 0 <= i < j < |rows| ensures rows[i] != rows[j] {
      ListingRepeatsNothing(rows, t.Keys, i, j);
    }
    Grace.StoredDevicesHaveDistinctNames(c);
  }
}

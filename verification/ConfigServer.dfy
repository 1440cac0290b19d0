/** The configuration handlers step by step, proved against the requests of ConfigHandlers.dfy
    (server/handlers/config_handlers.go and PATCH /devices in server/handlers/device_handlers.go). */
module ConfigServer {
  import opened Wrappers
  import opened Naming
  import opened JsonValues
  import opened ConfigStore
  import opened ConfigHandlers

  /** The part of an object a loop over its keys has seen. */
  function Restricted(body: JsonObject, keys: set<string>): JsonObject
    requires keys <= body.Keys
  {
    map k <- keys :: body[k]
  }

  lemma RestrictedToAll(body: JsonObject)
    ensures Restricted(body, {}) == map[]
    ensures Restricted(body, body.Keys) == body
  {
  }

  lemma OneMoreExtra(body: JsonObject, seen: set<string>, key: string)
    requires seen <= body.Keys && key in body
    ensures Extras(Restricted(body, seen + {key})) ==
      if key in STANDARD then Extras(Restricted(body, seen)) else Extras(Restricted(body, seen))[key := body[key]]
  {
  }

  lemma OneMorePatched(now: JsonObject, p: JsonObject, seen: set<string>, key: string)
    requires seen <= p.Keys && key in p && key !in seen
    ensures PatchedExtra(now, Restricted(p, seen + {key})) ==
      var before := PatchedExtra(now, Restricted(p, seen));
      if key in STANDARD then before
      else if p[key].Null? then before - {key}
      else before[key := p[key]]
  {
    OneMoreExtra(p, seen, key);
    var before, after := PatchedExtra(now, Restricted(p, seen)), PatchedExtra(now, Restricted(p, seen + {key}));
    var expected := if p[key].Null? then before - {key} else before[key := p[key]];
    EqualByLookup(after, if key in STANDARD then before else expected);
  }

  class Handler {
    const store: SQLiteStore
    const rules: IpRules

    constructor (store: SQLiteStore, rules: IpRules)
      ensures this.store == store && this.rules == rules
    {
      this.store, this.rules := store, rules;
    }

    method GetConfig(id: string, calls: Calls) returns (reply: Reply)
      ensures reply == Got(store.Contents(), id, calls.peek)
    {
      var config := store.Get(id, calls.peek);
      if config.Err? { return SERVER_ERROR; }
      if config.value.None? { return NOT_FOUND; }
      var c := config.value.value;
      var response: JsonObject :=
        map["device_type" := Str(c.deviceType),
            "port" := Num(c.port as real),
            "reload_port" := Num(c.reloadPort as real)];
      if |c.metrics| > 0 { response := response["enabled_metrics" := Strs(c.metrics)]; }
      response := AddAll(response, c.extra);
      return Config(response);
    }

    method AddAll(response: JsonObject, extra: JsonObject) returns (all: JsonObject)
      ensures all == response + extra
    {
      all := response;
      var keys := extra.Keys;
      ghost var seen := {};
      RestrictedToAll(extra);
      while keys != {}
        invariant keys <= extra.Keys && seen == extra.Keys - keys
        invariant all == response + Restricted(extra, seen)
      {
        var key :| key in keys;
        TakeOne(extra.Keys, keys, seen, key);
        assert Restricted(extra, seen + {key}) == Restricted(extra, seen)[key := extra[key]];
        all := all[key := extra[key]];
        keys, seen := keys - {key}, seen + {key};
      }
    }

    /** The string elements of a list, in order. */
    method StringsIn(items: seq<Json>) returns (strings: seq<string>)
      ensures strings == Strings(items)
    {
      strings := [];
      for k := 0 to |items|
        invariant strings == Strings(items[..k])
      {
        assert items[..k + 1][..k] == items[..k];
        if items[k].Str? { strings := strings + [items[k].s]; }
      }
      assert items[..|items|] == items;
    }

    /** What PUT and POST read from a body before the defaults and the address checks. */
    method ReadBody(body: JsonObject) returns (config: Option<DeviceConfig>)
      ensures config.Some? <==> Text(body, "device_type").Some?
      ensures config.Some? ==>
        FromBody("", body) == config.value.(port := OrDefault(config.value.port, DEFAULT_PORT),
                                            reloadPort := OrDefault(config.value.reloadPort, DEFAULT_RELOAD_PORT))
    {
      var c := DeviceConfig("", "", 0, 0, [], map[], "");
      if "device_type" !in body || !body["device_type"].Str? { return None; }
      c := c.(deviceType := body["device_type"].s);
      if "port" in body && body["port"].Num? { c := c.(port := Truncated(body["port"].n)); }
      if "reload_port" in body && body["reload_port"].Num? { c := c.(reloadPort := Truncated(body["reload_port"].n)); }
      if "enabled_metrics" in body && body["enabled_metrics"].Arr? {
        var strings := StringsIn(body["enabled_metrics"].items);
        c := c.(metrics := strings);
      }
      var extra := ExtrasIn(body);
      c := c.(extra := extra);
      if "ip_address" in body && body["ip_address"].Str? { c := c.(ip := body["ip_address"].s); }
      return Some(c);
    }

    method ExtrasIn(body: JsonObject) returns (extra: JsonObject)
      ensures extra == Extras(body)
    {
      extra := map[];
      var keys := body.Keys;
      ghost var seen := {};
      RestrictedToAll(body);
      while keys != {}
        invariant keys <= body.Keys && seen == body.Keys - keys
        invariant extra == Extras(Restricted(body, seen))
      {
        hide Extras;
        var key :| key in keys;
        TakeOne(body.Keys, keys, seen, key);
        OneMoreExtra(body, seen, key);
        if key !in STANDARD { extra := extra[key := body[key]]; }
        keys, seen := keys - {key}, seen + {key};
      }
    }

    method UpdateConfig(id: string, body: Option<JsonObject>, calls: Calls) returns (reply: Reply)
      modifies store
      ensures (reply, store.Contents()) == Put(old(store.Contents()), id, body, calls, rules)
    {
      if !ValidateDeviceID(id).ValidId? { return Error(400, "invalid_device_id"); }
      if body.None? { return BAD_BODY; }
      var read := ReadBody(body.value);
      if read.None? { return Error(400, "Missing required field"); }
      var config := read.value;
      if config.port == 0 { config := config.(port := DEFAULT_PORT); }
      if config.reloadPort == 0 { config := config.(reloadPort := DEFAULT_RELOAD_PORT); }
      assert config == FromBody("", body.value);
      if config.ip == "" {
        config := KeepAddress(id, config, calls);
      } else {
        if !rules.valid(config.ip) { return Error(400, "invalid_ip_address"); }
        if !rules.safe(config.ip) { return Error(400, "restricted_ip_address"); }
      }
      var created, r := store.Upsert(id, config, calls);
      if r.Err? { return SERVER_ERROR; }
      var status := "updated";
      if created { status := "registered"; }
      var reload := NotAsked;
      if config.ip != "" { reload := Asked(config.ip, config.reloadPort, calls.reload); }
      return Done(status, reload);
    }

    /** The stored address, unless it cannot be read: that error is ignored. */
    method KeepAddress(id: string, config: DeviceConfig, calls: Calls) returns (kept: DeviceConfig)
      requires config.ip == ""
      ensures kept == config.(ip := KeptIp(store.Contents(), id, calls.peek))
    {
      kept := config;
      var existing := store.Get(id, calls.peek);
      if existing.Ok? && existing.value.Some? { kept := kept.(ip := existing.value.value.ip); }
    }

    method CreateConfig(id: string, body: Option<JsonObject>, calls: Calls) returns (reply: Reply)
      modifies store
      ensures (reply, store.Contents()) == Post(old(store.Contents()), id, body, calls, rules)
    {
      if !ValidateDeviceID(id).ValidId? { return Error(400, "invalid_device_id"); }
      var present := store.Exists(id, calls.present);
      if present.Err? { return SERVER_ERROR; }
      if present.value { return Error(409, "Device already exists"); }
      if body.None? { return BAD_BODY; }
      var read := ReadBody(body.value);
      if read.None? { return Error(400, "Missing required field"); }
      var config := read.value.(id := id);
      if config.ip == "" { return Error(400, "ip_address_required"); }
      if !rules.valid(config.ip) { return Error(400, "invalid_ip_address"); }
      if !rules.safe(config.ip) { return Error(400, "restricted_ip_address"); }
      if config.port == 0 { config := config.(port := DEFAULT_PORT); }
      if config.reloadPort == 0 { config := config.(reloadPort := DEFAULT_RELOAD_PORT); }
      assert config == FromBody(id, body.value);
      var r := store.Create(config, calls.write);
      if r.Err? { return SERVER_ERROR; }
      return Done("created", NotAsked);
    }

    method DeleteConfig(id: string, calls: Calls) returns (reply: Reply)
      modifies store
      ensures (reply, store.Contents()) == Remove(old(store.Contents()), id, calls)
    {
      var r := store.Delete(id, calls.write);
      if r.Err? {
        if r.error == NoRows { return NOT_FOUND; }
        return SERVER_ERROR;
      }
      return Done("deleted", NotAsked);
    }

    method PatchConfig(id: string, body: Option<JsonObject>, calls: Calls) returns (reply: Reply)
      modifies store
      ensures (reply, store.Contents()) == Patch(old(store.Contents()), id, body, calls, rules)
    {
      var fetched := store.Get(id, calls.peek);
      if fetched.Err? { return SERVER_ERROR; }
      if fetched.value.None? { return NOT_FOUND; }
      if body.None? { return BAD_BODY; }
      var p := body.value;
      var existing := PatchFields(fetched.value.value, p);
      if "ip_address" in p && p["ip_address"].Str? {
        var ip := p["ip_address"].s;
        if !rules.valid(ip) { return Error(400, "invalid_ip_address"); }
        if !rules.safe(ip) { return Error(400, "restricted_ip_address"); }
        existing := existing.(ip := ip);
      }
      var extra := PatchExtras(existing.extra, p);
      existing := existing.(extra := extra);
      assert existing == Patched(fetched.value.value, p);
      var r := store.Update(id, existing, calls);
      if r.Err? { return SERVER_ERROR; }
      var reload := NotAsked;
      if existing.ip != "" { reload := Asked(existing.ip, existing.reloadPort, calls.reload); }
      return Done("patched", reload);
    }

    /** The fields that any value of the right type, or null, replaces. */
    method PatchFields(c: DeviceConfig, p: JsonObject) returns (existing: DeviceConfig)
      ensures existing == Patched(c, p).(extra := c.extra, ip := c.ip)
    {
      hide Strings, PatchedExtra, Extras;
      existing := c;
      if "device_type" in p {
        if p["device_type"].Null? { existing := existing.(deviceType := ""); }
        else if p["device_type"].Str? { existing := existing.(deviceType := p["device_type"].s); }
      }
      existing := PatchBothPorts(existing, p);
      if "enabled_metrics" in p {
        if p["enabled_metrics"].Null? {
          existing := existing.(metrics := []);
        } else if p["enabled_metrics"].Arr? {
          var strings := StringsIn(p["enabled_metrics"].items);
          existing := existing.(metrics := strings);
        }
      }
    }

    method PatchBothPorts(c: DeviceConfig, p: JsonObject) returns (existing: DeviceConfig)
      ensures existing == c.(port := Patched(c, p).port, reloadPort := Patched(c, p).reloadPort)
    {
      hide Strings, PatchedExtra, Extras;
      existing := c;
      if "port" in p {
        if p["port"].Null? { existing := existing.(port := DEFAULT_PORT); }
        else if p["port"].Num? { existing := existing.(port := Truncated(p["port"].n)); }
      }
      if "reload_port" in p {
        if p["reload_port"].Null? { existing := existing.(reloadPort := DEFAULT_RELOAD_PORT); }
        else if p["reload_port"].Num? { existing := existing.(reloadPort := Truncated(p["reload_port"].n)); }
      }
    }

    method PatchExtras(now: JsonObject, p: JsonObject) returns (extra: JsonObject)
      ensures extra == PatchedExtra(now, p)
    {
      extra := now;
      var keys := p.Keys;
      ghost var seen := {};
      RestrictedToAll(p);
      assert Extras(map[]) == map[] && PatchedExtra(now, map[]) == now;
      while keys != {}
        invariant keys <= p.Keys && seen == p.Keys - keys
        invariant extra == PatchedExtra(now, Restricted(p, seen))
      {
        hide PatchedExtra, Restricted;
        var key :| key in keys;
        TakeOne(p.Keys, keys, seen, key);
        OneMorePatched(now, p, seen, key);
        if key !in STANDARD {
          if p[key].Null? { extra := extra - {key}; } else { extra := extra[key := p[key]]; }
        }
        keys, seen := keys - {key}, seen + {key};
      }
    }

    method PatchDeviceBasics(id: string, body: Option<JsonObject>, calls: Calls) returns (reply: Reply)
      modifies store
      ensures (reply, store.Contents()) == PatchDevice(old(store.Contents()), id, body, calls, rules)
    {
      var fetched := store.Get(id, calls.peek);
      if fetched.Err? { return SERVER_ERROR; }
      if fetched.value.None? { return NOT_FOUND; }
      if body.None? { return BAD_BODY; }
      var p := body.value;
      var existing := PatchBasics(fetched.value.value, p);
      if "ip_address" in p && p["ip_address"].Str? {
        var ip := p["ip_address"].s;
        if ip == "" || !rules.valid(ip) { return Error(400, "invalid_ip_address"); }
        if !rules.safe(ip) { return Error(400, "restricted_ip_address"); }
        existing := existing.(ip := ip);
      }
      assert existing == PatchedBasics(fetched.value.value, p);
      var r := store.Update(id, existing, calls);
      if r.Err? { return SERVER_ERROR; }
      return Done("updated", NotAsked);
    }

    /** The fields PATCH /devices heeds, other than the address. */
    method PatchBasics(c: DeviceConfig, p: JsonObject) returns (existing: DeviceConfig)
      ensures existing == PatchedBasics(c, p).(ip := c.ip)
    {
      existing := c;
      if "device_type" in p && p["device_type"].Str? && p["device_type"].s != "" {
        existing := existing.(deviceType := p["device_type"].s);
      }
      if "port" in p && p["port"].Num? { existing := existing.(port := Truncated(p["port"].n)); }
      if "reload_port" in p && p["reload_port"].Num? {
        existing := existing.(reloadPort := Truncated(p["reload_port"].n));
      }
    }
  }
}

/** The namespace's Services and Endpoints, and the calls that change them
    (server/kubernetes/service.go, server/kubernetes/endpoints.go). */
module Cluster {
  import opened Naming
  import opened Wrappers

  // ---------- How an API call can end ----------

  /** `Done`: applied and acknowledged. `Refused`: an error, nothing applied.
      `Lost`: applied, but the caller saw an error. */
  datatype Fate = Done | Refused | Lost {
    predicate Reported() { Done? }
    predicate Applied() { !Refused? }
  }

  /** A create-or-update is a Get followed by a Create or an Update. */
  datatype UpsertFate = UpsertFate(get: Fate, write: Fate) {
    predicate Reported() { get.Done? && write.Done? }
    predicate Applied() { get.Done? && write.Applied() }
  }

  datatype CleanupFate = CleanupFate(service: Fate, endpoints: Fate)

  // ---------- Objects ----------

  datatype Service = Service(deviceId: string, deviceType: string, port: int)

  datatype Endpoints = Endpoints(deviceId: string, ip: string, port: int)

  /** Go's conversion of an int to int32: the low 32 bits, as a signed number. */
  function ToInt32(n: int): (r: int)
    ensures -0x8000_0000 <= r < 0x8000_0000
    ensures (n - r) % 0x1_0000_0000 == 0
    ensures -0x8000_0000 <= n < 0x8000_0000 ==> r == n
  {
    (n + 0x8000_0000) % 0x1_0000_0000 - 0x8000_0000
  }

  datatype World = World(services: map<string, Service>, endpoints: map<string, Endpoints>)

  /** Every managed Endpoints has a Service of the same name. */
  predicate NoOrphans(w: World) {
    w.endpoints.Keys <= w.services.Keys
  }

  /** All object names are names this program gives. */
  predicate WellNamed(w: World) {
    ObjectNames(w.services.Keys) && ObjectNames(w.endpoints.Keys)
  }

  // ---------- What one call does to a table of objects ----------

  function Upserted<V>(m: map<string, V>, name: string, v: V, fate: UpsertFate): map<string, V> {
    if fate.Applied() then m[name := v] else m
  }

  function Removed<V>(m: map<string, V>, name: string, fate: Fate): map<string, V> {
    if fate.Applied() then m - {name} else m
  }

  // ---------- The client ----------

  class Client {
    var services: map<string, Service>
    var endpoints: map<string, Endpoints>

    constructor ()
      ensures services == map[] && endpoints == map[]
    {
      services, endpoints := map[], map[];
    }

    ghost function View(): World
      reads this
    {
      World(services, endpoints)
    }

    method CreateOrUpdateService(id: string, deviceType: string, port: int, fate: UpsertFate) returns (ok: bool)
      modifies this`services
      ensures services ==
        if fate.get.Done? && !fate.write.Refused?
        then old(services)[ServiceName(id) := Service(id, deviceType, ToInt32(port))] else old(services)
      ensures ok <==> fate.get.Done? && fate.write.Done?
    {
      var name := ServiceName(id);
      var service := Service(id, deviceType, ToInt32(port));
      if !fate.get.Done? { return false; }
      if name !in services {
        if fate.write.Applied() { services := services[name := service]; }   // Create
        return fate.write.Done?;
      }
      if fate.write.Applied() { services := services[name := service]; }     // Update
      return fate.write.Done?;
    }

    method CreateOrUpdateEndpoints(id: string, ip: string, port: int, fate: UpsertFate) returns (ok: bool)
      modifies this`endpoints
      ensures endpoints ==
        if fate.get.Done? && !fate.write.Refused?
        then old(endpoints)[ServiceName(id) := Endpoints(id, ip, ToInt32(port))] else old(endpoints)
      ensures ok <==> fate.get.Done? && fate.write.Done?
    {
      var name := ServiceName(id);
      var record := Endpoints(id, ip, ToInt32(port));
      if !fate.get.Done? { return false; }
      if name !in endpoints {
        if fate.write.Applied() { endpoints := endpoints[name := record]; }
        return fate.write.Done?;
      }
      if fate.write.Applied() { endpoints := endpoints[name := record]; }
      return fate.write.Done?;
    }

    /** Deleting what is not there is a success. */
    method DeleteService(id: string, fate: Fate) returns (ok: bool)
      modifies this`services
      ensures services == if fate.Refused? then old(services) else old(services) - {ServiceName(id)}
      ensures ok <==> fate.Done?
    {
      if fate.Applied() { services := services - {ServiceName(id)}; }
      return fate.Done?;
    }

    method DeleteEndpoints(id: string, fate: Fate) returns (ok: bool)
      modifies this`endpoints
      ensures endpoints == if fate.Refused? then old(endpoints) else old(endpoints) - {ServiceName(id)}
      ensures ok <==> fate.Done?
    {
      if fate.Applied() { endpoints := endpoints - {ServiceName(id)}; }
      return fate.Done?;
    }

    /** The names of all managed Services, each once, in whatever order the API lists them. */
    method ListEdgeServices() returns (names: seq<string>)
      ensures IsListing(names, services.Keys)
    {
      names := [];
      var rest := services.Keys;
      while rest != {}
        invariant rest <= services.Keys
        invariant IsListing(names, services.Keys - rest)
        decreases rest
      {
        var n :| n in rest;
        ListingGrows(names, services.Keys - rest, n);
        assert services.Keys - rest + {n} == services.Keys - (rest - {n});
        names, rest := names + [n], rest - {n};
      }
    }

    method ListEdgeEndpoints() returns (names: seq<string>)
      ensures IsListing(names, endpoints.Keys)
    {
      names := [];
      var rest := endpoints.Keys;
      while rest != {}
        invariant rest <= endpoints.Keys
        invariant IsListing(names, endpoints.Keys - rest)
        decreases rest
      {
        var n :| n in rest;
        ListingGrows(names, endpoints.Keys - rest, n);
        assert endpoints.Keys - rest + {n} == endpoints.Keys - (rest - {n});
        names, rest := names + [n], rest - {n};
      }
    }
  }
}

/** The devices table and its store (server/repository/device_repository.go). */
module ConfigStore {
  import opened Wrappers
  import opened JsonValues

  datatype DeviceConfig = DeviceConfig(id: string, deviceType: string, port: int, reloadPort: int,
                                       metrics: seq<string>, extra: JsonObject, ip: string)

  // ---------- Rows ----------

  /** A nullable text column that holds an encoded value; other writers may leave it empty or
      with a text that does not decode. */
  datatype Column<T> = NullColumn | EmptyText | Encoded(value: T) | Undecodable

  datatype Row = Row(deviceType: string, port: int, reloadPort: int,
                     metrics: Column<seq<string>>, extra: Column<JsonObject>, ip: Option<string>)

  function RowOf(c: DeviceConfig): Row {
    Row(c.deviceType, c.port, c.reloadPort,
        if |c.metrics| > 0 then Encoded(c.metrics) else NullColumn,
        if |c.extra| > 0 then Encoded(c.extra) else NullColumn,
        Some(c.ip))
  }

  function Decoded(id: string, row: Row): Option<DeviceConfig> {
    if row.metrics.Undecodable? || row.extra.Undecodable? then None
    else Some(DeviceConfig(id, row.deviceType, row.port, row.reloadPort,
                           if row.metrics.Encoded? then row.metrics.value else [],
                           if row.extra.Encoded? then row.extra.value else map[],
                           if row.ip.Some? then row.ip.value else ""))
  }

  /** A row fails to decode exactly when a text column does; null and empty columns read as the
      empty list, object and address. */
  lemma DecodedIff(id: string, row: Row)
    ensures Decoded(id, row).None? <==> row.metrics.Undecodable? || row.extra.Undecodable?
    ensures Decoded(id, row).Some? ==>
      var c := Decoded(id, row).value;
      && c.id == id && c.deviceType == row.deviceType && c.port == row.port && c.reloadPort == row.reloadPort
      && (if row.metrics.Encoded? then c.metrics == row.metrics.value else c.metrics == [])
      && (if row.extra.Encoded? then c.extra == row.extra.value else c.extra == map[])
      && (if row.ip.Some? then c.ip == row.ip.value else c.ip == "")
  {
  }

  /** Normalising into nullable columns and reading back loses nothing but the id field,
      which the row's key replaces. */
  lemma RowRoundTrip(id: string, c: DeviceConfig)
    ensures Decoded(id, RowOf(c)) == Some(c.(id := id))
  {
    assert |c.extra| == 0 ==> c.extra == map[];
  }

  // ---------- The table as a map ----------

  /** `None` is a row that does not decode. */
  type Table = map<string, Option<DeviceConfig>>

  datatype StoreError = Failed | NoRows

  datatype Result<+T> = Ok(value: T) | Err(error: StoreError)

  /** Whether each call a request may make succeeds: the handler's own reading of the record, the
      store's test for existence, its reading before an update, the write, and the device's reload. */
  datatype Calls = Calls(peek: bool, present: bool, read: bool, write: bool, reload: bool)

  const ALL_UP := Calls(true, true, true, true, true)

  function Fetched(t: Table, id: string, up: bool): Result<Option<DeviceConfig>> {
    if !up then Err(Failed)
    else if id !in t then Ok(None)
    else if t[id].None? then Err(Failed)
    else Ok(t[id])
  }

  function Created(t: Table, c: DeviceConfig, write: bool): (Result<()>, Table) {
    if write && c.id !in t then (Ok(()), t[c.id := Some(c)]) else (Err(Failed), t)
  }

  function Updated(t: Table, id: string, c: DeviceConfig, calls: Calls): (Result<()>, Table) {
    match Fetched(t, id, calls.read)
    case Err(e) => (Err(e), t)
    case Ok(None) => (Err(NoRows), t)
    case Ok(Some(_)) => if calls.write then (Ok(()), t[id := Some(c.(id := id))]) else (Err(Failed), t)
  }

  function Upserted(t: Table, id: string, c: DeviceConfig, calls: Calls): (bool, Result<()>, Table) {
    if !calls.present then (false, Err(Failed), t)
    else if id in t then var (r, u) := Updated(t, id, c, calls); (false, r, u)
    else var (r, u) := Created(t, c.(id := id), calls.write); (true, r, u)
  }

  function Deleted(t: Table, id: string, write: bool): (Result<()>, Table) {
    if !write then (Err(Failed), t)
    else if id !in t then (Err(NoRows), t)
    else (Ok(()), t - {id})
  }

  // ---------- ORDER BY device_id ----------

  /** Text in order: by the first character that differs, a prefix first. */
  predicate Precedes(a: string, b: string)
    decreases |a|
  {
    b != "" && (a == "" || a[0] < b[0] || (a[0] == b[0] && Precedes(a[1..], b[1..])))
  }

  predicate InOrder(rows: seq<string>) {
    forall i, j :: 0 <= i < j < |rows| ==> Precedes(rows[i], rows[j])
  }

  lemma {:induction false} PrecedesIsStrict(a: string, b: string)
    ensures !(Precedes(a, b) && Precedes(b, a))
    decreases |a|
  {
    if a != "" && b != "" { PrecedesIsStrict(a[1..], b[1..]); }
  }

  /** The last of two ordered listings of the same keys is the same key. */
  lemma SameLast(a: seq<string>, b: seq<string>, keys: set<string>)
    requires IsListing(a, keys) && IsListing(b, keys) && InOrder(a) && InOrder(b) && a != []
    ensures a[|a| - 1] == b[|b| - 1]
  {
    var n := |a| - 1;
    assert a[n] in keys && b[n] in keys;
    var k :| 0 <= k <= n && b[k] == a[n];
    var m :| 0 <= m <= n && a[m] == b[n];
    PrecedesIsStrict(a[n], b[n]);
  }

  /** So the order leaves the database one answer. */
  lemma {:induction false} OrderedListingIsUnique(a: seq<string>, b: seq<string>, keys: set<string>)
    requires IsListing(a, keys) && IsListing(b, keys) && InOrder(a) && InOrder(b)
    ensures a == b
  {
    if a != [] {
      var n := |a| - 1;
      SameLast(a, b, keys);
      ListingWithoutLast(a, keys);
      ListingWithoutLast(b, keys);
      OrderOfPrefix(a, n);
      OrderOfPrefix(b, n);
      hide IsListing, InOrder;
      OrderedListingIsUnique(a[..n], b[..n], keys - {a[n]});
      assert a == a[..n] + [a[n]] && b == b[..n] + [b[n]];
    }
  }

  lemma OrderOfPrefix(a: seq<string>, n: nat)
    requires InOrder(a) && n <= |a|
    ensures InOrder(a[..n])
  {
  }

  lemma ListingWithoutLast(a: seq<string>, keys: set<string>)
    requires IsListing(a, keys) && a != []
    ensures IsListing(a[..|a| - 1], keys - {a[|a| - 1]})
  {
    var n := |a| - 1;
    forall x <- a[..n] ensures x in keys - {a[n]} {
      var i :| 0 <= i < n && a[i] == x;
      ListingRepeatsNothing(a, keys, i, n);
    }
    forall x <- keys - {a[n]} ensures x in a[..n] {
      var i :| 0 <= i <= n && a[i] == x;
      assert a[..n][i] == x;
    }
  }

  function Ids(devices: seq<DeviceConfig>): seq<string> {
    seq(|devices|, i requires 0 <= i < |devices| => devices[i].id)
  }

  /** Every stored device once, by ascending id. */
  predicate IsOrderedList(devices: seq<DeviceConfig>, t: Table) {
    && IsListing(Ids(devices), t.Keys) && InOrder(Ids(devices))
    && forall d <- devices :: At(t, d.id) == Some(Some(d))
  }

  lemma ListsKeys(rows: seq<string>, keys: set<string>)
    requires IsListing(rows, keys)
    ensures forall id <- rows :: id in keys
    ensures forall id <- keys :: id in rows
  {
  }

  lemma ListedInOrder(devices: seq<DeviceConfig>, t: Table)
    requires IsListing(Ids(devices), t.Keys) && InOrder(Ids(devices))
    requires forall i :: 0 <= i < |devices| ==> At(t, devices[i].id) == Some(Some(devices[i]))
    ensures IsOrderedList(devices, t)
  {
    hide IsListing, InOrder;
  }

  /** A table has only one ordered list. */
  lemma ListIsDetermined(a: seq<DeviceConfig>, b: seq<DeviceConfig>, t: Table)
    requires IsOrderedList(a, t) && IsOrderedList(b, t)
    ensures a == b
  {
    OrderedListingIsUnique(Ids(a), Ids(b), t.Keys);
    assert |a| == |Ids(a)| == |Ids(b)| == |b|;
    forall i | 0 <= i < |a| ensures a[i] == b[i] {
      assert a[i] in a && b[i] in b && Ids(a)[i] == a[i].id && Ids(b)[i] == b[i].id;
    }
  }

  // ---------- The store ----------

  class SQLiteStore {
    var devices: map<string, Row>

    ghost function Contents(): Table
      reads this
    {
      map id <- devices :: Decoded(id, devices[id])
    }

    constructor ()
      ensures Contents() == map[]
    {
      devices := map[];
    }

    method Get(id: string, up: bool) returns (r: Result<Option<DeviceConfig>>)
      ensures r == Fetched(Contents(), id, up)
    {
      if !up { return Err(Failed); }
      if id !in devices { return Ok(None); }
      r := Scan(id, devices[id]);
    }

    /** The scan Get and List share: only what is present and not empty is decoded. */
    method Scan(id: string, row: Row) returns (r: Result<Option<DeviceConfig>>)
      ensures r == if Decoded(id, row).None? then Err(Failed) else Ok(Decoded(id, row))
    {
      var config := DeviceConfig(id, row.deviceType, row.port, row.reloadPort, [], map[], "");
      if row.ip.Some? { config := config.(ip := row.ip.value); }
      match row.metrics {
        case NullColumn => case EmptyText =>
        case Undecodable => return Err(Failed);
        case Encoded(metrics) => config := config.(metrics := metrics);
      }
      match row.extra {
        case NullColumn => case EmptyText =>
        case Undecodable => return Err(Failed);
        case Encoded(extra) => config := config.(extra := extra);
      }
      return Ok(Some(config));
    }

    /** Every device in the order of the ids, or an error if any row does not decode. The rows are
        what the query yields. */
    method List(rows: seq<string>, up: bool) returns (r: Result<seq<DeviceConfig>>)
      requires IsListing(rows, devices.Keys) && InOrder(rows)
      ensures r.Ok? <==> up && forall id <- Contents() :: Contents()[id].Some?
      ensures r.Ok? ==> IsOrderedList(r.value, Contents())
    {
      hide IsListing, InOrder, IsOrderedList;
      if !up { return Err(Failed); }
      ListsKeys(rows, devices.Keys);
      var found: seq<DeviceConfig>, k := [], 0;
      while k < |rows|
        invariant k == |found| <= |rows|
        invariant forall i :: 0 <= i < k ==> At(Contents(), rows[i]) == Some(Some(found[i])) && found[i].id == rows[i]
      {
        assert rows[k] in rows && rows[k] in devices;
        var scanned := Scan(rows[k], devices[rows[k]]);
        if scanned.Err? {
          assert Contents()[rows[k]].None?;
          return Err(Failed);
        }
        found, k := found + [scanned.value.value], k + 1;
      }
      assert Ids(found) == rows && Contents().Keys == devices.Keys;
      ListedInOrder(found, Contents());
      return Ok(found);
    }

    method Create(config: DeviceConfig, up: bool) returns (r: Result<()>)
      modifies this
      ensures (r, Contents()) == Created(old(Contents()), config, up)
    {
      if !up || config.id in devices { return Err(Failed); }
      RowRoundTrip(config.id, config);
      ghost var before := Contents();
      devices := devices[config.id := RowOf(config)];
      assert Contents() == before[config.id := Some(config)];
      return Ok(());
    }

    method Update(id: string, config: DeviceConfig, calls: Calls) returns (r: Result<()>)
      modifies this
      ensures (r, Contents()) == Updated(old(Contents()), id, config, calls)
    {
      var existing := Get(id, calls.read);
      if existing.Err? { return Err(existing.error); }
      if existing.value.None? { return Err(NoRows); }
      if !calls.write { return Err(Failed); }
      RowRoundTrip(id, config);
      ghost var before := Contents();
      devices := devices[id := RowOf(config)];
      assert Contents() == before[id := Some(config.(id := id))];
      return Ok(());
    }

    method Upsert(id: string, config: DeviceConfig, calls: Calls) returns (created: bool, r: Result<()>)
      modifies this
      ensures (created, r, Contents()) == Upserted(old(Contents()), id, config, calls)
    {
      var present := Exists(id, calls.present);
      if present.Err? { return false, Err(present.error); }
      if present.value {
        r := Update(id, config, calls);
        return false, r;
      }
      r := Create(config.(id := id), calls.write);
      return true, r;
    }

    method Delete(id: string, up: bool) returns (r: Result<()>)
      modifies this
      ensures (r, Contents()) == Deleted(old(Contents()), id, up)
    {
      if !up { return Err(Failed); }
      ghost var was, before := devices, Contents();
      var rowsBefore := |devices|;
      devices := devices - {id};
      assert Contents() == before - {id};
      if id in was {
        assert devices.Keys == was.Keys - {id} && |devices| == |devices.Keys| && rowsBefore == |was.Keys|;
      } else {
        assert devices == was;
      }
      var rowsAffected := rowsBefore - |devices|;
      if rowsAffected == 0 { return Err(NoRows); }
      return Ok(());
    }

    method Exists(id: string, up: bool) returns (r: Result<bool>)
      ensures r == if up then Ok(id in Contents()) else Err(Failed)
    {
      if !up { return Err(Failed); }
      return Ok(id in devices);
    }
  }
}

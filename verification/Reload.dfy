/** Configuration reloads of the exporter and the collectors they rebuild (exporter/exporter.py). */
module Reload {
  import opened Wrappers
  import opened JsonValues

  type Config = JsonObject

  /** What config.get(key, default) gives. */
  function Get(c: Config, key: string, default: Json): Json {
    if key in c then c[key] else default
  }

  function DeviceType(c: Config): Json { Get(c, "device_type", Null) }

  function Shelly(c: Config): Json { Get(c, "shelly", Obj(map[])) }

  /** The two sections the collectors are built from. */
  predicate SameSections(a: Config, b: Config) {
    DeviceType(a) == DeviceType(b) && Shelly(a) == Shelly(b)
  }

  /** `config.get("metrics") or {}` can be read as a dictionary. */
  predicate ReadableMetrics(c: Config) {
    !Get(c, "metrics", Null).Truthy() || c["metrics"].Obj?
  }

  // ---------- Building collectors ----------

  /** Collectors remember the configuration they were built from. */
  datatype Collectors = Collectors(from: Config, shelly: bool)

  /** How the outside world answers: a configuration file or server may yield any value, or
      fail; constructing a collector may fail. */
  datatype World = World(loaded: Option<Json>, deviceOk: bool, shellyOk: bool)

  predicate ShellyEnabled(shelly: map<string, Json>) {
    Get(shelly, "enabled", Bool(true)).Truthy()
  }

  /** The device collector must be built; a Shelly collector that cannot be is left out. */
  function Built(c: Config, w: World): Option<Collectors> {
    if !DeviceType(c).Str? || !w.deviceOk || !Shelly(c).Obj? then None
    else Some(Collectors(c, ShellyEnabled(Shelly(c).fields) && w.shellyOk))
  }

  // ---------- The main thread's state ----------

  datatype State = State(config: Config, collectors: Collectors)

  /** The collectors in force were built from the sections of the configuration in force. */
  predicate Match(s: State) {
    && SameSections(s.collectors.from, s.config)
    && DeviceType(s.config).Str? && Shelly(s.config).Obj?
    && (s.collectors.shelly ==> ShellyEnabled(Shelly(s.config).fields))
  }

  /** Startup loads until something comes, and exits unless the collectors can be built. */
  function Started(w: World): Option<State> {
    match w.loaded
    case Some(Obj(c)) => (match Built(c, w) case None => None case Some(b) => Some(State(c, b)))
    case _ => None
  }

  class Reloader {
    var currentConfig: Config
    var currentCollectors: Collectors

    ghost function View(): State
      reads this
    {
      State(currentConfig, currentCollectors)
    }

    constructor (s: State)
      ensures View() == s
    {
      currentConfig, currentCollectors := s.config, s.collectors;
    }

    method InitializeCollectors(c: Config, w: World) returns (collectors: Option<Collectors>)
      ensures collectors == Built(c, w)
    {
      if "device_type" !in c || !c["device_type"].Str? || !w.deviceOk { return None; }
      var shelly := Get(c, "shelly", Obj(map[]));
      if !shelly.Obj? { return None; }
      var withShelly := false;
      if ShellyEnabled(shelly.fields) {
        if w.shellyOk { withShelly := true; }
      }
      return Some(Collectors(c, withShelly));
    }

    /** One pass of the reload loop: load and apply; any exception ends the pass. `installed`
        says that the loaded configuration is now the one in force. */
    method ReloadOnce(w: World) returns (installed: bool)
      modifies this
      ensures View() == Reloaded(old(View()), w)
      ensures installed <==> Installs(old(View()), w)
    {
      if w.loaded.None? || !w.loaded.value.Obj? { return false; }
      installed := ApplyNewConfig(w.loaded.value.fields, w);
    }

    method ApplyNewConfig(c: Config, w: World) returns (installed: bool)
      requires w.loaded == Some(Obj(c))
      modifies this
      ensures View() == Reloaded(old(View()), w)
      ensures installed <==> Installs(old(View()), w)
    {
      var needReinit := DeviceType(currentConfig) != DeviceType(c);
      var oldShelly, newShelly := Shelly(currentConfig), Shelly(c);
      if oldShelly != newShelly {
        needReinit := true;
        if !oldShelly.Obj? || !newShelly.Obj? { return false; }
      }
      if needReinit {
        var built := InitializeCollectors(c, w);
        if built.None? { return false; }
        currentCollectors := built.value;
      }
      if !ReadableMetrics(currentConfig) { return false; }
      if !ReadableMetrics(c) { return false; }
      currentConfig := c;
      return true;
    }
  }

  // ---------- What a reload means ----------

  /** The sections change and the new collectors can be built. */
  predicate Rebuilds(s: State, w: World) {
    && w.loaded.Some? && w.loaded.value.Obj?
    && !SameSections(s.config, w.loaded.value.fields)
    && Built(w.loaded.value.fields, w).Some?
    && (Shelly(s.config) != Shelly(w.loaded.value.fields) ==> Shelly(s.config).Obj?)
  }

  /** Both metrics sections are compared, for the log, before the configuration is replaced. */
  predicate Installs(s: State, w: World) {
    && w.loaded.Some? && w.loaded.value.Obj?
    && (SameSections(s.config, w.loaded.value.fields) || Rebuilds(s, w))
    && ReadableMetrics(s.config) && ReadableMetrics(w.loaded.value.fields)
  }

  function Reloaded(s: State, w: World): State {
    State(if Installs(s, w) then w.loaded.value.fields else s.config,
          if Rebuilds(s, w) then Built(w.loaded.value.fields, w).value else s.collectors)
  }

  // ---------- In terms of the two configurations ----------

  /** A missing device type counts as null, a missing Shelly section as an empty one. */
  lemma SameSectionsIff(a: Config, b: Config)
    ensures SameSections(a, b) <==>
      && At(a, "device_type").GetOr(Null) == At(b, "device_type").GetOr(Null)
      && At(a, "shelly").GetOr(Obj(map[])) == At(b, "shelly").GetOr(Obj(map[]))
  {
  }

  /** Metrics cannot be read exactly when they are true, a number other than zero, a text or a list
      that is not empty. */
  lemma ReadableMetricsIff(c: Config)
    ensures !ReadableMetrics(c) <==>
      && "metrics" in c
      && (c["metrics"] == Bool(true)
          || (c["metrics"].Num? && c["metrics"].n != 0.0)
          || (c["metrics"].Str? && c["metrics"].s != "")
          || (c["metrics"].Arr? && c["metrics"].items != []))
  {
  }

  /** Collectors can be built exactly from a textual device type whose collector can be, and no
      Shelly section or a dictionary; a Shelly collector is among them exactly when that section
      does not disable it and it can be built. */
  lemma BuiltIff(c: Config, w: World)
    ensures Built(c, w).Some? <==>
      "device_type" in c && c["device_type"].Str? && w.deviceOk && ("shelly" in c ==> c["shelly"].Obj?)
    ensures Built(c, w).Some? ==>
      && Built(c, w).value.from == c
      && (Built(c, w).value.shelly <==>
            && w.shellyOk
            && ("shelly" in c && "enabled" in c["shelly"].fields ==> c["shelly"].fields["enabled"].Truthy()))
  {
  }

  /** The exporter starts exactly with an object its collectors can be built from. */
  lemma StartsIff(w: World)
    ensures Started(w).Some? <==> w.loaded.Some? && w.loaded.value.Obj? && Built(w.loaded.value.fields, w).Some?
    ensures Started(w).Some? ==> Started(w).value.config == w.loaded.value.fields
    ensures Started(w).Some? ==> Match(Started(w).value)
  {
  }

  /** What a reload does, from any state with a readable Shelly section: nothing without an object;
      with the sections in force, the loaded configuration takes over alone if both metrics can be
      read; with others, nothing unless collectors can be built, and then those take over, and
      the configuration with them if both metrics can be read. */
  lemma ReloadOutcome(s: State, w: World)
    requires Shelly(s.config).Obj?
    ensures w.loaded.None? || !w.loaded.value.Obj? ==> Reloaded(s, w) == s
    ensures w.loaded.Some? && w.loaded.value.Obj? ==>
      var c := w.loaded.value.fields;
      var readable := ReadableMetrics(s.config) && ReadableMetrics(c);
      if SameSections(s.config, c) then Reloaded(s, w) == if readable then State(c, s.collectors) else s
      else if Built(c, w).None? then Reloaded(s, w) == s
      else Reloaded(s, w) == State(if readable then c else s.config, Built(c, w).value)
  {
    if w.loaded.Some? && w.loaded.value.Obj? { BuiltIff(w.loaded.value.fields, w); }
  }

  /** From matching collectors, a reload that does not install its configuration changes
      nothing, unless it rebuilt the collectors and then met unreadable metrics. */
  lemma FailedReloadChangesNothingIff(s: State, w: World)
    requires Match(s) && !Installs(s, w)
    ensures Reloaded(s, w) == s <==> !Rebuilds(s, w)
    ensures Rebuilds(s, w) ==> !ReadableMetrics(s.config) || !ReadableMetrics(w.loaded.value.fields)
    ensures Match(Reloaded(s, w)) <==> !Rebuilds(s, w)
  {
    if Rebuilds(s, w) {
      assert Reloaded(s, w).collectors.from == w.loaded.value.fields;
      assert !SameSections(s.config, w.loaded.value.fields);
    }
  }

  /** Such a reload exists: a loaded configuration whose metrics are a list replaces the
      collectors but is not put in force. */
  lemma FailedReloadCanReplaceCollectors() returns (s: State, w: World)
    ensures Match(s) && !Installs(s, w)
    ensures Reloaded(s, w).config == s.config && Reloaded(s, w).collectors != s.collectors
    ensures !Match(Reloaded(s, w))
  {
    var before := map["device_type" := Str("jetson_orin")];
    var after := map["device_type" := Str("edge_server"), "metrics" := Arr([Str("cpu")])];
    s, w := State(before, Collectors(before, true)), World(Some(Obj(after)), true, true);
    assert Get(map[], "enabled", Bool(true)).Truthy();
    assert after["device_type"] != before["device_type"];
    FailedReloadChangesNothingIff(s, w);
  }

  // ---------- Runs ----------

  /** Scrapes and enable requests replace the metrics of the configuration in force by a
      dictionary of flags. */
  datatype Event = ReloadRequest(w: World) | MetricsWritten(flags: map<string, bool>)

  function Step(s: State, e: Event): State {
    match e
    case ReloadRequest(w) => Reloaded(s, w)
    case MetricsWritten(flags) => s.(config := s.config["metrics" := Obj(map k <- flags :: Bool(flags[k]))])
  }

  function Run(s: State, events: seq<Event>): State {
    if events == [] then s else Step(Run(s, events[..|events| - 1]), events[|events| - 1])
  }

  /** Whether the last event that rebuilt the collectors, if any, also installed its configuration. */
  predicate LastRebuildInstalled(s: State, events: seq<Event>) {
    if events == [] then true
    else
      var before, e := Run(s, events[..|events| - 1]), events[|events| - 1];
      if e.ReloadRequest? && Rebuilds(before, e.w) then Installs(before, e.w)
      else LastRebuildInstalled(s, events[..|events| - 1])
  }

  lemma StepMatches(s: State, e: Event)
    requires Match(s)
    ensures Match(Step(s, e)) <==> !(e.ReloadRequest? && Rebuilds(s, e.w) && !Installs(s, e.w))
  {
    if e.ReloadRequest? && !Installs(s, e.w) { FailedReloadChangesNothingIff(s, e.w); }
  }

  /** The configuration in force always has sections a collector can be built from. */
  predicate Buildable(s: State) {
    DeviceType(s.config).Str? && Shelly(s.config).Obj?
  }

  /** Off the match, only a reload that rebuilds and installs leads back; in particular
      reloading the configuration in force does not. */
  lemma StepMends(s: State, e: Event)
    requires Buildable(s) && !SameSections(s.collectors.from, s.config)
    ensures Buildable(Step(s, e))
    ensures SameSections(Step(s, e).collectors.from, Step(s, e).config)
       <==> e.ReloadRequest? && Rebuilds(s, e.w) && Installs(s, e.w)
    ensures e.ReloadRequest? && Rebuilds(s, e.w) && Installs(s, e.w) ==> Match(Step(s, e))
  {
    if e.MetricsWritten? {
      assert SameSections(Step(s, e).config, s.config);
    }
  }

  /** Over every run from startup: the collectors match the configuration in force exactly when
      the last reload that rebuilt them also put its configuration in force. */
  lemma {:induction false} CollectorsMatchIff(w: World, events: seq<Event>)
    requires Started(w).Some?
    ensures var s := Started(w).value;
      && Buildable(Run(s, events))
      && (Match(Run(s, events)) <==> LastRebuildInstalled(s, events))
      && (Match(Run(s, events)) <==> SameSections(Run(s, events).collectors.from, Run(s, events).config))
  {
    var s := Started(w).value;
    if events != [] {
      var n := |events| - 1;
      CollectorsMatchIff(w, events[..n]);
      var before := Run(s, events[..n]);
      if Match(before) {
        StepMatches(before, events[n]);
        StepStaysBuildable(before, events[n]);
      } else {
        StepMends(before, events[n]);
      }
    }
  }

  lemma StepStaysBuildable(s: State, e: Event)
    requires Match(s)
    ensures Buildable(Step(s, e))
    ensures SameSections(Step(s, e).collectors.from, Step(s, e).config) <==> Match(Step(s, e))
  {
    if e.ReloadRequest? && !Installs(s, e.w) { FailedReloadChangesNothingIff(s, e.w); }
  }

  predicate LoadsReadable(w: World) {
    w.loaded.Some? && w.loaded.value.Obj? ==> ReadableMetrics(w.loaded.value.fields)
  }

  /** While every configuration ever loaded has readable metrics, the collectors always match. */
  lemma {:induction false} ReadableConfigsMatch(w: World, events: seq<Event>)
    requires Started(w).Some? && ReadableMetrics(Started(w).value.config)
    requires forall i :: 0 <= i < |events| && events[i].ReloadRequest? ==> LoadsReadable(events[i].w)
    ensures Match(Run(Started(w).value, events)) && ReadableMetrics(Run(Started(w).value, events).config)
  {
    var s := Started(w).value;
    if events != [] {
      var n := |events| - 1;
      ReadableConfigsMatch(w, events[..n]);
      StepMatches(Run(s, events[..n]), events[n]);
    }
  }

  // ---------- The reload flag ----------

  /** The flag a request sets, and whether the main thread is between reading the flag and
      clearing it. */
  datatype Flag = Flag(raised: bool, busy: bool)

  datatype FlagStep = Requested | Begins | Ends

  predicate CanFlag(f: Flag, a: FlagStep) {
    match a
    case Requested => true
    case Begins => f.raised && !f.busy
    case Ends => f.busy
  }

  function FlagNext(f: Flag, a: FlagStep): Flag {
    match a
    case Requested => Flag(true, f.busy)
    case Begins => Flag(f.raised, true)
    case Ends => Flag(false, false)
  }

  predicate FlagRun(f: Flag, steps: seq<FlagStep>)
    decreases |steps|
  {
    steps == [] || (CanFlag(f, steps[0]) && FlagRun(FlagNext(f, steps[0]), steps[1..]))
  }

  /** A request that arrives while a reload is under way is lost: no later reload starts
      without another request. */
  lemma {:induction false} RequestDuringReloadIsLost(f: Flag, steps: seq<FlagStep>)
    requires f.busy || !f.raised
    requires FlagRun(f, steps) && Requested !in steps
    ensures Begins !in steps
    decreases |steps|
  {
    if steps != [] {
      assert steps[0] in steps && forall a <- steps[1..] :: a in steps;
      RequestDuringReloadIsLost(FlagNext(f, steps[0]), steps[1..]);
      assert steps == [steps[0]] + steps[1..];
    }
  }

  function FlagAfter(f: Flag, steps: seq<FlagStep>): Flag
    decreases |steps|
  {
    if steps == [] then f else FlagAfter(FlagNext(f, steps[0]), steps[1..])
  }

  /** A request that arrives between two reloads stays pending until the next one begins. */
  lemma {:induction false} RequestBetweenReloadsWaits(f: Flag, steps: seq<FlagStep>)
    requires !f.busy && FlagRun(FlagNext(f, Requested), steps) && Begins !in steps
    ensures CanFlag(FlagAfter(FlagNext(f, Requested), steps), Begins)
  {
    if steps != [] {
      assert steps[0] in steps && forall a <- steps[1..] :: a in steps;
      RequestBetweenReloadsWaits(f, steps[1..]);
    }
  }

  /** So a request leads to a reload that starts after it, and needs no other request to, exactly
      when none is under way; then it stays pending until one begins. */
  lemma RequestIsServedIff(f: Flag)
    ensures !f.busy <==>
      exists steps :: FlagRun(FlagNext(f, Requested), steps) && Requested !in steps && Begins in steps
    ensures !f.busy <==>
      forall steps :: FlagRun(FlagNext(f, Requested), steps) && Begins !in steps
        && !FlagAfter(FlagNext(f, Requested), steps).busy
        ==> CanFlag(FlagAfter(FlagNext(f, Requested), steps), Begins)
  {
    if f.busy {
      var steps := [Ends];
      assert steps[1..] == [];
      assert FlagRun(FlagNext(f, Requested), steps) && Begins !in steps;
      assert FlagAfter(FlagNext(f, Requested), steps) == Flag(false, false);
      forall steps | FlagRun(FlagNext(f, Requested), steps) && Requested !in steps ensures Begins !in steps {
        RequestDuringReloadIsLost(FlagNext(f, Requested), steps);
      }
    } else {
      var begin := [Begins];
      assert begin[1..] == [];
      assert FlagRun(FlagNext(f, Requested), begin) && Requested !in begin && Begins in begin;
      forall steps | FlagRun(FlagNext(f, Requested), steps) && Begins !in steps
        ensures CanFlag(FlagAfter(FlagNext(f, Requested), steps), Begins)
      {
        RequestBetweenReloadsWaits(f, steps);
      }
    }
  }
}

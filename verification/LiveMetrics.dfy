/** The exporter's live metrics dictionary, shared by reference between scrapes and enable
    requests (exporter/exporter.py). A scrape takes the lock twice; an enable request once. */
module LiveMetrics {
  import opened Wrappers

  type Flags = map<string, bool>

  // ---------- What one critical section does to a dictionary ----------

  /** Discovery: names not registered yet are added, enabled. */
  function Discovered(flags: Flags, names: set<string>): Flags {
    map n <- flags.Keys + names :: if n in flags then flags[n] else true
  }

  /** One entry of an enable request; `None` stands for a value that is not a boolean. */
  datatype Update = Update(name: string, enabled: Option<bool>)

  const MAX_UPDATES := 1000

  datatype EnableReply = TooMany | BadType(name: string) | UnknownNames(names: seq<string>) | Accepted(count: nat)

  /** The entries that are processed: all up to the first that is not a boolean. */
  function Processed(updates: seq<Update>): seq<Update> {
    if updates == [] || updates[0].enabled.None? then []
    else [updates[0]] + Processed(updates[1..])
  }

  /** Known names take their new value at once, whatever becomes of the request. */
  function Assigned(flags: Flags, updates: seq<Update>): Flags {
    if updates == [] then flags
    else
      var before, u := Assigned(flags, updates[..|updates| - 1]), updates[|updates| - 1];
      if u.name in flags && u.enabled.Some? then before[u.name := u.enabled.value] else before
  }

  function UnknownIn(flags: Flags, updates: seq<Update>): seq<string> {
    if updates == [] then []
    else
      var before, u := UnknownIn(flags, updates[..|updates| - 1]), updates[|updates| - 1];
      if u.name in flags then before else before + [u.name]
  }

  function Enabled(flags: Flags, updates: seq<Update>): (Flags, EnableReply) {
    if |updates| > MAX_UPDATES then (flags, TooMany)
    else
      var done := Processed(updates);
      (Assigned(flags, done),
       if |done| < |updates| then BadType(updates[|done|].name)
       else if UnknownIn(flags, updates) != [] then UnknownNames(UnknownIn(flags, updates))
       else Accepted(|updates|))
  }

  // ---------- The shared memory ----------

  /** Dictionaries by reference; `current` is what the configuration holds under "metrics"
      (`None` when the key is absent or null), `scrapes` what each scrape between its two
      critical sections has taken, and `exposing` the same for scrapes past the second, which
      look up the flag of each metric, without the lock, when they yield it. */
  datatype Memory<R> = Memory(dicts: map<R, Flags>, current: Option<R>, scrapes: map<nat, R>, exposing: map<nat, R>) {
    predicate Valid() {
      && (current.Some? ==> current.value in dicts)
      && (forall t <- scrapes :: scrapes[t] in dicts)
      && (forall t <- exposing :: exposing[t] in dicts)
    }

    /** No scrape is under way. */
    predicate Idle() { scrapes == map[] && exposing == map[] }

    /** Whether a scrape would yield a metric now. */
    predicate Exposes(t: nat, name: string)
      requires Valid() && t in exposing
    {
      At(dicts[exposing[t]], name) == Some(true)
    }

    /** What a reader of the configuration sees. */
    function Current(): Flags
      requires Valid()
    {
      if current.Some? then dicts[current.value] else map[]
    }
  }

  /** `unused` is the reference a new empty dictionary gets, if the step makes one. */
  datatype Event<R> =
    | ScrapeBegins(t: nat, unused: R)
    | ScrapeEnds(t: nat, names: set<string>)
    | ScrapeDone(t: nat)
    | Enable(updates: seq<Update>, unused: R)

  predicate Possible<R(==)>(m: Memory<R>, e: Event<R>) {
    match e
    case ScrapeBegins(t, unused) =>
      t !in m.scrapes && t !in m.exposing && (m.Valid() && m.Current() == map[] ==> unused !in m.dicts)
    case ScrapeEnds(t, _) => t in m.scrapes
    case ScrapeDone(t) => t in m.exposing
    case Enable(_, unused) => m.Valid() && m.Current() == map[] ==> unused !in m.dicts
  }

  /** get("metrics") or {}: the shared dictionary when it is non-empty, else a new private one. */
  function GetOrNew<R(==)>(m: Memory<R>, unused: R): (Memory<R>, R)
    requires m.Valid()
  {
    if m.Current() != map[] then (m, m.current.value)
    else (m.(dicts := m.dicts[unused := map[]]), unused)
  }

  function Next<R(==)>(m: Memory<R>, e: Event<R>): Memory<R>
    requires m.Valid() && Possible(m, e)
  {
    match e
    case ScrapeBegins(t, unused) =>
      var (n, r) := GetOrNew(m, unused);
      n.(scrapes := n.scrapes[t := r])
    case ScrapeEnds(t, names) =>
      var r := m.scrapes[t];
      var n := m.(scrapes := m.scrapes - {t}, exposing := m.exposing[t := r]);
      if names <= m.dicts[r].Keys then n
      else n.(dicts := n.dicts[r := Discovered(m.dicts[r], names)], current := Some(r))
    case ScrapeDone(t) => m.(exposing := m.exposing - {t})
    case Enable(updates, unused) =>
      if |updates| > MAX_UPDATES then m
      else
        var (n, r) := GetOrNew(m, unused);
        var (flags, reply) := Enabled(n.dicts[r], updates);
        n.(dicts := n.dicts[r := flags], current := if reply.Accepted? then Some(r) else n.current)
  }

  lemma NextValid<R>(m: Memory<R>, e: Event<R>)
    requires m.Valid() && Possible(m, e)
    ensures Next(m, e).Valid()
  {
  }

  function Exec<R(==)>(m: Memory<R>, events: seq<Event<R>>): (r: Option<Memory<R>>)
    requires m.Valid()
    ensures r.Some? ==> r.value.Valid()
  {
    if events == [] then Some(m)
    else
      var n := |events| - 1;
      match Exec(m, events[..n])
      case None => None
      case Some(p) =>
        if Possible(p, events[n]) then
          NextValid(p, events[n]);
          Some(Next(p, events[n]))
        else None
  }

  // ---------- The simple meaning: one dictionary, whole requests in order ----------

  function Simple<R>(flags: Flags, events: seq<Event<R>>): Flags {
    if events == [] then flags
    else
      SimpleStep(Simple(flags, events[..|events| - 1]), events[|events| - 1])
  }

  function SimpleStep<R>(flags: Flags, e: Event<R>): Flags {
    match e
    case ScrapeBegins(_, _) => flags
    case ScrapeEnds(_, names) => Discovered(flags, names)
    case ScrapeDone(_) => flags
    case Enable(updates, _) => Enabled(flags, updates).0
  }

  lemma DiscoveredNothing(flags: Flags, names: set<string>)
    requires names <= flags.Keys
    ensures Discovered(flags, names) == flags
  {
    assert flags.Keys + names == flags.Keys;
  }

  lemma {:induction false} AssignedKeys(flags: Flags, updates: seq<Update>)
    ensures Assigned(flags, updates).Keys == flags.Keys
  {
    if updates != [] { AssignedKeys(flags, updates[..|updates| - 1]); }
  }

  /** Everybody works on the one dictionary the configuration holds, and it is not empty. */
  predicate Shared<R(==)>(m: Memory<R>, flags: Flags) {
    && m.Valid() && m.current.Some? && m.Current() == flags != map[]
    && (forall t <- m.scrapes :: m.scrapes[t] == m.current.value)
    && (forall t <- m.exposing :: m.exposing[t] == m.current.value)
  }

  lemma SharedStep<R>(m: Memory<R>, e: Event<R>, flags: Flags)
    requires Shared(m, flags) && Possible(m, e)
    ensures Shared(Next(m, e), SimpleStep(flags, e))
  {
    match e {
      case ScrapeBegins(_, _) =>
      case ScrapeEnds(_, names) =>
        if names <= flags.Keys { DiscoveredNothing(flags, names); }
        assert Discovered(flags, names).Keys == flags.Keys + names;
      case ScrapeDone(_) =>
      case Enable(updates, _) =>
        AssignedKeys(flags, Processed(updates));
    }
  }

  /** From a non-empty dictionary every interleaving of scrapes and enable requests has the
      simple meaning: nothing is lost between a scrape's two critical sections. */
  lemma {:induction false} InterleavingsAreSimple<R>(m: Memory<R>, events: seq<Event<R>>)
    requires m.Valid() && m.Idle() && m.Current() != map[]
    requires Exec(m, events).Some?
    ensures Shared(Exec(m, events).value, Simple(m.Current(), events))
  {
    if events != [] {
      var n := |events| - 1;
      InterleavingsAreSimple(m, events[..n]);
      SharedStep(Exec(m, events[..n]).value, events[n], Simple(m.Current(), events[..n]));
    }
  }

  // ---------- What the simple meaning keeps ----------

  /** The last value a request assigns to a name, if it assigns it at all. */
  function LastIn(updates: seq<Update>, name: string): Option<bool> {
    if updates == [] then None
    else if updates[|updates| - 1].name == name then updates[|updates| - 1].enabled
    else LastIn(updates[..|updates| - 1], name)
  }

  /** The last value any enable request of the run assigned to a name it knew. */
  function LastAssigned<R>(flags: Flags, events: seq<Event<R>>, name: string): Option<bool> {
    if events == [] then None
    else
      var n := |events| - 1;
      var before := LastAssigned(flags, events[..n], name);
      if events[n].Enable? && |events[n].updates| <= MAX_UPDATES && name in Simple(flags, events[..n])
         && LastIn(Processed(events[n].updates), name).Some?
      then LastIn(Processed(events[n].updates), name)
      else before
  }

  lemma {:induction false} AssignedValue(flags: Flags, updates: seq<Update>, name: string)
    requires name in flags && forall u <- updates :: u.enabled.Some?
    ensures At(Assigned(flags, updates), name) ==
      if LastIn(updates, name).Some? then LastIn(updates, name) else At(flags, name)
  {
    if updates != [] {
      var n := |updates| - 1;
      assert updates[n] in updates && forall u <- updates[..n] :: u in updates;
      AssignedValue(flags, updates[..n], name);
      AssignedKeys(flags, updates[..n]);
    }
  }

  /** A request, accepted or rejected half way, changes the flags exactly when the entries it
      processed end on a different value for some known name. */
  lemma RequestChangesIff(flags: Flags, updates: seq<Update>)
    requires |updates| <= MAX_UPDATES
    ensures Enabled(flags, updates).0 != flags <==>
      exists name <- flags :: LastIn(Processed(updates), name) == Some(!flags[name])
  {
    var done := Processed(updates);
    ProcessedAreBooleans(updates);
    AssignedKeys(flags, done);
    forall name <- flags
      ensures Assigned(flags, done)[name] != flags[name] <==> LastIn(done, name) == Some(!flags[name])
    {
      AssignedValue(flags, done, name);
    }
  }

  /** So rejection is not all or nothing: a known name before an unknown one is assigned. */
  lemma RejectedRequestCanWrite()
    ensures var updates := [Update("a", Some(false)), Update("b", Some(true))];
      && Enabled(map["a" := true], updates).1 == UnknownNames(["b"])
      && Enabled(map["a" := true], updates).0 == map["a" := false]
  {
    var flags: Flags, a, b := map["a" := true], Update("a", Some(false)), Update("b", Some(true));
    var updates := [a, b];
    assert [b][1..] == [] && Processed([b][1..]) == [] && Processed([b]) == [b];
    assert updates[1..] == [b] && Processed(updates) == updates;
    assert updates[..1] == [a] && [a][..0] == [];
    assert Assigned(flags, []) == flags && Assigned(flags, [a]) == flags["a" := false] == map["a" := false];
    assert UnknownIn(flags, []) == [] && UnknownIn(flags, [a]) == [] && UnknownIn(flags, updates) == ["b"];
  }

  lemma {:induction false} ProcessedAreBooleans(updates: seq<Update>)
    ensures forall u <- Processed(updates) :: u.enabled.Some?
    ensures Processed(updates) <= updates
  {
    if updates != [] && updates[0].enabled.Some? { ProcessedAreBooleans(updates[1..]); }
  }

  predicate Discovers<R>(e: Event<R>, name: string) {
    e.ScrapeEnds? && name in e.names
  }

  /** Names are those there were and those discovered, and each flag is the last value an enable request assigned to it,
      or else its initial value, or else the enabled of its discovery. */
  lemma {:induction false} FlagsOfRun<R>(flags: Flags, events: seq<Event<R>>, name: string)
    ensures flags.Keys <= Simple(flags, events).Keys
    ensures name in Simple(flags, events) ==>
      Simple(flags, events)[name] ==
        match LastAssigned(flags, events, name)
        case Some(b) => b
        case None => if name in flags then flags[name] else true
    ensures name !in Simple(flags, events) ==> LastAssigned(flags, events, name) == None
    ensures name in Simple(flags, events) <==>
      name in flags || exists i :: 0 <= i < |events| && Discovers(events[i], name)
  {
    if events != [] {
      var n := |events| - 1;
      FlagsOfRun(flags, events[..n], name);
      var before := Simple(flags, events[..n]);
      assert forall i :: 0 <= i < n ==> events[..n][i] == events[i];
      if events[n].Enable? {
        var done := Processed(events[n].updates);
        AssignedKeys(before, done);
        ProcessedAreBooleans(events[n].updates);
        if name in before { AssignedValue(before, done, name); }
      }
    }
  }

  /** Lost-update freedom, on the real memory: from a non-empty dictionary, over every
      reload-free interleaving. */
  lemma NoLostUpdates<R>(m: Memory<R>, events: seq<Event<R>>, name: string)
    requires m.Valid() && m.Idle() && m.Current() != map[]
    requires Exec(m, events).Some?
    ensures var flags := Exec(m, events).value.Current();
      && m.Current().Keys <= flags.Keys
      && (name in flags <==> name in m.Current() || exists i :: 0 <= i < |events| && Discovers(events[i], name))
      && (name in flags ==>
            flags[name] == match LastAssigned(m.Current(), events, name)
              case Some(b) => b
              case None => if name in m.Current() then m.Current()[name] else true)
  {
    InterleavingsAreSimple(m, events);
    FlagsOfRun(m.Current(), events, name);
  }

  /** Flags are looked up after the lock is released; still a scrape then yields a metric exactly
      when it is enabled in the configuration in force at that moment. */
  lemma ExposedIsEnabledNow<R>(m: Memory<R>, events: seq<Event<R>>, t: nat, name: string)
    requires m.Valid() && m.Idle() && m.Current() != map[]
    requires Exec(m, events).Some? && t in Exec(m, events).value.exposing
    ensures var n := Exec(m, events).value;
      n.Exposes(t, name) <==> At(n.Current(), name) == Some(true)
  {
    InterleavingsAreSimple(m, events);
  }

  // ---------- An empty dictionary does lose updates ----------

  lemma OneMore<R>(m: Memory<R>, flags: Flags, events: seq<Event<R>>, e: Event<R>)
    requires m.Valid() && Exec(m, events).Some? && Possible(Exec(m, events).value, e)
    ensures Exec(m, events + [e]) == Some(Next(Exec(m, events).value, e))
    ensures Simple(flags, events + [e]) == SimpleStep(Simple(flags, events), e)
  {
    assert (events + [e])[..|events|] == events;
  }

  lemma EndOnEmpty<R>(m: Memory<R>, t: nat, name: string)
    requires m.Valid() && t in m.scrapes && m.dicts[m.scrapes[t]] == map[]
    ensures Next(m, ScrapeEnds(t, {name})) ==
      Memory(m.dicts[m.scrapes[t] := map[name := true]], Some(m.scrapes[t]), m.scrapes - {t},
             m.exposing[t := m.scrapes[t]])
  {
    assert Discovered(map[], {name}) == map[name := true];
  }

  const TURN_OFF := [Update("a", Some(false))]

  lemma TurnedOff(flags: Flags)
    requires flags == map["a" := true]
    ensures Enabled(flags, TURN_OFF) == (map["a" := false], Accepted(1))
  {
    var updates := TURN_OFF;
    assert updates[1..] == [] && Processed(updates[1..]) == [];
    assert Processed(updates) == updates;
    assert updates[..0] == [];
    assert Assigned(flags, updates[..0]) == flags && UnknownIn(flags, updates[..0]) == [];
    assert Assigned(flags, updates) == flags["a" := false] == map["a" := false];
    assert UnknownIn(flags, updates) == [];
  }

  /** Two scrapes that both start on an empty dictionary make one each; when the second ends,
      its dictionary replaces the first one's, and with it an accepted request to turn a
      metric off. */
  lemma EmptyStartLoses<R>(m: Memory<R>, r1: R, r2: R) returns (events: seq<Event<R>>)
    requires m.Valid() && m.Idle() && m.Current() == map[]
    requires r1 !in m.dicts && r2 !in m.dicts && r1 != r2
    ensures Exec(m, events).Some?
    ensures Exec(m, events).value.Current() == map["a" := true]
    ensures Simple(map[], events) == map["a" := false]
  {
    var e2 := TwoScrapesBegin(m, r1, r2);
    hide Exec, Simple;
    var m2 := Exec(m, e2).value;
    EndOnEmpty(m2, 1, "a");
    OneMore(m, map[], e2, ScrapeEnds(1, {"a"}));
    var e3 := e2 + [ScrapeEnds(1, {"a"})];
    var m3 := Exec(m, e3).value;
    assert m3.Current() == map["a" := true] && m3.dicts[r2] == map[];
    assert Discovered(map[], {"a"}) == map["a" := true];
    TurnedOff(m3.Current());
    OneMore(m, map[], e3, Enable(TURN_OFF, r2));
    var e4 := e3 + [Enable(TURN_OFF, r2)];
    var m4 := Exec(m, e4).value;
    assert m4.dicts[r2] == map[] && Simple(map[], e4) == map["a" := false];
    EndOnEmpty(m4, 2, "a");
    OneMore(m, map[], e4, ScrapeEnds(2, {"a"}));
    DiscoveredNothing(map["a" := false], {"a"});
    events := e4 + [ScrapeEnds(2, {"a"})];
  }

  lemma TwoScrapesBegin<R>(m: Memory<R>, r1: R, r2: R) returns (events: seq<Event<R>>)
    requires m.Valid() && m.Idle() && m.Current() == map[]
    requires r1 !in m.dicts && r2 !in m.dicts && r1 != r2
    ensures Exec(m, events).Some? && Simple(map[], events) == map[]
    ensures var n := Exec(m, events).value;
      && n.scrapes == map[1 := r1, 2 := r2] && n.dicts == m.dicts[r1 := map[]][r2 := map[]]
  {
    assert Exec(m, []) == Some(m) && Simple<R>(map[], []) == map[];
    hide Exec, Simple;
    OneMore(m, map[], [], ScrapeBegins(1, r1));
    OneMore(m, map[], [] + [ScrapeBegins(1, r1)], ScrapeBegins(2, r2));
    events := [] + [ScrapeBegins(1, r1)] + [ScrapeBegins(2, r2)];
  }

  /** So every interleaving has the simple meaning exactly when the dictionary starts non-empty. */
  lemma LosslessIff<R>(m: Memory<R>, r1: R, r2: R)
    requires m.Valid() && m.Idle()
    requires r1 !in m.dicts && r2 !in m.dicts && r1 != r2
    ensures m.Current() != map[] <==>
      forall events: seq<Event<R>> :: Exec(m, events).Some? ==>
        Exec(m, events).value.Current() == Simple(m.Current(), events)
  {
    if m.Current() == map[] {
      var events := EmptyStartLoses(m, r1, r2);
      assert Simple(map[], events)["a"] != Exec(m, events).value.Current()["a"];
    } else {
      forall events: seq<Event<R>> | Exec(m, events).Some?
        ensures Exec(m, events).value.Current() == Simple(m.Current(), events)
      {
        InterleavingsAreSimple(m, events);
      }
    }
  }
}

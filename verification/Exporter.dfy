/** The exporter's objects: a configuration holding a reference to its metrics dictionary, and
    the critical sections that read and write it (exporter/exporter.py). */
module Exporter {
  import opened Wrappers
  import opened LiveMetrics

  class MetricsDict {
    var flags: Flags

    constructor ()
      ensures flags == map[]
    {
      flags := map[];
    }
  }

  /** What may arrive in an enable request. A length that is no number, or a failing read, raises
      before the handler has imported the module its except clause names: no reply is sent at all. */
  datatype Body = Unreceivable | Oversized | Undecodable | NotJson | NotObject | Updates(updates: seq<Update>)

  datatype Reply = NoReply | Refused(code: nat) | Answered(reply: EnableReply)

  /** An accepted request that cannot be saved is answered with an error, but stays applied. */
  function ReplyTo(flags: Flags, body: Body, saved: bool): Reply {
    match body
    case Unreceivable => NoReply
    case Oversized => Refused(413)
    case Undecodable => Refused(500)
    case NotJson => Refused(400)
    case NotObject => Refused(400)
    case Updates(updates) =>
      if |updates| > MAX_UPDATES then Refused(400)
      else if Enabled(flags, updates).1.Accepted? && !saved then Refused(500)
      else Answered(Enabled(flags, updates).1)
  }

  class Exporter {
    var metrics: MetricsDict?                 // current_config["metrics"]
    var scrapes: map<nat, MetricsDict>        // metrics_config of each scrape between its locks
    var exposing: map<nat, MetricsDict>       // the same of each scrape past them
    ghost var dicts: set<MetricsDict>         // every dictionary made so far

    ghost predicate Valid()
      reads this
    {
      (metrics != null ==> metrics in dicts) && scrapes.Values <= dicts && exposing.Values <= dicts
    }

    ghost function View(): (m: Memory<MetricsDict>)
      requires Valid()
      reads this, dicts
      ensures m.Valid()
    {
      assert forall t <- scrapes :: scrapes[t] in scrapes.Values;
      assert forall t <- exposing :: exposing[t] in exposing.Values;
      Memory(map d <- dicts :: d.flags,
             if metrics == null then None else Some(metrics as MetricsDict), scrapes, exposing)
    }

    constructor ()
      ensures Valid() && View() == Memory(map[], None, map[], map[])
    {
      metrics, scrapes, exposing, dicts := null, map[], map[], {};
    }

    /** get("metrics") or {} */
    method GetOrNew() returns (d: MetricsDict)
      requires Valid()
      modifies this`dicts
      ensures Valid() && d in dicts && dicts == old(dicts) + {d}
      ensures old(View().Current()) == map[] ==> fresh(d)
      ensures d.flags == old(View().Current())
      ensures (View(), d) == LiveMetrics.GetOrNew(old(View()), d)
    {
      ghost var before := View();
      if metrics != null && metrics.flags != map[] {
        assert dicts == dicts + {metrics};
        return metrics;
      }
      d := new MetricsDict();
      dicts := dicts + {d};
      assert View().dicts == before.dicts[d := map[]];
    }

    /** The first critical section of a scrape. */
    method BeginScrape(t: nat) returns (captured: MetricsDict)
      requires Valid() && t !in scrapes && t !in exposing
      modifies this
      ensures Valid() && Possible(old(View()), ScrapeBegins(t, captured))
      ensures View() == Next(old(View()), ScrapeBegins(t, captured))
      ensures dicts == old(dicts) + {captured} && fresh(dicts - old(dicts))
    {
      ghost var before := View();
      captured := GetOrNew();
      scrapes := scrapes[t := captured];
      assert Possible(before, ScrapeBegins(t, captured));
    }

    /** Its second critical section, after the collectors have run. */
    method EndScrape(t: nat, names: set<string>)
      requires Valid() && t in scrapes
      modifies this, dicts
      ensures Valid() && View() == Next(old(View()), ScrapeEnds(t, names))
      ensures dicts == old(dicts)
    {
      var captured := scrapes[t];
      assert captured in scrapes.Values;
      Pass(t, captured);
      Discover(captured, names);
    }

    method Discover(captured: MetricsDict, names: set<string>)
      requires Valid() && captured in dicts
      modifies this`metrics, captured
      ensures Valid() && View() ==
        if names <= old(captured.flags.Keys) then old(View())
        else old(View()).(dicts := old(View().dicts)[captured := Discovered(old(captured.flags), names)],
                          current := Some(captured))
    {
      ghost var before, flags := View(), captured.flags;
      DiscoveredByAdding(flags, names);
      var newMetrics := names - captured.flags.Keys;
      if newMetrics != {} {
        captured.flags := captured.flags + map n <- newMetrics :: true;
        metrics := captured;
        assert View().dicts == before.dicts[captured := Discovered(flags, names)];
      } else {
        assert View() == before;
      }
    }

    method Pass(t: nat, captured: MetricsDict)
      requires Valid() && captured in dicts
      modifies this`scrapes, this`exposing
      ensures Valid() && View() == old(View()).(scrapes := old(scrapes) - {t}, exposing := old(exposing)[t := captured])
    {
      scrapes, exposing := scrapes - {t}, exposing[t := captured];
    }

    /** One metric's turn to be yielded, at any later time. */
    method Expose(t: nat, name: string) returns (exposed: bool)
      requires Valid() && t in exposing
      ensures exposed <==> View().Exposes(t, name)
    {
      assert exposing[t] in exposing.Values;
      return name in exposing[t].flags && exposing[t].flags[name];
    }

    method FinishScrape(t: nat)
      requires Valid() && t in exposing
      modifies this`exposing
      ensures Valid() && View() == Next(old(View()), ScrapeDone(t))
    {
      exposing := exposing - {t};
    }

    /** An enable request; `used` is the dictionary it worked on, if it got that far. */
    method PostEnable(body: Body, saved: bool) returns (reply: Reply, ghost used: Option<MetricsDict>)
      requires Valid()
      modifies this, dicts
      ensures Valid() && fresh(dicts - old(dicts))
      ensures reply == ReplyTo(old(View().Current()), body, saved)
      ensures used.Some? <==> body.Updates? && |body.updates| <= MAX_UPDATES
      ensures match used
        case None => View() == old(View())
        case Some(d) =>
          Possible(old(View()), Enable(body.updates, d)) && View() == Next(old(View()), Enable(body.updates, d))
    {
      if body.Unreceivable? { return NoReply, None; }
      if body.Oversized? { return Refused(413), None; }
      if body.Undecodable? { return Refused(500), None; }
      if body.NotJson? || body.NotObject? { return Refused(400), None; }
      if |body.updates| > MAX_UPDATES { return Refused(400), None; }
      var r, d := EnableLocked(body.updates);
      used := Some(d);
      reply := Answered(r);
      if r.Accepted? && !saved { reply := Refused(500); }
    }

    /** Its critical section: entries are applied one by one until one is not a boolean, and
        unknown names are only rejected after the known ones were assigned. */
    method EnableLocked(updates: seq<Update>) returns (reply: EnableReply, used: MetricsDict)
      requires Valid() && |updates| <= MAX_UPDATES
      modifies this, dicts
      ensures Valid() && fresh(dicts - old(dicts))
      ensures Possible(old(View()), Enable(updates, used))
      ensures View() == Next(old(View()), Enable(updates, used))
      ensures reply == Enabled(old(View().Current()), updates).1
    {
      hide Enabled;
      used := GetOrNew();
      reply := EnableIn(used, updates);
    }

    method EnableIn(d: MetricsDict, updates: seq<Update>) returns (reply: EnableReply)
      requires Valid() && d in dicts && |updates| <= MAX_UPDATES
      modifies this`metrics, d
      ensures Valid() && reply == Enabled(old(d.flags), updates).1
      ensures View() == old(View()).(dicts := old(View().dicts)[d := Enabled(old(d.flags), updates).0],
                                     current := if reply.Accepted? then Some(d) else old(View().current))
    {
      hide Enabled;
      ghost var before, flags := View(), d.flags;
      reply := EnableOn(d, updates);
      if reply.Accepted? { metrics := d; }
      assert View().dicts == before.dicts[d := Enabled(flags, updates).0];
    }

    method EnableOn(d: MetricsDict, updates: seq<Update>) returns (reply: EnableReply)
      requires |updates| <= MAX_UPDATES
      modifies d
      ensures (d.flags, reply) == Enabled(old(d.flags), updates)
    {
      var done, invalid := ApplyUpdates(d, updates);
      ProcessedLength(updates);
      if done < |updates| { return BadType(updates[done].name); }
      if invalid != [] { return UnknownNames(invalid); }
      return Accepted(|updates|);
    }

    method ApplyUpdates(d: MetricsDict, updates: seq<Update>) returns (done: nat, invalid: seq<string>)
      modifies d
      ensures done == |Processed(updates)| <= |updates|
      ensures d.flags == Assigned(old(d.flags), Processed(updates))
      ensures invalid == UnknownIn(old(d.flags), Processed(updates))
    {
      ghost var flags := d.flags;
      invalid, done := [], 0;
      while done < |updates|
        invariant done <= |updates| && forall i :: 0 <= i < done ==> updates[i].enabled.Some?
        invariant d.flags == Assigned(flags, updates[..done])
        invariant invalid == UnknownIn(flags, updates[..done])
      {
        assert updates[..done + 1][..done] == updates[..done];
        AssignedKeys(flags, updates[..done]);
        if updates[done].enabled.None? { break; }
        if updates[done].name !in d.flags {
          invalid := invalid + [updates[done].name];
        } else {
          d.flags := d.flags[updates[done].name := updates[done].enabled.value];
        }
        done := done + 1;
      }
      ProcessedIsPrefix(updates, done);
    }
  }

  lemma DiscoveredByAdding(flags: Flags, names: set<string>)
    ensures Discovered(flags, names) == flags + map n <- names - flags.Keys :: true
  {
  }

  lemma {:induction false} ProcessedLength(updates: seq<Update>)
    ensures |Processed(updates)| == |updates| ==> Processed(updates) == updates
  {
    ProcessedAreBooleans(updates);
  }

  lemma {:induction false} ProcessedIsPrefix(updates: seq<Update>, k: nat)
    requires k <= |updates| && forall i :: 0 <= i < k ==> updates[i].enabled.Some?
    requires k < |updates| ==> updates[k].enabled.None?
    ensures Processed(updates) == updates[..k]
  {
    if k > 0 {
      ProcessedIsPrefix(updates[1..], k - 1);
      assert updates[..k] == [updates[0]] + updates[1..][..k - 1];
    }
  }

  // ---------- What is answered, entry by entry ----------

  lemma {:induction false} UnknownInIff(flags: Flags, updates: seq<Update>)
    ensures forall name :: name in UnknownIn(flags, updates) <==>
      exists u <- updates :: u.name == name && name !in flags
  {
    if updates != [] {
      var n := |updates| - 1;
      UnknownInIff(flags, updates[..n]);
      assert updates == updates[..n] + [updates[n]];
    }
  }

  /** Where processing stops: at the first entry that is not a boolean. */
  predicate StopsAt(updates: seq<Update>, k: nat) {
    k < |updates| && updates[k].enabled.None? && forall i :: 0 <= i < k ==> updates[i].enabled.Some?
  }

  predicate AllBooleans(updates: seq<Update>) {
    forall i :: 0 <= i < |updates| ==> updates[i].enabled.Some?
  }

  lemma StopsOnce(updates: seq<Update>, k: nat)
    requires StopsAt(updates, k)
    ensures Processed(updates) == updates[..k]
  {
    ProcessedIsPrefix(updates, k);
  }

  lemma NeverStops(updates: seq<Update>)
    requires AllBooleans(updates)
    ensures Processed(updates) == updates
  {
    ProcessedIsPrefix(updates, |updates|);
    assert updates[..|updates|] == updates;
  }

  lemma {:induction false} FirstWrong(updates: seq<Update>) returns (k: nat)
    requires !AllBooleans(updates)
    ensures StopsAt(updates, k)
  {
    k := 0;
    while updates[k].enabled.Some?
      invariant k < |updates| && (forall i :: 0 <= i < k ==> updates[i].enabled.Some?)
      decreases |updates| - k
    {
      assert exists i :: k < i < |updates| && updates[i].enabled.None?;
      k := k + 1;
    }
  }

  /** A wrong type is answered exactly when some entry is not a boolean, and names the first. */
  lemma BadTypeIff(flags: Flags, updates: seq<Update>)
    requires |updates| <= MAX_UPDATES
    ensures Enabled(flags, updates).1.BadType? <==> !AllBooleans(updates)
    ensures forall k: nat :: StopsAt(updates, k) ==> Enabled(flags, updates).1 == BadType(updates[k].name)
  {
    if AllBooleans(updates) {
      NeverStops(updates);
    } else {
      var first := FirstWrong(updates);
      forall k: nat | StopsAt(updates, k) ensures Enabled(flags, updates).1 == BadType(updates[k].name) {
        StopsOnce(updates, k);
      }
    }
    hide Processed;
  }

  /** When every entry is a boolean: unknown names are answered, all of them, if there are any,
      and otherwise success, with the number of entries. */
  lemma UnknownNamesIff(flags: Flags, updates: seq<Update>)
    requires |updates| <= MAX_UPDATES && AllBooleans(updates)
    ensures Enabled(flags, updates).1.UnknownNames? <==> exists u <- updates :: u.name !in flags
    ensures Enabled(flags, updates).1.UnknownNames? ==>
      forall name :: name in Enabled(flags, updates).1.names <==>
        exists u <- updates :: u.name == name && name !in flags
    ensures !Enabled(flags, updates).1.UnknownNames? ==> Enabled(flags, updates).1 == Accepted(|updates|)
  {
    NeverStops(updates);
    UnknownInIff(flags, updates);
    hide Processed;
    var unknown := UnknownIn(flags, updates);
    if unknown != [] { assert unknown[0] in unknown; }
    if u :| u in updates && u.name !in flags { assert u.name in unknown; }
  }

  /** Success is answered exactly when every entry is a boolean of a known name and the save
      succeeded, and a server error when all but that holds; the other codes say what was wrong
      with the request before it was looked into. */
  lemma RepliesIff(flags: Flags, body: Body, saved: bool)
    ensures var r := ReplyTo(flags, body, saved);
      var inLimit := body.Updates? && |body.updates| <= MAX_UPDATES;
      var good := inLimit && AllBooleans(body.updates) && forall u <- body.updates :: u.name in flags;
      && (r.Answered? && r.reply.Accepted? <==> good && saved)
      && (r == Refused(500) <==> body.Undecodable? || (good && !saved))
      && (r == Refused(413) <==> body.Oversized?)
      && (r == Refused(400) <==> body.NotJson? || body.NotObject? || (body.Updates? && !inLimit))
      && (r == NoReply <==> body.Unreceivable?)
  {
    if body.Updates? && |body.updates| <= MAX_UPDATES {
      BadTypeIff(flags, body.updates);
      if AllBooleans(body.updates) { UnknownNamesIff(flags, body.updates); }
      hide Enabled, AllBooleans;
    }
  }
}

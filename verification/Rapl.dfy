/** Power from wrapping energy counters (exporter/collectors/edge_server.py). Energies are in
    microjoules, times in seconds. */
module Rapl {
  import opened Wrappers

  datatype Reading = Reading(energy: int, time: real)

  /** The growth between two readings, corrected by the advertised range when it is negative. */
  function Delta(before: int, after: int, maxRange: nat): int {
    var d := after - before;
    if d < 0 && maxRange > 0 then d + maxRange else d
  }

  function Watts(prev: Option<Reading>, reading: Option<int>, now: real, maxRange: nat): Option<real> {
    if prev.None? || reading.None? || now - prev.value.time <= 0.0 then None
    else Some(Delta(prev.value.energy, reading.value, maxRange) as real / 1000000.0 / (now - prev.value.time))
  }

  /** A failed read leaves the previous reading in place. */
  function Remembered(prev: Option<Reading>, reading: Option<int>, now: real): Option<Reading> {
    if reading.None? then prev else Some(Reading(reading.value, now))
  }

  class RaplCollector {
    const domains: map<string, nat>       // advertised range of each domain, 0 when unknown
    var prev: map<string, Reading>

    constructor (domains: map<string, nat>)
      ensures this.domains == domains && prev == map[]
    {
      this.domains, prev := domains, map[];
    }

    method CollectRapl(readings: string -> Option<int>, now: real) returns (watts: map<string, real>)
      modifies this
      ensures forall k <- domains ::
        && At(watts, k) == Watts(At(old(prev), k), readings(k), now, domains[k])
        && At(prev, k) == Remembered(At(old(prev), k), readings(k), now)
      ensures forall k :: k !in domains ==> k !in watts && At(prev, k) == At(old(prev), k)
    {
      watts := map[];
      var left := domains.Keys;
      while left != {}
        invariant left <= domains.Keys
        invariant forall k <- domains | k !in left ::
          && At(watts, k) == Watts(At(old(prev), k), readings(k), now, domains[k])
          && At(prev, k) == Remembered(At(old(prev), k), readings(k), now)
        invariant forall k :: k in left || k !in domains ==> k !in watts && At(prev, k) == At(old(prev), k)
      {
        hide Watts, Remembered;
        var key :| key in left;
        left := left - {key};
        var w := CollectDomain(key, readings(key), now);
        if w.Some? { watts := watts[key := w.value]; }
      }
    }

    method CollectDomain(key: string, reading: Option<int>, now: real) returns (w: Option<real>)
      requires key in domains
      modifies this
      ensures w == Watts(At(old(prev), key), reading, now, domains[key])
      ensures At(prev, key) == Remembered(At(old(prev), key), reading, now)
      ensures forall k :: k != key ==> At(prev, k) == At(old(prev), k)
    {
      w := None;
      if reading.None? { return; }
      if key in prev {
        var dt := now - prev[key].time;
        if dt > 0.0 {
          var delta := reading.value - prev[key].energy;
          if delta < 0 && domains[key] > 0 { delta := delta + domains[key]; }
          w := Some(delta as real / 1000000.0 / dt);
        }
      }
      prev := prev[key := Reading(reading.value, now)];
    }
  }

  // ---------- One domain over a run of samples ----------

  /** The true energy used so far and whether it could be read; the counter shows it modulo
      `modulus`. */
  datatype Sample = Sample(energy: nat, readable: bool, time: real) {
    function Read(modulus: nat): Option<int>
      requires modulus > 0
    {
      if readable then Some(Shown(energy, modulus)) else None
    }
  }

  function Shown(energy: nat, modulus: nat): nat
    requires modulus > 0
  {
    energy % modulus
  }

  /** In microjoules. */
  function Energy(watts: real, seconds: real): real {
    watts * seconds * 1000000.0
  }

  function Previous(samples: seq<Sample>, modulus: nat): Option<Reading>
    requires modulus > 0
  {
    if samples == [] then None
    else
      var n := |samples| - 1;
      Remembered(Previous(samples[..n], modulus), samples[n].Read(modulus), samples[n].time)
  }

  /** The energy the reported powers amount to, each over the interval it covers. */
  function Reported(samples: seq<Sample>, modulus: nat, maxRange: nat): real
    requires modulus > 0
  {
    if samples == [] then 0.0
    else
      var n := |samples| - 1;
      var prev := Previous(samples[..n], modulus);
      Reported(samples[..n], modulus, maxRange) +
        match Watts(prev, samples[n].Read(modulus), samples[n].time, maxRange)
        case None => 0.0
        case Some(w) => Energy(w, samples[n].time - prev.value.time)
  }

  // ---------- The same run, in true energies ----------

  /** The last sample that could be read. */
  function LastRead(samples: seq<Sample>): Option<Sample> {
    if samples == [] then None
    else if samples[|samples| - 1].readable then Some(samples[|samples| - 1])
    else LastRead(samples[..|samples| - 1])
  }

  function FirstRead(samples: seq<Sample>): Option<Sample> {
    if samples == [] then None
    else if samples[0].readable then Some(samples[0])
    else FirstRead(samples[1..])
  }

  /** Every two successive successful reads satisfy a property. */
  ghost predicate EachPair(samples: seq<Sample>, holds: (Sample, Sample) -> bool) {
    samples == [] ||
    (var n := |samples| - 1;
     EachPair(samples[..n], holds) &&
     (samples[n].readable && LastRead(samples[..n]).Some? ==> holds(LastRead(samples[..n]).value, samples[n])))
  }

  function Wraps(samples: seq<Sample>, modulus: nat): nat
    requires modulus > 0
  {
    if samples == [] then 0
    else
      var n := |samples| - 1;
      var prev := LastRead(samples[..n]);
      var wrapped := samples[n].readable && prev.Some?
        && Shown(samples[n].energy, modulus) < Shown(prev.value.energy, modulus);
      Wraps(samples[..n], modulus) + if wrapped then 1 else 0
  }

  // ---------- Arithmetic of one interval ----------

  lemma ModUnique(x: int, k: int, d: int, m: nat)
    requires m > 0 && x == m * k + d && 0 <= d < m
    ensures d == x % m
  {
    var q, r := x / m, x % m;
    assert m * (q - k) == d - r;
    assert q - k >= 1 ==> m * (q - k) >= m;
    assert q - k <= -1 ==> m * (q - k) + m <= 0;
  }

  /** Without wraps missed, the corrected difference is the growth modulo the range. */
  lemma DeltaIsGrowthMod(e1: nat, e2: nat, m: nat)
    requires m > 0 && e1 <= e2
    ensures Delta(Shown(e1, m), Shown(e2, m), m) == (e2 - e1) % m
  {
    var d := Delta(Shown(e1, m), Shown(e2, m), m);
    var k := e2 / m - e1 / m - if e2 % m < e1 % m then 1 else 0;
    assert e2 - e1 == m * (e2 / m) - m * (e1 / m) + (e2 % m - e1 % m);
    assert m * k == m * (e2 / m) - m * (e1 / m) - if e2 % m < e1 % m then m else 0;
    ModUnique(e2 - e1, k, d, m);
  }

  /** So it is the true growth exactly when that is below the range. */
  lemma DeltaExactIff(e1: nat, e2: nat, m: nat)
    requires m > 0 && e1 <= e2
    ensures Delta(Shown(e1, m), Shown(e2, m), m) == e2 - e1 <==> e2 - e1 < m
    ensures 0 <= Delta(Shown(e1, m), Shown(e2, m), m) <= e2 - e1
  {
    DeltaIsGrowthMod(e1, e2, m);
    var x := e2 - e1;
    assert x == m * (x / m) + x % m && x / m >= 0;
    assert m * (x / m) >= 0;
    if x < m { ModUnique(x, 0, x, m); }
  }

  /** Against a counter of another modulus, each wrap is off by the difference of the two. */
  lemma DeltaDrift(e1: nat, e2: nat, modulus: nat, maxRange: nat)
    requires modulus > 0 && e1 <= e2 < e1 + modulus
    ensures Delta(Shown(e1, modulus), Shown(e2, modulus), maxRange) ==
      e2 - e1 + if Shown(e2, modulus) < Shown(e1, modulus) then maxRange - modulus else 0
  {
    DeltaExactIff(e1, e2, modulus);
  }

  lemma EnergyOfPower(d: int, dt: real)
    requires dt > 0.0
    ensures Energy(d as real / 1000000.0 / dt, dt) == d as real
  {
    var p := d as real / 1000000.0;
    assert p / dt * dt == p;
  }

  // ---------- The run ----------

  lemma {:induction false} PreviousIsLastRead(samples: seq<Sample>, modulus: nat)
    requires modulus > 0
    ensures Previous(samples, modulus) == match LastRead(samples)
      case None => None
      case Some(s) => Some(Reading(Shown(s.energy, modulus), s.time))
  {
    if samples != [] { PreviousIsLastRead(samples[..|samples| - 1], modulus); }
  }

  lemma {:induction false} FirstReadOfMore(samples: seq<Sample>, s: Sample)
    ensures FirstRead(samples + [s]) ==
      if FirstRead(samples).Some? then FirstRead(samples) else if s.readable then Some(s) else None
    ensures FirstRead(samples).Some? <==> LastRead(samples).Some?
    decreases |samples|
  {
    if samples != [] {
      var n := |samples| - 1;
      FirstReadOfMore(samples[1..], s);
      assert (samples + [s])[1..] == samples[1..] + [s];
      FirstReadOfMore(samples[..n], samples[n]);
      assert samples[..n] + [samples[n]] == samples;
    } else {
      assert ([s])[1..] == [];
      assert [] + [s] == [s];
    }
  }

  /** What the last sample adds to the reported energy. */
  lemma LastContribution(samples: seq<Sample>, modulus: nat, maxRange: nat)
    requires modulus > 0 && samples != []
    ensures var n := |samples| - 1;
      var prev := LastRead(samples[..n]);
      Reported(samples, modulus, maxRange) == Reported(samples[..n], modulus, maxRange) +
        if samples[n].readable && prev.Some? && samples[n].time > prev.value.time
        then Delta(Shown(prev.value.energy, modulus), Shown(samples[n].energy, modulus), maxRange) as real
        else 0.0
  {
    var n := |samples| - 1;
    PreviousIsLastRead(samples[..n], modulus);
    var prev := LastRead(samples[..n]);
    hide Delta, Shown, Energy;
    if samples[n].readable && prev.Some? && samples[n].time > prev.value.time {
      EnergyOfPower(Delta(Shown(prev.value.energy, modulus), Shown(samples[n].energy, modulus), maxRange),
                    samples[n].time - prev.value.time);
    }
  }

  /** Readings often enough: later, and less than one turn of the counter apart. */
  ghost predicate Frequent(samples: seq<Sample>, modulus: nat) {
    EachPair(samples, (a: Sample, b: Sample) => a.time < b.time && a.energy <= b.energy < a.energy + modulus)
  }

  function Growth(samples: seq<Sample>): int {
    if LastRead(samples).None? || FirstRead(samples).None? then 0
    else LastRead(samples).value.energy - FirstRead(samples).value.energy
  }

  lemma GrowthStep(samples: seq<Sample>)
    requires samples != []
    ensures var n := |samples| - 1;
      var prev := LastRead(samples[..n]);
      Growth(samples) == Growth(samples[..n]) +
        if samples[n].readable && prev.Some? then samples[n].energy - prev.value.energy else 0
  {
    var n := |samples| - 1;
    FirstReadOfMore(samples[..n], samples[n]);
    assert samples[..n] + [samples[n]] == samples;
  }

  /** Over any run of frequent readings, with any failed reads and any number of wraps, the
      reported energy is the true energy from the first to the last successful read, off by
      the same amount at each wrap: none when the advertised range is the counter's modulus. */
  lemma {:induction false} EnergyTelescopes(samples: seq<Sample>, modulus: nat, maxRange: nat)
    requires modulus > 0 && Frequent(samples, modulus)
    ensures Reported(samples, modulus, maxRange) ==
      (Growth(samples) + Wraps(samples, modulus) * (maxRange - modulus)) as real
  {
    hide Delta, Shown, Reported, Growth;
    if samples == [] {
      EmptyRun(modulus, maxRange);
    } else {
      var n := |samples| - 1;
      EnergyTelescopes(samples[..n], modulus, maxRange);
      LastContribution(samples, modulus, maxRange);
      GrowthStep(samples);
      var prev := LastRead(samples[..n]);
      if samples[n].readable && prev.Some? {
        DeltaDrift(prev.value.energy, samples[n].energy, modulus, maxRange);
      }
      OneMoreWrap(Wraps(samples[..n], modulus), maxRange - modulus);
    }
  }

  lemma EmptyRun(modulus: nat, maxRange: nat)
    requires modulus > 0
    ensures Reported([], modulus, maxRange) == 0.0 && Growth([]) == 0
  {
  }

  lemma OneMoreWrap(wraps: nat, drift: int)
    ensures (wraps + 1) * drift == wraps * drift + drift
  {
  }

  // ---------- Exactly when nothing is lost ----------

  /** Time does not go back and energy is only ever used. */
  ghost predicate Ordered(samples: seq<Sample>) {
    EachPair(samples, (a: Sample, b: Sample) => a.time <= b.time && a.energy <= b.energy)
  }

  /** Nothing is lost between two reads: nothing was used, or it was less than one turn and
      the clock had moved. */
  ghost predicate Lossless(samples: seq<Sample>, modulus: nat) {
    EachPair(samples, (a: Sample, b: Sample) =>
      a.energy == b.energy || (a.time < b.time && b.energy - a.energy < modulus))
  }

  /** With the right range the reported energy never exceeds the true one, and equals it exactly
      when no pair of successive reads loses any. */
  lemma {:induction false} EnergyExactIff(samples: seq<Sample>, modulus: nat)
    requires modulus > 0 && Ordered(samples)
    ensures Reported(samples, modulus, modulus) <= Growth(samples) as real
    ensures Reported(samples, modulus, modulus) == Growth(samples) as real <==> Lossless(samples, modulus)
  {
    if samples != [] {
      var n := |samples| - 1;
      EnergyExactIff(samples[..n], modulus);
      LastContribution(samples, modulus, modulus);
      GrowthStep(samples);
      var prev := LastRead(samples[..n]);
      if samples[n].readable && prev.Some? {
        DeltaExactIff(prev.value.energy, samples[n].energy, modulus);
      }
    }
  }
}

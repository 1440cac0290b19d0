/** Processor usage from the counters of /proc/stat (exporter/collectors/edge_server.py). */
module CpuStat {
  import opened Wrappers

  /** A line starting with "cpu": its first word and its counters (user, nice, system, idle,
      iowait, irq, softirq, steal, as many as the kernel gives). */
  datatype Line = Line(cpu: string, values: seq<int>)

  datatype Times = Times(idle: int, total: int)

  function Sum(values: seq<int>): int {
    if values == [] then 0 else Sum(values[..|values| - 1]) + values[|values| - 1]
  }

  function Idle(values: seq<int>): int
    requires |values| >= 4
  {
    values[3] + if |values| > 4 then values[4] else 0
  }

  /** The counters of each processor; lines with fewer than four are skipped. */
  function TimesOf(lines: seq<Line>): map<string, Times> {
    if lines == [] then map[]
    else
      var before, last := TimesOf(lines[..|lines| - 1]), lines[|lines| - 1];
      if |last.values| < 4 then before else before[last.cpu := Times(Idle(last.values), Sum(last.values))]
  }

  function Usage(before: Times, after: Times): Option<real> {
    var dTotal, dIdle := after.total - before.total, after.idle - before.idle;
    if dTotal > 0 then Some((dTotal - dIdle) as real / dTotal as real * 100.0) else None
  }

  function UsageOf(before: map<string, Times>, after: map<string, Times>, cpu: string): Option<real> {
    if cpu in before && cpu in after then Usage(before[cpu], after[cpu]) else None
  }

  class CpuUsage {
    var prev: map<string, Times>

    constructor ()
      ensures prev == map[]
    {
      prev := map[];
    }

    /** `None` is a file that could not be read or parsed: the previous counters stay. */
    method CollectCpuUsage(content: Option<seq<Line>>) returns (usage: map<string, real>)
      modifies this
      ensures prev == if content.None? then old(prev) else TimesOf(content.value)
      ensures forall cpu :: At(usage, cpu) == if content.None? then None else UsageOf(old(prev), prev, cpu)
    {
      usage := map[];
      if content.None? { return; }
      var current := ReadTimes(content.value);
      var left := current.Keys;
      while left != {}
        invariant left <= current.Keys && prev == old(prev)
        invariant forall cpu :: At(usage, cpu) == if cpu in left then None else UsageOf(prev, current, cpu)
      {
        var cpu :| cpu in left;
        left := left - {cpu};
        if cpu in prev {
          var dTotal, dIdle := current[cpu].total - prev[cpu].total, current[cpu].idle - prev[cpu].idle;
          if dTotal > 0 { usage := usage[cpu := (dTotal - dIdle) as real / dTotal as real * 100.0]; }
        }
      }
      prev := current;
    }

    method ReadTimes(lines: seq<Line>) returns (current: map<string, Times>)
      ensures current == TimesOf(lines)
    {
      current := map[];
      for k := 0 to |lines|
        invariant current == TimesOf(lines[..k])
      {
        assert lines[..k + 1][..k] == lines[..k];
        var values := lines[k].values;
        if |values| < 4 { continue; }
        var idle := values[3] + if |values| > 4 then values[4] else 0;
        var total := Total(values);
        current := current[lines[k].cpu := Times(idle, total)];
      }
      assert lines[..|lines|] == lines;
    }

    method Total(values: seq<int>) returns (total: int)
      ensures total == Sum(values)
    {
      total := 0;
      for k := 0 to |values|
        invariant total == Sum(values[..k])
      {
        assert values[..k + 1][..k] == values[..k];
        total := total + values[k];
      }
      assert values[..|values|] == values;
    }
  }

  // ---------- When a usage lies between 0 and 100 ----------

  lemma UsageBoundIff(before: Times, after: Times)
    requires Usage(before, after).Some?
    ensures 0.0 <= Usage(before, after).value <= 100.0 <==>
      0 <= after.idle - before.idle <= after.total - before.total
  {
    var t, b := (after.total - before.total) as real, (after.total - before.total - (after.idle - before.idle)) as real;
    var share := b / t;
    assert share * t == b;
    assert 0.0 <= share <==> 0.0 <= b by { SignOfProduct(share, t); }
    assert share <= 1.0 <==> b <= t by { SignOfProduct(1.0 - share, t); assert (1.0 - share) * t == t - b; }
  }

  lemma SignOfProduct(x: real, t: real)
    requires t > 0.0
    ensures x >= 0.0 <==> x * t >= 0.0
  {
    if x < 0.0 { assert (-x) * t > 0.0; }
  }

  // ---------- Counters that only grow ----------

  predicate Grows(a: seq<int>, b: seq<int>) {
    |a| == |b| && forall k :: 0 <= k < |a| ==> a[k] <= b[k]
  }

  /** The sum grows by at least what any two of its columns, or any one, grow by. */
  lemma {:induction false} SumGrows(a: seq<int>, b: seq<int>)
    requires Grows(a, b)
    ensures Sum(a) <= Sum(b)
    ensures |a| >= 4 ==> 0 <= Idle(b) - Idle(a) <= Sum(b) - Sum(a)
  {
    if a != [] {
      var n := |a| - 1;
      SumGrows(a[..n], b[..n]);
      if |a| == 4 {
        assert Sum(a) == Sum(a[..3]) + a[3] && Sum(b) == Sum(b[..3]) + b[3];
      } else if |a| == 5 {
        assert a[..4][3] == a[3] && b[..4][3] == b[3];
      } else if |a| > 5 {
        assert Idle(a[..n]) == Idle(a) && Idle(b[..n]) == Idle(b);
      }
    }
  }

  // ---------- Runs of samples ----------

  /** The last line of a processor that counts. */
  function LineOf(lines: seq<Line>, cpu: string): Option<seq<int>> {
    if lines == [] then None
    else
      var last := lines[|lines| - 1];
      if last.cpu == cpu && |last.values| >= 4 then Some(last.values) else LineOf(lines[..|lines| - 1], cpu)
  }

  lemma {:induction false} TimesOfLine(lines: seq<Line>, cpu: string)
    ensures At(TimesOf(lines), cpu) == match LineOf(lines, cpu)
      case None => None
      case Some(values) => if |values| < 4 then None else Some(Times(Idle(values), Sum(values)))
    ensures LineOf(lines, cpu).Some? ==> |LineOf(lines, cpu).value| >= 4
  {
    if lines != [] { TimesOfLine(lines[..|lines| - 1], cpu); }
  }

  /** The last sample that could be read. */
  function LastRead(samples: seq<Option<seq<Line>>>): Option<seq<Line>> {
    if samples == [] then None
    else if samples[|samples| - 1].Some? then samples[|samples| - 1]
    else LastRead(samples[..|samples| - 1])
  }

  /** What is kept between calls. */
  function Kept(samples: seq<Option<seq<Line>>>): map<string, Times> {
    if samples == [] then map[]
    else if samples[|samples| - 1].Some? then TimesOf(samples[|samples| - 1].value)
    else Kept(samples[..|samples| - 1])
  }

  /** What the last call of a run reports. */
  function Report(samples: seq<Option<seq<Line>>>, cpu: string): Option<real>
    requires samples != []
  {
    var n := |samples| - 1;
    if samples[n].None? then None
    else UsageOf(Kept(samples[..n]), TimesOf(samples[n].value), cpu)
  }

  /** Of a processor present in two successive successful reads, the counters grow, in the same
      number of columns. */
  ghost predicate CountersGrow(samples: seq<Option<seq<Line>>>, cpu: string) {
    samples == [] ||
    (var n := |samples| - 1;
     CountersGrow(samples[..n], cpu) &&
     (samples[n].Some? && LastRead(samples[..n]).Some? ==>
        var a, b := LineOf(LastRead(samples[..n]).value, cpu), LineOf(samples[n].value, cpu);
        a.Some? && b.Some? ==> Grows(a.value, b.value)))
  }

  lemma {:induction false} KeptIsLastRead(samples: seq<Option<seq<Line>>>)
    ensures Kept(samples) == if LastRead(samples).Some? then TimesOf(LastRead(samples).value) else map[]
  {
    if samples != [] { KeptIsLastRead(samples[..|samples| - 1]); }
  }

  /** The sum of columns is additive over any division of them. */
  lemma {:induction false} SumOfParts(a: seq<int>, b: seq<int>)
    ensures Sum(a + b) == Sum(a) + Sum(b)
    decreases |b|
  {
    if b == [] {
      assert a + b == a;
    } else {
      var n := |b| - 1;
      SumOfParts(a, b[..n]);
      assert (a + b)[..|a| + n] == a + b[..n];
    }
  }

  lemma SumOfOne(x: int)
    ensures Sum([x]) == x
  {
    assert [x][..0] == [];
  }

  /** What a sample reports of a processor, from its columns now and in the last sample that could
      be read: the share of all its time since then not spent in column 3 (idle) or 4 (iowait). */
  lemma UsageByColumns(samples: seq<Option<seq<Line>>>, cpu: string)
    requires samples != []
    ensures var n := |samples| - 1;
      var now := if samples[n].Some? then LineOf(samples[n].value, cpu) else None;
      var last := if LastRead(samples[..n]).Some? then LineOf(LastRead(samples[..n]).value, cpu) else None;
      && (Report(samples, cpu).Some? <==> now.Some? && last.Some? && Sum(last.value) < Sum(now.value))
      && (Report(samples, cpu).Some? ==>
            var a, b := last.value, now.value;
            && |a| >= 4 && |b| >= 4
            && var iowait := (if |b| > 4 then b[4] else 0) - (if |a| > 4 then a[4] else 0);
            && var total := Sum(b) - Sum(a);
            Report(samples, cpu).value == (total - (b[3] - a[3] + iowait)) as real / total as real * 100.0)
  {
    var n := |samples| - 1;
    KeptIsLastRead(samples[..n]);
    if LastRead(samples[..n]).Some? { TimesOfLine(LastRead(samples[..n]).value, cpu); }
    if samples[n].Some? { TimesOfLine(samples[n].value, cpu); }
    hide Sum, LineOf, TimesOf, Kept, LastRead;
  }

  /** In any run in which counters grow, with processors and reads coming and going, every
      usage reported lies between 0 and 100. */
  lemma UsageIsAPercentage(samples: seq<Option<seq<Line>>>, cpu: string)
    requires samples != [] && CountersGrow(samples, cpu) && Report(samples, cpu).Some?
    ensures 0.0 <= Report(samples, cpu).value <= 100.0
  {
    var n := |samples| - 1;
    KeptIsLastRead(samples[..n]);
    var before, after := LastRead(samples[..n]).value, samples[n].value;
    TimesOfLine(before, cpu);
    TimesOfLine(after, cpu);
    SumGrows(LineOf(before, cpu).value, LineOf(after, cpu).value);
    UsageBoundIff(TimesOf(before)[cpu], TimesOf(after)[cpu]);
  }

  /** Growing counters are not enough when the number of columns changes: a column that
      disappears takes its idle time with it. */
  lemma LosingAColumnBreaksTheBound()
    ensures Usage(Times(Idle([0, 0, 0, 0, 5]), Sum([0, 0, 0, 0, 5])), Times(Idle([10, 0, 0, 0]), Sum([10, 0, 0, 0])))
      == Some(200.0)
  {
    SumOfFour(0, 0, 0, 0);
    SumOfFour(10, 0, 0, 0);
    SumOfParts([0, 0, 0, 0], [5]);
    SumOfOne(5);
    assert [0, 0, 0, 0] + [5] == [0, 0, 0, 0, 5];
    hide Sum;
    assert (5 - (-5)) as real / 5 as real * 100.0 == 200.0;
  }

  lemma SumOfFour(a: int, b: int, c: int, d: int)
    ensures Sum([a, b, c, d]) == a + b + c + d
  {
    SumOfOne(a);
    SumOfOne(b);
    SumOfOne(c);
    SumOfOne(d);
    SumOfParts([a], [b]);
    SumOfParts([a, b], [c]);
    SumOfParts([a, b, c], [d]);
    hide Sum;
    assert [a] + [b] == [a, b] && [a, b] + [c] == [a, b, c] && [a, b, c] + [d] == [a, b, c, d];
  }
}

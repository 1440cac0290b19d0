/** The processor list of a tegrastats line (exporter/collectors/jetson_orin.py), on ASCII. */
module Tegrastats {
  import opened Wrappers

  /** `Unknown` is an entry the parser makes nothing of. */
  datatype Core = Off | On(usage: nat, freq: nat) | Unknown

  // ---------- Characters and numbers ----------

  predicate Digit(c: char) { '0' <= c <= '9' }

  predicate Space(c: char) { c == ' ' || c == '\t' || c == '\n' || c == '\r' || c == '\U{0B}' || c == '\U{0C}' }

  predicate Digits(s: string) { forall c <- s :: Digit(c) }

  predicate Spaces(s: string) { forall c <- s :: Space(c) }

  function Number(s: string): nat
    requires Digits(s)
  {
    if s == "" then 0
    else
      assert s[|s| - 1] in s && Digit(s[|s| - 1]);
      10 * Number(s[..|s| - 1]) + (s[|s| - 1] as int - '0' as int)
  }

  /** How many digits `s` starts with: what a greedy \d+ takes. */
  function DigitRun(s: string): (k: nat)
    ensures k <= |s| && Digits(s[..k]) && (k < |s| ==> !Digit(s[k]))
  {
    if s == "" || !Digit(s[0]) then 0
    else
      var k := 1 + DigitRun(s[1..]);
      assert s[..k] == [s[0]] + s[1..][..k - 1];
      k
  }

  // ---------- Splitting and stripping ----------

  function Split(s: string): (pieces: seq<string>)
    ensures pieces != []
  {
    if s == "" then [""]
    else
      var rest := Split(s[1..]);
      if s[0] == ',' then [""] + rest else [[s[0]] + rest[0]] + rest[1..]
  }

  function StripLeft(s: string): string {
    if s != "" && Space(s[0]) then StripLeft(s[1..]) else s
  }

  function StripRight(s: string): string {
    if s != "" && Space(s[|s| - 1]) then StripRight(s[..|s| - 1]) else s
  }

  function Strip(s: string): string {
    StripRight(StripLeft(s))
  }

  // ---------- One entry and the whole list ----------

  /** A match of (\d+)%@(\d+) at the start of an entry, whatever follows it. */
  function MatchCore(s: string): (core: Core)
    ensures !core.Off?
  {
    var k := DigitRun(s);
    if k == 0 || |s| < k + 2 || s[k..k + 2] != "%@" then Unknown
    else
      var rest := s[k + 2..];
      var n := DigitRun(rest);
      if n == 0 then Unknown else On(Number(s[..k]), Number(rest[..n]))
  }

  function ParseEntry(piece: string): Core {
    if Strip(piece) == "off" then Off else MatchCore(Strip(piece))
  }

  function Parse(list: string): seq<Core> {
    var pieces := Split(list);
    seq(|pieces|, i requires 0 <= i < |pieces| => ParseEntry(pieces[i]))
  }

  // ---------- The metrics ----------

  datatype CpuMetrics = CpuMetrics(status: map<nat, int>, usage: map<nat, nat>, freq: map<nat, nat>,
                                   average: Option<real>, active: Option<nat>)

  function Active(cores: seq<Core>): nat {
    if cores == [] then 0 else Active(cores[..|cores| - 1]) + if cores[|cores| - 1].On? then 1 else 0
  }

  function Total(cores: seq<Core>): nat {
    if cores == [] then 0
    else Total(cores[..|cores| - 1]) + if cores[|cores| - 1].On? then cores[|cores| - 1].usage else 0
  }

  function Average(cores: seq<Core>): Option<real> {
    if Active(cores) > 0 then Some(Total(cores) as real / Active(cores) as real) else None
  }

  function CoreAt(cores: seq<Core>, i: nat): Core {
    if i < |cores| then cores[i] else Unknown
  }

  /** The metrics of a core say what was read for it. */
  predicate DescribesCore(m: CpuMetrics, i: nat, core: Core) {
    && At(m.status, i) == (match core case Off => Some(0) case On(_, _) => Some(1) case Unknown => None)
    && At(m.usage, i) == (if core.On? then Some(core.usage) else None)
    && At(m.freq, i) == (if core.On? then Some(core.freq) else None)
  }

  ghost predicate Describes(m: CpuMetrics, cores: seq<Core>) {
    forall i: nat :: DescribesCore(m, i, CoreAt(cores, i))
  }

  method CpuSection(list: string) returns (m: CpuMetrics)
    ensures Describes(m, Parse(list))
    ensures m.active == if Active(Parse(list)) > 0 then Some(Active(Parse(list))) else None
    ensures m.average == Average(Parse(list))
  {
    var pieces := Split(list);
    ghost var cores := Parse(list);
    var total, active := 0, 0;
    m := CpuMetrics(map[], map[], map[], None, None);
    for i := 0 to |pieces|
      invariant Describes(m, cores[..i]) && m.active == None && m.average == None
      invariant total == Total(cores[..i]) && active == Active(cores[..i])
    {
      hide ParseEntry, Split, DescribesCore, Describes;
      assert cores[..i + 1] == cores[..i] + [cores[i]] && cores[..i + 1][..i] == cores[..i];
      ghost var before := m;
      NotDescribedYet(m, cores[..i]);
      var on;
      m, on := AddCore(m, i, pieces[i]);
      if on.Some? { total, active := total + on.value, active + 1; }
      DescribesOneMore(before, m, cores[..i], cores[i]);
    }
    assert cores[..|pieces|] == cores;
    ghost var loose := m;
    if active > 0 {
      m := m.(average := Some(total as real / active as real), active := Some(active));
    }
    assert Describes(m, cores) by { SameDescription(loose, m, cores); }
  }

  lemma SameDescription(a: CpuMetrics, b: CpuMetrics, cores: seq<Core>)
    requires Describes(a, cores) && b == a.(average := b.average, active := b.active)
    ensures Describes(b, cores)
  {
    forall i: nat ensures DescribesCore(b, i, CoreAt(cores, i)) {
      assert DescribesCore(a, i, CoreAt(cores, i));
    }
  }

  lemma NotDescribedYet(m: CpuMetrics, cores: seq<Core>)
    requires Describes(m, cores)
    ensures DescribesCore(m, |cores|, Unknown)
  {
    assert DescribesCore(m, |cores|, CoreAt(cores, |cores|));
  }

  /** One pass of the loop; `on` is the usage of a core that is on. */
  method AddCore(before: CpuMetrics, i: nat, piece: string) returns (m: CpuMetrics, on: Option<nat>)
    requires DescribesCore(before, i, Unknown)
    ensures DescribesCore(m, i, ParseEntry(piece))
    ensures forall j: nat :: j != i ==> SameCore(before, m, j)
    ensures m.active == before.active && m.average == before.average
    ensures on == if ParseEntry(piece).On? then Some(ParseEntry(piece).usage) else None
  {
    hide MatchCore, Strip;
    m, on := before, None;
    var core := Strip(piece);
    if core == "off" {
      m := m.(status := m.status[i := 0]);
    } else {
      var found := MatchCore(core);
      if found.On? {
        m := m.(usage := m.usage[i := found.usage], freq := m.freq[i := found.freq], status := m.status[i := 1]);
        on := Some(found.usage);
      }
    }
  }

  predicate SameCore(a: CpuMetrics, b: CpuMetrics, i: nat) {
    At(a.status, i) == At(b.status, i) && At(a.usage, i) == At(b.usage, i) && At(a.freq, i) == At(b.freq, i)
  }

  lemma DescribesOneMore(before: CpuMetrics, after: CpuMetrics, cores: seq<Core>, core: Core)
    requires Describes(before, cores) && DescribesCore(after, |cores|, core)
    requires forall i: nat :: i != |cores| ==> SameCore(before, after, i)
    ensures Describes(after, cores + [core])
  {
    forall i: nat ensures DescribesCore(after, i, CoreAt(cores + [core], i)) {
      assert DescribesCore(before, i, CoreAt(cores, i));
      assert i != |cores| ==> SameCore(before, after, i);
    }
  }

  // ---------- Printing ----------

  function PrintNumber(n: nat): (s: string)
    ensures s != "" && Digits(s) && Number(s) == n
  {
    var last := [('0' as int + n % 10) as char];
    if n < 10 then last
    else
      var front := PrintNumber(n / 10);
      assert (front + last)[..|front|] == front;
      front + last
  }

  function Print(core: Core): string
    requires !core.Unknown?
  {
    match core
    case Off => "off"
    case On(usage, freq) => PrintNumber(usage) + "%@" + PrintNumber(freq)
  }

  function Join(pieces: seq<string>): string
    requires pieces != []
  {
    if |pieces| == 1 then pieces[0] else pieces[0] + "," + Join(pieces[1..])
  }

  // ---------- Splitting inverts joining, and joining inverts splitting ----------

  lemma {:induction false} SplitPiece(piece: string, rest: string)
    requires ',' !in piece
    ensures Split(piece) == [piece]
    ensures Split(piece + "," + rest) == [piece] + Split(rest)
    decreases |piece|
  {
    var whole := piece + "," + rest;
    if piece == "" {
      assert whole[1..] == rest;
    } else {
      SplitPiece(piece[1..], rest);
      assert whole[1..] == piece[1..] + "," + rest;
      assert piece == [piece[0]] + piece[1..];
    }
  }

  lemma {:induction false} SplitOfJoin(pieces: seq<string>)
    requires pieces != [] && forall p <- pieces :: ',' !in p
    ensures Split(Join(pieces)) == pieces
  {
    assert pieces[0] in pieces;
    if |pieces| == 1 {
      SplitPiece(pieces[0], "");
    } else {
      assert forall p <- pieces[1..] :: p in pieces;
      SplitOfJoin(pieces[1..]);
      SplitPiece(pieces[0], Join(pieces[1..]));
    }
  }

  lemma {:induction false} JoinOfSplit(s: string)
    ensures Join(Split(s)) == s
  {
    if s != "" {
      JoinOfSplit(s[1..]);
      assert s == [s[0]] + s[1..];
    }
  }

  // ---------- One entry ----------

  lemma {:induction false} DigitRunOf(digits: string, rest: string)
    requires Digits(digits) && (rest != "" ==> !Digit(rest[0]))
    ensures DigitRun(digits + rest) == |digits|
    decreases |digits|
  {
    if digits == "" {
      assert digits + rest == rest;
    } else {
      assert (digits + rest)[1..] == digits[1..] + rest;
      assert digits[0] in digits && forall c <- digits[1..] :: c in digits;
      DigitRunOf(digits[1..], rest);
    }
  }

  /** A match of the pattern at the start of `s`: k digits, "%@", n digits. */
  predicate MatchAt(s: string, k: nat, n: nat) {
    && 0 < k && 0 < n && k + 2 + n <= |s|
    && Digits(s[..k]) && s[k..k + 2] == "%@" && Digits(s[k + 2..k + 2 + n])
  }

  lemma MatchIsGreedy(s: string, k: nat, n: nat)
    requires MatchAt(s, k, n)
    ensures k == DigitRun(s) && n <= DigitRun(s[k + 2..])
  {
    assert s[k..k + 2][0] == s[k];
    assert s == s[..k] + s[k..];
    DigitRunOf(s[..k], s[k..]);
    assert s[k + 2..][..n] == s[k + 2..k + 2 + n];
    DigitRunIsLongest(s[k + 2..], n);
  }

  lemma ReadMatches(s: string) returns (k: nat, n: nat)
    requires MatchCore(s).On?
    ensures MatchAt(s, k, n)
  {
    hide Number, Digits, DigitRun;
    k := DigitRun(s);
    assert 0 < k && k + 2 <= |s| && s[k..k + 2] == "%@" && Digits(s[..k]);
    var rest := s[k + 2..];
    n := DigitRun(rest);
    assert 0 < n && Digits(rest[..n]);
    hide MatchCore;
    SliceOfRest(s, k + 2, n);
  }

  lemma SliceOfRest(s: string, from: nat, n: nat)
    requires from + n <= |s|
    ensures s[from..][..n] == s[from..from + n]
  {
  }

  /** An entry is read exactly when the pattern matches at its start. */
  lemma MatchIff(s: string)
    ensures MatchCore(s).On? <==> exists k: nat, n: nat :: MatchAt(s, k, n)
  {
    if MatchCore(s).On? {
      var k, n := ReadMatches(s);
    } else if k: nat, n: nat :| MatchAt(s, k, n) {
      MatchedNumbers(s, k, n);
      assert false;
    }
  }

  /** The first number is then the one matched, the second the longest that can be. */
  lemma MatchedNumbers(s: string, k: nat, n: nat)
    requires MatchAt(s, k, n)
    ensures var rest := s[k + 2..];
      MatchCore(s) == On(Number(s[..k]), Number(rest[..DigitRun(rest)])) && n <= DigitRun(rest)
  {
    MatchIsGreedy(s, k, n);
  }

  lemma {:induction false} DigitRunIsLongest(s: string, n: nat)
    requires n <= |s| && Digits(s[..n])
    ensures n <= DigitRun(s)
  {
    if n > 0 {
      assert s[..n][0] in s[..n];
      assert s[1..][..n - 1] == s[..n][1..];
      assert forall c <- s[..n][1..] :: c in s[..n];
      DigitRunIsLongest(s[1..], n - 1);
    }
  }

  lemma MatchPrinted(usage: nat, freq: nat)
    ensures MatchCore(Print(On(usage, freq))) == On(usage, freq)
  {
    var u, f := PrintNumber(usage), PrintNumber(freq);
    var s := Print(On(usage, freq));
    assert s == u + ("%@" + f);
    DigitRunOf(u, "%@" + f);
    assert s[..|u|] == u && s[|u|..|u| + 2] == "%@" && s[|u| + 2..] == f;
    assert f + "" == f;
    DigitRunOf(f, "");
    assert f[..|f|] == f;
  }

  lemma {:induction false} StripPadded(left: string, middle: string, right: string)
    requires Spaces(left) && Spaces(right)
    requires middle != "" && !Space(middle[0]) && !Space(middle[|middle| - 1])
    ensures Strip(left + middle + right) == middle
    decreases |left| + |right|
  {
    var s := left + middle + right;
    if left != "" {
      assert left[0] in left && forall c <- left[1..] :: c in left;
      assert s[1..] == left[1..] + middle + right;
      StripPadded(left[1..], middle, right);
    } else {
      assert s == middle + right && s[0] == middle[0];
      if right != "" {
        var n := |right| - 1;
        assert right[n] in right && forall c <- right[..n] :: c in right;
        assert s[|s| - 1] == right[n] && s[..|s| - 1] == left + middle + right[..n];
        StripPadded(left, middle, right[..n]);
        assert StripLeft(s[..|s| - 1]) == s[..|s| - 1];
      } else {
        assert s == middle;
      }
    }
  }

  lemma PrintedIsBare(core: Core)
    requires !core.Unknown?
    ensures Print(core) != "" && ',' !in Print(core)
    ensures !Space(Print(core)[0]) && !Space(Print(core)[|Print(core)| - 1])
    ensures Print(core) == "off" <==> core.Off?
  {
    if core.On? {
      var u, f := PrintNumber(core.usage), PrintNumber(core.freq);
      assert u[0] in u && f[|f| - 1] in f;
      assert Print(core)[0] == u[0] && Print(core)[|Print(core)| - 1] == f[|f| - 1];
      assert Digit(u[0]) && !Digit("off"[0]);
    }
  }

  /** An entry as tegrastats prints it, with blanks around it or not, is read back. */
  lemma EntryRoundTrip(core: Core, left: string, right: string)
    requires !core.Unknown? && Spaces(left) && Spaces(right)
    ensures ParseEntry(left + Print(core) + right) == core
  {
    PrintedIsBare(core);
    StripPadded(left, Print(core), right);
    if core.On? { MatchPrinted(core.usage, core.freq); }
  }

  // ---------- The whole list ----------

  /** What tegrastats prints for a core, set off by blanks. */
  datatype Entry = Entry(left: string, core: Core, right: string) {
    predicate Printable() { !core.Unknown? && Spaces(left) && Spaces(right) }

    function Text(): string
      requires Printable()
    {
      left + Print(core) + right
    }
  }

  function Texts(entries: seq<Entry>): seq<string>
    requires forall e <- entries :: e.Printable()
  {
    seq(|entries|, i requires 0 <= i < |entries| => entries[i].Text())
  }

  function Cores(entries: seq<Entry>): seq<Core> {
    seq(|entries|, i requires 0 <= i < |entries| => entries[i].core)
  }

  /** Printing any cores, joined by commas and padded at will, and parsing the result gives
      every core back at its index. */
  lemma ListRoundTrip(entries: seq<Entry>)
    requires entries != [] && forall e <- entries :: e.Printable()
    ensures Parse(Join(Texts(entries))) == Cores(entries)
  {
    var texts := Texts(entries);
    forall t <- texts ensures ',' !in t {
      var i :| 0 <= i < |texts| && texts[i] == t;
      assert entries[i].Printable();
      PrintedIsBare(entries[i].core);
    }
    SplitOfJoin(texts);
    forall i | 0 <= i < |entries| ensures ParseEntry(texts[i]) == entries[i].core {
      assert entries[i] in entries && entries[i].Printable();
      EntryRoundTrip(entries[i].core, entries[i].left, entries[i].right);
    }
  }

  // ---------- The average ----------

  function Scaled(x: real, n: nat): real { x * n as real }

  lemma ScaledOneMore(x: real, n: nat)
    ensures Scaled(x, 0) == 0.0 && Scaled(x, n + 1) == Scaled(x, n) + x
  {
    assert (n + 1) as real == n as real + 1.0;
  }

  lemma {:induction false} TotalBounds(cores: seq<Core>, low: real, high: real)
    requires forall c <- cores | c.On? :: low <= c.usage as real <= high
    ensures Scaled(low, Active(cores)) <= Total(cores) as real <= Scaled(high, Active(cores))
  {
    hide Scaled;
    ScaledOneMore(low, 0);
    ScaledOneMore(high, 0);
    if cores != [] {
      var n := |cores| - 1;
      assert cores[n] in cores && forall c <- cores[..n] :: c in cores;
      TotalBounds(cores[..n], low, high);
      ScaledOneMore(low, Active(cores[..n]));
      ScaledOneMore(high, Active(cores[..n]));
    }
  }

  /** The average usage lies between any bounds of the active cores' usages, hence between the
      least and the greatest of them. */
  lemma AverageIsBetween(cores: seq<Core>, low: real, high: real)
    requires Active(cores) > 0 && forall c <- cores | c.On? :: low <= c.usage as real <= high
    ensures Average(cores).Some? && low <= Average(cores).value <= high
  {
    TotalBounds(cores, low, high);
    hide Total, Active;
    QuotientBetween(Total(cores) as real, Active(cores), low, high);
  }

  lemma QuotientBetween(t: real, n: nat, low: real, high: real)
    requires n > 0 && Scaled(low, n) <= t <= Scaled(high, n)
    ensures low <= t / n as real <= high
  {
    var a := n as real;
    var q := t / a;
    assert q * a == t;
    assert q < low ==> q * a < low * a;
    assert q > high ==> q * a > high * a;
  }

  /** The total is additive over any division of the cores, and counts what each that is on uses. */
  lemma {:induction false} TotalOfParts(a: seq<Core>, b: seq<Core>)
    ensures Total(a + b) == Total(a) + Total(b)
    decreases |b|
  {
    if b == [] {
      assert a + b == a;
    } else {
      var n := |b| - 1;
      TotalOfParts(a, b[..n]);
      assert (a + b)[..|a| + n] == a + b[..n];
    }
  }

  lemma TotalOfOne(core: Core)
    ensures Total([core]) == if core.On? then core.usage else 0
  {
    assert [core][..0] == [];
  }

  /** There is an average exactly when some core is on, and times the number of those it is the
      total. */
  lemma AverageTimesCount(cores: seq<Core>)
    ensures Average(cores).Some? <==> exists i :: 0 <= i < |cores| && cores[i].On?
    ensures Average(cores).Some? ==> Average(cores).value * Active(cores) as real == Total(cores) as real
  {
    ActiveCounts(cores);
    var on := set i | 0 <= i < |cores| && cores[i].On?;
    if Active(cores) > 0 {
      var i :| i in on;
    } else {
      assert on == {};
      assert forall i | 0 <= i < |cores| :: cores[i].On? ==> i in on;
    }
  }

  /** The count of active cores is the number of cores that are on. */
  lemma {:induction false} ActiveCounts(cores: seq<Core>)
    ensures Active(cores) == |set i | 0 <= i < |cores| && cores[i].On?|
  {
    if cores != [] {
      var n := |cores| - 1;
      ActiveCounts(cores[..n]);
      var before, after := set i | 0 <= i < n && cores[..n][i].On?, set i | 0 <= i < |cores| && cores[i].On?;
      if cores[n].On? {
        assert after == before + {n};
      } else {
        assert after == before;
      }
    }
  }
}

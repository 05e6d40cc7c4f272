/** Aggregating a list of system samples field by field
    (internal/infrastructure/storage/memory.go, aggregateSystemMetrics). Loads and CPU usage are
    reals; memory and swap sizes are whole numbers of bytes. */
module Aggregation {
  import opened Basics

  datatype SystemMetrics = SystemMetrics(
    cpu: real, memUsed: nat, memAvailable: nat,
    load1: real, load5: real, load15: real,
    swapUsed: nat, swapFree: nat)

  datatype Field = Cpu | MemUsed | MemAvailable | Load1 | Load5 | Load15 | SwapUsed | SwapFree

  predicate Whole(f: Field) {
    f in {MemUsed, MemAvailable, SwapUsed, SwapFree}
  }

  function Get(m: SystemMetrics, f: Field): (r: real)
    ensures Whole(f) ==> r == r.Floor as real && r >= 0.0
  {
    match f
    case Cpu => m.cpu
    case MemUsed => m.memUsed as real
    case MemAvailable => m.memAvailable as real
    case Load1 => m.load1
    case Load5 => m.load5
    case Load15 => m.load15
    case SwapUsed => m.swapUsed as real
    case SwapFree => m.swapFree as real
  }

  function Total(s: seq<SystemMetrics>, f: Field): (r: real)
    ensures Whole(f) ==> r >= 0.0
  {
    if s == [] then 0.0 else Total(s[..|s| - 1], f) + Get(s[|s| - 1], f)
  }

  /** `v` is at most every value of the field and is one of them. */
  ghost predicate IsLeast(s: seq<SystemMetrics>, f: Field, v: real) {
    && (forall i :: 0 <= i < |s| ==> v <= Get(s[i], f))
    && exists i :: 0 <= i < |s| && v == Get(s[i], f)
  }

  ghost predicate IsGreatest(s: seq<SystemMetrics>, f: Field, v: real) {
    && (forall i :: 0 <= i < |s| ==> Get(s[i], f) <= v)
    && exists i :: 0 <= i < |s| && v == Get(s[i], f)
  }

  lemma LeastNext(s: seq<SystemMetrics>, k: nat, f: Field, v: real)
    requires k < |s| && IsLeast(s[..k], f, v)
    ensures IsLeast(s[..k + 1], f, if Get(s[k], f) < v then Get(s[k], f) else v)
  {
    assert s[..k + 1] == s[..k] + [s[k]];
    assert s[..k + 1][k] == s[k];
    var i :| 0 <= i < k && v == Get(s[..k][i], f);
    assert s[..k + 1][i] == s[..k][i];
  }

  lemma GreatestNext(s: seq<SystemMetrics>, k: nat, f: Field, v: real)
    requires k < |s| && IsGreatest(s[..k], f, v)
    ensures IsGreatest(s[..k + 1], f, if Get(s[k], f) > v then Get(s[k], f) else v)
  {
    assert s[..k + 1] == s[..k] + [s[k]];
    assert s[..k + 1][k] == s[k];
    var i :| 0 <= i < k && v == Get(s[..k][i], f);
    assert s[..k + 1][i] == s[..k][i];
  }

  function Lower(best: SystemMetrics, m: SystemMetrics): SystemMetrics {
    SystemMetrics(
      if m.cpu < best.cpu then m.cpu else best.cpu,
      if m.memUsed < best.memUsed then m.memUsed else best.memUsed,
      if m.memAvailable < best.memAvailable then m.memAvailable else best.memAvailable,
      if m.load1 < best.load1 then m.load1 else best.load1,
      if m.load5 < best.load5 then m.load5 else best.load5,
      if m.load15 < best.load15 then m.load15 else best.load15,
      if m.swapUsed < best.swapUsed then m.swapUsed else best.swapUsed,
      if m.swapFree < best.swapFree then m.swapFree else best.swapFree)
  }

  lemma LowerByField(best: SystemMetrics, m: SystemMetrics, f: Field)
    ensures Get(Lower(best, m), f) == if Get(m, f) < Get(best, f) then Get(m, f) else Get(best, f)
  {
    match f case _ =>
  }

  /** The eight comparisons of one round of the minimum loop. */
  method TakeLower(best: SystemMetrics, m: SystemMetrics) returns (result: SystemMetrics)
    ensures result == Lower(best, m)
  {
    result := best;
    if m.cpu < result.cpu { result := result.(cpu := m.cpu); }
    if m.memUsed < result.memUsed { result := result.(memUsed := m.memUsed); }
    if m.memAvailable < result.memAvailable { result := result.(memAvailable := m.memAvailable); }
    if m.load1 < result.load1 { result := result.(load1 := m.load1); }
    if m.load5 < result.load5 { result := result.(load5 := m.load5); }
    if m.load15 < result.load15 { result := result.(load15 := m.load15); }
    if m.swapUsed < result.swapUsed { result := result.(swapUsed := m.swapUsed); }
    if m.swapFree < result.swapFree { result := result.(swapFree := m.swapFree); }
  }

  method Minimum(s: seq<SystemMetrics>) returns (result: SystemMetrics)
    requires s != []
    ensures forall f :: IsLeast(s, f, Get(result, f))
  {
    result := s[0];
    for k := 1 to |s|
      invariant forall f :: IsLeast(s[..k], f, Get(result, f))
    {
      hide Get, IsLeast, Lower;
      var was := result;
      result := TakeLower(was, s[k]);
      forall f ensures IsLeast(s[..k + 1], f, Get(result, f)) {
        LowerByField(was, s[k], f);
        LeastNext(s, k, f, Get(was, f));
      }
    }
    assert s[..|s|] == s;
  }

  function Higher(best: SystemMetrics, m: SystemMetrics): SystemMetrics {
    SystemMetrics(
      if m.cpu > best.cpu then m.cpu else best.cpu,
      if m.memUsed > best.memUsed then m.memUsed else best.memUsed,
      if m.memAvailable > best.memAvailable then m.memAvailable else best.memAvailable,
      if m.load1 > best.load1 then m.load1 else best.load1,
      if m.load5 > best.load5 then m.load5 else best.load5,
      if m.load15 > best.load15 then m.load15 else best.load15,
      if m.swapUsed > best.swapUsed then m.swapUsed else best.swapUsed,
      if m.swapFree > best.swapFree then m.swapFree else best.swapFree)
  }

  lemma HigherByField(best: SystemMetrics, m: SystemMetrics, f: Field)
    ensures Get(Higher(best, m), f) == if Get(m, f) > Get(best, f) then Get(m, f) else Get(best, f)
  {
    match f case _ =>
  }

  /** The eight comparisons of one round of the maximum loop. */
  method TakeHigher(best: SystemMetrics, m: SystemMetrics) returns (result: SystemMetrics)
    ensures result == Higher(best, m)
  {
    result := best;
    if m.cpu > result.cpu { result := result.(cpu := m.cpu); }
    if m.memUsed > result.memUsed { result := result.(memUsed := m.memUsed); }
    if m.memAvailable > result.memAvailable { result := result.(memAvailable := m.memAvailable); }
    if m.load1 > result.load1 { result := result.(load1 := m.load1); }
    if m.load5 > result.load5 { result := result.(load5 := m.load5); }
    if m.load15 > result.load15 { result := result.(load15 := m.load15); }
    if m.swapUsed > result.swapUsed { result := result.(swapUsed := m.swapUsed); }
    if m.swapFree > result.swapFree { result := result.(swapFree := m.swapFree); }
  }

  method Maximum(s: seq<SystemMetrics>) returns (result: SystemMetrics)
    requires s != []
    ensures forall f :: IsGreatest(s, f, Get(result, f))
  {
    result := s[0];
    for k := 1 to |s|
      invariant forall f :: IsGreatest(s[..k], f, Get(result, f))
    {
      hide Get, IsGreatest, Higher;
      var was := result;
      result := TakeHigher(was, s[k]);
      forall f ensures IsGreatest(s[..k + 1], f, Get(result, f)) {
        HigherByField(was, s[k], f);
        GreatestNext(s, k, f, Get(was, f));
      }
    }
    assert s[..|s|] == s;
  }

  lemma TotalNext(s: seq<SystemMetrics>, k: nat, f: Field)
    requires k < |s|
    ensures Total(s[..k + 1], f) == Total(s[..k], f) + Get(s[k], f)
  {
    assert s[..k + 1][..k] == s[..k];
  }

  method Sum(s: seq<SystemMetrics>) returns (result: SystemMetrics)
    requires s != []
    ensures forall f :: Get(result, f) == Total(s, f)
  {
    result := SystemMetrics(0.0, 0, 0, 0.0, 0.0, 0.0, 0, 0);
    for k := 0 to |s|
      invariant forall f :: Get(result, f) == Total(s[..k], f)
    {
      var m, was := s[k], result;
      result := SystemMetrics(
        result.cpu + m.cpu, result.memUsed + m.memUsed, result.memAvailable + m.memAvailable,
        result.load1 + m.load1, result.load5 + m.load5, result.load15 + m.load15,
        result.swapUsed + m.swapUsed, result.swapFree + m.swapFree);
      forall f ensures Get(result, f) == Total(s[..k + 1], f) {
        TotalNext(s, k, f);
        assert Get(result, f) == Get(was, f) + Get(m, f);
      }
    }
    assert s[..|s|] == s;
  }

  function Mean(total: real, n: nat): real
    requires n > 0
  {
    total / n as real
  }

  predicate IsAverage(s: seq<SystemMetrics>, f: Field, v: real)
    requires s != []
  {
    var mean := Mean(Total(s, f), |s|);
    v == if Whole(f) then mean.Floor as real else mean
  }

  /** Division of the total by the number of samples, truncated where the field is whole. */
  method Average(s: seq<SystemMetrics>) returns (result: SystemMetrics)
    requires s != []
    ensures forall f :: IsAverage(s, f, Get(result, f))
  {
    var total := Sum(s);
    var n := |s| as real;
    forall f | Whole(f) ensures Total(s, f) / n >= 0.0 {
    }
    assert Get(total, MemUsed) == Total(s, MemUsed) && Get(total, MemAvailable) == Total(s, MemAvailable);
    assert Get(total, SwapUsed) == Total(s, SwapUsed) && Get(total, SwapFree) == Total(s, SwapFree);
    assert Get(total, Cpu) == Total(s, Cpu) && Get(total, Load1) == Total(s, Load1);
    assert Get(total, Load5) == Total(s, Load5) && Get(total, Load15) == Total(s, Load15);
    result := SystemMetrics(
      total.cpu / n, (total.memUsed as real / n).Floor, (total.memAvailable as real / n).Floor,
      total.load1 / n, total.load5 / n, total.load15 / n,
      (total.swapUsed as real / n).Floor, (total.swapFree as real / n).Floor);
    forall f ensures IsAverage(s, f, Get(result, f)) {
      match f case _ =>
    }
  }

  function Times(n: nat, x: real): real {
    n as real * x
  }

  lemma BoundsNext(n: nat, lo: real, total: real, hi: real, x: real)
    requires Times(n, lo) <= total <= Times(n, hi) && lo <= x <= hi
    ensures Times(n + 1, lo) <= total + x <= Times(n + 1, hi)
  {
    assert (n + 1) as real * lo == n as real * lo + lo;
    assert (n + 1) as real * hi == n as real * hi + hi;
  }

  lemma {:induction false} TotalBounds(s: seq<SystemMetrics>, f: Field, k: nat, lo: real, hi: real)
    requires k <= |s| && forall i :: 0 <= i < |s| ==> lo <= Get(s[i], f) <= hi
    ensures Times(k, lo) <= Total(s[..k], f) <= Times(k, hi)
  {
    hide Get;
    if k == 0 {
      assert s[..0] == [];
    } else {
      hide Total, Times;
      TotalBounds(s, f, k - 1, lo, hi);
      TotalNext(s, k - 1, f);
      BoundsNext(k - 1, lo, Total(s[..k - 1], f), hi, Get(s[k - 1], f));
    }
  }

  lemma ScaleStrictly(a: real, b: real, n: real)
    requires n > 0.0 && a < b
    ensures a * n < b * n
  {
    assert (b - a) * n > 0.0;
  }

  lemma MeanIsBetween(n: nat, lo: real, total: real, hi: real)
    requires n > 0 && Times(n, lo) <= total <= Times(n, hi)
    ensures lo <= Mean(total, n) <= hi
  {
    var mean := Mean(total, n);
    assert mean * n as real == total;
    if mean < lo {
      ScaleStrictly(mean, lo, n as real);
    }
    if mean > hi {
      ScaleStrictly(hi, mean, n as real);
    }
  }

  /** The average, truncated where the field is whole, lies between the least and greatest values. */
  lemma AverageIsBetween(s: seq<SystemMetrics>, f: Field, lo: real, hi: real, average: real)
    requires s != [] && IsLeast(s, f, lo) && IsGreatest(s, f, hi) && IsAverage(s, f, average)
    ensures lo <= average <= hi
  {
    hide Get, Total, Times, Mean;
    assert s[..|s|] == s;
    TotalBounds(s, f, |s|, lo, hi);
    MeanIsBetween(|s|, lo, Total(s, f), hi);
    if Whole(f) {
      FloorIsBetween(lo, Mean(Total(s, f), |s|), hi);
    }
  }

  lemma FloorIsBetween(lo: real, mean: real, hi: real)
    requires lo <= mean <= hi && lo == lo.Floor as real
    ensures lo <= mean.Floor as real <= hi
  {
  }

  // ---- What sums, averages and fields are ----

  /** The fields determine the sample: none of the eight is left uncompared. */
  lemma FieldsDetermine(a: SystemMetrics, b: SystemMetrics)
    requires forall f :: Get(a, f) == Get(b, f)
    ensures a == b
  {
    assert Get(a, Cpu) == Get(b, Cpu) && Get(a, MemUsed) == Get(b, MemUsed);
    assert Get(a, MemAvailable) == Get(b, MemAvailable) && Get(a, Load1) == Get(b, Load1);
    assert Get(a, Load5) == Get(b, Load5) && Get(a, Load15) == Get(b, Load15);
    assert Get(a, SwapUsed) == Get(b, SwapUsed) && Get(a, SwapFree) == Get(b, SwapFree);
  }

  /** The total of no samples is zero, of one its value, and of two lists the sum of their totals. */
  lemma {:induction false} TotalLaws(a: seq<SystemMetrics>, m: SystemMetrics, b: seq<SystemMetrics>, f: Field)
    ensures Total([], f) == 0.0
    ensures Total([m], f) == Get(m, f)
    ensures Total(a + b, f) == Total(a, f) + Total(b, f)
    decreases |b|
  {
    assert [m][..0] == [] && Total([m][..0], f) == 0.0;
    if b == [] {
      assert a + b == a;
    } else {
      var n := |b| - 1;
      TotalLaws(a, m, b[..n], f);
      assert (a + b)[..|a| + n] == a + b[..n];
    }
  }

  /** An average times the number of samples is the total; a whole one falls short of it by less than
      that number. */
  lemma AverageTimesCount(s: seq<SystemMetrics>, f: Field, v: real)
    requires s != [] && IsAverage(s, f, v)
    ensures var n := |s| as real;
      if Whole(f) then v == v.Floor as real && v * n <= Total(s, f) < v * n + n else v * n == Total(s, f)
  {
    hide Total, Get, Mean;
    MeanTimesCount(Total(s, f), |s|);
    if Whole(f) {
      FloorTimes(Mean(Total(s, f), |s|), |s| as real, v, Total(s, f));
    }
  }

  lemma MeanTimesCount(total: real, n: nat)
    requires n > 0
    ensures Mean(total, n) * n as real == total
  {
  }

  lemma FloorTimes(mean: real, n: real, v: real, total: real)
    requires n > 0.0 && v == mean.Floor as real && mean * n == total
    ensures v == v.Floor as real && v * n <= total < v * n + n
  {
    ScaleWeakly(v, mean, n);
    var up := v + 1.0;
    assert mean < up;
    ScaleStrictly(mean, up, n);
    assert mean * n < up * n;
    assert total < up * n;
    Distribute(v, n);
  }

  lemma Distribute(v: real, n: real)
    ensures (v + 1.0) * n == v * n + n
  {
  }

  lemma ScaleWeakly(a: real, b: real, n: real)
    requires n > 0.0 && a <= b
    ensures a * n <= b * n
  {
    assert (b - a) * n >= 0.0;
  }

  datatype Kind = ByAverage | ByMinimum | ByMaximum | BySum | ByUnknown

  /** The fields of a sample that no aggregation combines. */
  datatype Carried = Carried(
    timestamp: int, processCount: int, runningProcesses: int, threadCount: int, kernelThreads: int,
    networkConnections: int, uptime: int, bootTime: int, diskPartitions: int)

  datatype Sample = Sample(metrics: SystemMetrics, carried: Carried)

  function MetricsOf(s: seq<Sample>): (r: seq<SystemMetrics>)
    ensures |r| == |s| && forall i :: 0 <= i < |s| ==> r[i] == s[i].metrics
  {
    seq(|s|, i requires 0 <= i < |s| => s[i].metrics)
  }

  /** What a kind of aggregation makes of one field. */
  ghost predicate IsCombined(s: seq<Sample>, kind: Kind, f: Field, v: real)
    requires s != []
  {
    match kind
    case ByMinimum => IsLeast(MetricsOf(s), f, v)
    case ByMaximum => IsGreatest(MetricsOf(s), f, v)
    case BySum => v == Total(MetricsOf(s), f)
    case ByAverage => IsAverage(MetricsOf(s), f, v)
    case ByUnknown => v == Get(s[0].metrics, f)
  }

  /** aggregateSystemMetrics: nothing for no samples; an unknown kind answers with the first sample;
      every other kind combines the metrics and copies the other fields from the first sample. */
  method Aggregate(s: seq<Sample>, kind: Kind) returns (result: Option<Sample>)
    ensures result.None? <==> s == []
    ensures s != [] ==> result.value.carried == s[0].carried
    ensures s != [] && kind == ByUnknown ==> result.value == s[0]
    ensures s != [] ==> forall f :: IsCombined(s, kind, f, Get(result.value.metrics, f))
  {
    if s == [] {
      return None;
    }
    var m := s[0].metrics;
    match kind {
      case ByAverage => m := Average(MetricsOf(s));
      case ByMinimum => m := Minimum(MetricsOf(s));
      case ByMaximum => m := Maximum(MetricsOf(s));
      case BySum => m := Sum(MetricsOf(s));
      case ByUnknown =>
    }
    result := Some(Sample(m, s[0].carried));
  }
}

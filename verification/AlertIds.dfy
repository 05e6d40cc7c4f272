/** The identifiers of alerts: rule ID, metric type and, for process alerts, the PID, joined with
    underscores although all three may contain or follow underscores themselves
    (internal/infrastructure/alerting/engine.go, evaluateSystemRule and evaluateProcessRule). */
module AlertIds {
  import opened Basics
  import opened Decimals

  datatype SystemMetric =
    | CpuUsage | MemoryUsage | MemoryAvailable | LoadAverage1 | LoadAverage5 | LoadAverage15 | SwapUsage

  datatype ProcessMetric = ProcessCpu | ProcessMemory | ProcessThreads | ProcessOpenFiles

  function SystemName(m: SystemMetric): string {
    match m
    case CpuUsage => "cpu_usage"
    case MemoryUsage => "memory_usage"
    case MemoryAvailable => "memory_available"
    case LoadAverage1 => "load_average_1"
    case LoadAverage5 => "load_average_5"
    case LoadAverage15 => "load_average_15"
    case SwapUsage => "swap_usage"
  }

  function ProcessName(m: ProcessMetric): string {
    match m
    case ProcessCpu => "process_cpu"
    case ProcessMemory => "process_memory"
    case ProcessThreads => "process_threads"
    case ProcessOpenFiles => "process_open_files"
  }

  datatype Target =
    | OfSystem(rule: string, metric: SystemMetric)
    | OfProcess(rule: string, processMetric: ProcessMetric, pid: nat)

  function AlertId(t: Target): string {
    match t
    case OfSystem(rule, metric) => rule + "_" + SystemName(metric)
    case OfProcess(rule, metric, pid) => rule + "_" + ProcessName(metric) + "_" + Itoa(pid)
  }

  predicate EndsWith(s: string, tail: string) {
    IsSuffix(tail, s)
  }

  /** Two texts split at the same distance from their ends. */
  lemma SameTail(a: string, x: string, b: string, y: string)
    requires a + x == b + y && |x| == |y|
    ensures a == b && x == y
  {
    assert (a + x)[..|a|] == a && (b + y)[..|b|] == b;
    assert (a + x)[|a|..] == x && (b + y)[|b|..] == y;
  }

  lemma ShorterTail(a: string, x: string, b: string, y: string)
    requires a + x == b + y && |x| <= |y|
    ensures EndsWith(y, x)
  {
    var k := |y| - |x|;
    assert b + y == (b + y[..k]) + y[k..];
    SameTail(a, x, b + y[..k], y[k..]);
  }

  lemma NotSuffix(s: string, tail: string, i: nat)
    requires i < |tail| <= |s| && s[|s| - |tail| + i] != tail[i]
    ensures !EndsWith(s, tail)
  {
    assert s[|s| - |tail|..][i] == s[|s| - |tail| + i];
  }

  /** No metric name, with the underscore before it, ends another metric name. */
  lemma SystemNamesAreSuffixFree(m: SystemMetric, n: SystemMetric)
    ensures !EndsWith(SystemName(n), "_" + SystemName(m))
  {
    var s, tail := SystemName(n), "_" + SystemName(m);
    if |tail| <= |s| {
      NotSuffix(s, tail, if s[|s| - |tail|] != '_' then 0 else 1);
    }
  }

  lemma ProcessNamesAreSuffixFree(m: ProcessMetric, n: ProcessMetric)
    ensures !EndsWith(ProcessName(n), "_" + ProcessName(m))
  {
    var s, tail := ProcessName(n), "_" + ProcessName(m);
    if |tail| <= |s| {
      NotSuffix(s, tail, if s[|s| - |tail|] != '_' then 0 else 1);
    }
  }

  lemma SuffixFreeDecodes(a: string, x: string, b: string, y: string)
    requires a + "_" + x == b + "_" + y
    requires !EndsWith(y, "_" + x) && !EndsWith(x, "_" + y)
    ensures a == b && x == y
  {
    assert a + "_" + x == a + ("_" + x) && b + "_" + y == b + ("_" + y);
    if |x| == |y| {
      SameTail(a, "_" + x, b, "_" + y);
      assert ("_" + x)[1..] == x && ("_" + y)[1..] == y;
    } else if |x| < |y| {
      assert b + ("_" + y) == (b + "_") + y;
      ShorterTail(a, "_" + x, b + "_", y);
    } else {
      assert a + ("_" + x) == (a + "_") + x;
      ShorterTail(b, "_" + y, a + "_", x);
    }
  }

  lemma SystemNamesDiffer(m: SystemMetric, n: SystemMetric)
    requires SystemName(m) == SystemName(n)
    ensures m == n
  {
    match m case _ => match n case _ =>
  }

  lemma ProcessNamesDiffer(m: ProcessMetric, n: ProcessMetric)
    requires ProcessName(m) == ProcessName(n)
    ensures m == n
  {
    match m case _ => match n case _ =>
  }

  lemma SystemIdsDecode(a: string, m: SystemMetric, b: string, n: SystemMetric)
    requires AlertId(OfSystem(a, m)) == AlertId(OfSystem(b, n))
    ensures a == b && m == n
  {
    hide SystemName;
    SystemNamesAreSuffixFree(m, n);
    SystemNamesAreSuffixFree(n, m);
    SuffixFreeDecodes(a, SystemName(m), b, SystemName(n));
    SystemNamesDiffer(m, n);
  }

  /** A text that ends in an underscore and digits splits in one way. */
  lemma DigitsSplit(a: string, x: string, b: string, y: string)
    requires a + "_" + x == b + "_" + y
    requires forall i :: 0 <= i < |x| ==> IsDigit(x[i])
    requires forall i :: 0 <= i < |y| ==> IsDigit(y[i])
    ensures a == b && x == y
  {
    if |x| < |y| {
      NotSuffix(y, "_" + x, 0);
    }
    if |y| < |x| {
      NotSuffix(x, "_" + y, 0);
    }
    SuffixFreeDecodes(a, x, b, y);
  }

  lemma ProcessIdsDecode(a: string, m: ProcessMetric, p: nat, b: string, n: ProcessMetric, q: nat)
    requires AlertId(OfProcess(a, m, p)) == AlertId(OfProcess(b, n, q))
    ensures a == b && m == n && p == q
  {
    hide ProcessName;
    DigitsSplit(a + "_" + ProcessName(m), Itoa(p), b + "_" + ProcessName(n), Itoa(q));
    ItoaInjective(p, q);
    ProcessNamesAreSuffixFree(m, n);
    ProcessNamesAreSuffixFree(n, m);
    SuffixFreeDecodes(a, ProcessName(m), b, ProcessName(n));
    ProcessNamesDiffer(m, n);
  }

  function LoadDigits(m: SystemMetric): string {
    match m
    case LoadAverage1 => "1"
    case LoadAverage5 => "5"
    case LoadAverage15 => "15"
    case _ => ""
  }

  lemma LastOfItoa(s: string, n: nat)
    ensures var t := s + Itoa(n); IsDigit(t[|t| - 1])
  {
  }

  lemma LoadNameShape(rule: string, m: SystemMetric)
    requires m in {LoadAverage1, LoadAverage5, LoadAverage15}
    ensures AlertId(OfSystem(rule, m)) == (rule + "_" + "load_average") + "_" + LoadDigits(m)
    ensures forall i :: 0 <= i < |LoadDigits(m)| ==> IsDigit(LoadDigits(m)[i])
  {
    assert SystemName(m) == "load_average" + "_" + LoadDigits(m);
    Reassociate(rule, "load_average", LoadDigits(m));
  }

  lemma Reassociate(a: string, b: string, c: string)
    ensures a + "_" + (b + "_" + c) == (a + "_" + b) + "_" + c
  {
  }

  lemma OtherNameEnd(rule: string, m: SystemMetric)
    requires m !in {LoadAverage1, LoadAverage5, LoadAverage15}
    ensures var id := AlertId(OfSystem(rule, m)); !IsDigit(id[|id| - 1])
  {
  }

  lemma LoadBaseEnd(rule: string)
    ensures var s := rule + "_" + "load_average"; s[|s| - 1] == 'e'
  {
  }

  lemma ProcessNameEnd(rule: string, m: ProcessMetric)
    ensures var s := rule + "_" + ProcessName(m); s[|s| - 1] in {'u', 'y', 's'}
  {
  }

  lemma KindsDiffer(a: string, m: SystemMetric, b: string, n: ProcessMetric, q: nat)
    ensures AlertId(OfSystem(a, m)) != AlertId(OfProcess(b, n, q))
  {
    hide SystemName, ProcessName, LoadDigits, Itoa;
    LastOfItoa(b + "_" + ProcessName(n) + "_", q);
    ProcessNameEnd(b, n);
    LoadBaseEnd(a);
    if m !in {LoadAverage1, LoadAverage5, LoadAverage15} {
      OtherNameEnd(a, m);
    } else {
      LoadNameShape(a, m);
      if AlertId(OfSystem(a, m)) == AlertId(OfProcess(b, n, q)) {
        DigitsSplit(a + "_" + "load_average", LoadDigits(m), b + "_" + ProcessName(n), Itoa(q));
      }
    }
  }

  /** Alert identifiers are uniquely decodable, for every rule ID whatsoever. */
  lemma AlertIdInjective(s: Target, t: Target)
    requires AlertId(s) == AlertId(t)
    ensures s == t
  {
    hide SystemName, ProcessName, Itoa;
    match (s, t)
    case (OfSystem(a, m), OfSystem(b, n)) => SystemIdsDecode(a, m, b, n);
    case (OfProcess(a, m, p), OfProcess(b, n, q)) => ProcessIdsDecode(a, m, p, b, n, q);
    case (OfSystem(a, m), OfProcess(b, n, q)) => KindsDiffer(a, m, b, n, q);
    case (OfProcess(b, n, q), OfSystem(a, m)) => KindsDiffer(a, m, b, n, q);
  }
}

/** Turning absolute kernel counters into monotone exported counters through remembered previous
    values (internal/infrastructure/export/prometheus.go, UpdateProcessMetrics and UpdateDiskIO). */
module Deltas {
  import opened Basics

  datatype Metric =
    | ProcessIORead | ProcessIOWrite
    | DiskReadBytes | DiskWriteBytes | DiskReadCount | DiskWriteCount

  /** One absolute counter: of a process (by the text of its PID) or of a device. */
  datatype Source = Source(metric: Metric, key: string)

  /** One exported time series: a source and the further labels it is exported under. */
  datatype Series = Series(source: Source, labels: seq<string>)

  datatype Observation = Observation(series: Series, value: nat)

  datatype Exporter = Exporter(prev: map<Source, nat>, counters: map<Series, nat>)

  function Exported(e: Exporter, s: Series): nat {
    if s in e.counters then e.counters[s] else 0
  }

  /** Only an upward step from a known previous value is added. */
  function Bumped(counters: map<Series, nat>, s: Series, before: Option<nat>, value: nat): map<Series, nat> {
    if before.Some? && value >= before.value
    then counters[s := (if s in counters then counters[s] else 0) + (value - before.value)]
    else counters
  }

  function Previous(prev: map<Source, nat>, src: Source): Option<nat> {
    if src in prev then Some(prev[src]) else None
  }

  function Observe(e: Exporter, o: Observation): Exporter {
    var src := o.series.source;
    Exporter(e.prev[src := o.value], Bumped(e.counters, o.series, Previous(e.prev, src), o.value))
  }

  function ObserveAll(e: Exporter, os: seq<Observation>): Exporter
    decreases |os|
  {
    if os == [] then e else ObserveAll(Observe(e, os[0]), os[1..])
  }

  lemma {:induction false} ObserveAllConcat(e: Exporter, a: seq<Observation>, b: seq<Observation>)
    ensures ObserveAll(e, a + b) == ObserveAll(ObserveAll(e, a), b)
    decreases |a|
  {
    if a == [] {
      assert a + b == b;
    } else {
      assert (a + b)[1..] == a[1..] + b;
      ObserveAllConcat(Observe(e, a[0]), a[1..], b);
    }
  }

  const NEW_EXPORTER := Exporter(map[], map[])

  // ---- Totals over label sets ----

  ghost function SumOver(keys: set<Series>, m: map<Series, nat>): nat
    requires keys <= m.Keys
  {
    if keys == {} then 0 else
      var k :| k in keys;
      m[k] + SumOver(keys - {k}, m)
  }

  lemma {:induction false} SumTakesOut(keys: set<Series>, m: map<Series, nat>, k: Series)
    requires keys <= m.Keys && k in keys
    ensures SumOver(keys, m) == m[k] + SumOver(keys - {k}, m)
    decreases |keys|
  {
    var c :| c in keys && SumOver(keys, m) == m[c] + SumOver(keys - {c}, m);
    if c != k {
      SumTakesOut(keys - {c}, m, k);
      SumTakesOut(keys - {k}, m, c);
      assert keys - {c} - {k} == keys - {k} - {c};
    }
  }

  lemma {:induction false} SumAgrees(keys: set<Series>, m: map<Series, nat>, n: map<Series, nat>)
    requires keys <= m.Keys && keys <= n.Keys && forall k :: k in keys ==> m[k] == n[k]
    ensures SumOver(keys, m) == SumOver(keys, n)
    decreases |keys|
  {
    if keys != {} {
      var k :| k in keys;
      SumTakesOut(keys, m, k);
      SumTakesOut(keys, n, k);
      SumAgrees(keys - {k}, m, n);
    }
  }

  function SeriesOf(m: map<Series, nat>, src: Source): set<Series> {
    set s | s in m && s.source == src
  }

  /** Everything exported for one source, over all its label sets. */
  ghost function Total(e: Exporter, src: Source): nat {
    SumOver(SeriesOf(e.counters, src), e.counters)
  }

  lemma TotalAfterAdding(e: Exporter, s: Series, d: nat, src: Source)
    ensures var n := e.(counters := e.counters[s := Exported(e, s) + d]);
      Total(n, src) == Total(e, src) + if s.source == src then d else 0
  {
    var n := e.(counters := e.counters[s := Exported(e, s) + d]);
    var before, after := SeriesOf(e.counters, src), SeriesOf(n.counters, src);
    if s.source != src {
      assert before == after;
      SumAgrees(before, e.counters, n.counters);
    } else {
      assert after == before + {s};
      SumTakesOut(after, n.counters, s);
      assert after - {s} == before - {s};
      SumAgrees(before - {s}, e.counters, n.counters);
      if s in before {
        SumTakesOut(before, e.counters, s);
      } else {
        assert before - {s} == before;
      }
    }
  }

  // ---- The exported total against the observed samples ----

  /** The samples of one source, in the order in which they were observed. */
  function Log(os: seq<Observation>, src: Source): (log: seq<nat>) {
    if os == [] then []
    else (if os[0].series.source == src then [os[0].value] else []) + Log(os[1..], src)
  }

  /** The sum of the upward steps between consecutive samples. */
  function UpSteps(log: seq<nat>): nat {
    if |log| < 2 then 0
    else
      var n := |log|;
      UpSteps(log[..n - 1]) + if log[n - 1] >= log[n - 2] then log[n - 1] - log[n - 2] else 0
  }

  /** The exporter after observing a log of some source. */
  ghost predicate Follows(e: Exporter, src: Source, log: seq<nat>) {
    && (src in e.prev <==> log != [])
    && (log != [] ==> e.prev[src] == log[|log| - 1])
    && Total(e, src) == UpSteps(log)
  }

  lemma UpStepsSnoc(log: seq<nat>, x: nat)
    ensures UpSteps(log + [x]) ==
            UpSteps(log) + if log != [] && x >= log[|log| - 1] then x - log[|log| - 1] else 0
  {
    assert (log + [x])[..|log|] == log;
  }

  lemma ObserveFollows(e: Exporter, o: Observation, src: Source, log: seq<nat>)
    requires Follows(e, src, log)
    ensures Follows(Observe(e, o), src, if o.series.source == src then log + [o.value] else log)
  {
    var s := o.series;
    UpStepsSnoc(log, o.value);
    if s.source in e.prev && o.value >= e.prev[s.source] {
      TotalAfterAdding(e, s, o.value - e.prev[s.source], src);
    }
    hide UpSteps, SumOver;
  }

  lemma {:induction false} AllFollow(e: Exporter, os: seq<Observation>, src: Source, log: seq<nat>)
    requires Follows(e, src, log)
    ensures Follows(ObserveAll(e, os), src, log + Log(os, src))
    decreases |os|
  {
    hide Follows, Observe;
    if os == [] {
      assert log + Log(os, src) == log;
    } else {
      ObserveFollows(e, os[0], src, log);
      var grown := if os[0].series.source == src then log + [os[0].value] else log;
      AllFollow(Observe(e, os[0]), os[1..], src, grown);
      assert grown + Log(os[1..], src) == log + Log(os, src);
    }
  }

  /** Over any run of updates, what is exported for a source, summed over its label sets, is the sum
      of the upward steps between its observed samples; and it never decreases. */
  lemma TotalIsUpSteps(os: seq<Observation>, more: seq<Observation>, src: Source)
    ensures Total(ObserveAll(NEW_EXPORTER, os), src) == UpSteps(Log(os, src))
    ensures Total(ObserveAll(NEW_EXPORTER, os), src) <= Total(ObserveAll(NEW_EXPORTER, os + more), src)
  {
    assert SeriesOf(map[], src) == {};
    assert Follows(NEW_EXPORTER, src, []);
    AllFollow(NEW_EXPORTER, os, src, []);
    assert [] + Log(os, src) == Log(os, src);
    AllFollow(ObserveAll(NEW_EXPORTER, os), more, src, Log(os, src));
    ObserveAllConcat(NEW_EXPORTER, os, more);
    UpStepsGrow(Log(os, src), Log(more, src));
  }

  lemma {:induction false} UpStepsGrow(a: seq<nat>, b: seq<nat>)
    ensures UpSteps(a) <= UpSteps(a + b)
    decreases |b|
  {
    if b == [] {
      assert a + b == a;
    } else {
      var n := |b| - 1;
      UpStepsGrow(a, b[..n]);
      assert a + b == (a + b[..n]) + [b[n]];
      UpStepsSnoc(a + b[..n], b[n]);
    }
  }

  predicate Rising(log: seq<nat>) {
    forall i, j :: 0 <= i < j < |log| ==> log[i] <= log[j]
  }

  lemma RisingSnoc(log: seq<nat>, x: nat)
    requires log != []
    ensures Rising(log + [x]) <==> Rising(log) && log[|log| - 1] <= x
  {
    if Rising(log + [x]) {
      assert (log + [x])[|log| - 1] <= (log + [x])[|log|];
      forall i, j | 0 <= i < j < |log| ensures log[i] <= log[j] {
        assert (log + [x])[i] <= (log + [x])[j];
      }
    }
  }

  /** The upward steps amount to at least last minus first, and to exactly that when and only when
      the source never went back. */
  lemma {:induction false} UpStepsTelescopeIffRising(log: seq<nat>)
    requires log != []
    ensures log[0] + UpSteps(log) >= log[|log| - 1]
    ensures log[0] + UpSteps(log) == log[|log| - 1] <==> Rising(log)
  {
    var n := |log| - 1;
    if n > 0 {
      UpStepsTelescopeIffRising(log[..n]);
      RisingSnoc(log[..n], log[n]);
      UpStepsSnoc(log[..n], log[n]);
      assert log == log[..n] + [log[n]];
    }
  }

  lemma {:induction false} LogConcat(a: seq<Observation>, b: seq<Observation>, src: Source)
    ensures Log(a + b, src) == Log(a, src) + Log(b, src)
  {
    if a == [] {
      assert a + b == b;
    } else {
      assert (a + b)[1..] == a[1..] + b;
      LogConcat(a[1..], b, src);
    }
  }

  // ---- Rounds of which only the first samples are shown ----

  /** The front of the round: all of it, or as many as a positive limit allows. */
  function Shown<T>(round: seq<T>, limit: int): (r: seq<T>)
    ensures r <= round
    ensures |r| == |round| || (|r| == limit && 0 < limit < |round|)
    ensures limit > 0 ==> |r| <= limit
  {
    if limit > 0 && |round| > limit then round[..limit] else round
  }

  function Flatten<T>(rounds: seq<seq<T>>): seq<T> {
    if rounds == [] then [] else Flatten(rounds[..|rounds| - 1]) + rounds[|rounds| - 1]
  }

  /** Each round of `seen` is the front part of the round of `all`. */
  predicate FrontOf(seen: seq<seq<Observation>>, all: seq<seq<Observation>>) {
    |seen| == |all| && forall i :: 0 <= i < |seen| ==> seen[i] <= all[i]
  }

  predicate AllIn(a: seq<nat>, b: seq<nat>) {
    forall i :: 0 <= i < |a| ==> a[i] in b
  }

  lemma RisingParts(a: seq<nat>, b: seq<nat>, p: seq<nat>, q: seq<nat>, r: seq<nat>)
    requires Rising(a + b) && b == q + r && Rising(p) && AllIn(p, a)
    ensures Rising(p + q) && AllIn(p + q, a + b) && Rising(a)
  {
    var whole := a + b;
    assert forall i :: 0 <= i < |a| ==> whole[i] == a[i];
    assert forall i :: 0 <= i < |q| ==> whole[|a| + i] == q[i];
    forall i, j | 0 <= i < j < |p + q| ensures (p + q)[i] <= (p + q)[j] {
      if i < |p| <= j {
        var m :| 0 <= m < |a| && a[m] == p[i];
        assert whole[m] <= whole[|a| + (j - |p|)];
      } else if |p| <= i {
        assert whole[|a| + (i - |p|)] <= whole[|a| + (j - |p|)];
      }
    }
    forall i | 0 <= i < |p + q| ensures (p + q)[i] in whole {
      if i < |p| {
        assert p[i] in a;
      } else {
        assert whole[|a| + (i - |p|)] == (p + q)[i];
      }
    }
    forall i, j | 0 <= i < j < |a| ensures a[i] <= a[j] {
      assert whole[i] <= whole[j];
    }
  }

  lemma FlattenLast(all: seq<seq<Observation>>, src: Source)
    requires all != []
    ensures var n := |all| - 1; Log(Flatten(all), src) == Log(Flatten(all[..n]), src) + Log(all[n], src)
  {
    LogConcat(Flatten(all[..|all| - 1]), all[|all| - 1], src);
  }

  lemma FrontSplit(front: seq<Observation>, whole: seq<Observation>, src: Source)
    requires front <= whole
    ensures Log(whole, src) == Log(front, src) + Log(whole[|front|..], src)
  {
    assert whole == front + whole[|front|..];
    LogConcat(front, whole[|front|..], src);
  }

  /** If a source never goes back in the full rounds, neither does it in what was seen of them. */
  lemma {:induction false} HidingKeepsRising(seen: seq<seq<Observation>>, all: seq<seq<Observation>>, src: Source)
    requires FrontOf(seen, all) && Rising(Log(Flatten(all), src))
    ensures Rising(Log(Flatten(seen), src)) && AllIn(Log(Flatten(seen), src), Log(Flatten(all), src))
    decreases |all|
  {
    if all != [] {
      var n := |all| - 1;
      assert FrontOf(seen[..n], all[..n]) && seen[n] <= all[n];
      hide Rising, AllIn, Log, Flatten, FrontOf;
      FlattenLast(all, src);
      FlattenLast(seen, src);
      FrontSplit(seen[n], all[n], src);
      RisingFront(Log(Flatten(all[..n]), src), Log(all[n], src));
      HidingKeepsRising(seen[..n], all[..n], src);
      RisingParts(Log(Flatten(all[..n]), src), Log(all[n], src), Log(Flatten(seen[..n]), src),
                  Log(seen[n], src), Log(all[n][|seen[n]|..], src));
    }
  }

  lemma RisingFront(a: seq<nat>, b: seq<nat>)
    requires Rising(a + b)
    ensures Rising(a)
  {
    forall i, j | 0 <= i < j < |a| ensures a[i] <= a[j] {
      assert (a + b)[i] <= (a + b)[j];
    }
  }

  /** A source that never goes back is exported as its last observed sample minus its first, even
      when some rounds hide it. */
  lemma HiddenRoundsTelescope(seen: seq<seq<Observation>>, all: seq<seq<Observation>>, src: Source)
    requires FrontOf(seen, all) && Rising(Log(Flatten(all), src))
    ensures var log := Log(Flatten(seen), src);
      log != [] ==> log[0] + Total(ObserveAll(NEW_EXPORTER, Flatten(seen)), src) == log[|log| - 1]
  {
    HidingKeepsRising(seen, all, src);
    TotalIsUpSteps(Flatten(seen), [], src);
    var log := Log(Flatten(seen), src);
    if log != [] {
      UpStepsTelescopeIffRising(log);
    }
  }
}

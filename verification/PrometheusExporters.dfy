/** The delta logic of the exporter as it runs: previous values kept in two maps, exported counters
    increased in place (internal/infrastructure/export/prometheus.go). */
module PrometheusExporters {
  import opened Basics
  import opened Decimals
  import opened Deltas

  datatype IOCounters = IOCounters(readBytes: nat, writeBytes: nat)

  datatype ProcessSample = ProcessSample(pid: int, name: string, user: string, io: Option<IOCounters>)

  datatype DiskSample = DiskSample(device: string, readBytes: nat, writeBytes: nat, readCount: nat, writeCount: nat)

  datatype DiskPrev = DiskPrev(readBytes: nat, writeBytes: nat, readCount: nat, writeCount: nat)

  /** What one process sample contributes: nothing without I/O counters. */
  function ProcessObservations(p: ProcessSample): seq<Observation> {
    if p.io == None then [] else
      [Observation(Series(Source(ProcessIORead, Itoa(p.pid)), [p.name, p.user]), p.io.value.readBytes),
       Observation(Series(Source(ProcessIOWrite, Itoa(p.pid)), [p.name, p.user]), p.io.value.writeBytes)]
  }

  function DiskObservations(d: DiskSample): seq<Observation> {
    [Observation(Series(Source(DiskReadBytes, d.device), []), d.readBytes),
     Observation(Series(Source(DiskWriteBytes, d.device), []), d.writeBytes),
     Observation(Series(Source(DiskReadCount, d.device), []), d.readCount),
     Observation(Series(Source(DiskWriteCount, d.device), []), d.writeCount)]
  }

  function AllProcessObservations(ps: seq<ProcessSample>): seq<Observation> {
    if ps == [] then [] else AllProcessObservations(ps[..|ps| - 1]) + ProcessObservations(ps[|ps| - 1])
  }

  function AllDiskObservations(ds: seq<DiskSample>): seq<Observation> {
    if ds == [] then [] else AllDiskObservations(ds[..|ds| - 1]) + DiskObservations(ds[|ds| - 1])
  }

  lemma AllProcessNext(ps: seq<ProcessSample>, i: nat)
    requires i < |ps|
    ensures AllProcessObservations(ps[..i + 1]) == AllProcessObservations(ps[..i]) + ProcessObservations(ps[i])
  {
    assert ps[..i + 1][..i] == ps[..i];
  }

  lemma AllDiskNext(ds: seq<DiskSample>, i: nat)
    requires i < |ds|
    ensures AllDiskObservations(ds[..i + 1]) == AllDiskObservations(ds[..i]) + DiskObservations(ds[i])
  {
    assert ds[..i + 1][..i] == ds[..i];
  }

  /** Showing only the first processes of a round shows the front part of its observations. */
  lemma {:induction false} ShownIsFront(ps: seq<ProcessSample>, k: nat)
    requires k <= |ps|
    ensures AllProcessObservations(ps[..k]) <= AllProcessObservations(ps)
    decreases |ps|
  {
    if k < |ps| {
      var n := |ps| - 1;
      ShownIsFront(ps[..n], k);
      assert ps[..n][..k] == ps[..k];
    } else {
      assert ps[..k] == ps;
    }
  }

  // ---- Observations against the samples themselves ----

  /** The I/O counters of one process in some samples, those without any left out. */
  function CountersOf(ps: seq<ProcessSample>, pid: int): seq<IOCounters> {
    if ps == [] then [] else
      var last := ps[|ps| - 1];
      CountersOf(ps[..|ps| - 1], pid) + if last.pid == pid && last.io.Some? then [last.io.value] else []
  }

  function SamplesOf(ds: seq<DiskSample>, device: string): seq<DiskSample> {
    if ds == [] then [] else
      var last := ds[|ds| - 1];
      SamplesOf(ds[..|ds| - 1], device) + if last.device == device then [last] else []
  }

  function Kept(o: Observation, src: Source): seq<nat> {
    if o.series.source == src then [o.value] else []
  }

  lemma LogTwo(o: seq<Observation>, src: Source)
    ensures o == [] ==> Log(o, src) == []
    ensures |o| == 2 ==> Log(o, src) == Kept(o[0], src) + Kept(o[1], src)
  {
    if |o| == 2 {
      assert o == [o[0]] + [o[1]];
      LogConcat([o[0]], [o[1]], src);
      LogSingle(o[0], src);
      LogSingle(o[1], src);
    }
  }

  lemma LogSingle(o: Observation, src: Source)
    ensures Log([o], src) == Kept(o, src)
  {
    assert [o][1..] == [];
  }

  lemma LogFour(o: seq<Observation>, src: Source)
    requires |o| == 4
    ensures Log(o, src) == Kept(o[0], src) + Kept(o[1], src) + Kept(o[2], src) + Kept(o[3], src)
  {
    hide Log;
    LogTwo([o[0], o[1]], src);
    LogTwo([o[2], o[3]], src);
    assert o == [o[0], o[1]] + [o[2], o[3]];
    LogConcat([o[0], o[1]], [o[2], o[3]], src);
  }

  lemma ProcessLogOne(p: ProcessSample, pid: int)
    ensures var mine, os := p.pid == pid && p.io.Some?, ProcessObservations(p);
      && Log(os, Source(ProcessIORead, Itoa(pid))) == (if mine then [p.io.value.readBytes] else [])
      && Log(os, Source(ProcessIOWrite, Itoa(pid))) == (if mine then [p.io.value.writeBytes] else [])
  {
    if Itoa(p.pid) == Itoa(pid) {
      ItoaIntInjective(p.pid, pid);
    }
    hide Itoa, Log;
    LogTwo(ProcessObservations(p), Source(ProcessIORead, Itoa(pid)));
    LogTwo(ProcessObservations(p), Source(ProcessIOWrite, Itoa(pid)));
  }

  /** What is observed of a process is its read bytes and its written bytes, sample by sample. */
  lemma {:induction false} ProcessLogs(ps: seq<ProcessSample>, pid: int)
    ensures var c, os := CountersOf(ps, pid), AllProcessObservations(ps);
      var rb, wb := Log(os, Source(ProcessIORead, Itoa(pid))), Log(os, Source(ProcessIOWrite, Itoa(pid)));
      && |rb| == |wb| == |c|
      && (forall i :: 0 <= i < |c| ==> rb[i] == c[i].readBytes && wb[i] == c[i].writeBytes)
    decreases |ps|
  {
    if ps != [] {
      var n := |ps| - 1;
      ProcessLogs(ps[..n], pid);
      ProcessLogOne(ps[n], pid);
      hide ProcessObservations, Log, Itoa;
      LogConcat(AllProcessObservations(ps[..n]), ProcessObservations(ps[n]), Source(ProcessIORead, Itoa(pid)));
      LogConcat(AllProcessObservations(ps[..n]), ProcessObservations(ps[n]), Source(ProcessIOWrite, Itoa(pid)));
    }
  }

  function DiskValue(d: DiskSample, m: Metric): nat {
    match m
    case DiskReadBytes => d.readBytes
    case DiskWriteBytes => d.writeBytes
    case DiskReadCount => d.readCount
    case _ => d.writeCount
  }

  lemma {:induction false} DiskLogOf(ds: seq<DiskSample>, device: string, m: Metric)
    requires m != ProcessIORead && m != ProcessIOWrite
    ensures var s, log := SamplesOf(ds, device), Log(AllDiskObservations(ds), Source(m, device));
      |log| == |s| && forall i :: 0 <= i < |s| ==> log[i] == DiskValue(s[i], m)
    decreases |ds|
  {
    if ds != [] {
      var n := |ds| - 1;
      DiskLogOf(ds[..n], device, m);
      LogFour(DiskObservations(ds[n]), Source(m, device));
      LogConcat(AllDiskObservations(ds[..n]), DiskObservations(ds[n]), Source(m, device));
      hide Log;
    }
  }

  /** What is observed of a device is its four counters, sample by sample. */
  lemma {:induction false} DiskLogs(ds: seq<DiskSample>, device: string)
    ensures var s, os := SamplesOf(ds, device), AllDiskObservations(ds);
      var rb, wb := Log(os, Source(DiskReadBytes, device)), Log(os, Source(DiskWriteBytes, device));
      var rc, wc := Log(os, Source(DiskReadCount, device)), Log(os, Source(DiskWriteCount, device));
      && |rb| == |wb| == |rc| == |wc| == |s|
      && (forall i :: 0 <= i < |s| ==> rb[i] == s[i].readBytes && wb[i] == s[i].writeBytes)
      && (forall i :: 0 <= i < |s| ==> rc[i] == s[i].readCount && wc[i] == s[i].writeCount)
  {
    hide Log, SamplesOf, AllDiskObservations;
    DiskLogOf(ds, device, DiskReadBytes);
    DiskLogOf(ds, device, DiskWriteBytes);
    DiskLogOf(ds, device, DiskReadCount);
    DiskLogOf(ds, device, DiskWriteCount);
  }

  // ---- Rounds under a process limit ----

  /** The observations of successive rounds under a process limit; a limit of zero hides nothing. */
  function RoundObservations(rounds: seq<seq<ProcessSample>>, limit: int): (r: seq<seq<Observation>>)
    ensures |r| == |rounds|
  {
    seq(|rounds|, i requires 0 <= i < |rounds| => AllProcessObservations(Shown(rounds[i], limit)))
  }

  /** The samples shown in successive rounds. */
  function ShownSamples(rounds: seq<seq<ProcessSample>>, limit: int): seq<ProcessSample> {
    if rounds == [] then []
    else ShownSamples(rounds[..|rounds| - 1], limit) + Shown(rounds[|rounds| - 1], limit)
  }

  lemma {:induction false} AllProcessConcat(a: seq<ProcessSample>, b: seq<ProcessSample>)
    ensures AllProcessObservations(a + b) == AllProcessObservations(a) + AllProcessObservations(b)
    decreases |b|
  {
    hide ProcessObservations;
    if b == [] {
      assert a + b == a;
    } else {
      var n := |b| - 1;
      assert (a + b)[..|a| + n] == a + b[..n] && (a + b)[|a| + n] == b[n];
      AllProcessConcat(a, b[..n]);
    }
  }

  lemma {:induction false} RoundsAreSamples(rounds: seq<seq<ProcessSample>>, limit: int)
    ensures Flatten(RoundObservations(rounds, limit)) == AllProcessObservations(ShownSamples(rounds, limit))
    decreases |rounds|
  {
    if rounds != [] {
      var n := |rounds| - 1;
      RoundsAreSamples(rounds[..n], limit);
      AllProcessConcat(ShownSamples(rounds[..n], limit), Shown(rounds[n], limit));
      assert RoundObservations(rounds, limit)[..n] == RoundObservations(rounds[..n], limit);
    }
  }

  lemma ShownRoundsTelescope(rounds: seq<seq<ProcessSample>>, limit: int, src: Source)
    requires Rising(Log(AllProcessObservations(ShownSamples(rounds, 0)), src))
    ensures var seen := AllProcessObservations(ShownSamples(rounds, limit));
      var log := Log(seen, src);
      log != [] ==> log[0] + Total(ObserveAll(NEW_EXPORTER, seen), src) == log[|log| - 1]
  {
    ShownIsFrontOf(rounds, limit);
    RoundsAreSamples(rounds, limit);
    RoundsAreSamples(rounds, 0);
    hide Rising, Log, Flatten, ObserveAll, Total, RoundObservations, FrontOf, ShownSamples, AllProcessObservations;
    HiddenRoundsTelescope(RoundObservations(rounds, limit), RoundObservations(rounds, 0), src);
  }

  lemma ShownIsFrontOf(rounds: seq<seq<ProcessSample>>, limit: int)
    ensures FrontOf(RoundObservations(rounds, limit), RoundObservations(rounds, 0))
  {
    hide AllProcessObservations;
    var seen, all := RoundObservations(rounds, limit), RoundObservations(rounds, 0);
    forall i | 0 <= i < |seen| ensures seen[i] <= all[i] {
      ShownIsFront(rounds[i], |Shown(rounds[i], limit)|);
      assert rounds[i][..|rounds[i]|] == rounds[i];
    }
  }

  /** When a process's counters never go back over all rounds, what is exported for it is its last shown
      sample minus its first shown one, for the bytes read and for the bytes written, whatever the process
      limit hides. */
  lemma {:induction false} ProcessTotalTelescopes(rounds: seq<seq<ProcessSample>>, limit: int, pid: int)
    requires var all := CountersOf(ShownSamples(rounds, 0), pid);
      forall i, j :: 0 <= i < j < |all| ==>
        all[i].readBytes <= all[j].readBytes && all[i].writeBytes <= all[j].writeBytes
    ensures var shown := ShownSamples(rounds, limit);
      var c, e := CountersOf(shown, pid), ObserveAll(NEW_EXPORTER, AllProcessObservations(shown));
      c != [] ==>
        && Total(e, Source(ProcessIORead, Itoa(pid))) == c[|c| - 1].readBytes - c[0].readBytes
        && Total(e, Source(ProcessIOWrite, Itoa(pid))) == c[|c| - 1].writeBytes - c[0].writeBytes
  {
    ProcessLogs(ShownSamples(rounds, 0), pid);
    ProcessLogs(ShownSamples(rounds, limit), pid);
    hide Log, AllProcessObservations, ShownSamples, CountersOf, Itoa, Total, ObserveAll;
    ShownRoundsTelescope(rounds, limit, Source(ProcessIORead, Itoa(pid)));
    ShownRoundsTelescope(rounds, limit, Source(ProcessIOWrite, Itoa(pid)));
  }

  /** The same for the four counters of a device, which nothing hides. */
  lemma {:induction false} DiskTotalsTelescope(ds: seq<DiskSample>, device: string)
    ensures var s, e := SamplesOf(ds, device), ObserveAll(NEW_EXPORTER, AllDiskObservations(ds));
      var n := |s| - 1;
      s != [] ==>
        && ((forall i, j :: 0 <= i < j < |s| ==> s[i].readBytes <= s[j].readBytes) ==>
              Total(e, Source(DiskReadBytes, device)) == s[n].readBytes - s[0].readBytes)
        && ((forall i, j :: 0 <= i < j < |s| ==> s[i].writeBytes <= s[j].writeBytes) ==>
              Total(e, Source(DiskWriteBytes, device)) == s[n].writeBytes - s[0].writeBytes)
        && ((forall i, j :: 0 <= i < j < |s| ==> s[i].readCount <= s[j].readCount) ==>
              Total(e, Source(DiskReadCount, device)) == s[n].readCount - s[0].readCount)
        && ((forall i, j :: 0 <= i < j < |s| ==> s[i].writeCount <= s[j].writeCount) ==>
              Total(e, Source(DiskWriteCount, device)) == s[n].writeCount - s[0].writeCount)
  {
    DiskLogs(ds, device);
    hide Log, AllDiskObservations, SamplesOf, Total, ObserveAll, UpSteps;
    forall m: Metric ensures var log := Log(AllDiskObservations(ds), Source(m, device));
        log != [] && Rising(log) ==>
          Total(ObserveAll(NEW_EXPORTER, AllDiskObservations(ds)), Source(m, device)) == log[|log| - 1] - log[0] {
      SourceTelescopes(AllDiskObservations(ds), Source(m, device));
    }
  }

  lemma SourceTelescopes(os: seq<Observation>, src: Source)
    ensures var log := Log(os, src);
      log != [] && Rising(log) ==> Total(ObserveAll(NEW_EXPORTER, os), src) == log[|log| - 1] - log[0]
  {
    TotalIsUpSteps(os, [], src);
    if Log(os, src) != [] {
      UpStepsTelescopeIffRising(Log(os, src));
    }
  }

  /** One process sample touches only the two series under its own PID, name and user, and adds to each
      the step from the remembered counter, if there is one and it is not above. */
  lemma {:induction false} ProcessSampleExports(e: Exporter, p: ProcessSample, s: Series)
    ensures var n := ObserveAll(e, ProcessObservations(p));
      Exported(n, s) - Exported(e, s) ==
        if p.io == None || s.labels != [p.name, p.user] then 0
        else if s.source == Source(ProcessIORead, Itoa(p.pid)) then StepFrom(e, s.source, p.io.value.readBytes)
        else if s.source == Source(ProcessIOWrite, Itoa(p.pid)) then StepFrom(e, s.source, p.io.value.writeBytes)
        else 0
    ensures var n := ObserveAll(e, ProcessObservations(p));
      s in n.counters && s !in e.counters ==>
        && p.io.Some? && s.labels == [p.name, p.user] && s.source in e.prev
        && s.source.key == Itoa(p.pid) && (s.source.metric == ProcessIORead || s.source.metric == ProcessIOWrite)
    ensures var n, src := ObserveAll(e, ProcessObservations(p)), Source(ProcessIORead, Itoa(p.pid));
      p.io.Some? && src in e.prev && p.io.value.readBytes >= e.prev[src] ==>
        Series(src, [p.name, p.user]) in n.counters
    ensures var n, src := ObserveAll(e, ProcessObservations(p)), Source(ProcessIOWrite, Itoa(p.pid));
      p.io.Some? && src in e.prev && p.io.value.writeBytes >= e.prev[src] ==>
        Series(src, [p.name, p.user]) in n.counters
  {
    hide Itoa;
    if p.io.Some? {
      var o := ProcessObservations(p);
      TwoSources(e, o[0], o[1]);
      hide ObserveAll;
    }
  }

  function StepFrom(e: Exporter, src: Source, value: nat): nat {
    if src in e.prev && value >= e.prev[src] then value - e.prev[src] else 0
  }

  /** `prev` as the exporter keeps it: one map for processes, one for disks. */
  ghost predicate KeepsPrev(process: map<string, IOCounters>, disk: map<string, DiskPrev>, prev: map<Source, nat>) {
    forall m: Metric, k: string ::
      var src := Source(m, k);
      if m.ProcessIORead? || m.ProcessIOWrite? then
        (src in prev <==> k in process)
        && (k in process ==> prev[src] == if m.ProcessIORead? then process[k].readBytes else process[k].writeBytes)
      else
        (src in prev <==> k in disk)
        && (k in disk ==> prev[src] == match m
                                       case DiskReadBytes => disk[k].readBytes
                                       case DiskWriteBytes => disk[k].writeBytes
                                       case DiskReadCount => disk[k].readCount
                                       case _ => disk[k].writeCount)
  }

  class PrometheusExporter {
    const includeProcesses: bool
    const processLimit: int
    var prevProcessIO: map<string, IOCounters>
    var prevDiskIO: map<string, DiskPrev>
    var counters: map<Series, nat>
    ghost var model: Exporter

    ghost predicate Valid()
      reads this
    {
      counters == model.counters && KeepsPrev(prevProcessIO, prevDiskIO, model.prev)
    }

    constructor (includeProcesses: bool, processLimit: int)
      ensures Valid() && model == NEW_EXPORTER
      ensures this.includeProcesses == includeProcesses && this.processLimit == processLimit
    {
      this.includeProcesses, this.processLimit := includeProcesses, processLimit;
      prevProcessIO, prevDiskIO, counters := map[], map[], map[];
      model := NEW_EXPORTER;
    }

    /** counter.WithLabelValues(...).Add(...) */
    method Add(series: Series, delta: nat)
      modifies this`counters
      ensures counters == old(counters)[series := delta + if series in old(counters) then old(counters)[series] else 0]
    {
      var was := if series in counters then counters[series] else 0;
      counters := counters[series := was + delta];
    }

    /** "Only add the delta": nothing is added when the counter went back. */
    method AddDelta(series: Series, before: nat, value: nat)
      modifies this`counters
      ensures counters == Bumped(old(counters), series, Some(before), value)
    {
      if value >= before {
        Add(series, value - before);
      }
    }

    method UpdateProcessMetrics(metrics: seq<ProcessSample>)
      requires Valid()
      modifies this
      ensures Valid()
      ensures model ==
              if includeProcesses then ObserveAll(old(model), AllProcessObservations(Shown(metrics, processLimit)))
                       else old(model)
    {
      if !includeProcesses {
        return;
      }
      var limit := |metrics|;
      if processLimit > 0 && limit > processLimit {
        limit := processLimit;
      }
      for i := 0 to limit
        invariant Valid()
        invariant model == ObserveAll(old(model), AllProcessObservations(metrics[..i]))
      {
        hide Valid, Observe, ObserveAll, ProcessObservations, AllProcessObservations;
        AllProcessNext(metrics, i);
        ObserveAllConcat(old(model), AllProcessObservations(metrics[..i]), ProcessObservations(metrics[i]));
        UpdateOneProcess(metrics[i]);
      }
      assert Shown(metrics, processLimit) == metrics[..limit];
    }

    method UpdateOneProcess(p: ProcessSample)
      requires Valid()
      modifies this
      ensures Valid() && model == ObserveAll(old(model), ProcessObservations(p))
    {
      if p.io != None {
        var pidStr := Itoa(p.pid);
        var readBytes, writeBytes := p.io.value.readBytes, p.io.value.writeBytes;
        var o := ProcessObservations(p);
        if pidStr in prevProcessIO {
          var prev := prevProcessIO[pidStr];
          AddDelta(o[0].series, prev.readBytes, readBytes);
          AddDelta(o[1].series, prev.writeBytes, writeBytes);
        }
        prevProcessIO := prevProcessIO[pidStr := IOCounters(readBytes, writeBytes)];
        TwoSources(model, o[0], o[1]);
        model := ObserveAll(model, o);
      }
    }

    method UpdateDiskIO(disks: seq<DiskSample>)
      requires Valid()
      modifies this
      ensures Valid() && model == ObserveAll(old(model), AllDiskObservations(disks))
    {
      for i := 0 to |disks|
        invariant Valid()
        invariant model == ObserveAll(old(model), AllDiskObservations(disks[..i]))
      {
        hide Valid, Observe, ObserveAll, DiskObservations, AllDiskObservations;
        AllDiskNext(disks, i);
        ObserveAllConcat(old(model), AllDiskObservations(disks[..i]), DiskObservations(disks[i]));
        UpdateOneDisk(disks[i]);
      }
      assert disks[..|disks|] == disks;
    }

    method UpdateOneDisk(d: DiskSample)
      requires Valid()
      modifies this
      ensures Valid() && model == ObserveAll(old(model), DiskObservations(d))
    {
      var o := DiskObservations(d);
      DiskPrevious(prevProcessIO, prevDiskIO, model.prev, d.device);
      DiskKeepsPrev(prevProcessIO, prevDiskIO, model.prev, d);
      FourSources(model, o);
      hide Bumped, KeepsPrev;
      if d.device in prevDiskIO {
        var prev := prevDiskIO[d.device];
        AddDelta(o[0].series, prev.readBytes, d.readBytes);
        AddDelta(o[1].series, prev.writeBytes, d.writeBytes);
        AddDelta(o[2].series, prev.readCount, d.readCount);
        AddDelta(o[3].series, prev.writeCount, d.writeCount);
      } else {
        NothingBefore(counters, o[0].series, d.readBytes);
        NothingBefore(counters, o[1].series, d.writeBytes);
        NothingBefore(counters, o[2].series, d.readCount);
        NothingBefore(counters, o[3].series, d.writeCount);
      }
      prevDiskIO := prevDiskIO[d.device := DiskPrev(d.readBytes, d.writeBytes, d.readCount, d.writeCount)];
      model := ObserveAll(model, o);
    }
  }

  lemma NothingBefore(counters: map<Series, nat>, s: Series, value: nat)
    ensures Bumped(counters, s, None, value) == counters
  {
  }

  lemma DiskPrevious(process: map<string, IOCounters>, disk: map<string, DiskPrev>, prev: map<Source, nat>, k: string)
    requires KeepsPrev(process, disk, prev)
    ensures Previous(prev, Source(DiskReadBytes, k)) == if k in disk then Some(disk[k].readBytes) else None
    ensures Previous(prev, Source(DiskWriteBytes, k)) == if k in disk then Some(disk[k].writeBytes) else None
    ensures Previous(prev, Source(DiskReadCount, k)) == if k in disk then Some(disk[k].readCount) else None
    ensures Previous(prev, Source(DiskWriteCount, k)) == if k in disk then Some(disk[k].writeCount) else None
  {
  }

  lemma DiskKeepsPrev(
      process: map<string, IOCounters>, disk: map<string, DiskPrev>, prev: map<Source, nat>, d: DiskSample)
    requires KeepsPrev(process, disk, prev)
    ensures KeepsPrev(process, disk[d.device := DiskPrev(d.readBytes, d.writeBytes, d.readCount, d.writeCount)],
                      prev[Source(DiskReadBytes, d.device) := d.readBytes]
                          [Source(DiskWriteBytes, d.device) := d.writeBytes]
                          [Source(DiskReadCount, d.device) := d.readCount]
                          [Source(DiskWriteCount, d.device) := d.writeCount])
  {
  }

  lemma TwoSources(e: Exporter, a: Observation, b: Observation)
    requires a.series.source != b.series.source
    ensures ObserveAll(e, [a, b]).prev == e.prev[a.series.source := a.value][b.series.source := b.value]
    ensures ObserveAll(e, [a, b]).counters ==
            Bumped(Bumped(e.counters, a.series, Previous(e.prev, a.series.source), a.value),
                   b.series, Previous(e.prev, b.series.source), b.value)
  {
    hide Bumped;
    assert [a, b][1..] == [b] && [b][1..] == [];
    assert ObserveAll(Observe(e, a), [b]) == Observe(Observe(e, a), b);
  }

  function BumpedBy(counters: map<Series, nat>, prev: map<Source, nat>, o: Observation): map<Series, nat> {
    Bumped(counters, o.series, Previous(prev, o.series.source), o.value)
  }

  lemma FourSources(e: Exporter, o: seq<Observation>)
    requires |o| == 4 && forall i, j :: 0 <= i < j < 4 ==> o[i].series.source != o[j].series.source
    ensures ObserveAll(e, o).prev == e.prev[o[0].series.source := o[0].value][o[1].series.source := o[1].value]
                                           [o[2].series.source := o[2].value][o[3].series.source := o[3].value]
    ensures ObserveAll(e, o).counters ==
            BumpedBy(BumpedBy(BumpedBy(BumpedBy(e.counters, e.prev, o[0]), e.prev, o[1]), e.prev, o[2]), e.prev, o[3])
  {
    hide Bumped;
    assert o == [o[0], o[1]] + [o[2], o[3]];
    ObserveAllConcat(e, [o[0], o[1]], [o[2], o[3]]);
    TwoSources(e, o[0], o[1]);
    hide ObserveAll;
    TwoSources(ObserveAll(e, [o[0], o[1]]), o[2], o[3]);
  }
}

/** The alerting engine as it runs: alert objects updated in place, shared by nobody but the active
    map and the history (internal/infrastructure/alerting/engine.go). */
module AlertingEngines {
  import opened Basics
  import opened AlertIds
  import opened Decimals
  import opened Alerts

  class Alert {
    const id: string
    const ruleId: string
    const threshold: real
    const startsAt: int
    var state: AlertState
    var value: real
    var endsAt: Option<int>
    var lastEvalAt: int
    var count: nat

    function Info(): AlertInfo
      reads this
    {
      AlertInfo(id, ruleId, state, value, threshold, startsAt, endsAt, lastEvalAt, count)
    }

    constructor (id: string, rule: Rule, value: real, now: int)
      ensures Info() == NewAlert(id, rule, value, now)
    {
      this.id, ruleId, threshold, startsAt := id, rule.id, rule.threshold, now;
      state, this.value, endsAt, lastEvalAt, count := Pending, value, None, now, 1;
    }

    /** The fields that the engine overwrites in place. */
    method Overwrite(info: AlertInfo)
      requires info == Info().(state := info.state, value := info.value, endsAt := info.endsAt,
                               lastEvalAt := info.lastEvalAt, count := info.count)
      modifies this
      ensures Info() == info
    {
      state, value, endsAt, lastEvalAt, count := info.state, info.value, info.endsAt, info.lastEvalAt, info.count;
    }
  }

  datatype SystemReading = SystemReading(
    cpu: real, memoryUsed: real, memoryAvailable: real, load1: real, load5: real, load15: real, swapUsed: real)

  datatype ProcessReading = ProcessReading(pid: nat, cpu: real, memory: real, threads: real, openFiles: real)

  function SystemMetricOf(name: string): Option<SystemMetric> {
    match name
    case "cpu_usage" => Some(CpuUsage)
    case "memory_usage" => Some(MemoryUsage)
    case "memory_available" => Some(MemoryAvailable)
    case "load_average_1" => Some(LoadAverage1)
    case "load_average_5" => Some(LoadAverage5)
    case "load_average_15" => Some(LoadAverage15)
    case "swap_usage" => Some(SwapUsage)
    case _ => None
  }

  function ProcessMetricOf(name: string): Option<ProcessMetric> {
    match name
    case "process_cpu" => Some(ProcessCpu)
    case "process_memory" => Some(ProcessMemory)
    case "process_threads" => Some(ProcessThreads)
    case "process_open_files" => Some(ProcessOpenFiles)
    case _ => None
  }

  /** A metric type is supported exactly when it is the name of a metric, and then of that one. */
  lemma MetricsAreNamed(name: string)
    ensures forall m :: SystemMetricOf(name) == Some(m) <==> name == SystemName(m)
    ensures forall m :: ProcessMetricOf(name) == Some(m) <==> name == ProcessName(m)
  {
    forall m ensures SystemMetricOf(name) == Some(m) <==> name == SystemName(m) {
      match m case _ =>
    }
    forall m ensures ProcessMetricOf(name) == Some(m) <==> name == ProcessName(m) {
      match m case _ =>
    }
  }

  /** The identifiers that the source formats from the rule's metric text are those of the targets,
      so what is proved of targets and their identifiers holds of the formatted texts. */
  lemma SystemIdIsFormatted(rule: Rule)
    ensures var metric := SystemMetricOf(rule.metricType);
      metric.Some? ==> rule.id + "_" + rule.metricType == AlertId(OfSystem(rule.id, metric.value))
  {
    MetricsAreNamed(rule.metricType);
    hide SystemMetricOf, SystemName;
  }

  lemma ProcessIdIsFormatted(rule: Rule, pid: nat)
    ensures var metric := ProcessMetricOf(rule.metricType);
      metric.Some? ==>
        rule.id + "_" + rule.metricType + "_" + Itoa(pid) == AlertId(OfProcess(rule.id, metric.value, pid))
  {
    MetricsAreNamed(rule.metricType);
    hide ProcessMetricOf, ProcessName, Itoa;
  }

  function SystemValue(m: SystemMetric, r: SystemReading): real {
    match m
    case CpuUsage => r.cpu
    case MemoryUsage => r.memoryUsed
    case MemoryAvailable => r.memoryAvailable
    case LoadAverage1 => r.load1
    case LoadAverage5 => r.load5
    case LoadAverage15 => r.load15
    case SwapUsage => r.swapUsed
  }

  function ProcessValue(m: ProcessMetric, r: ProcessReading): real {
    match m
    case ProcessCpu => r.cpu
    case ProcessMemory => r.memory
    case ProcessThreads => r.threads
    case ProcessOpenFiles => r.openFiles
  }

  /** The operations that one call of the per-rule evaluators amounts to. */
  function SystemOps(rule: Rule, r: SystemReading, now: int, sendAt: int): seq<Op> {
    var metric := SystemMetricOf(rule.metricType);
    if metric == None then [] else
      [Evaluate(OfSystem(rule.id, metric.value), rule, SystemValue(metric.value, r), now, sendAt)]
  }

  function ProcessOps(rule: Rule, rs: seq<ProcessReading>, clock: nat -> int): seq<Op> {
    var metric := ProcessMetricOf(rule.metricType);
    if rs == [] || metric == None then [] else
      var n := |rs| - 1;
      var value := ProcessValue(metric.value, rs[n]);
      ProcessOps(rule, rs[..n], clock) +
      [Evaluate(OfProcess(rule.id, metric.value, rs[n].pid), rule, value, clock(2 * n), clock(2 * n + 1))]
  }

  /** Evaluations one after the other. */
  function Apply(e: Engine, cfg: Config, ops: seq<Op>): Engine
    requires forall i :: 0 <= i < |ops| ==> ops[i].Evaluate?
    decreases |ops|
  {
    if ops == [] then e else
      var before, op := Apply(e, cfg, ops[..|ops| - 1]), ops[|ops| - 1];
      Process(before, cfg, AlertId(op.target), op.rule, op.value, Holds(op), op.now, op.sendAt)
  }

  lemma {:induction false} RunSnoc(e: Engine, cfg: Config, ops: seq<Op>, op: Op)
    requires LegalRun(e, cfg, ops + [op])
    ensures LegalRun(e, cfg, ops) && Legal(Run(e, cfg, ops), op)
    ensures Run(e, cfg, ops + [op]) == Step(Run(e, cfg, ops), cfg, op)
    decreases |ops|
  {
    hide Step, Legal;
    if ops == [] {
      assert [] + [op] == [op] && [op][1..] == [];
    } else {
      assert (ops + [op])[1..] == ops[1..] + [op];
      RunSnoc(Step(e, cfg, ops[0]), cfg, ops[1..], op);
    }
  }

  lemma EvaluateIsProcess(e: Engine, cfg: Config, op: Op)
    requires op.Evaluate? && Legal(e, op)
    ensures Step(e, cfg, op)
         == Process(e, cfg, AlertId(op.target), op.rule, op.value, Holds(op), op.now, op.sendAt)
  {
  }

  /** The evaluations an evaluator makes are a run of the engine on values. */
  lemma {:induction false} ApplyIsRun(e: Engine, cfg: Config, ops: seq<Op>)
    requires LegalRun(e, cfg, ops) && forall i :: 0 <= i < |ops| ==> ops[i].Evaluate?
    ensures Apply(e, cfg, ops) == Run(e, cfg, ops)
    decreases |ops|
  {
    hide Process, Step, Legal, AlertId, Holds;
    if ops != [] {
      var rest, last := ops[..|ops| - 1], ops[|ops| - 1];
      assert ops == rest + [last];
      RunSnoc(e, cfg, rest, last);
      ApplyIsRun(e, cfg, rest);
      EvaluateIsProcess(Run(e, cfg, rest), cfg, last);
    }
  }

  lemma {:induction false} ProcessOpsEvaluate(rule: Rule, rs: seq<ProcessReading>, clock: nat -> int)
    ensures forall i :: 0 <= i < |ProcessOps(rule, rs, clock)| ==> ProcessOps(rule, rs, clock)[i].Evaluate?
  {
    if rs != [] {
      ProcessOpsEvaluate(rule, rs[..|rs| - 1], clock);
    }
  }

  /** What one more process adds to the evaluations. */
  lemma ProcessOpsNext(e: Engine, cfg: Config, rule: Rule, rs: seq<ProcessReading>, i: nat, clock: nat -> int)
    requires i < |rs|
    ensures forall op :: op in ProcessOps(rule, rs[..i], clock) ==> op.Evaluate?
    ensures forall op :: op in ProcessOps(rule, rs[..i + 1], clock) ==> op.Evaluate?
    ensures var metric := ProcessMetricOf(rule.metricType);
      var before := Apply(e, cfg, ProcessOps(rule, rs[..i], clock));
      Apply(e, cfg, ProcessOps(rule, rs[..i + 1], clock)) ==
        if metric == None then before else
          var value := ProcessValue(metric.value, rs[i]);
          Process(before, cfg, AlertId(OfProcess(rule.id, metric.value, rs[i].pid)), rule, value,
                  EvaluateThreshold(value, rule.threshold, rule.operator), clock(2 * i), clock(2 * i + 1))
  {
    hide Process, AlertId, ProcessMetricOf, EvaluateThreshold;
    ProcessOpsEvaluate(rule, rs[..i], clock);
    ProcessOpsEvaluate(rule, rs[..i + 1], clock);
    assert rs[..i + 1][..i] == rs[..i];
    var before, after := ProcessOps(rule, rs[..i], clock), ProcessOps(rule, rs[..i + 1], clock);
    if ProcessMetricOf(rule.metricType) == None {
      NoOps(rule, rs[..i], clock);
    } else {
      assert after[..|before|] == before;
    }
  }

  lemma NoOps(rule: Rule, rs: seq<ProcessReading>, clock: nat -> int)
    ensures ProcessMetricOf(rule.metricType) == None ==> ProcessOps(rule, rs, clock) == []
  {
  }

  // ---- Which reading a metric text compares ----

  /** The alert is active exactly when the value compares with the rule's threshold, and shows it. */
  predicate Shows(e: Engine, id: string, rule: Rule, value: real) {
    && (id in e.active <==> EvaluateThreshold(value, rule.threshold, rule.operator))
    && (id in e.active ==> e.active[id].value == value)
  }

  predicate ShowsSystem(e: Engine, rule: Rule, r: SystemReading) {
    var id := rule.id + "_" + rule.metricType;
    match rule.metricType
    case "cpu_usage" => Shows(e, id, rule, r.cpu)
    case "memory_usage" => Shows(e, id, rule, r.memoryUsed)
    case "memory_available" => Shows(e, id, rule, r.memoryAvailable)
    case "load_average_1" => Shows(e, id, rule, r.load1)
    case "load_average_5" => Shows(e, id, rule, r.load5)
    case "load_average_15" => Shows(e, id, rule, r.load15)
    case "swap_usage" => Shows(e, id, rule, r.swapUsed)
    case _ => true
  }

  /** No later sample is of the same process. */
  predicate IsLast(rs: seq<ProcessReading>, i: nat)
    requires i < |rs|
  {
    forall j :: i < j < |rs| ==> rs[j].pid != rs[i].pid
  }

  predicate ShowsProcess(e: Engine, rule: Rule, p: ProcessReading) {
    var id := rule.id + "_" + rule.metricType + "_" + Itoa(p.pid);
    match rule.metricType
    case "process_cpu" => Shows(e, id, rule, p.cpu)
    case "process_memory" => Shows(e, id, rule, p.memory)
    case "process_threads" => Shows(e, id, rule, p.threads)
    case "process_open_files" => Shows(e, id, rule, p.openFiles)
    case _ => true
  }

  lemma EvaluatedShows(
      e: Engine, cfg: Config, id: string, rule: Rule, value: real, now: int, sendAt: int, other: string)
    ensures var holds := EvaluateThreshold(value, rule.threshold, rule.operator);
      var n := Process(e, cfg, id, rule, value, holds, now, sendAt);
      && Shows(n, id, rule, value)
      && (other != id ==> (other in n.active <==> other in e.active)
                          && (other in e.active ==> n.active[other] == e.active[other]))
  {
    hide Process, EvaluateThreshold;
    ProcessEffect(e, cfg, id, rule, value, EvaluateThreshold(value, rule.threshold, rule.operator), now, sendAt);
  }

  /** After an evaluation of a system rule its alert follows the very reading that the metric text
      names, written out for the seven texts; an unsupported text leaves the engine alone. */
  lemma {:induction false} SystemRuleReads(e: Engine, cfg: Config, rule: Rule, r: SystemReading, now: int, sendAt: int)
    ensures var n := Apply(e, cfg, SystemOps(rule, r, now, sendAt));
      && ShowsSystem(n, rule, r)
      && (SystemMetricOf(rule.metricType) == None ==> n == e)
  {
    var metric := SystemMetricOf(rule.metricType);
    if metric.Some? {
      var op := SystemOps(rule, r, now, sendAt)[0];
      assert SystemOps(rule, r, now, sendAt) == [op] && [op][..0] == [];
      SystemIdIsFormatted(rule);
      EvaluatedShows(e, cfg, AlertId(op.target), rule, op.value, now, sendAt, "");
      hide Process, AlertId, Shows;
    }
  }

  lemma {:induction false} ProcessMetricShows(
      e: Engine, cfg: Config, rule: Rule, m: ProcessMetric, rs: seq<ProcessReading>, clock: nat -> int, i: nat)
    requires ProcessMetricOf(rule.metricType) == Some(m)
    requires i < |rs| && IsLast(rs, i)
    ensures forall op :: op in ProcessOps(rule, rs, clock) ==> op.Evaluate?
    ensures Shows(Apply(e, cfg, ProcessOps(rule, rs, clock)), AlertId(OfProcess(rule.id, m, rs[i].pid)), rule,
                  ProcessValue(m, rs[i]))
    decreases |rs|
  {
    hide Process, AlertId, ProcessMetricOf, EvaluateThreshold, Apply, ProcessOps, ProcessValue;
    var n := |rs| - 1;
    ProcessOpsNext(e, cfg, rule, rs, n, clock);
    assert rs[..n + 1] == rs;
    var before := Apply(e, cfg, ProcessOps(rule, rs[..n], clock));
    var target, last := OfProcess(rule.id, m, rs[i].pid), OfProcess(rule.id, m, rs[n].pid);
    EvaluatedShows(before, cfg, AlertId(last), rule, ProcessValue(m, rs[n]), clock(2 * n), clock(2 * n + 1),
                   AlertId(target));
    if i < n {
      ProcessMetricShows(e, cfg, rule, m, rs[..n], clock, i);
      if AlertId(target) == AlertId(last) {
        AlertIdInjective(target, last);
      }
    }
  }

  /** After an evaluation of a process rule the alert of every process follows the very reading of its
      last sample that the metric text names, written out for the four texts. */
  lemma {:induction false} ProcessRuleReads(
      e: Engine, cfg: Config, rule: Rule, rs: seq<ProcessReading>, clock: nat -> int, i: nat)
    requires i < |rs| && IsLast(rs, i)
    ensures forall op :: op in ProcessOps(rule, rs, clock) ==> op.Evaluate?
    ensures ShowsProcess(Apply(e, cfg, ProcessOps(rule, rs, clock)), rule, rs[i])
  {
    hide Apply, ProcessOps, AlertId, Shows, Itoa, ProcessValue, ShowsProcess, ProcessMetricOf, IsLast;
    var metric := ProcessMetricOf(rule.metricType);
    if metric.Some? {
      ProcessMetricShows(e, cfg, rule, metric.value, rs, clock, i);
      ProcessIdIsFormatted(rule, rs[i].pid);
    } else {
      NoOps(rule, rs, clock);
    }
    ShowsByMetric(Apply(e, cfg, ProcessOps(rule, rs, clock)), rule, rs[i]);
  }

  lemma ShowsByMetric(e: Engine, rule: Rule, p: ProcessReading)
    ensures var metric, id := ProcessMetricOf(rule.metricType), rule.id + "_" + rule.metricType + "_" + Itoa(p.pid);
      (metric == None || Shows(e, id, rule, ProcessValue(metric.value, p))) ==> ShowsProcess(e, rule, p)
  {
    hide Shows, Itoa;
  }

  lemma {:induction false} ProcessRuleShows(
      e: Engine, cfg: Config, rule: Rule, rs: seq<ProcessReading>, clock: nat -> int)
    ensures forall op :: op in ProcessOps(rule, rs, clock) ==> op.Evaluate?
    ensures forall i :: 0 <= i < |rs| && IsLast(rs, i) ==>
              ShowsProcess(Apply(e, cfg, ProcessOps(rule, rs, clock)), rule, rs[i])
  {
    hide Apply, ProcessOps, ShowsProcess, IsLast;
    ProcessOpsEvaluate(rule, rs, clock);
    forall i | 0 <= i < |rs| && IsLast(rs, i)
      ensures ShowsProcess(Apply(e, cfg, ProcessOps(rule, rs, clock)), rule, rs[i])
    {
      ProcessRuleReads(e, cfg, rule, rs, clock, i);
    }
  }

  /** Any other text makes no evaluation of a process at all. */
  lemma OtherTextsReadNothing(rule: Rule, rs: seq<ProcessReading>, clock: nat -> int)
    requires rule.metricType !in {"process_cpu", "process_memory", "process_threads", "process_open_files"}
    ensures ProcessOps(rule, rs, clock) == []
  {
    NoOps(rule, rs, clock);
  }

  /** An alert already marked as resolved leaves the active ones for the history. */
  function Retired(e: Engine, id: string): Engine
    requires id in e.active
  {
    e.(active := e.active - {id}, history := e.history + [e.active[id]], resolved := e.resolved + [e.active[id]])
  }

  lemma ResolveIsRetire(e: Engine, marked: Engine, id: string, at: int)
    requires id in e.active
    requires marked == e.(active := e.active[id := e.active[id].(state := Resolved, endsAt := Some(at))])
    ensures Resolve(e, id, at) == Retired(marked, id)
  {
  }

  class AlertingEngine {
    const config: Config
    var rules: map<string, Rule>
    var activeAlerts: map<string, Alert>
    var alertHistory: seq<Alert>
    var rateLimiter: map<string, int>
    ghost var model: Engine
    ghost var Repr: set<object>

    /** No alert object is in two places: not active under two identifiers, and not both active and
        in the history. */
    ghost predicate Separated()
      reads this`activeAlerts, this`alertHistory, this`Repr
    {
      && this !in Repr
      && (forall id :: id in activeAlerts ==> activeAlerts[id] in Repr)
      && (forall i :: 0 <= i < |alertHistory| ==> alertHistory[i] in Repr)
      && (forall i, j :: i in activeAlerts && j in activeAlerts && i != j ==> activeAlerts[i] != activeAlerts[j])
      && (forall id, i :: id in activeAlerts && 0 <= i < |alertHistory| ==> activeAlerts[id] != alertHistory[i])
    }

    ghost predicate Valid()
      reads this, Repr
      ensures Valid() ==> Separated() && rules == model.rules && activeAlerts.Keys == model.active.Keys
    {
      && Separated()
      && rules == model.rules && rateLimiter == model.limiter
      && activeAlerts.Keys == model.active.Keys
      && (forall id :: id in activeAlerts ==> activeAlerts[id].Info() == model.active[id])
      && |alertHistory| == |model.history|
      && (forall i :: 0 <= i < |alertHistory| ==> alertHistory[i].Info() == model.history[i])
    }

    constructor (config: Config, ghost clock: int)
      ensures Valid() && Repr == {}
      ensures model == NewEngine(clock) && this.config == config
    {
      this.config := config;
      rules, activeAlerts, alertHistory, rateLimiter := map[], map[], [], map[];
      model := NewEngine(clock);
      Repr := {};
    }

    method AddRule(rule: Rule) returns (ok: bool)
      requires Valid()
      modifies this`rules, this`model
      ensures Valid() && ok == (rule.id != "")
      ensures model == Add(old(model), config, rule)
      ensures ok ==> rule.id in rules && rules[rule.id] == rule.(
        name := if rule.name == "" then rule.id else rule.name,
        severity := if rule.severity == "" then config.defaultSeverity else rule.severity)
      ensures forall id :: id in old(rules) && id != rule.id ==> id in rules && rules[id] == old(rules)[id]
    {
      if rule.id == "" {
        return false;
      }
      var named := if rule.name == "" then rule.(name := rule.id) else rule;
      var complete := if named.severity == "" then named.(severity := config.defaultSeverity) else named;
      rules := rules[rule.id := complete];
      model := Add(model, config, rule);
      ok := true;
    }

    // The pieces of processAlertStateWithLabels.

    method Create(id: string, rule: Rule, value: real, now: int)
      requires Valid() && id !in activeAlerts
      modifies this`activeAlerts, this`model, this`Repr
      ensures Valid() && fresh(Repr - old(Repr)) && old(Repr) <= Repr
      ensures model == old(model).(active := old(model).active[id := NewAlert(id, rule, value, now)])
    {
      hide Valid, NewAlert;
      var alert := new Alert(id, rule, value, now);
      Activate(id, alert);
    }

    method Activate(id: string, alert: Alert)
      requires Valid() && id !in activeAlerts && alert !in Repr
      modifies this`activeAlerts, this`model, this`Repr
      ensures Valid() && Repr == old(Repr) + {alert}
      ensures model == old(model).(active := old(model).active[id := alert.Info()])
    {
      activeAlerts := activeAlerts[id := alert];
      model := model.(active := model.active[id := alert.Info()]);
      Repr := Repr + {alert};
    }

    /** An in-place update of one active alert; every other alert object keeps its fields. */
    method Update(id: string, state: AlertState, value: real, endsAt: Option<int>, lastEvalAt: int, count: nat)
      requires Valid() && id in activeAlerts
      modifies activeAlerts[id], this`model
      ensures Valid()
      ensures model == old(model).(active := old(model).active[id := old(model).active[id].(
        state := state, value := value, endsAt := endsAt, lastEvalAt := lastEvalAt, count := count)])
    {
      var alert := activeAlerts[id];
      var info := alert.Info().(
        state := state, value := value, endsAt := endsAt, lastEvalAt := lastEvalAt, count := count);
      alert.Overwrite(info);
      model := model.(active := model.active[id := info]);
    }

    method TouchActive(id: string, value: real, now: int)
      requires Valid() && id in activeAlerts
      modifies activeAlerts[id], this`model
      ensures Valid()
      ensures model == old(model).(active := old(model).active[id := Touch(old(model).active[id], value, now)])
    {
      var alert := activeAlerts[id];
      assert alert.Info() == model.active[id];
      hide Valid;
      Update(id, alert.state, value, alert.endsAt, now, alert.count + 1);
    }

    /** The test that the source makes after touching the alert; touching changes neither field. */
    method IsDue(id: string, duration: int, now: int) returns (due: bool)
      requires Valid() && id in activeAlerts
      ensures due == (model.active[id].state == Pending && now - model.active[id].startsAt >= duration)
    {
      var alert := activeAlerts[id];
      assert alert.Info() == model.active[id];
      due := alert.state == Pending && now - alert.startsAt >= duration;
    }

    method BelongsTo(id: string, ruleId: string) returns (b: bool)
      requires Valid() && id in activeAlerts
      ensures b == (model.active[id].ruleId == ruleId)
    {
      assert activeAlerts[id].Info() == model.active[id];
      b := activeAlerts[id].ruleId == ruleId;
    }

    method FireAlert(id: string, at: int)
      requires Valid() && id in activeAlerts
      modifies activeAlerts[id], this`rateLimiter, this`model
      ensures Valid()
      ensures model == Fire(old(model), config, id, at)
    {
      var alert := activeAlerts[id];
      assert alert.Info() == model.active[id];
      Update(id, Firing, alert.value, alert.endsAt, alert.lastEvalAt, alert.count);
      hide Valid;
      var send := ShouldSendNotification(id, at);
    }

    /** Lets a notification through, and logs it as admitted, exactly when no notification admitted
        for the alert is more recent than the window. */
    method ShouldSendNotification(id: string, at: int) returns (send: bool)
      requires Valid()
      modifies this`rateLimiter, this`model
      ensures Valid()
      ensures LimiterInv(old(model), config, id) ==>
                (send <==> NoneRecent(TimesOf(old(model).admitted, id), config.rateLimitWindow, at))
      ensures send == MaySend(old(model), config, id, at)
      ensures model == if send then old(model).(limiter := old(model).limiter[id := at],
                                                admitted := old(model).admitted + [Admission(id, at)])
                       else old(model)
    {
      if LimiterInv(model, config, id) {
        SendsIffNoneRecent(model, config, id, at);
      }
      hide TimesOf, NoneRecent;
      send := id !in rateLimiter || at - rateLimiter[id] >= config.rateLimitWindow;
      if send {
        rateLimiter := rateLimiter[id := at];
        model := model.(limiter := model.limiter[id := at], admitted := model.admitted + [Admission(id, at)]);
      }
    }

    method ResolveAlert(id: string, at: int)
      requires Valid() && id in activeAlerts
      modifies activeAlerts[id], this`activeAlerts, this`alertHistory, this`model
      ensures Valid()
      ensures model == Resolve(old(model), id, at)
    {
      var alert := activeAlerts[id];
      assert alert.Info() == model.active[id];
      hide Valid;
      Update(id, Resolved, alert.value, Some(at), alert.lastEvalAt, alert.count);
      ResolveIsRetire(old(model), model, id, at);
      hide Resolve;
      Retire(id);
    }

    /** The ended alert object moves from the active map to the history. */
    method Retire(id: string)
      requires Valid() && id in activeAlerts
      modifies this`activeAlerts, this`alertHistory, this`model
      ensures Valid()
      ensures model == Retired(old(model), id)
    {
      assert forall j :: j in activeAlerts - {id} ==> activeAlerts[j] != activeAlerts[id];
      alertHistory := alertHistory + [activeAlerts[id]];
      activeAlerts := activeAlerts - {id};
      model := Retired(model, id);
    }

    ghost method Tick(at: int)
      requires Valid()
      modifies this`model
      ensures Valid() && model == old(model).(clock := at)
    {
      model := model.(clock := at);
    }

    method TrimHistory()
      requires Valid()
      modifies this`alertHistory, this`model
      ensures Valid()
      ensures model == Trim(old(model), config)
    {
      if |alertHistory| > config.maxHistory {
        alertHistory := alertHistory[|alertHistory| - config.maxHistory..];
      }
      model := Trim(model, config);
    }

    /** processAlertStateWithLabels: `now` is the reading taken at the start, `sendAt` the one the
        rate limiter takes. */
    method ProcessAlertState(id: string, rule: Rule, value: real, shouldAlert: bool, now: int, sendAt: int)
      requires Valid()
      modifies this, Repr
      ensures Valid() && fresh(Repr - old(Repr)) && old(Repr) <= Repr
      ensures model == Process(old(model), config, id, rule, value, shouldAlert, now, sendAt)
    {
      hide Valid, Fire, Resolve, Trim, NewAlert, Touch;
      ghost var was := model;
      if shouldAlert {
        if id !in activeAlerts {
          Create(id, rule, value, now);
          if rule.duration == 0 {
            FireAlert(id, sendAt);
          }
        } else {
          var due := IsDue(id, rule.duration, now);
          TouchActive(id, value, now);
          if due {
            FireAlert(id, sendAt);
          }
        }
      } else if id in activeAlerts {
        ResolveAlert(id, now);
      }
      assert model == Judge(was, config, id, rule, value, shouldAlert, now, sendAt);
      TrimHistory();
      Tick(sendAt);
    }

    method EvaluateSystemRule(rule: Rule, metrics: SystemReading, now: int, sendAt: int)
      requires Valid()
      modifies this, Repr
      ensures Valid() && fresh(Repr - old(Repr)) && old(Repr) <= Repr
      ensures forall op :: op in SystemOps(rule, metrics, now, sendAt) ==> op.Evaluate?
      ensures model == Apply(old(model), config, SystemOps(rule, metrics, now, sendAt))
      ensures ShowsSystem(model, rule, metrics)
    {
      SystemRuleReads(model, config, rule, metrics, now, sendAt);
      hide Process, AlertId, SystemMetricOf, ShowsSystem;
      var metric := SystemMetricOf(rule.metricType);
      if metric == None {
        return;
      }
      var value := SystemValue(metric.value, metrics);
      var shouldAlert := EvaluateThreshold(value, rule.threshold, rule.operator);
      assert SystemOps(rule, metrics, now, sendAt)[..0] == [];
      SystemIdIsFormatted(rule);
      ProcessAlertState(rule.id + "_" + rule.metricType, rule, value, shouldAlert, now, sendAt);
    }

    /** One alert per process; the i-th process reads the clock at 2i and 2i + 1. */
    method EvaluateProcessRule(rule: Rule, processes: seq<ProcessReading>, clock: nat -> int)
      requires Valid()
      modifies this, Repr
      ensures Valid() && fresh(Repr - old(Repr)) && old(Repr) <= Repr
      ensures forall op :: op in ProcessOps(rule, processes, clock) ==> op.Evaluate?
      ensures model == Apply(old(model), config, ProcessOps(rule, processes, clock))
      ensures forall i :: 0 <= i < |processes| && IsLast(processes, i) ==> ShowsProcess(model, rule, processes[i])
    {
      ProcessRuleShows(model, config, rule, processes, clock);
      hide Process, AlertId, ProcessMetricOf, Valid, EvaluateThreshold, ShowsProcess, IsLast;
      ProcessOpsEvaluate(rule, processes[..0], clock);
      for i := 0 to |processes|
        invariant Valid() && fresh(Repr - old(Repr)) && old(Repr) <= Repr
        invariant forall op :: op in ProcessOps(rule, processes[..i], clock) ==> op.Evaluate?
        invariant model == Apply(old(model), config, ProcessOps(rule, processes[..i], clock))
      {
        hide Apply, ProcessOps;
        ProcessOpsNext(old(model), config, rule, processes, i, clock);
        var process := processes[i];
        var metric := ProcessMetricOf(rule.metricType);
        if metric == None {
          continue;
        }
        var value := ProcessValue(metric.value, process);
        var shouldAlert := EvaluateThreshold(value, rule.threshold, rule.operator);
        ProcessIdIsFormatted(rule, process.pid);
        var alertId := rule.id + "_" + rule.metricType + "_" + Itoa(process.pid);
        ProcessAlertState(alertId, rule, value, shouldAlert, clock(2 * i), clock(2 * i + 1));
      }
      assert processes[..|processes|] == processes;
    }

    /** RemoveRule: every active alert of the rule is resolved, in the order in which the map
        happens to be walked; the i-th one reads the clock at i. */
    method RemoveRule(ruleId: string, clock: nat -> int) returns (ok: bool, ghost order: seq<Ending>)
      requires Valid()
      modifies this, Repr
      ensures Valid() && Repr == old(Repr)
      ensures ok == (ruleId in old(rules))
      ensures ok ==> Covers(old(model), ruleId, order) && forall i :: 0 <= i < |order| ==> order[i].at == clock(i)
      ensures model == Remove(old(model), ruleId, order)
    {
      hide Valid, Covers, ResolveAll;
      order := [];
      if ruleId !in rules {
        return false, [];
      }
      Uninstall(ruleId);
      ghost var start := model;
      order := ResolveRule(ruleId, clock);
      CoversWithRule(old(model), start, ruleId, order);
      ok := true;
    }

    method Uninstall(ruleId: string)
      requires Valid()
      modifies this`rules, this`model
      ensures Valid() && model == old(model).(rules := old(model).rules - {ruleId})
    {
      rules := rules - {ruleId};
      model := model.(rules := model.rules - {ruleId});
    }

    /** The loop of RemoveRule. */
    method ResolveRule(ruleId: string, clock: nat -> int) returns (ghost order: seq<Ending>)
      requires Valid()
      modifies this`activeAlerts, this`alertHistory, this`model, Repr
      ensures Valid()
      ensures Covers(old(model), ruleId, order) && forall i :: 0 <= i < |order| ==> order[i].at == clock(i)
      ensures model == ResolveAll(old(model), order)
    {
      hide Valid, ResolveAll, Resolve, Removing, Covers;
      order := [];
      RemovingStarts(model, ruleId, clock);
      var pending, rounds := activeAlerts.Keys, 0;
      while pending != {}
        invariant Valid() && rounds == |order|
        invariant Removing(old(model), model, ruleId, order, clock, pending)
        decreases pending
      {
        var id :| id in pending;
        RemovingStep(old(model), model, ruleId, order, clock, pending, id);
        var mine := BelongsTo(id, ruleId);
        if mine {
          ResolveAlert(id, clock(rounds));
          Tick(clock(rounds));
          order := order + [Ending(id, clock(rounds))];
          rounds := rounds + 1;
        }
        pending := pending - {id};
      }
      RemovingEnds(old(model), model, ruleId, order, clock);
    }

    /** GetAlertHistory: the last `limit` entries, or all of them for a limit out of range. */
    method GetAlertHistory(limit: int) returns (alerts: seq<Alert>)
      ensures IsSuffix(alerts, alertHistory)
      ensures |alerts| == if limit <= 0 || limit > |alertHistory| then |alertHistory| else limit
    {
      var count := limit;
      if count <= 0 || count > |alertHistory| {
        count := |alertHistory|;
      }
      var start := |alertHistory| - count;
      if start < 0 {
        start := 0;
      }
      alerts := alertHistory[start..];
    }

    method StateOf(id: string) returns (state: AlertState)
      requires Valid() && id in activeAlerts
      ensures state == model.active[id].state
    {
      assert activeAlerts[id].Info() == model.active[id];
      state := activeAlerts[id].state;
    }

    /** The two counters of GetStatistics over the active alerts. */
    method CountByState() returns (firing: nat, pending: nat)
      requires Valid() && ActiveInv(model)
      ensures firing == |InState(model, Firing)| && pending == |InState(model, Pending)|
      ensures firing + pending == |activeAlerts.Keys|
    {
      hide Valid, InState, ActiveInv, Seen;
      firing, pending := 0, 0;
      var left := activeAlerts.Keys;
      CountStarts(model);
      while left != {}
        invariant left <= model.active.Keys
        invariant firing == Seen(model, Firing, left) && pending == Seen(model, Pending, left)
        invariant firing + pending + |left| == |model.active.Keys|
        decreases left
      {
        var id :| id in left;
        CountNext(model, left, id);
        left := left - {id};
        var state := StateOf(id);
        match state {
          case Firing => firing := firing + 1;
          case Pending => pending := pending + 1;
          case Resolved =>
        }
      }
      CountEnds(model);
    }
  }

  function InState(e: Engine, state: AlertState): set<string> {
    set id | id in e.active && e.active[id].state == state
  }

  /** How many alerts in a state have been counted when those in `left` have not been looked at. */
  function Seen(e: Engine, state: AlertState, left: set<string>): nat {
    |InState(e, state) - left|
  }

  lemma CountStarts(e: Engine)
    ensures forall state :: Seen(e, state, e.active.Keys) == 0
  {
    forall state ensures Seen(e, state, e.active.Keys) == 0 {
      assert InState(e, state) - e.active.Keys == {};
    }
  }

  lemma CountEnds(e: Engine)
    ensures forall state :: Seen(e, state, {}) == |InState(e, state)|
  {
    forall state ensures Seen(e, state, {}) == |InState(e, state)| {
      assert InState(e, state) - {} == InState(e, state);
    }
  }

  lemma CountNext(e: Engine, left: set<string>, id: string)
    requires id in left && left <= e.active.Keys && ActiveInv(e)
    ensures |left - {id}| == |left| - 1
    ensures e.active[id].state in {Firing, Pending}
    ensures forall state :: Seen(e, state, left - {id})
                         == Seen(e, state, left) + if e.active[id].state == state then 1 else 0
  {
    forall state ensures Seen(e, state, left - {id})
                      == Seen(e, state, left) + if e.active[id].state == state then 1 else 0 {
      if e.active[id].state == state {
        assert InState(e, state) - (left - {id}) == (InState(e, state) - left) + {id};
      } else {
        assert InState(e, state) - (left - {id}) == InState(e, state) - left;
      }
    }
  }

  /** The alerts resolved so far belong to the rule, and the i-th was resolved at the i-th reading. */
  ghost predicate Taken(start: Engine, ruleId: string, order: seq<Ending>, clock: nat -> int) {
    && Distinct(order)
    && forall i :: 0 <= i < |order| ==>
         order[i].id in start.active && start.active[order[i].id].ruleId == ruleId && order[i].at == clock(i)
  }

  /** Only alerts still to be looked at can belong to the rule. */
  ghost predicate Left(start: Engine, now: Engine, ruleId: string, pending: set<string>) {
    && pending <= now.active.Keys <= start.active.Keys
    && forall id :: id in now.active && id !in pending ==> start.active[id].ruleId != ruleId
  }

  /** The removal loop with some alerts still to be looked at. */
  ghost predicate Removing(
      start: Engine, now: Engine, ruleId: string, order: seq<Ending>, clock: nat -> int, pending: set<string>) {
    Taken(start, ruleId, order, clock) && now == ResolveAll(start, order) && Left(start, now, ruleId, pending)
  }

  lemma RemovingStarts(start: Engine, ruleId: string, clock: nat -> int)
    ensures Removing(start, start, ruleId, [], clock, start.active.Keys)
  {
  }

  lemma ResolveAllActive(e: Engine, order: seq<Ending>)
    requires Distinct(order) && forall i :: 0 <= i < |order| ==> order[i].id in e.active
    ensures ResolveAll(e, order).active == e.active - Ids(order)
  {
    ResolveAllEffect(e, order);
  }

  lemma TakenSnoc(start: Engine, ruleId: string, order: seq<Ending>, clock: nat -> int, id: string)
    requires Taken(start, ruleId, order, clock) && id in start.active && start.active[id].ruleId == ruleId
    requires id !in Ids(order)
    ensures Taken(start, ruleId, order + [Ending(id, clock(|order|))], clock)
    ensures forall i :: 0 <= i < |order| ==> order[i].id != id
  {
    assert forall i :: 0 <= i < |order| ==> order[i].id in Ids(order);
    hide Ids;
  }

  lemma RemovingTake(
      start: Engine, now: Engine, ruleId: string, order: seq<Ending>, clock: nat -> int, pending: set<string>,
      id: string)
    requires Removing(start, now, ruleId, order, clock, pending) && id in pending && now.active[id].ruleId == ruleId
    ensures Removing(start, Resolve(now, id, clock(|order|)).(clock := clock(|order|)), ruleId,
                     order + [Ending(id, clock(|order|))], clock, pending - {id})
  {
    var x := Ending(id, clock(|order|));
    var next := Resolve(now, id, x.at).(clock := x.at);
    ResolveAllActive(start, order);
    TakenSnoc(start, ruleId, order, clock, id);
    ResolveAllSnoc(start, order, x);
    assert next.active == now.active - {id};
    hide ResolveAll, Ids, Resolve, Distinct, Taken;
  }

  lemma RemovingStep(
      start: Engine, now: Engine, ruleId: string, order: seq<Ending>, clock: nat -> int, pending: set<string>,
      id: string)
    requires Removing(start, now, ruleId, order, clock, pending) && id in pending
    ensures id in now.active
    ensures if now.active[id].ruleId == ruleId
            then Removing(start, Resolve(now, id, clock(|order|)).(clock := clock(|order|)), ruleId,
                          order + [Ending(id, clock(|order|))], clock, pending - {id})
            else Removing(start, now, ruleId, order, clock, pending - {id})
  {
    if now.active[id].ruleId == ruleId {
      RemovingTake(start, now, ruleId, order, clock, pending, id);
      hide Removing, ResolveAll, Resolve;
    } else {
      ResolveAllActive(start, order);
      hide ResolveAll, Ids;
    }
  }

  lemma RemovingEnds(start: Engine, now: Engine, ruleId: string, order: seq<Ending>, clock: nat -> int)
    requires Removing(start, now, ruleId, order, clock, {})
    ensures Covers(start, ruleId, order) && now == ResolveAll(start, order)
    ensures forall i :: 0 <= i < |order| ==> order[i].at == clock(i)
  {
    ResolveAllActive(start, order);
    forall id | id in start.active && start.active[id].ruleId == ruleId
      ensures exists i :: 0 <= i < |order| && order[i].id == id
    {
      assert id in Ids(order);
    }
  }

  lemma CoversWithRule(e: Engine, start: Engine, ruleId: string, order: seq<Ending>)
    requires ruleId in e.rules && start == e.(rules := e.rules - {ruleId}) && Covers(start, ruleId, order)
    ensures Covers(e, ruleId, order) && Remove(e, ruleId, order) == ResolveAll(start, order)
  {
  }

  lemma {:induction false} ResolveAllSnoc(e: Engine, order: seq<Ending>, x: Ending)
    requires Distinct(order) && forall i :: 0 <= i < |order| ==> order[i].id in e.active
    requires x.id in e.active && forall i :: 0 <= i < |order| ==> order[i].id != x.id
    ensures Distinct(order + [x])
    ensures x.id in ResolveAll(e, order).active
    ensures ResolveAll(e, order + [x]) == Resolve(ResolveAll(e, order), x.id, x.at).(clock := x.at)
    decreases |order|
  {
    if order == [] {
      assert [] + [x] == [x] && [x][1..] == [];
    } else {
      assert (order + [x])[1..] == order[1..] + [x];
      ResolveAllSnoc(Resolve(e, order[0].id, order[0].at).(clock := order[0].at), order[1..], x);
    }
  }
}

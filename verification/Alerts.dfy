/** The alerting engine on values: what each operation does to the rules, the active alerts, the
    bounded history and the rate limiter, and what every run of operations keeps
    (internal/infrastructure/alerting/engine.go). */
module Alerts {
  import opened Basics
  import opened AlertIds

  datatype Rule = Rule(
    id: string, name: string, metricType: string, threshold: real, operator: string,
    duration: int, severity: string, enabled: bool)

  datatype AlertState = Pending | Firing | Resolved

  datatype AlertInfo = AlertInfo(
    id: string, ruleId: string, state: AlertState, value: real, threshold: real,
    startsAt: int, endsAt: Option<int>, lastEvalAt: int, count: nat)

  datatype Config = Config(rateLimitWindow: int, maxHistory: nat, defaultSeverity: string)

  /** A firing notification let through by the rate limiter. */
  datatype Admission = Admission(id: string, at: int)

  /** `resolved` and `admitted` are complete logs; `clock` is the last clock reading. */
  datatype Engine = Engine(
    rules: map<string, Rule>,
    active: map<string, AlertInfo>,
    history: seq<AlertInfo>,
    limiter: map<string, int>,
    resolved: seq<AlertInfo>,
    admitted: seq<Admission>,
    clock: int)

  function EvaluateThreshold(value: real, threshold: real, operator: string): bool {
    if operator == "gt" || operator == ">" then value > threshold
    else if operator == "gte" || operator == ">=" then value >= threshold
    else if operator == "lt" || operator == "<" then value < threshold
    else if operator == "lte" || operator == "<=" then value <= threshold
    else if operator == "eq" || operator == "==" then value == threshold
    else if operator == "ne" || operator == "!=" then value != threshold
    else false
  }

  /** The operators by name and by symbol, as laws of an ordering. */
  lemma ThresholdLaws(v: real, t: real)
    ensures forall a, b ::
              (a, b) in {("gt", ">"), ("gte", ">="), ("lt", "<"), ("lte", "<="), ("eq", "=="), ("ne", "!=")} ==>
              EvaluateThreshold(v, t, a) == EvaluateThreshold(v, t, b)
    ensures EvaluateThreshold(v, t, "gt") == EvaluateThreshold(t, v, "lt") == !EvaluateThreshold(v, t, "lte")
    ensures EvaluateThreshold(v, t, "gte") == (EvaluateThreshold(v, t, "gt") || EvaluateThreshold(v, t, "eq"))
    ensures EvaluateThreshold(v, t, "lte") == (EvaluateThreshold(v, t, "lt") || EvaluateThreshold(v, t, "eq"))
    ensures EvaluateThreshold(v, t, "eq") == !EvaluateThreshold(v, t, "ne") == (v == t)
    ensures EvaluateThreshold(v, t, "gt") == (v - t > 0.0)
    ensures forall a :: a !in {"gt", ">", "gte", ">=", "lt", "<", "lte", "<=", "eq", "==", "ne", "!="} ==>
              !EvaluateThreshold(v, t, a)
  {
  }

  // ---- Steps ----

  /** shouldSendNotification. */
  predicate MaySend(e: Engine, cfg: Config, id: string, at: int) {
    id !in e.limiter || at - e.limiter[id] >= cfg.rateLimitWindow
  }

  /** fireAlert. */
  function Fire(e: Engine, cfg: Config, id: string, at: int): Engine
    requires id in e.active
  {
    var fired := e.(active := e.active[id := e.active[id].(state := Firing)]);
    if MaySend(e, cfg, id, at)
    then fired.(limiter := e.limiter[id := at], admitted := e.admitted + [Admission(id, at)])
    else fired
  }

  function Resolve(e: Engine, id: string, at: int): Engine
    requires id in e.active
  {
    var ended := e.active[id].(state := Resolved, endsAt := Some(at));
    e.(active := e.active - {id}, history := e.history + [ended], resolved := e.resolved + [ended])
  }

  function Trim(e: Engine, cfg: Config): Engine {
    if |e.history| > cfg.maxHistory then e.(history := e.history[|e.history| - cfg.maxHistory..]) else e
  }

  function NewAlert(id: string, rule: Rule, value: real, now: int): AlertInfo {
    AlertInfo(id, rule.id, Pending, value, rule.threshold, now, None, now, 1)
  }

  function Touch(a: AlertInfo, value: real, now: int): AlertInfo {
    a.(value := value, lastEvalAt := now, count := a.count + 1)
  }

  /** processAlertStateWithLabels, before the history is trimmed. */
  function Judge(
      e: Engine, cfg: Config, id: string, rule: Rule, value: real, holds: bool, now: int, sendAt: int): Engine {
    if holds then
      if id !in e.active then
        var n := e.(active := e.active[id := NewAlert(id, rule, value, now)]);
        if rule.duration == 0 then Fire(n, cfg, id, sendAt) else n
      else
        var n := e.(active := e.active[id := Touch(e.active[id], value, now)]);
        if e.active[id].state == Pending && now - e.active[id].startsAt >= rule.duration
        then Fire(n, cfg, id, sendAt) else n
    else if id in e.active then Resolve(e, id, now)
    else e
  }

  function Process(
      e: Engine, cfg: Config, id: string, rule: Rule, value: real, holds: bool, now: int, sendAt: int): Engine {
    Trim(Judge(e, cfg, id, rule, value, holds, now, sendAt), cfg).(clock := sendAt)
  }

  function Defaults(rule: Rule, cfg: Config): Rule {
    rule.(name := if rule.name == "" then rule.id else rule.name,
          severity := if rule.severity == "" then cfg.defaultSeverity else rule.severity)
  }

  function Add(e: Engine, cfg: Config, rule: Rule): Engine {
    if rule.id == "" then e else e.(rules := e.rules[rule.id := Defaults(rule, cfg)])
  }

  /** The alert and the clock reading of one round of the removal loop. */
  datatype Ending = Ending(id: string, at: int)

  function ResolveAll(e: Engine, order: seq<Ending>): Engine
    requires Distinct(order) && forall i :: 0 <= i < |order| ==> order[i].id in e.active
    decreases |order|
  {
    if order == [] then e else
      assert forall i :: 1 <= i < |order| ==> order[i].id != order[0].id;
      ResolveAll(Resolve(e, order[0].id, order[0].at).(clock := order[0].at), order[1..])
  }

  predicate Distinct(order: seq<Ending>) {
    forall i, j :: 0 <= i < j < |order| ==> order[i].id != order[j].id
  }

  /** The removal loop meets every active alert of the rule exactly once, in some order. */
  predicate Covers(e: Engine, ruleId: string, order: seq<Ending>) {
    && Distinct(order)
    && (forall i :: 0 <= i < |order| ==> order[i].id in e.active && e.active[order[i].id].ruleId == ruleId)
    && (forall id :: id in e.active && e.active[id].ruleId == ruleId ==>
          exists i :: 0 <= i < |order| && order[i].id == id)
  }

  function Remove(e: Engine, ruleId: string, order: seq<Ending>): Engine
    requires ruleId in e.rules ==> Covers(e, ruleId, order)
  {
    if ruleId !in e.rules then e else ResolveAll(e.(rules := e.rules - {ruleId}), order)
  }

  datatype Op =
    | AddRule(newRule: Rule)
    | RemoveRule(ruleId: string, order: seq<Ending>)
    | Evaluate(target: Target, rule: Rule, value: real, now: int, sendAt: int)

  predicate TimesFrom(clock: int, order: seq<Ending>) {
    && (forall i :: 0 <= i < |order| ==> clock <= order[i].at)
    && (forall i, j :: 0 <= i < j < |order| ==> order[i].at <= order[j].at)
  }

  /** A sequential run under a clock that never goes back: a rule is evaluated while it is installed. */
  predicate Legal(e: Engine, op: Op) {
    match op
    case AddRule(_) => true
    case RemoveRule(ruleId, order) => ruleId in e.rules ==> Covers(e, ruleId, order) && TimesFrom(e.clock, order)
    case Evaluate(target, rule, _, now, sendAt) =>
      && rule.id in e.rules && e.rules[rule.id] == rule && target.rule == rule.id
      && e.clock <= now <= sendAt
  }

  function Holds(op: Op): bool
    requires op.Evaluate?
  {
    EvaluateThreshold(op.value, op.rule.threshold, op.rule.operator)
  }

  function Step(e: Engine, cfg: Config, op: Op): Engine
    requires Legal(e, op)
  {
    match op
    case AddRule(rule) => Add(e, cfg, rule)
    case RemoveRule(ruleId, order) => Remove(e, ruleId, order)
    case Evaluate(target, rule, value, now, sendAt) =>
      Process(e, cfg, AlertId(target), rule, value, Holds(op), now, sendAt)
  }

  ghost predicate LegalRun(e: Engine, cfg: Config, ops: seq<Op>)
    decreases |ops|
  {
    ops == [] || (Legal(e, ops[0]) && LegalRun(Step(e, cfg, ops[0]), cfg, ops[1..]))
  }

  ghost function Run(e: Engine, cfg: Config, ops: seq<Op>): Engine
    requires LegalRun(e, cfg, ops)
    decreases |ops|
  {
    if ops == [] then e else Run(Step(e, cfg, ops[0]), cfg, ops[1..])
  }

  function NewEngine(clock: int): Engine {
    Engine(map[], map[], [], map[], [], [], clock)
  }

  // ---- What every run keeps ----

  predicate ActiveInv(e: Engine) {
    forall id :: id in e.active ==>
      var a := e.active[id];
      && a.id == id && a.state in {Pending, Firing} && a.ruleId in e.rules && a.endsAt == None
      && a.startsAt <= a.lastEvalAt <= e.clock && a.count >= 1
  }

  predicate HistoryInv(e: Engine) {
    && IsSuffix(e.history, e.resolved)
    && (forall i :: 0 <= i < |e.resolved| ==>
          e.resolved[i].state == Resolved && e.resolved[i].endsAt.Some? && e.resolved[i].endsAt.value <= e.clock)
    && (forall i, j :: 0 <= i < j < |e.resolved| ==> e.resolved[i].endsAt.value <= e.resolved[j].endsAt.value)
  }

  /** The times at which notifications for one alert were let through. */
  function TimesOf(admitted: seq<Admission>, id: string): seq<int> {
    if admitted == [] then []
    else
      var last := admitted[|admitted| - 1];
      TimesOf(admitted[..|admitted| - 1], id) + if last.id == id then [last.at] else []
  }

  ghost predicate Spaced(times: seq<int>, window: int) {
    forall i, j :: 0 <= i < j < |times| && j == i + 1 ==> times[j] - times[i] >= window && times[j] >= times[i]
  }

  ghost predicate LimiterInv(e: Engine, cfg: Config, id: string) {
    var times := TimesOf(e.admitted, id);
    && Spaced(times, cfg.rateLimitWindow)
    && (id in e.limiter <==> times != [])
    && (id in e.limiter ==> e.limiter[id] == times[|times| - 1] && e.limiter[id] <= e.clock)
  }

  /** Nothing leaves the history that still fits. */
  predicate HistoryFull(e: Engine, cfg: Config) {
    |e.history| == |e.resolved| || |e.history| >= cfg.maxHistory
  }

  ghost predicate Inv(e: Engine, cfg: Config) {
    (forall id :: LimiterInv(e, cfg, id)) && ActiveInv(e) && HistoryInv(e) && HistoryFull(e, cfg)
  }

  lemma FireKeepsLimiter(e: Engine, cfg: Config, id: string, at: int, other: string)
    requires id in e.active && e.clock <= at && LimiterInv(e, cfg, other)
    ensures LimiterInv(Fire(e, cfg, id, at).(clock := at), cfg, other)
  {
    var n := Fire(e, cfg, id, at);
    if MaySend(e, cfg, id, at) {
      assert n.admitted[..|n.admitted| - 1] == e.admitted;
    }
  }

  lemma ResolveKeepsHistory(e: Engine, id: string, at: int)
    requires id in e.active && e.clock <= at && HistoryInv(e)
    ensures HistoryInv(Resolve(e, id, at).(clock := at))
  {
    var n := Resolve(e, id, at);
    assert n.resolved[|n.resolved| - |n.history|..] == n.history;
  }

  lemma TrimKeepsHistory(e: Engine, cfg: Config)
    requires HistoryInv(e)
    ensures HistoryInv(Trim(e, cfg)) && |Trim(e, cfg).history| <= cfg.maxHistory
  {
    if |e.history| > cfg.maxHistory {
      var n := Trim(e, cfg);
      assert n.history == e.resolved[|e.resolved| - cfg.maxHistory..];
    }
  }

  lemma FireKeepsActive(e: Engine, cfg: Config, id: string, at: int)
    requires ActiveInv(e) && id in e.active
    ensures var n := Fire(e, cfg, id, at); ActiveInv(n) && n.rules == e.rules && n.clock == e.clock
  {
  }

  lemma JudgeKeepsActive(
      e: Engine, cfg: Config, id: string, rule: Rule, value: real, holds: bool, now: int, sendAt: int)
    requires ActiveInv(e) && rule.id in e.rules && e.clock <= now <= sendAt
    ensures ActiveInv(Judge(e, cfg, id, rule, value, holds, now, sendAt).(clock := sendAt))
    ensures Judge(e, cfg, id, rule, value, holds, now, sendAt).rules == e.rules
  {
    hide Fire;
    if holds {
      var n := e.(active := e.active[id := if id in e.active then Touch(e.active[id], value, now)
                                           else NewAlert(id, rule, value, now)]);
      assert ActiveInv(n.(clock := sendAt));
      FireKeepsActive(n.(clock := sendAt), cfg, id, sendAt);
      FireIgnoresClock(n, cfg, id, sendAt);
    }
  }

  lemma FireIgnoresClock(e: Engine, cfg: Config, id: string, at: int)
    requires id in e.active
    ensures Fire(e.(clock := at), cfg, id, at) == Fire(e, cfg, id, at).(clock := at)
  {
  }

  lemma JudgeKeepsHistory(
      e: Engine, cfg: Config, id: string, rule: Rule, value: real, holds: bool, now: int, sendAt: int)
    requires HistoryInv(e) && e.clock <= now <= sendAt
    ensures HistoryInv(Judge(e, cfg, id, rule, value, holds, now, sendAt).(clock := sendAt))
  {
    if !holds && id in e.active {
      ResolveKeepsHistory(e, id, now);
    }
  }

  lemma {:induction false} JudgeKeepsLimiter(
      e: Engine, cfg: Config, id: string, rule: Rule, value: real, holds: bool, now: int, sendAt: int, other: string)
    requires LimiterInv(e, cfg, other) && e.clock <= now <= sendAt
    ensures LimiterInv(Judge(e, cfg, id, rule, value, holds, now, sendAt).(clock := sendAt), cfg, other)
  {
    hide Fire, TimesOf, Spaced, Touch, NewAlert;
    if holds {
      var n := e.(active := e.active[id := if id in e.active then Touch(e.active[id], value, now)
                                           else NewAlert(id, rule, value, now)]);
      FireKeepsLimiter(n, cfg, id, sendAt, other);
    }
  }

  lemma {:induction false} ProcessKeepsInv(
      e: Engine, cfg: Config, id: string, rule: Rule, value: real, holds: bool, now: int, sendAt: int)
    requires Inv(e, cfg) && rule.id in e.rules && e.clock <= now <= sendAt
    ensures Inv(Process(e, cfg, id, rule, value, holds, now, sendAt), cfg)
    ensures |Process(e, cfg, id, rule, value, holds, now, sendAt).history| <= cfg.maxHistory
  {
    JudgeKeepsFull(e, cfg, id, rule, value, holds, now, sendAt);
    hide Judge, Trim, HistoryInv, ActiveInv, LimiterInv;
    var n := Judge(e, cfg, id, rule, value, holds, now, sendAt).(clock := sendAt);
    TrimIgnoresClock(Judge(e, cfg, id, rule, value, holds, now, sendAt), cfg, sendAt);
    assert Process(e, cfg, id, rule, value, holds, now, sendAt) == Trim(n, cfg);
    JudgeKeepsActive(e, cfg, id, rule, value, holds, now, sendAt);
    TrimKeepsActive(n, cfg);
    JudgeKeepsHistory(e, cfg, id, rule, value, holds, now, sendAt);
    TrimKeepsHistory(n, cfg);
    TrimKeepsFull(n, cfg);
    forall other ensures LimiterInv(Trim(n, cfg), cfg, other) {
      JudgeKeepsLimiter(e, cfg, id, rule, value, holds, now, sendAt, other);
      TrimKeepsLimiter(n, cfg, other);
    }
  }

  lemma JudgeKeepsFull(e: Engine, cfg: Config, id: string, rule: Rule, value: real, holds: bool, now: int, sendAt: int)
    requires HistoryFull(e, cfg)
    ensures HistoryFull(Judge(e, cfg, id, rule, value, holds, now, sendAt).(clock := sendAt), cfg)
  {
  }

  lemma TrimKeepsFull(e: Engine, cfg: Config)
    requires HistoryFull(e, cfg) && HistoryInv(e)
    ensures HistoryFull(Trim(e, cfg), cfg)
  {
  }

  lemma TrimIgnoresClock(e: Engine, cfg: Config, at: int)
    ensures Trim(e, cfg).(clock := at) == Trim(e.(clock := at), cfg)
  {
  }

  lemma TrimKeepsLimiter(e: Engine, cfg: Config, id: string)
    requires LimiterInv(e, cfg, id)
    ensures LimiterInv(Trim(e, cfg), cfg, id)
  {
  }

  lemma TrimKeepsActive(e: Engine, cfg: Config)
    requires ActiveInv(e)
    ensures ActiveInv(Trim(e, cfg))
  {
  }

  function Ids(order: seq<Ending>): set<string> {
    set i | 0 <= i < |order| :: order[i].id
  }

  lemma IdsCons(order: seq<Ending>)
    requires order != []
    ensures Ids(order) == {order[0].id} + Ids(order[1..])
  {
    forall id | id in Ids(order) ensures id in {order[0].id} + Ids(order[1..]) {
      var i :| 0 <= i < |order| && order[i].id == id;
      if i > 0 {
        assert order[1..][i - 1].id == id;
      }
    }
    forall id | id in Ids(order[1..]) ensures id in Ids(order) {
      var i :| 0 <= i < |order[1..]| && order[1..][i].id == id;
      assert order[i + 1].id == id;
    }
  }

  /** Resolving in any order takes exactly the listed alerts out and logs each as it was. */
  lemma {:induction false} ResolveAllEffect(e: Engine, order: seq<Ending>)
    requires Distinct(order) && forall i :: 0 <= i < |order| ==> order[i].id in e.active
    ensures var n := ResolveAll(e, order);
      && n.active == e.active - Ids(order)
      && n.rules == e.rules && n.limiter == e.limiter && n.admitted == e.admitted
      && var ended := seq(|order|, i requires 0 <= i < |order| =>
           e.active[order[i].id].(state := Resolved, endsAt := Some(order[i].at)));
         n.resolved == e.resolved + ended && n.history == e.history + ended
    decreases |order|
  {
    if order != [] {
      IdsCons(order);
      ResolveAllEffect(Resolve(e, order[0].id, order[0].at).(clock := order[0].at), order[1..]);
    } else {
      assert Ids(order) == {};
    }
  }

  lemma {:induction false} ResolveAllKeepsHistory(e: Engine, order: seq<Ending>)
    requires Distinct(order) && forall i :: 0 <= i < |order| ==> order[i].id in e.active
    requires HistoryInv(e) && TimesFrom(e.clock, order)
    ensures HistoryInv(ResolveAll(e, order)) && ResolveAll(e, order).clock >= e.clock
    decreases |order|
  {
    hide HistoryInv;
    if order != [] {
      ResolveKeepsHistory(e, order[0].id, order[0].at);
      ResolveAllKeepsHistory(Resolve(e, order[0].id, order[0].at).(clock := order[0].at), order[1..]);
    }
  }

  lemma {:induction false} ResolveAllKeepsFull(e: Engine, cfg: Config, order: seq<Ending>)
    requires Distinct(order) && forall i :: 0 <= i < |order| ==> order[i].id in e.active
    requires HistoryFull(e, cfg)
    ensures HistoryFull(ResolveAll(e, order), cfg)
    decreases |order|
  {
    if order != [] {
      ResolveAllKeepsFull(Resolve(e, order[0].id, order[0].at).(clock := order[0].at), cfg, order[1..]);
    }
  }

  lemma {:induction false} RemoveKeepsInv(e: Engine, cfg: Config, ruleId: string, order: seq<Ending>)
    requires Inv(e, cfg) && Legal(e, RemoveRule(ruleId, order))
    ensures Inv(Remove(e, ruleId, order), cfg)
  {
    if ruleId in e.rules {
      var m := e.(rules := e.rules - {ruleId});
      ResolveAllEffect(m, order);
      ResolveAllKeepsHistory(m, order);
      ResolveAllKeepsFull(m, cfg, order);
      var n := Remove(e, ruleId, order);
      forall id | id in n.active ensures e.active[id].ruleId != ruleId {
        assert forall i :: 0 <= i < |order| && order[i].id == id ==> id in Ids(order);
      }
      forall other ensures LimiterInv(n, cfg, other) {
        assert LimiterInv(e, cfg, other);
      }
    }
  }

  lemma {:induction false} AddKeepsInv(e: Engine, cfg: Config, rule: Rule)
    requires Inv(e, cfg)
    ensures Inv(Add(e, cfg, rule), cfg)
  {
    forall other ensures LimiterInv(Add(e, cfg, rule), cfg, other) {
      assert LimiterInv(e, cfg, other);
    }
  }

  lemma {:induction false} StepKeepsInv(e: Engine, cfg: Config, op: Op)
    requires Inv(e, cfg) && Legal(e, op)
    ensures Inv(Step(e, cfg, op), cfg)
    ensures op.Evaluate? ==> |Step(e, cfg, op).history| <= cfg.maxHistory
  {
    hide Inv, Process, Remove, Add, Covers;
    match op
    case AddRule(rule) => AddKeepsInv(e, cfg, rule);
    case RemoveRule(ruleId, order) => RemoveKeepsInv(e, cfg, ruleId, order);
    case Evaluate(target, rule, value, now, sendAt) =>
      ProcessKeepsInv(e, cfg, AlertId(target), rule, value, Holds(op), now, sendAt);
  }

  /** Over every sequential run with a clock that never goes back: active alerts are pending or
      firing and belong to an installed rule; the history is a suffix of the complete log of
      resolutions, all resolved and ordered by end time; and the rate limiter remembers the last
      admission of each alert, consecutive ones being at least a window apart. */
  lemma {:induction false} RunKeepsInv(e: Engine, cfg: Config, ops: seq<Op>)
    requires Inv(e, cfg) && LegalRun(e, cfg, ops)
    ensures Inv(Run(e, cfg, ops), cfg)
    decreases |ops|
  {
    hide Inv, Step, Legal;
    if ops != [] {
      StepKeepsInv(e, cfg, ops[0]);
      RunKeepsInv(Step(e, cfg, ops[0]), cfg, ops[1..]);
    }
  }

  /** Right after an evaluation the history is the newest part of the complete log of resolutions:
      all of it, or as much as the configured size. */
  lemma {:induction false} HistoryIsNewest(clock: int, cfg: Config, ops: seq<Op>, op: Op)
    requires LegalRun(NewEngine(clock), cfg, ops) && Legal(Run(NewEngine(clock), cfg, ops), op) && op.Evaluate?
    ensures var n := Step(Run(NewEngine(clock), cfg, ops), cfg, op);
      && IsSuffix(n.history, n.resolved)
      && |n.history| == if |n.resolved| < cfg.maxHistory then |n.resolved| else cfg.maxHistory
  {
    NewEngineInv(clock, cfg);
    RunKeepsInv(NewEngine(clock), cfg, ops);
    hide Step, Run, LimiterInv, ActiveInv;
    StepKeepsInv(Run(NewEngine(clock), cfg, ops), cfg, op);
  }

  lemma NewEngineInv(clock: int, cfg: Config)
    ensures Inv(NewEngine(clock), cfg)
  {
  }

  // ---- The installed rules ----

  /** The rule under an identifier after one operation: the last one added, with its name and severity
      filled in, nothing after a removal, and otherwise what it was. */
  lemma RulesEffect(e: Engine, cfg: Config, op: Op, id: string)
    requires Legal(e, op)
    ensures var n := Step(e, cfg, op);
      if op.AddRule? && op.newRule.id == id && id != "" then
        var given := op.newRule;
        && id in n.rules
        && var r := n.rules[id];
           && r.id == given.id && r.metricType == given.metricType && r.threshold == given.threshold
           && r.operator == given.operator && r.duration == given.duration && r.enabled == given.enabled
           && r.name == (if given.name == "" then given.id else given.name)
           && r.severity == (if given.severity == "" then cfg.defaultSeverity else given.severity)
      else if op.RemoveRule? && op.ruleId == id then id !in n.rules
      else (id in n.rules <==> id in e.rules) && (id in e.rules ==> n.rules[id] == e.rules[id])
  {
    hide Covers, Judge, ResolveAll, Holds, AlertId;
    match op
    case AddRule(_) =>
    case RemoveRule(ruleId, order) =>
      if ruleId in e.rules {
        CoversLists(e, ruleId, order);
        ResolveAllEffect(e.(rules := e.rules - {ruleId}), order);
      }
    case Evaluate(target, rule, value, now, sendAt) =>
      JudgeKeepsRules(e, cfg, AlertId(target), rule, value, Holds(op), now, sendAt);
  }

  lemma JudgeKeepsRules(
      e: Engine, cfg: Config, id: string, rule: Rule, value: real, holds: bool, now: int, sendAt: int)
    ensures Judge(e, cfg, id, rule, value, holds, now, sendAt).rules == e.rules
  {
  }

  /** Removing an installed rule ends its alerts and no others, untouched by the history limit. */
  lemma RemovalEffect(e: Engine, cfg: Config, ruleId: string, order: seq<Ending>, id: string)
    requires Legal(e, RemoveRule(ruleId, order)) && ruleId in e.rules
    ensures var n := Step(e, cfg, RemoveRule(ruleId, order));
      && (id in n.active <==> id in e.active && e.active[id].ruleId != ruleId)
      && (id in n.active ==> n.active[id] == e.active[id])
      && e.history <= n.history && |n.history| == |e.history| + |order|
      && forall i :: 0 <= i < |order| ==>
           var a := n.history[|e.history| + i];
           a == e.active[order[i].id].(state := Resolved, endsAt := Some(order[i].at))
  {
    RemoveEffect(e, ruleId, order, id);
    CoversLists(e, ruleId, order);
    ResolveAllEffect(e.(rules := e.rules - {ruleId}), order);
    hide ResolveAll, Covers;
  }

  // ---- Rate limiting over a whole run ----

  lemma {:induction false} SpacedSpan(times: seq<int>, window: nat, i: nat, j: nat)
    requires Spaced(times, window) && i <= j < |times|
    ensures times[j] - times[i] >= (j - i) * window
    decreases j
  {
    if i < j {
      SpacedSpan(times, window, i, j - 1);
      assert (j - i) * window == (j - 1 - i) * window + window;
    }
  }

  lemma {:induction false} ScaleUp(k: nat, m: nat, window: nat)
    requires m <= k
    ensures m * window <= k * window
    decreases k
  {
    if m < k {
      ScaleUp(k - 1, m, window);
      assert k * window == (k - 1) * window + window;
    }
  }

  lemma {:induction false} FitsInSpan(k: nat, window: nat, span: nat)
    requires window > 0 && k * window <= span
    ensures k <= span / window
  {
    var q := span / window;
    assert span < (q + 1) * window;
    if k > q {
      ScaleUp(k, q + 1, window);
    }
  }

  /** Over every run, also across resolving, re-firing and removing rules: at most
      span / window + 1 notifications for one alert are let through within any span of time. */
  lemma AdmissionsAreRare(clock: int, cfg: Config, ops: seq<Op>, id: string, i: nat, j: nat, span: nat)
    requires LegalRun(NewEngine(clock), cfg, ops) && cfg.rateLimitWindow > 0
    requires var times := TimesOf(Run(NewEngine(clock), cfg, ops).admitted, id);
      i <= j < |times| && times[j] - times[i] <= span
    ensures j - i + 1 <= span / cfg.rateLimitWindow + 1
  {
    var times := TimesOf(Run(NewEngine(clock), cfg, ops).admitted, id);
    NewEngineInv(clock, cfg);
    RunKeepsInv(NewEngine(clock), cfg, ops);
    assert LimiterInv(Run(NewEngine(clock), cfg, ops), cfg, id);
    SpacedSpan(times, cfg.rateLimitWindow, i, j);
    FitsInSpan(j - i, cfg.rateLimitWindow, span);
  }

  lemma {:induction false} SpacedIsOrdered(times: seq<int>, window: int, i: nat, j: nat)
    requires Spaced(times, window) && i <= j < |times|
    ensures times[i] <= times[j]
    decreases j
  {
    if i < j {
      SpacedIsOrdered(times, window, i, j - 1);
    }
  }

  /** No notification admitted for the alert is more recent than the window. */
  predicate NoneRecent(times: seq<int>, window: int, at: int) {
    forall i :: 0 <= i < |times| ==> at - times[i] >= window
  }

  lemma {:induction false} SendsIffNoneRecent(e: Engine, cfg: Config, id: string, at: int)
    requires LimiterInv(e, cfg, id)
    ensures MaySend(e, cfg, id, at) <==> NoneRecent(TimesOf(e.admitted, id), cfg.rateLimitWindow, at)
  {
    var times := TimesOf(e.admitted, id);
    forall i | 0 <= i < |times| ensures times[i] <= times[|times| - 1] {
      SpacedIsOrdered(times, cfg.rateLimitWindow, i, |times| - 1);
    }
  }

  /** Over every run: the limiter holds a notification back exactly when some earlier one for the
      same alert, in the whole run, was let through less than a window ago. */
  lemma HeldBackIffRecent(clock: int, cfg: Config, ops: seq<Op>, id: string, at: int)
    requires LegalRun(NewEngine(clock), cfg, ops)
    ensures var e := Run(NewEngine(clock), cfg, ops);
      var times := TimesOf(e.admitted, id);
      MaySend(e, cfg, id, at) <==> NoneRecent(times, cfg.rateLimitWindow, at)
  {
    var e := Run(NewEngine(clock), cfg, ops);
    NewEngineInv(clock, cfg);
    RunKeepsInv(NewEngine(clock), cfg, ops);
    assert LimiterInv(e, cfg, id);
    SendsIffNoneRecent(e, cfg, id, at);
  }

  /** An evaluation lets a notification through exactly when its alert becomes firing and no earlier
      one of that alert is more recent than the window. */
  lemma AdmittedIffNewlyFiring(clock: int, cfg: Config, ops: seq<Op>, op: Op)
    requires LegalRun(NewEngine(clock), cfg, ops) && Legal(Run(NewEngine(clock), cfg, ops), op) && op.Evaluate?
    ensures var e, id := Run(NewEngine(clock), cfg, ops), AlertId(op.target);
      var n, times := Step(e, cfg, op), TimesOf(e.admitted, id);
      var newlyFiring :=
        id in n.active && n.active[id].state == Firing && (id in e.active ==> e.active[id].state != Firing);
      n.admitted == e.admitted +
        if newlyFiring && NoneRecent(times, cfg.rateLimitWindow, op.sendAt) then [Admission(id, op.sendAt)] else []
  {
    var e, id := Run(NewEngine(clock), cfg, ops), AlertId(op.target);
    HeldBackIffRecent(clock, cfg, ops, id, op.sendAt);
    NewEngineInv(clock, cfg);
    RunKeepsInv(NewEngine(clock), cfg, ops);
    assert ActiveInv(e);
    hide Run, LegalRun, AlertId, TimesOf, MaySend, NoneRecent, ActiveInv, Inv;
    AdmissionOf(e, cfg, id, op.rule, op.value, Holds(op), op.now, op.sendAt);
  }

  lemma AdmissionOf(e: Engine, cfg: Config, id: string, rule: Rule, value: real, holds: bool, now: int, sendAt: int)
    requires ActiveInv(e)
    ensures var n := Process(e, cfg, id, rule, value, holds, now, sendAt);
      var newlyFiring :=
        id in n.active && n.active[id].state == Firing && (id in e.active ==> e.active[id].state != Firing);
      n.admitted == e.admitted + if newlyFiring && MaySend(e, cfg, id, sendAt) then [Admission(id, sendAt)] else []
  {
    assert id in e.active ==> e.active[id].state in {Pending, Firing};
    hide ActiveInv;
  }

  // ---- Conservation of alerts ----

  /** Whether an operation starts a new alert. */
  predicate Starts(e: Engine, op: Op) {
    op.Evaluate? && Holds(op) && AlertId(op.target) !in e.active
  }

  ghost function Started(e: Engine, cfg: Config, ops: seq<Op>): nat
    requires LegalRun(e, cfg, ops)
    decreases |ops|
  {
    if ops == [] then 0 else (if Starts(e, ops[0]) then 1 else 0) + Started(Step(e, cfg, ops[0]), cfg, ops[1..])
  }

  lemma {:induction false} ResolveAllConserves(e: Engine, order: seq<Ending>)
    requires Distinct(order) && forall i :: 0 <= i < |order| ==> order[i].id in e.active
    ensures var n := ResolveAll(e, order); |n.active.Keys| + |n.resolved| == |e.active.Keys| + |e.resolved|
    decreases |order|
  {
    if order != [] {
      var m := Resolve(e, order[0].id, order[0].at);
      assert m.active.Keys == e.active.Keys - {order[0].id};
      ResolveAllConserves(m.(clock := order[0].at), order[1..]);
    }
  }

  /** The alert after an evaluation that holds. */
  function Judged(e: Engine, id: string, rule: Rule, value: real, now: int): AlertInfo {
    if id !in e.active then
      NewAlert(id, rule, value, now).(state := if rule.duration == 0 then Firing else Pending)
    else
      Continued(e.active[id], rule.duration, value, now)
  }

  function Continued(a: AlertInfo, duration: int, value: real, now: int): AlertInfo {
    Touch(a, value, now).(state := if a.state == Pending && now - a.startsAt >= duration then Firing else a.state)
  }

  lemma FireFrame(e: Engine, cfg: Config, id: string, at: int)
    requires id in e.active
    ensures var n := Fire(e, cfg, id, at);
      n.active == e.active[id := e.active[id].(state := Firing)] && n.resolved == e.resolved
  {
  }

  lemma TrimFrame(e: Engine, cfg: Config, at: int)
    ensures var n := Trim(e, cfg).(clock := at); n.active == e.active && n.resolved == e.resolved
  {
  }

  /** An evaluation that holds leaves its alert judged; one that does not logs the alert as it stood,
      with its end. No other alert is touched. */
  lemma ProcessEffect(e: Engine, cfg: Config, id: string, rule: Rule, value: real, holds: bool, now: int, sendAt: int)
    ensures var n := Process(e, cfg, id, rule, value, holds, now, sendAt);
      && n.active == (if holds then e.active[id := Judged(e, id, rule, value, now)] else e.active - {id})
      && n.resolved == e.resolved + if !holds && id in e.active
                                    then [e.active[id].(state := Resolved, endsAt := Some(now))] else []
  {
    hide Fire, Trim;
    TrimFrame(Judge(e, cfg, id, rule, value, holds, now, sendAt), cfg, sendAt);
    if holds {
      FireFrame(e.(active := e.active[id := if id in e.active then Touch(e.active[id], value, now)
                                            else NewAlert(id, rule, value, now)]), cfg, id, sendAt);
    }
  }

  lemma {:induction false} ProcessConserves(
      e: Engine, cfg: Config, id: string, rule: Rule, value: real, holds: bool, now: int, sendAt: int)
    ensures var n := Process(e, cfg, id, rule, value, holds, now, sendAt);
      |n.active.Keys| + |n.resolved| == |e.active.Keys| + |e.resolved| + if holds && id !in e.active then 1 else 0
  {
    ProcessEffect(e, cfg, id, rule, value, holds, now, sendAt);
    hide Process, Judged;
    var keys := e.active.Keys;
    if id in keys {
      assert keys + {id} == keys;
    } else {
      assert keys - {id} == keys;
    }
  }

  lemma {:induction false} StepConserves(e: Engine, cfg: Config, op: Op)
    requires Legal(e, op)
    ensures var n := Step(e, cfg, op);
      |n.active.Keys| + |n.resolved| == |e.active.Keys| + |e.resolved| + if Starts(e, op) then 1 else 0
  {
    hide Process, ResolveAll, AlertId;
    match op
    case AddRule(_) =>
    case RemoveRule(ruleId, order) =>
      if ruleId in e.rules {
        ResolveAllConserves(e.(rules := e.rules - {ruleId}), order);
      }
    case Evaluate(target, rule, value, now, sendAt) =>
      ProcessConserves(e, cfg, AlertId(target), rule, value, Holds(op), now, sendAt);
  }

  /** Over every run no alert is lost or doubled: those still active and those in the complete log of
      resolutions together are as many as were started. */
  lemma {:induction false} RunConserves(e: Engine, cfg: Config, ops: seq<Op>)
    requires LegalRun(e, cfg, ops)
    ensures var n := Run(e, cfg, ops);
      |n.active.Keys| + |n.resolved| == |e.active.Keys| + |e.resolved| + Started(e, cfg, ops)
    decreases |ops|
  {
    hide Step, Legal, Starts;
    if ops != [] {
      StepConserves(e, cfg, ops[0]);
      RunConserves(Step(e, cfg, ops[0]), cfg, ops[1..]);
    }
  }

  // ---- The engine against the evaluation log ----

  /** One evaluation of an alert, or (not holding) the removal of its rule. */
  datatype Entry = Entry(holds: bool, now: int, duration: int, value: real, threshold: real)

  function EntryOf(op: Op, target: Target): seq<Entry> {
    match op
    case AddRule(_) => []
    case RemoveRule(ruleId, _) => if ruleId == target.rule then [Entry(false, 0, 0, 0.0, 0.0)] else []
    case Evaluate(t, rule, value, now, _) =>
      if t == target then [Entry(Holds(op), now, rule.duration, value, rule.threshold)] else []
  }

  function Log(ops: seq<Op>, target: Target): seq<Entry> {
    if ops == [] then [] else EntryOf(ops[0], target) + Log(ops[1..], target)
  }

  /** The longest run of holding evaluations at the end of the log. */
  function TrailingRun(log: seq<Entry>): (r: seq<Entry>)
    ensures IsSuffix(r, log) && forall i :: 0 <= i < |r| ==> r[i].holds
    ensures |r| < |log| ==> !log[|log| - |r| - 1].holds
  {
    if log == [] || !log[|log| - 1].holds then []
    else
      var r := TrailingRun(log[..|log| - 1]);
      assert log == log[..|log| - 1] + [log[|log| - 1]];
      r + [log[|log| - 1]]
  }

  /** Some evaluation of the run met the duration requirement: the first only with none to meet. */
  predicate MetDuration(r: seq<Entry>) {
    exists i :: 0 <= i < |r| && Meets(r, i)
  }

  predicate Meets(r: seq<Entry>, i: nat)
    requires i < |r|
  {
    if i == 0 then r[0].duration == 0 else r[i].now - r[0].now >= r[i].duration
  }

  /** An alert that stands for a run of holding evaluations. */
  predicate StandsFor(a: AlertInfo, ruleId: string, r: seq<Entry>) {
    && r != [] && a.ruleId == ruleId
    && a.startsAt == r[0].now && a.lastEvalAt == r[|r| - 1].now && a.count == |r|
    && a.value == r[|r| - 1].value && a.threshold == r[0].threshold
    && a.state == if MetDuration(r) then Firing else Pending
  }

  /** What the engine should hold for an alert, as a function of its whole log. */
  predicate Matches(e: Engine, target: Target, log: seq<Entry>) {
    var id, r := AlertId(target), TrailingRun(log);
    if id in e.active then StandsFor(e.active[id], target.rule, r) else r == []
  }

  lemma TrailingRunSnoc(log: seq<Entry>, x: Entry)
    ensures TrailingRun(log + [x]) == if x.holds then TrailingRun(log) + [x] else []
  {
    assert (log + [x])[..|log|] == log;
  }

  lemma MetDurationSnoc(r: seq<Entry>, x: Entry)
    ensures MetDuration(r + [x]) <==> (MetDuration(r) || Meets(r + [x], |r|))
  {
    forall i | 0 <= i < |r| ensures Meets(r + [x], i) <==> Meets(r, i) {
    }
    if MetDuration(r) {
      var i :| 0 <= i < |r| && Meets(r, i);
      assert Meets(r + [x], i);
    }
    if MetDuration(r + [x]) {
      var i :| 0 <= i < |r + [x]| && Meets(r + [x], i);
      assert i < |r| ==> Meets(r, i);
    }
  }

  lemma FirstStands(id: string, rule: Rule, x: Entry)
    requires x.duration == rule.duration && x.threshold == rule.threshold
    ensures var a := NewAlert(id, rule, x.value, x.now);
      StandsFor(a.(state := if rule.duration == 0 then Firing else Pending), rule.id, [x])
  {
    EmptyNeverMet();
    MetDurationSnoc([], x);
    assert [] + [x] == [x];
  }

  lemma ContinuedStands(a: AlertInfo, ruleId: string, r: seq<Entry>, x: Entry)
    requires StandsFor(a, ruleId, r)
    ensures StandsFor(Continued(a, x.duration, x.value, x.now), ruleId, r + [x])
  {
    MetDurationSnoc(r, x);
    hide MetDuration;
  }

  lemma {:induction false} EvaluateMatches(e: Engine, cfg: Config, target: Target, log: seq<Entry>, op: Op)
    requires op.Evaluate? && op.target == target && Legal(e, op) && Matches(e, target, log)
    ensures Matches(Step(e, cfg, op), target, log + EntryOf(op, target))
  {
    var id, x := AlertId(target), Entry(Holds(op), op.now, op.rule.duration, op.value, op.rule.threshold);
    hide TrailingRun, Process, StandsFor, AlertId, Holds, NewAlert, Continued;
    TrailingRunSnoc(log, x);
    ProcessEffect(e, cfg, id, op.rule, op.value, x.holds, op.now, op.sendAt);
    if x.holds {
      if id in e.active {
        ContinuedStands(e.active[id], target.rule, TrailingRun(log), x);
      } else {
        FirstStands(id, op.rule, x);
        assert [] + [x] == [x];
      }
    }
  }

  lemma EmptyNeverMet()
    ensures !MetDuration([])
  {
  }

  lemma OtherEvaluateKeepsAlert(e: Engine, cfg: Config, id: string, op: Op)
    requires op.Evaluate? && AlertId(op.target) != id && Legal(e, op)
    ensures id in Step(e, cfg, op).active <==> id in e.active
    ensures id in e.active ==> Step(e, cfg, op).active[id] == e.active[id]
  {
    hide Process, Judged;
    ProcessEffect(e, cfg, AlertId(op.target), op.rule, op.value, Holds(op), op.now, op.sendAt);
  }

  lemma RemoveEffect(e: Engine, ruleId: string, order: seq<Ending>, id: string)
    requires Legal(e, RemoveRule(ruleId, order)) && ruleId in e.rules
    ensures var n := Remove(e, ruleId, order);
      && (id in n.active <==> id in e.active && e.active[id].ruleId != ruleId)
      && (id in n.active ==> n.active[id] == e.active[id])
  {
    ResolveAllEffect(e.(rules := e.rules - {ruleId}), order);
    if id in e.active && e.active[id].ruleId == ruleId {
      var i :| 0 <= i < |order| && order[i].id == id;
      assert id in Ids(order);
    }
  }

  lemma RemoveMatches(e: Engine, cfg: Config, target: Target, log: seq<Entry>, op: Op)
    requires op.RemoveRule? && Legal(e, op) && Matches(e, target, log) && ActiveInv(e)
    ensures Matches(Step(e, cfg, op), target, log + EntryOf(op, target))
  {
    hide Covers, ResolveAll, AlertId, TrailingRun;
    assert log + [] == log;
    if op.ruleId == target.rule {
      TrailingRunSnoc(log, EntryOf(op, target)[0]);
    }
    if op.ruleId in e.rules {
      RemoveEffect(e, op.ruleId, op.order, AlertId(target));
    }
  }

  lemma {:induction false} StepMatches(e: Engine, cfg: Config, target: Target, log: seq<Entry>, op: Op)
    requires Inv(e, cfg) && Legal(e, op) && Matches(e, target, log)
    ensures Matches(Step(e, cfg, op), target, log + EntryOf(op, target))
  {
    hide Matches, AlertId, TrailingRun;
    assert log + [] == log;
    match op
    case AddRule(rule) => AddMatches(e, cfg, target, log, rule);
    case RemoveRule(_, _) => RemoveMatches(e, cfg, target, log, op);
    case Evaluate(t, _, _, _, _) =>
      if t == target {
        EvaluateMatches(e, cfg, target, log, op);
      } else {
        OtherEvaluateMatches(e, cfg, target, log, op);
      }
  }

  lemma AddMatches(e: Engine, cfg: Config, target: Target, log: seq<Entry>, rule: Rule)
    requires Matches(e, target, log)
    ensures Matches(Add(e, cfg, rule), target, log)
  {
  }

  lemma {:induction false} OtherEvaluateMatches(e: Engine, cfg: Config, target: Target, log: seq<Entry>, op: Op)
    requires op.Evaluate? && op.target != target && Legal(e, op) && Matches(e, target, log)
    ensures Matches(Step(e, cfg, op), target, log)
  {
    if AlertId(op.target) == AlertId(target) {
      AlertIdInjective(op.target, target);
    }
    OtherEvaluateKeepsAlert(e, cfg, AlertId(target), op);
    hide Step, AlertId, TrailingRun, StandsFor;
  }

  /** Over every legal run of operations on any number of rules and alerts, each alert is what the
      whole log of its own evaluations says: active iff its last evaluation held, with the start,
      the last evaluation and the length of the trailing run of holding evaluations, and firing iff
      one of those met the duration required of it. */
  lemma {:induction false} EngineMatchesLog(e: Engine, cfg: Config, target: Target, log: seq<Entry>, ops: seq<Op>)
    requires Inv(e, cfg) && LegalRun(e, cfg, ops) && Matches(e, target, log)
    ensures Matches(Run(e, cfg, ops), target, log + Log(ops, target))
    decreases |ops|
  {
    hide Inv, Step, Legal, Matches, EntryOf;
    if ops == [] {
      assert log + Log(ops, target) == log;
    } else {
      StepKeepsInv(e, cfg, ops[0]);
      StepMatches(e, cfg, target, log, ops[0]);
      EngineMatchesLog(Step(e, cfg, ops[0]), cfg, target, log + EntryOf(ops[0], target), ops[1..]);
      assert log + EntryOf(ops[0], target) + Log(ops[1..], target) == log + Log(ops, target);
    }
  }

  lemma {:induction false} RunMatchesLog(clock: int, cfg: Config, target: Target, ops: seq<Op>)
    requires LegalRun(NewEngine(clock), cfg, ops)
    ensures Matches(Run(NewEngine(clock), cfg, ops), target, Log(ops, target))
  {
    hide Inv, Matches, NewEngine, LegalRun, Run, Log;
    NewEngineInv(clock, cfg);
    NewEngineMatches(clock, target);
    EngineMatchesLog(NewEngine(clock), cfg, target, [], ops);
    assert [] + Log(ops, target) == Log(ops, target);
  }

  lemma NewEngineMatches(clock: int, target: Target)
    ensures Matches(NewEngine(clock), target, [])
  {
  }

  /** With an unchanged rule and times in order, "some evaluation met the duration" is the same as
      "the elapsed time reaches the duration" exactly when the duration is not negative or the run
      is longer than one evaluation. */
  lemma FiringIsElapsedTime(r: seq<Entry>, duration: int)
    requires r != [] && forall i :: 0 <= i < |r| ==> r[i].duration == duration
    requires forall i, j :: 0 <= i < j < |r| ==> r[i].now <= r[j].now
    ensures (MetDuration(r) <==> r[|r| - 1].now - r[0].now >= duration) <==> (duration >= 0 || |r| != 1)
  {
    var n := |r| - 1;
    if n > 0 && r[n].now - r[0].now >= duration {
      assert Meets(r, n);
    }
    if n == 0 && duration == 0 {
      assert Meets(r, 0);
    }
    if MetDuration(r) {
      var i :| 0 <= i < |r| && Meets(r, i);
      assert r[i].now <= r[n].now;
    }
  }

  /** The evaluations of a log that held lie in a span of time and in its order. */
  ghost predicate HeldInOrder(log: seq<Entry>, from: int, to: int) {
    && (forall i :: 0 <= i < |log| && log[i].holds ==> from <= log[i].now <= to)
    && (forall i, j :: 0 <= i < j < |log| && log[i].holds && log[j].holds ==> log[i].now <= log[j].now)
  }

  lemma {:induction false} ResolveAllClock(e: Engine, order: seq<Ending>)
    requires Distinct(order) && forall i :: 0 <= i < |order| ==> order[i].id in e.active
    requires TimesFrom(e.clock, order)
    ensures ResolveAll(e, order).clock >= e.clock
    decreases |order|
  {
    if order != [] {
      ResolveAllClock(Resolve(e, order[0].id, order[0].at).(clock := order[0].at), order[1..]);
    }
  }

  /** An operation leaves the clock at or after every reading it took. */
  lemma StepClock(e: Engine, cfg: Config, op: Op, target: Target)
    requires Legal(e, op)
    ensures Step(e, cfg, op).clock >= e.clock
    ensures HeldInOrder(EntryOf(op, target), e.clock, Step(e, cfg, op).clock)
  {
    hide Covers, Judge, Trim, ResolveAll, Holds, AlertId;
    if op.RemoveRule? && op.ruleId in e.rules {
      assert Covers(e, op.ruleId, op.order);
      CoversLists(e, op.ruleId, op.order);
      ResolveAllClock(e.(rules := e.rules - {op.ruleId}), op.order);
    }
  }

  lemma CoversLists(e: Engine, ruleId: string, order: seq<Ending>)
    requires Covers(e, ruleId, order)
    ensures Distinct(order) && forall i :: 0 <= i < |order| ==> order[i].id in e.active
  {
  }

  lemma {:induction false} LogOrdered(e: Engine, cfg: Config, ops: seq<Op>, target: Target)
    requires LegalRun(e, cfg, ops)
    ensures Run(e, cfg, ops).clock >= e.clock
    ensures HeldInOrder(Log(ops, target), e.clock, Run(e, cfg, ops).clock)
    decreases |ops|
  {
    hide Step, Legal, EntryOf;
    if ops != [] {
      StepClock(e, cfg, ops[0], target);
      LogOrdered(Step(e, cfg, ops[0]), cfg, ops[1..], target);
    }
  }

  lemma TrailingOrdered(log: seq<Entry>, from: int, to: int)
    requires HeldInOrder(log, from, to)
    ensures var r := TrailingRun(log); forall i, j :: 0 <= i < j < |r| ==> r[i].now <= r[j].now
  {
    HeldTailOrdered(TrailingRun(log), log, from, to);
  }

  lemma HeldTailOrdered(r: seq<Entry>, log: seq<Entry>, from: int, to: int)
    requires HeldInOrder(log, from, to) && IsSuffix(r, log) && forall i :: 0 <= i < |r| ==> r[i].holds
    ensures forall i, j :: 0 <= i < j < |r| ==> r[i].now <= r[j].now
  {
    forall i, j | 0 <= i < j < |r| ensures r[i].now <= r[j].now {
      var k := |log| - |r|;
      assert r[i] == log[k + i] && r[j] == log[k + j];
      assert log[k + i].holds && log[k + j].holds;
    }
  }

  lemma StandingFires(a: AlertInfo, ruleId: string, r: seq<Entry>, duration: int)
    requires StandsFor(a, ruleId, r) && forall i :: 0 <= i < |r| ==> r[i].duration == duration
    requires forall i, j :: 0 <= i < j < |r| ==> r[i].now <= r[j].now
    ensures (a.state == Firing <==> a.lastEvalAt - a.startsAt >= duration) <==> (duration >= 0 || a.count != 1)
  {
    FiringIsElapsedTime(r, duration);
    hide MetDuration;
  }

  /** Over every run in which the rule of an active alert has kept its duration since the alert
      started: the alert is firing exactly when the time since its start reaches the duration,
      except for a negative duration after a single evaluation. */
  lemma {:induction false} FiringIffElapsed(clock: int, cfg: Config, target: Target, ops: seq<Op>, duration: int)
    requires LegalRun(NewEngine(clock), cfg, ops)
    requires var r := TrailingRun(Log(ops, target)); forall i :: 0 <= i < |r| ==> r[i].duration == duration
    ensures var e, id := Run(NewEngine(clock), cfg, ops), AlertId(target);
      id in e.active ==>
        var a := e.active[id];
        (a.state == Firing <==> a.lastEvalAt - a.startsAt >= duration) <==> (duration >= 0 || a.count != 1)
  {
    var e, id, log := Run(NewEngine(clock), cfg, ops), AlertId(target), Log(ops, target);
    RunMatchesLog(clock, cfg, target, ops);
    LogOrdered(NewEngine(clock), cfg, ops, target);
    TrailingOrdered(log, clock, e.clock);
    if id in e.active {
      assert StandsFor(e.active[id], target.rule, TrailingRun(log));
      hide *;
      StandingFires(e.active[id], target.rule, TrailingRun(log), duration);
    }
  }

  /** The exception is real: a rule of negative duration is still pending after its first evaluation,
      although no time at all is more than it asks for. */
  lemma {:induction false} NegativeDurationStaysPending(cfg: Config)
    ensures var rule := Rule("r", "r", "cpu_usage", 1.0, "gt", -1, "info", true);
      var ops := [AddRule(rule), Evaluate(OfSystem("r", CpuUsage), rule, 2.0, 0, 0)];
      var id := AlertId(OfSystem("r", CpuUsage));
      && LegalRun(NewEngine(0), cfg, ops)
      && var e := Run(NewEngine(0), cfg, ops);
         id in e.active && e.active[id].state == Pending
         && e.active[id].lastEvalAt - e.active[id].startsAt >= rule.duration
  {
    var rule := Rule("r", "r", "cpu_usage", 1.0, "gt", -1, "info", true);
    var ops := [AddRule(rule), Evaluate(OfSystem("r", CpuUsage), rule, 2.0, 0, 0)];
    assert ops[1..] == [ops[1]] && ops[1..][1..] == [];
    hide AlertId;
    var e := Step(NewEngine(0), cfg, ops[0]);
    assert e == NewEngine(0).(rules := map["r" := rule]);
    assert Holds(ops[1]);
    assert LegalRun(e, cfg, ops[1..]);
    assert Run(e, cfg, ops[1..]) == Step(e, cfg, ops[1]);
  }
}

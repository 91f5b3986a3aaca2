/** Alert rules and their log (gui/metrics_store.py). The log of a rule is the
    sequence of rising and falling edges of its evaluated condition. */
module Alerts {
  import opened Prelude
  import opened IsoTime

  datatype Rule = Rule(id: nat, metric: string, threshold: real, condition: string, duration: int,
                       title: string, enabled: bool, lastState: string, lastFired: Option<Instant>)

  datatype Action = Fired | Resolved

  datatype Event = Event(ruleId: nat, title: string, metric: string, value: real, threshold: real,
                         condition: string, action: Action, at: Instant)

  /** Both alert tables; lastId is SQLite's AUTOINCREMENT counter. */
  datatype Book = Book(rules: seq<Rule>, log: seq<Event>, lastId: nat)

  const EMPTY := Book([], [], 0)

  const CONDITIONS: set<string> := {"gt", "lt", "gte", "lte", "eq"}

  /** An unknown condition never triggers. */
  predicate CheckCondition(value: real, threshold: real, condition: string) {
    if condition == "gt" then value > threshold
    else if condition == "lt" then value < threshold
    else if condition == "gte" then value >= threshold
    else if condition == "lte" then value <= threshold
    else if condition == "eq" then -0.000000001 < value - threshold < 0.000000001
    else false
  }

  predicate Evaluates(r: Rule, values: map<string, real>) {
    r.enabled && r.metric in values
  }

  predicate Triggered(r: Rule, values: map<string, real>)
    requires r.metric in values
  {
    CheckCondition(values[r.metric], r.threshold, r.condition)
  }

  function EventOf(r: Rule, value: real, action: Action, now: Instant): Event {
    Event(r.id, r.title, r.metric, value, r.threshold, r.condition, action, now)
  }

  /** One rule against the current values: the rule afterwards and what is logged. */
  function EvalRule(r: Rule, values: map<string, real>, now: Instant): (res: (Rule, seq<Event>)) {
    if !Evaluates(r, values) then (r, [])
    else if Triggered(r, values) && r.lastState != "firing" then
      (r.(lastState := "firing", lastFired := Some(now)), [EventOf(r, values[r.metric], Fired, now)])
    else if !Triggered(r, values) && r.lastState == "firing" then
      (r.(lastState := "ok"), [EventOf(r, values[r.metric], Resolved, now)])
    else (r, [])
  }

  function EvalRules(rules: seq<Rule>, values: map<string, real>, now: Instant): (res: (seq<Rule>, seq<Event>))
    ensures |res.0| == |rules|
  {
    if rules == [] then ([], [])
    else
      var init := EvalRules(rules[..|rules| - 1], values, now);
      var last := EvalRule(rules[|rules| - 1], values, now);
      (init.0 + [last.0], init.1 + last.1)
  }

  function Evaluated(b: Book, values: map<string, real>, now: Instant): Book {
    var (rules, events) := EvalRules(b.rules, values, now);
    Book(rules, b.log + events, b.lastId)
  }

  // ---- Editing rules -------------------------------------------------------

  datatype Change =
    | SetThreshold(threshold: real)
    | SetCondition(condition: string)
    | SetDuration(duration: int)
    | SetTitle(text: string)
    | SetEnabled(enabled: bool)
    | SetLastState(state: string)
    | SetLastFired(at: Instant)

  function Changed(r: Rule, c: Change): Rule {
    match c
    case SetThreshold(t) => r.(threshold := t)
    case SetCondition(s) => r.(condition := s)
    case SetDuration(d) => r.(duration := d)
    case SetTitle(l) => r.(title := l)
    case SetEnabled(e) => r.(enabled := e)
    case SetLastState(s) => r.(lastState := s)
    case SetLastFired(at) => r.(lastFired := Some(at))
  }

  function ChangedAll(r: Rule, cs: seq<Change>): Rule {
    if cs == [] then r else Changed(ChangedAll(r, cs[..|cs| - 1]), cs[|cs| - 1])
  }

  /** UPDATE alert_rules SET ... WHERE id = ? */
  function Updated(rules: seq<Rule>, id: nat, cs: seq<Change>): (res: seq<Rule>)
    ensures |res| == |rules|
  {
    if rules == [] then []
    else
      var last := rules[|rules| - 1];
      Updated(rules[..|rules| - 1], id, cs) + [if last.id == id then ChangedAll(last, cs) else last]
  }

  /** DELETE FROM alert_rules WHERE id = ? */
  function Deleted(rules: seq<Rule>, id: nat): (res: seq<Rule>)
  {
    if rules == [] then []
    else
      var last := rules[|rules| - 1];
      Deleted(rules[..|rules| - 1], id) + (if last.id == id then [] else [last])
  }

  // ---- Runs ----------------------------------------------------------------

  datatype Op =
    | Add(metric: string, threshold: real, condition: string, duration: int, title: string, enabled: bool)
    | Update(id: nat, changes: seq<Change>)
    | Delete(id: nat)
    | Evaluate(values: map<string, real>, now: Instant)

  function Added(b: Book, op: Op): Book
    requires op.Add?
  {
    var r := Rule(b.lastId + 1, op.metric, op.threshold, op.condition, op.duration, op.title, op.enabled, "ok", None);
    Book(b.rules + [r], b.log, b.lastId + 1)
  }

  function Apply(b: Book, op: Op): Book {
    match op
    case Add(_, _, _, _, _, _) => Added(b, op)
    case Update(id, cs) => b.(rules := Updated(b.rules, id, cs))
    case Delete(id) => b.(rules := Deleted(b.rules, id))
    case Evaluate(values, now) => Evaluated(b, values, now)
  }

  function Run(ops: seq<Op>): Book {
    if ops == [] then EMPTY else Apply(Run(ops[..|ops| - 1]), ops[|ops| - 1])
  }

  /** Nobody edits last_state from outside. */
  predicate NoStateEdits(ops: seq<Op>) {
    forall op :: op in ops && op.Update? ==> forall c :: c in op.changes ==> !c.SetLastState?
  }

  function Find(rules: seq<Rule>, id: nat): (res: Option<Rule>)
    ensures res.Some? ==> res.value in rules && res.value.id == id
    ensures res.None? ==> forall r :: r in rules ==> r.id != id
  {
    if rules == [] then None
    else
      var last := rules[|rules| - 1];
      if last.id == id then Some(last) else Find(rules[..|rules| - 1], id)
  }

  /** One evaluation of a rule: did its condition hold, when, and with which duration_sec. */
  datatype Eval = Eval(met: bool, at: Instant, duration: int)

  function EvalOf(r: Rule, values: map<string, real>, now: Instant): Eval
    requires r.metric in values
  {
    Eval(Triggered(r, values), now, r.duration)
  }

  /** All evaluations of rule id, oldest first. */
  function Evals(ops: seq<Op>, id: nat): seq<Eval> {
    if ops == [] then []
    else
      var init, last := ops[..|ops| - 1], ops[|ops| - 1];
      var r := Find(Run(init).rules, id);
      if last.Evaluate? && r.Some? && Evaluates(r.value, last.values)
      then Evals(init, id) + [EvalOf(r.value, last.values, last.now)]
      else Evals(init, id)
  }

  predicate Level(es: seq<Eval>) {
    es != [] && es[|es| - 1].met
  }

  /** What the log says about one event of a rule. */
  datatype Mark = Mark(action: Action, at: Instant)

  function Edge(before: bool, e: Eval): seq<Mark> {
    if e.met && !before then [Mark(Fired, e.at)] else if !e.met && before then [Mark(Resolved, e.at)] else []
  }

  /** Rising and falling edges of a condition that starts out not holding. */
  function Edges(es: seq<Eval>): seq<Mark> {
    if es == [] then [] else Edges(es[..|es| - 1]) + Edge(Level(es[..|es| - 1]), es[|es| - 1])
  }

  /** The log of one rule, oldest first. */
  function Marks(log: seq<Event>, id: nat): seq<Mark> {
    if log == [] then []
    else
      var last := log[|log| - 1];
      Marks(log[..|log| - 1], id) + (if last.ruleId == id then [Mark(last.action, last.at)] else [])
  }

  function Occurrences(marks: seq<Mark>, a: Action): nat {
    if marks == [] then 0
    else Occurrences(marks[..|marks| - 1], a) + (if marks[|marks| - 1].action == a then 1 else 0)
  }

  // ---- Proof ---------------------------------------------------------------

  lemma {:induction false} MarksConcat(a: seq<Event>, b: seq<Event>, id: nat)
    ensures Marks(a + b, id) == Marks(a, id) + Marks(b, id)
  {
    if b == [] {
      assert a + b == a;
    } else {
      assert (a + b)[..|a + b| - 1] == a + b[..|b| - 1];
      MarksConcat(a, b[..|b| - 1], id);
    }
  }

  lemma {:induction false} FindSnoc(rules: seq<Rule>, r: Rule, id: nat)
    ensures Find(rules + [r], id) == if r.id == id then Some(r) else Find(rules, id)
  {
    assert (rules + [r])[..|rules|] == rules;
  }

  /** The primary key: distinct ids, none above the counter. */
  predicate Keyed(rules: seq<Rule>, lastId: nat) {
    rules == [] ||
    (var init, last := rules[..|rules| - 1], rules[|rules| - 1];
     Keyed(init, lastId) && Find(init, last.id).None? && last.id <= lastId)
  }

  lemma {:induction false} KeyedFind(rules: seq<Rule>, lastId: nat, id: nat)
    requires Keyed(rules, lastId) && id > lastId
    ensures Find(rules, id) == None
  {
    if rules != [] {
      KeyedFind(rules[..|rules| - 1], lastId, id);
    }
  }

  lemma {:induction false} KeyedMore(rules: seq<Rule>, lastId: nat)
    requires Keyed(rules, lastId)
    ensures Keyed(rules, lastId + 1)
  {
    if rules != [] {
      KeyedMore(rules[..|rules| - 1], lastId);
    }
  }

  lemma KeyedSnoc(rules: seq<Rule>, r: Rule, lastId: nat)
    requires Keyed(rules, lastId) && Find(rules, r.id).None? && r.id <= lastId
    ensures Keyed(rules + [r], lastId)
  {
    assert (rules + [r])[..|rules|] == rules;
  }

  lemma EdgesSnoc(es: seq<Eval>, e: Eval)
    ensures Edges(es + [e]) == Edges(es) + Edge(Level(es), e)
    ensures Level(es + [e]) == e.met
  {
    assert (es + [e])[..|es|] == es;
  }

  lemma SingleAction(log: seq<Event>, id: nat)
    requires |log| <= 1
    ensures Marks(log, id) == if log != [] && log[0].ruleId == id then [Mark(log[0].action, log[0].at)] else []
  {
    if log != [] {
      assert log[..0] == [];
    }
  }

  lemma EvalRuleFacts(r: Rule, values: map<string, real>, now: Instant, id: nat)
    ensures var (after, events) := EvalRule(r, values, now);
            && after.id == r.id
            && (r.id != id ==> Marks(events, id) == [])
            && (!Evaluates(r, values) ==> after == r && Marks(events, id) == [])
            && after.duration == r.duration
            && (Evaluates(r, values) ==>
                 && (after.lastState == "firing" <==> Triggered(r, values))
                 && (r.id == id ==> Marks(events, id) == Edge(r.lastState == "firing", EvalOf(r, values, now))))
  {
    SingleAction(EvalRule(r, values, now).1, id);
  }

  /** One evaluation treats each rule on its own. */
  lemma {:induction false} EvalOne(rules: seq<Rule>, lastId: nat, values: map<string, real>, now: Instant, id: nat)
    requires Keyed(rules, lastId)
    ensures var r, res := Find(rules, id), EvalRules(rules, values, now);
            && Find(res.0, id) == (if r.Some? then Some(EvalRule(r.value, values, now).0) else None)
            && Marks(res.1, id) == (if r.Some? then Marks(EvalRule(r.value, values, now).1, id) else [])
  {
    if rules != [] {
      var init, last := rules[..|rules| - 1], rules[|rules| - 1];
      EvalOne(init, lastId, values, now, id);
      var res, e := EvalRules(init, values, now), EvalRule(last, values, now);
      EvalRuleFacts(last, values, now, id);
      FindSnoc(res.0, e.0, id);
      MarksConcat(res.1, e.1, id);
    }
  }

  lemma {:induction false} EvalKeyed(rules: seq<Rule>, lastId: nat, values: map<string, real>, now: Instant)
    requires Keyed(rules, lastId)
    ensures Keyed(EvalRules(rules, values, now).0, lastId)
  {
    if rules != [] {
      var init, last := rules[..|rules| - 1], rules[|rules| - 1];
      EvalKeyed(init, lastId, values, now);
      EvalOne(init, lastId, values, now, last.id);
      EvalRuleFacts(last, values, now, last.id);
      KeyedSnoc(EvalRules(init, values, now).0, EvalRule(last, values, now).0, lastId);
    }
  }

  lemma {:induction false} ChangesKeepState(r: Rule, cs: seq<Change>)
    ensures ChangedAll(r, cs).id == r.id
    ensures (forall c :: c in cs ==> !c.SetLastState?) ==> ChangedAll(r, cs).lastState == r.lastState
  {
    if cs != [] {
      ChangesKeepState(r, cs[..|cs| - 1]);
    }
  }

  lemma {:induction false} UpdatedFind(rules: seq<Rule>, id: nat, cs: seq<Change>, other: nat)
    ensures var before, after := Find(rules, other), Find(Updated(rules, id, cs), other);
            after == if before.Some? && other == id then Some(ChangedAll(before.value, cs)) else before
  {
    if rules != [] {
      var last := rules[|rules| - 1];
      ChangesKeepState(last, cs);
      UpdatedFind(rules[..|rules| - 1], id, cs, other);
      FindSnoc(Updated(rules[..|rules| - 1], id, cs), if last.id == id then ChangedAll(last, cs) else last, other);
    }
  }

  lemma {:induction false} UpdatedKeyed(rules: seq<Rule>, lastId: nat, id: nat, cs: seq<Change>)
    requires Keyed(rules, lastId)
    ensures Keyed(Updated(rules, id, cs), lastId)
  {
    if rules != [] {
      var init, last := rules[..|rules| - 1], rules[|rules| - 1];
      UpdatedKeyed(init, lastId, id, cs);
      ChangesKeepState(last, cs);
      UpdatedFind(init, id, cs, last.id);
      KeyedSnoc(Updated(init, id, cs), if last.id == id then ChangedAll(last, cs) else last, lastId);
    }
  }

  lemma {:induction false} DeletedFind(rules: seq<Rule>, gone: nat, id: nat)
    ensures Find(Deleted(rules, gone), id) == if id == gone then None else Find(rules, id)
  {
    if rules != [] {
      var init, last := rules[..|rules| - 1], rules[|rules| - 1];
      DeletedFind(init, gone, id);
      FindSnoc(Deleted(init, gone), last, id);
      assert Deleted(init, gone) + [] == Deleted(init, gone);
    }
  }

  lemma {:induction false} DeletedKeyed(rules: seq<Rule>, lastId: nat, gone: nat)
    requires Keyed(rules, lastId)
    ensures Keyed(Deleted(rules, gone), lastId)
  {
    if rules != [] {
      var init, last := rules[..|rules| - 1], rules[|rules| - 1];
      DeletedKeyed(init, lastId, gone);
      DeletedFind(init, gone, last.id);
      if last.id != gone {
        KeyedSnoc(Deleted(init, gone), last, lastId);
      } else {
        assert Deleted(init, gone) + [] == Deleted(init, gone);
      }
    }
  }

  lemma AddKeyed(b: Book, op: Op)
    requires op.Add? && Keyed(b.rules, b.lastId)
    ensures Keyed(Added(b, op).rules, Added(b, op).lastId)
  {
    KeyedFind(b.rules, b.lastId, b.lastId + 1);
    KeyedMore(b.rules, b.lastId);
    KeyedSnoc(b.rules, Added(b, op).rules[|b.rules|], b.lastId + 1);
  }

  lemma {:induction false} RunKeyed(ops: seq<Op>)
    ensures Keyed(Run(ops).rules, Run(ops).lastId)
  {
    if ops != [] {
      var init, last := ops[..|ops| - 1], ops[|ops| - 1];
      RunKeyed(init);
      var b := Run(init);
      match last
      case Add(_, _, _, _, _, _) => AddKeyed(b, last);
      case Update(id, cs) => UpdatedKeyed(b.rules, b.lastId, id, cs);
      case Delete(id) => DeletedKeyed(b.rules, b.lastId, id);
      case Evaluate(values, now) => EvalKeyed(b.rules, b.lastId, values, now);
    }
  }

  /** What the log says of rule id matches its evaluations es. */
  predicate InStep(b: Book, es: seq<Eval>, id: nat) {
    && Marks(b.log, id) == Edges(es)
    && (Find(b.rules, id).Some? ==> (Find(b.rules, id).value.lastState == "firing" <==> Level(es)))
    && (id > b.lastId ==> es == [])
  }

  lemma EvaluateStep(b: Book, es: seq<Eval>, id: nat, values: map<string, real>, now: Instant)
    requires InStep(b, es, id) && Keyed(b.rules, b.lastId)
    ensures var r := Find(b.rules, id);
            InStep(Evaluated(b, values, now),
                   if r.Some? && Evaluates(r.value, values) then es + [EvalOf(r.value, values, now)] else es, id)
  {
    EvalOne(b.rules, b.lastId, values, now, id);
    MarksConcat(b.log, EvalRules(b.rules, values, now).1, id);
    var r := Find(b.rules, id);
    if r.Some? {
      EvalRuleFacts(r.value, values, now, id);
      if id > b.lastId {
        KeyedFind(b.rules, b.lastId, id);
      }
      if Evaluates(r.value, values) {
        EdgesSnoc(es, EvalOf(r.value, values, now));
      }
    }
  }

  /** The invariant: the log is the edges so far, each with its time, and
      last_state remembers the level. */
  lemma {:induction false} EdgeLog(ops: seq<Op>, id: nat)
    requires NoStateEdits(ops)
    ensures Marks(Run(ops).log, id) == Edges(Evals(ops, id))
    ensures Find(Run(ops).rules, id).Some? ==>
              (Find(Run(ops).rules, id).value.lastState == "firing" <==> Level(Evals(ops, id)))
    ensures id > Run(ops).lastId ==> Evals(ops, id) == []
  {
    if ops != [] {
      var init, last := ops[..|ops| - 1], ops[|ops| - 1];
      var b := Run(init);
      EdgeLog(init, id);
      RunKeyed(init);
      match last
      case Add(_, _, _, _, _, _) =>
        FindSnoc(b.rules, Added(b, last).rules[|b.rules|], id);
      case Update(u, cs) =>
        assert last in ops;
        UpdatedFind(b.rules, u, cs, id);
        if Find(b.rules, id).Some? {
          ChangesKeepState(Find(b.rules, id).value, cs);
        }
      case Delete(d) =>
        DeletedFind(b.rules, d, id);
      case Evaluate(values, now) =>
        EvaluateStep(b, Evals(init, id), id, values, now);
    }
  }

  /** Fired and resolved alternate: their difference is the current level. */
  lemma {:induction false} EdgeBalance(es: seq<Eval>)
    ensures Occurrences(Edges(es), Fired) == Occurrences(Edges(es), Resolved) + (if Level(es) then 1 else 0)
  {
    if es != [] {
      var init, last := es[..|es| - 1], es[|es| - 1];
      EdgeBalance(init);
      var marks := Edges(init);
      assert marks + [] == marks;
      assert forall m: Mark :: (marks + [m])[..|marks|] == marks;
    }
  }

  /** Fired minus resolved is 0 or 1, and while the rule exists it is 1 exactly
      when last_state is "firing". */
  lemma FiringBalance(ops: seq<Op>, id: nat)
    requires NoStateEdits(ops)
    ensures var actions := Marks(Run(ops).log, id);
            var open := Occurrences(actions, Fired) - Occurrences(actions, Resolved);
            && 0 <= open <= 1
            && (Find(Run(ops).rules, id).Some? ==>
                 (open == 1 <==> Find(Run(ops).rules, id).value.lastState == "firing"))
  {
    EdgeLog(ops, id);
    EdgeBalance(Evals(ops, id));
  }

  /** Rule ids are never reused, so a deleted rule's log stays its own. */
  lemma {:induction false} IdsGrow(ops: seq<Op>, more: seq<Op>)
    ensures Run(ops).lastId <= Run(ops + more).lastId
  {
    if more == [] {
      assert ops + more == ops;
    } else {
      var all := ops + more;
      assert all[..|all| - 1] == ops + more[..|more| - 1];
      IdsGrow(ops, more[..|more| - 1]);
    }
  }

  // ---- What an evaluation decides ------------------------------------------

  /** The five conditions as comparisons; "eq" allows 1e-9 either way. */
  predicate Meets(value: real, threshold: real, condition: string) {
    || (condition == "gt" && value > threshold)
    || (condition == "lt" && value < threshold)
    || (condition == "gte" && value >= threshold)
    || (condition == "lte" && value <= threshold)
    || (condition == "eq" && (if value < threshold then threshold - value else value - threshold) < 0.000000001)
  }

  /** Everything but what an evaluation may change. */
  predicate SameSettings(a: Rule, b: Rule) {
    && a.id == b.id && a.metric == b.metric && a.threshold == b.threshold && a.condition == b.condition
    && a.duration == b.duration && a.title == b.title && a.enabled == b.enabled
  }

  /** The rule is "firing" exactly when it is enabled, its metric has a value and
      the value meets its condition; otherwise, if it was "firing" and was
      evaluated, it is "ok", and else it is as it was. */
  predicate Decided(r: Rule, after: Rule, values: map<string, real>, now: Instant) {
    if !r.enabled || r.metric !in values then after == r
    else
      var met := Meets(values[r.metric], r.threshold, r.condition);
      && SameSettings(after, r)
      && after.lastState == (if met then "firing" else if r.lastState == "firing" then "ok" else r.lastState)
      && after.lastFired == (if met && r.lastState != "firing" then Some(now) else r.lastFired)
  }

  lemma EvalRuleDecides(r: Rule, values: map<string, real>, now: Instant)
    ensures Decided(r, EvalRule(r, values, now).0, values, now)
  {
  }

  /** In every run an evaluation decides every rule by its own settings. */
  lemma EvaluationDecides(ops: seq<Op>, values: map<string, real>, now: Instant, id: nat)
    ensures var before, after := Find(Run(ops).rules, id), Find(Run(ops + [Evaluate(values, now)]).rules, id);
            if before.None? then after.None? else after.Some? && Decided(before.value, after.value, values, now)
  {
    RunKeyed(ops);
    assert (ops + [Evaluate(values, now)])[..|ops|] == ops;
    EvalOne(Run(ops).rules, Run(ops).lastId, values, now, id);
    if Find(Run(ops).rules, id).Some? {
      EvalRuleDecides(Find(Run(ops).rules, id).value, values, now);
    }
  }

  /** The event tells of the rule as it was: it fires when the value meets the
      condition and the rule was not "firing", and resolves when it was and the
      value does not. */
  predicate Justified(rules: seq<Rule>, values: map<string, real>, now: Instant, e: Event) {
    var found := Find(rules, e.ruleId);
    && found.Some?
    && var r := found.value;
       && r.enabled && r.metric in values
       && e.metric == r.metric && e.title == r.title && e.threshold == r.threshold && e.condition == r.condition
       && e.value == values[r.metric] && e.at == now
       && (e.action == Fired <==> Meets(e.value, e.threshold, e.condition))
       && (e.action == Fired <==> r.lastState != "firing")
  }

  lemma {:induction false} EvalJustified(rules: seq<Rule>, lastId: nat, values: map<string, real>, now: Instant, e: Event)
    requires Keyed(rules, lastId) && e in EvalRules(rules, values, now).1
    ensures Justified(rules, values, now, e)
  {
    var init, last := rules[..|rules| - 1], rules[|rules| - 1];
    if e in EvalRules(init, values, now).1 {
      EvalJustified(init, lastId, values, now, e);
    }
  }

  /** Over every run, each event in the log comes from an evaluation that
      justifies it by the settings the rule had then. */
  lemma {:induction false} EventsJustified(ops: seq<Op>, e: Event) returns (i: nat)
    requires e in Run(ops).log
    ensures i < |ops| && ops[i].Evaluate? && Justified(Run(ops[..i]).rules, ops[i].values, ops[i].now, e)
  {
    var init, last := ops[..|ops| - 1], ops[|ops| - 1];
    if e in Run(init).log {
      i := EventsJustified(init, e);
      assert init[..i] == ops[..i];
    } else {
      i := |ops| - 1;
      RunKeyed(init);
      EvalJustified(Run(init).rules, Run(init).lastId, last.values, last.now, e);
    }
  }

  predicate Ascending(rules: seq<Rule>) {
    forall i, j :: 0 <= i < j < |rules| ==> rules[i].id < rules[j].id
  }

  predicate InRuleOrder(events: seq<Event>) {
    forall i, j :: 0 <= i < j < |events| ==> events[i].ruleId < events[j].ruleId
  }

  /** Each event of an evaluation is one of a rule's; at most one is. */
  lemma {:induction false} EvalIds(rules: seq<Rule>, values: map<string, real>, now: Instant, e: Event)
    requires e in EvalRules(rules, values, now).1
    ensures exists r :: r in rules && r.id == e.ruleId
  {
    var init, last := rules[..|rules| - 1], rules[|rules| - 1];
    if e in EvalRules(init, values, now).1 {
      EvalIds(init, values, now, e);
      var r :| r in init && r.id == e.ruleId;
      assert r in rules;
    } else {
      assert e in EvalRule(last, values, now).1 && last in rules;
    }
  }

  lemma {:induction false} EvalSameIds(rules: seq<Rule>, values: map<string, real>, now: Instant)
    ensures forall i :: 0 <= i < |rules| ==> EvalRules(rules, values, now).0[i].id == rules[i].id
  {
    if rules != [] {
      EvalSameIds(rules[..|rules| - 1], values, now);
    }
  }

  lemma OrderedSnoc(events: seq<Event>, more: seq<Event>, id: nat)
    requires InRuleOrder(events) && |more| <= 1
    requires (forall e :: e in events ==> e.ruleId < id) && forall e :: e in more ==> e.ruleId == id
    ensures InRuleOrder(events + more)
  {
    forall i, j | 0 <= i < j < |events + more| ensures (events + more)[i].ruleId < (events + more)[j].ruleId {
      assert events[i] in events;
      assert j >= |events| ==> more[j - |events|] in more;
    }
  }

  lemma {:induction false} EvalInOrder(rules: seq<Rule>, values: map<string, real>, now: Instant)
    requires Ascending(rules)
    ensures InRuleOrder(EvalRules(rules, values, now).1)
  {
    if rules != [] {
      var init, last := rules[..|rules| - 1], rules[|rules| - 1];
      EvalInOrder(init, values, now);
      var events, more := EvalRules(init, values, now).1, EvalRule(last, values, now).1;
      forall e | e in events ensures e.ruleId < last.id {
        EvalIds(init, values, now, e);
        var r :| r in init && r.id == e.ruleId;
        var i :| 0 <= i < |init| && init[i] == r;
        assert rules[i] == r;
      }
      OrderedSnoc(events, more, last.id);
    }
  }

  lemma {:induction false} UpdatedInOrder(rules: seq<Rule>, id: nat, cs: seq<Change>)
    ensures forall i :: 0 <= i < |rules| ==> Updated(rules, id, cs)[i].id == rules[i].id
  {
    if rules != [] {
      UpdatedInOrder(rules[..|rules| - 1], id, cs);
      ChangesKeepState(rules[|rules| - 1], cs);
    }
  }

  lemma {:induction false} DeletedInOrder(rules: seq<Rule>, id: nat)
    requires Ascending(rules)
    ensures Ascending(Deleted(rules, id)) && forall r :: r in Deleted(rules, id) ==> r in rules
  {
    if rules != [] {
      var init, last := rules[..|rules| - 1], rules[|rules| - 1];
      DeletedInOrder(init, id);
      forall r | r in Deleted(init, id) ensures r in rules && r.id < last.id {
        var i :| 0 <= i < |init| && init[i] == r;
        assert rules[i] == r;
      }
    }
  }

  /** In every run the rules stand in the order of their ids, and what one
      evaluation logs stands in that order too. */
  lemma {:induction false} RulesInOrder(ops: seq<Op>)
    ensures Ascending(Run(ops).rules) && forall r :: r in Run(ops).rules ==> r.id <= Run(ops).lastId
  {
    if ops != [] {
      var init, last := ops[..|ops| - 1], ops[|ops| - 1];
      RulesInOrder(init);
      var b := Run(init);
      match last
      case Add(_, _, _, _, _, _) =>
      case Update(id, cs) => UpdatedInOrder(b.rules, id, cs);
      case Delete(id) => DeletedInOrder(b.rules, id);
      case Evaluate(values, now) => EvalSameIds(b.rules, values, now);
    }
  }

  lemma EvaluationInOrder(ops: seq<Op>, values: map<string, real>, now: Instant)
    ensures var more := EvalRules(Run(ops).rules, values, now).1;
            Run(ops + [Evaluate(values, now)]).log == Run(ops).log + more && InRuleOrder(more)
  {
    assert (ops + [Evaluate(values, now)])[..|ops|] == ops;
    RulesInOrder(ops);
    EvalInOrder(Run(ops).rules, values, now);
  }

  // ---- What the edits do ---------------------------------------------------

  /** A new rule has what was asked for, under the next id; all others are as they were. */
  lemma AddEffect(ops: seq<Op>, op: Op, id: nat)
    requires op.Add?
    ensures var b, c := Run(ops), Run(ops + [op]);
            && c.lastId == b.lastId + 1 && c.log == b.log
            && Find(c.rules, id) ==
               if id == c.lastId
               then Some(Rule(id, op.metric, op.threshold, op.condition, op.duration, op.title, op.enabled, "ok", None))
               else Find(b.rules, id)
  {
    assert (ops + [op])[..|ops|] == ops;
    FindSnoc(Run(ops).rules, Added(Run(ops), op).rules[|Run(ops).rules|], id);
  }

  /** An update reaches only the rule with its id, a delete removes only that. */
  lemma EditEffect(ops: seq<Op>, id: nat, cs: seq<Change>, other: nat)
    ensures var b, c := Run(ops), Run(ops + [Update(id, cs)]);
            && c.lastId == b.lastId && c.log == b.log
            && Find(c.rules, other) == (if other == id && Find(b.rules, id).Some?
                                        then Some(ChangedAll(Find(b.rules, id).value, cs)) else Find(b.rules, other))
    ensures var b, c := Run(ops), Run(ops + [Delete(id)]);
            && c.lastId == b.lastId && c.log == b.log
            && Find(c.rules, other) == (if other == id then None else Find(b.rules, other))
  {
    assert (ops + [Update(id, cs)])[..|ops|] == ops && (ops + [Delete(id)])[..|ops|] == ops;
    UpdatedFind(Run(ops).rules, id, cs, other);
    DeletedFind(Run(ops).rules, id, other);
  }

  /** The two set the same column. */
  predicate SameColumn(c: Change, d: Change) {
    || (c.SetThreshold? && d.SetThreshold?) || (c.SetCondition? && d.SetCondition?)
    || (c.SetDuration? && d.SetDuration?) || (c.SetTitle? && d.SetTitle?) || (c.SetEnabled? && d.SetEnabled?)
    || (c.SetLastState? && d.SetLastState?) || (c.SetLastFired? && d.SetLastFired?)
  }

  /** The rule has the value that c sets. */
  predicate Has(r: Rule, c: Change) {
    match c
    case SetThreshold(x) => r.threshold == x
    case SetCondition(s) => r.condition == s
    case SetDuration(d) => r.duration == d
    case SetTitle(s) => r.title == s
    case SetEnabled(e) => r.enabled == e
    case SetLastState(s) => r.lastState == s
    case SetLastFired(at) => r.lastFired == Some(at)
  }

  lemma ChangeSets(r: Rule, c: Change, d: Change)
    ensures Has(Changed(r, c), c)
    ensures !SameColumn(c, d) ==> (Has(Changed(r, c), d) <==> Has(r, d))
  {
  }

  /** Some change is c and no later one sets its column. */
  predicate SetLast(cs: seq<Change>, c: Change) {
    exists i :: 0 <= i < |cs| && cs[i] == c && forall j :: i < j < |cs| ==> !SameColumn(cs[j], c)
  }

  predicate NeverSet(cs: seq<Change>, c: Change) {
    forall i :: 0 <= i < |cs| ==> !SameColumn(cs[i], c)
  }

  lemma SetLastInit(cs: seq<Change>, c: Change)
    requires cs != []
    ensures SetLast(cs, c) ==> cs[|cs| - 1] == c || (SetLast(cs[..|cs| - 1], c) && !SameColumn(cs[|cs| - 1], c))
  {
    if SetLast(cs, c) && cs[|cs| - 1] != c {
      var i :| 0 <= i < |cs| && cs[i] == c && forall j :: i < j < |cs| ==> !SameColumn(cs[j], c);
      assert cs[..|cs| - 1][i] == c;
    }
  }

  /** After a list of changes each column has the last value set, and a column
      that none sets the value it had; id and metric never change. */
  lemma {:induction false} LastChangeWins(r: Rule, cs: seq<Change>, c: Change)
    ensures SetLast(cs, c) ==> Has(ChangedAll(r, cs), c)
    ensures NeverSet(cs, c) ==> (Has(ChangedAll(r, cs), c) <==> Has(r, c))
    ensures ChangedAll(r, cs).id == r.id && ChangedAll(r, cs).metric == r.metric
  {
    if cs != [] {
      var init, last := cs[..|cs| - 1], cs[|cs| - 1];
      LastChangeWins(r, init, c);
      SetLastInit(cs, c);
      ChangeSets(ChangedAll(r, init), last, c);
    }
  }

  // ---- How long a condition held before it fired ---------------------------

  /** The condition begins to hold at evaluation i: this is where a rule fires. */
  predicate Rising(es: seq<Eval>, i: int) {
    0 <= i < |es| && es[i].met && (i == 0 || !es[i - 1].met)
  }

  /** The log's firings are the evaluations where the condition begins to hold. */
  lemma {:induction false} FiringsAreRisings(es: seq<Eval>, at: Instant)
    ensures Mark(Fired, at) in Edges(es) <==> RisesAt(es, at)
  {
    if es != [] {
      var init, last := es[..|es| - 1], es[|es| - 1];
      FiringsAreRisings(init, at);
      assert es == init + [last];
      RisesSnoc(init, last, at);
    }
  }

  /** The condition begins to hold at this time. */
  ghost predicate RisesAt(es: seq<Eval>, at: Instant) {
    exists i :: Rising(es, i) && es[i].at == at
  }

  lemma RisesSnoc(es: seq<Eval>, e: Eval, at: Instant)
    ensures RisesAt(es + [e], at) <==> RisesAt(es, at) || (e.met && !Level(es) && e.at == at)
  {
    var all := es + [e];
    if RisesAt(es, at) {
      var i :| Rising(es, i) && es[i].at == at;
      assert Rising(all, i) && all[i].at == at;
    }
    if RisesAt(all, at) {
      var i :| Rising(all, i) && all[i].at == at;
      if i < |es| {
        assert Rising(es, i) && es[i].at == at;
      }
    }
    if e.met && !Level(es) && e.at == at {
      assert Rising(all, |es|) && all[|es|].at == at;
    }
  }

  /** The condition held for the rule's whole duration up to evaluation i: from
      some evaluation that long ago, at every evaluation since. */
  predicate HeldLongEnough(es: seq<Eval>, i: int)
    requires 0 <= i < |es|
  {
    exists j :: 0 <= j <= i && es[j].at <= es[i].at - es[i].duration * 1_000_000 && forall k :: j <= k <= i ==> es[k].met
  }

  /** The documented meaning of duration_sec: a rule fires only after its
      condition has held that long. */
  ghost predicate DurationHonoured(es: seq<Eval>) {
    forall i :: Rising(es, i) ==> HeldLongEnough(es, i)
  }

  /** A rule fires at the first evaluation that meets its condition, so in a
      given history the promise holds exactly when no firing had a positive duration. */
  lemma HonouredIff(es: seq<Eval>)
    ensures DurationHonoured(es) <==> forall i :: Rising(es, i) ==> es[i].duration <= 0
  {
    forall i | Rising(es, i) ensures HeldLongEnough(es, i) <==> es[i].duration <= 0 {
      if es[i].duration <= 0 {
        assert es[i].at <= es[i].at - es[i].duration * 1_000_000;
      }
      if HeldLongEnough(es, i) {
        var j :| 0 <= j <= i && es[j].at <= es[i].at - es[i].duration * 1_000_000 && forall k :: j <= k <= i ==> es[k].met;
        if j < i {
          assert es[i - 1].met;
        }
      }
    }
  }

  /** Every rule of the history is created with this duration and keeps it. */
  predicate AllDurations(ops: seq<Op>, duration: int) {
    && (forall op :: op in ops && op.Add? ==> op.duration == duration)
    && (forall op :: op in ops && op.Update? ==> forall c :: c in op.changes ==> !c.SetDuration?)
  }

  lemma {:induction false} ChangesKeepDuration(r: Rule, cs: seq<Change>)
    requires forall c :: c in cs ==> !c.SetDuration?
    ensures ChangedAll(r, cs).duration == r.duration
  {
    if cs != [] {
      ChangesKeepDuration(r, cs[..|cs| - 1]);
    }
  }

  lemma {:induction false} RuleDuration(ops: seq<Op>, duration: int, id: nat)
    requires AllDurations(ops, duration)
    ensures Find(Run(ops).rules, id).Some? ==> Find(Run(ops).rules, id).value.duration == duration
  {
    if ops != [] {
      var init, last := ops[..|ops| - 1], ops[|ops| - 1];
      assert last in ops;
      RuleDuration(init, duration, id);
      var b := Run(init);
      match last
      case Add(_, _, _, _, _, _) => FindSnoc(b.rules, Added(b, last).rules[|b.rules|], id);
      case Update(u, cs) =>
        UpdatedFind(b.rules, u, cs, id);
        if Find(b.rules, id).Some? {
          ChangesKeepDuration(Find(b.rules, id).value, cs);
        }
      case Delete(d) => DeletedFind(b.rules, d, id);
      case Evaluate(values, now) =>
        RunKeyed(init);
        EvalOne(b.rules, b.lastId, values, now, id);
        if Find(b.rules, id).Some? {
          EvalRuleFacts(Find(b.rules, id).value, values, now, id);
        }
    }
  }

  lemma {:induction false} EvalDurations(ops: seq<Op>, duration: int, id: nat)
    requires AllDurations(ops, duration)
    ensures forall e :: e in Evals(ops, id) ==> e.duration == duration
  {
    if ops != [] {
      EvalDurations(ops[..|ops| - 1], duration, id);
      RuleDuration(ops[..|ops| - 1], duration, id);
    }
  }

  /** A rule with this duration, evaluated once, fires at once. */
  function FirstSight(duration: int): seq<Op> {
    [Add("cpu", 90.0, "gt", duration, "hot", true), Evaluate(map["cpu" := 95.0], 7)]
  }

  lemma FirstRule(duration: int)
    ensures var ops := [FirstSight(duration)[0]];
            && Run(ops).rules == [Rule(1, "cpu", 90.0, "gt", duration, "hot", true, "ok", None)]
            && Evals(ops, 1) == []
  {
    var ops := [FirstSight(duration)[0]];
    assert ops[..0] == [];
    assert Run([]) == EMPTY && Evals([], 1) == [];
  }

  lemma FirstEval(duration: int)
    ensures Evals(FirstSight(duration), 1) == [Eval(true, 7, duration)]
  {
    var ops, rule := FirstSight(duration), Rule(1, "cpu", 90.0, "gt", duration, "hot", true, "ok", None);
    FirstRule(duration);
    assert ops[..1] == [ops[0]];
    assert [rule][..0] == [];
    assert Find([rule], 1) == Some(rule);
    assert [] + [Eval(true, 7, duration)] == [Eval(true, 7, duration)];
  }

  lemma OneEdge(e: Eval)
    requires e.met
    ensures Edges([e]) == [Mark(Fired, e.at)] && Rising([e], 0)
  {
    EdgesSnoc([], e);
    assert [] + [e] == [e];
  }

  lemma FiresAtOnce(duration: int)
    ensures var ops := FirstSight(duration);
            && AllDurations(ops, duration) && NoStateEdits(ops)
            && Evals(ops, 1) == [Eval(true, 7, duration)]
            && Marks(Run(ops).log, 1) == [Mark(Fired, 7)]
            && (DurationHonoured(Evals(ops, 1)) <==> duration <= 0)
  {
    FirstEval(duration);
    OneEdge(Eval(true, 7, duration));
    FirstPlain(duration);
    EdgeLog(FirstSight(duration), 1);
    OneHonoured(Eval(true, 7, duration));
  }

  lemma FirstPlain(duration: int)
    ensures AllDurations(FirstSight(duration), duration) && NoStateEdits(FirstSight(duration))
  {
  }

  lemma OneHonoured(e: Eval)
    requires e.met
    ensures DurationHonoured([e]) <==> e.duration <= 0
  {
    HonouredIff([e]);
    assert Rising([e], 0);
  }

  /** Over all histories whose rules have one duration, firing waits for it
      exactly when the duration is not positive. */
  lemma DurationIsIgnored(duration: int)
    ensures (forall ops, id :: AllDurations(ops, duration) && NoStateEdits(ops) ==> DurationHonoured(Evals(ops, id)))
            <==> duration <= 0
  {
    FiresAtOnce(duration);
    if duration <= 0 {
      forall ops, id | AllDurations(ops, duration) && NoStateEdits(ops) ensures DurationHonoured(Evals(ops, id)) {
        EvalDurations(ops, duration, id);
        HonouredIff(Evals(ops, id));
      }
    }
  }
}

/** The metrics store object: its tables change in place, one SQL transaction
    at a time (gui/metrics_store.py). */
module MetricsStoreObject {
  import opened Prelude
  import opened IsoTime
  import opened MetricTiers
  import MetricRuns
  import Alerts

  datatype Error = UnknownMetric | UnknownCondition | OutOfRange

  /** Rows created and removed by one downsampling run. */
  datatype Report = Report(rawToMinute: nat, rawPruned: nat, minuteToHour: nat, minutePruned: nat, hourPruned: nat)

  /** A keyword argument of update_alert_rule. */
  datatype Keyword = Field(change: Alerts.Change) | Ignored(name: string)

  function Fields(ks: seq<Keyword>): seq<Alerts.Change> {
    if ks == [] then []
    else Fields(ks[..|ks| - 1]) + (if ks[|ks| - 1].Field? then [ks[|ks| - 1].change] else [])
  }

  /** The names that are accepted. */
  lemma AcceptedNames(name: string)
    ensures name in METRIC_TYPES <==> name == "cpu" || name == "mem" || name == "disk" || name == "net"
    ensures name in Alerts.CONDITIONS <==> name == "gt" || name == "lt" || name == "gte" || name == "lte" || name == "eq"
    ensures name in Alerts.CONDITIONS <==> exists v: real, x: real :: Alerts.CheckCondition(v, x, name)
  {
    if name in Alerts.CONDITIONS {
      assert Alerts.CheckCondition(1.0, 0.0, name) || Alerts.CheckCondition(0.0, 1.0, name) || Alerts.CheckCondition(0.0, 0.0, name);
    }
  }

  /** The allowed keywords in their order, and nothing else. */
  lemma {:induction false} FieldsConcat(a: seq<Keyword>, b: seq<Keyword>)
    ensures Fields(a + b) == Fields(a) + Fields(b)
    ensures forall c :: Fields([Field(c)]) == [c]
    ensures forall name :: Fields([Ignored(name)]) == []
  {
    forall k: Keyword ensures [k][..0] == [] {
    }
    if b == [] {
      assert a + b == a;
    } else {
      assert (a + b)[..|a + b| - 1] == a + b[..|b| - 1];
      FieldsConcat(a, b[..|b| - 1]);
    }
  }

  class MetricsStore {
    var raw: seq<Row>
    var minutes: seq<Row>
    var hours: seq<Row>
    var lastSampleId: nat
    var rules: seq<Alerts.Rule>
    var alertLog: seq<Alerts.Event>
    var lastRuleId: nat

    ghost function Contents(): Tables
      reads this
    {
      Tables(raw, minutes, hours)
    }

    ghost function Book(): Alerts.Book
      reads this
    {
      Alerts.Book(rules, alertLog, lastRuleId)
    }

    ghost predicate Valid()
      reads this
    {
      AllSamples(raw) && Alerts.Keyed(rules, lastRuleId)
    }

    constructor ()
      ensures Valid() && Contents() == MetricRuns.Run([]) && Book() == Alerts.Run([])
    {
      raw, minutes, hours, lastSampleId := [], [], [], 0;
      rules, alertLog, lastRuleId := [], [], 0;
    }

    method InsertSample(metric: string, value: real, timestamp: Option<Instant>, now: Instant)
      returns (r: Result<nat, Error>)
      requires Valid()
      modifies this
      ensures Valid() && Book() == old(Book())
      ensures metric !in METRIC_TYPES ==> r == Err(UnknownMetric) && Contents() == old(Contents())
      ensures metric in METRIC_TYPES ==>
                var at := if timestamp.Some? then timestamp.value else now;
                && r == Ok(old(lastSampleId) + 1) && lastSampleId == old(lastSampleId) + 1
                && Contents() == MetricRuns.Apply(old(Contents()), MetricRuns.Insert([MetricRuns.Sample(metric, value, at)]))
    {
      if metric !in METRIC_TYPES {
        return Err(UnknownMetric);
      }
      var at := if timestamp.Some? then timestamp.value else now;
      ghost var s := MetricRuns.Sample(metric, value, at);
      assert MetricRuns.Stored([s]) == [SampleRow(metric, value, at)];
      raw := raw + [SampleRow(metric, value, at)];
      lastSampleId := lastSampleId + 1;
      return Ok(lastSampleId);
    }

    /** All samples or none: the metric names are checked before anything is written. */
    method InsertMany(samples: seq<MetricRuns.Sample>) returns (r: Result<nat, Error>)
      requires Valid()
      modifies this
      ensures Valid() && Book() == old(Book())
      ensures r.Ok? <==> forall s :: s in samples ==> s.metric in METRIC_TYPES
      ensures r.Err? ==> r == Err(UnknownMetric) && Contents() == old(Contents())
      ensures r.Ok? ==> r == Ok(|samples|)
                        && Contents() == MetricRuns.Apply(old(Contents()), MetricRuns.Insert(samples))
    {
      var rows := [];
      var i := 0;
      while i < |samples|
        invariant 0 <= i <= |samples|
        invariant forall k :: 0 <= k < i ==> samples[k].metric in METRIC_TYPES
        invariant rows + MetricRuns.Stored(samples[i..]) == MetricRuns.Stored(samples)
        invariant AllSamples(rows) && |rows| == i
      {
        var s := samples[i];
        if s.metric !in METRIC_TYPES {
          return Err(UnknownMetric);
        }
        rows := rows + [SampleRow(s.metric, s.value, s.at)];
        assert samples[i..][1..] == samples[i + 1..];
        i := i + 1;
      }
      assert samples[|samples|..] == [];
      raw := raw + rows;
      lastSampleId := lastSampleId + |rows|;
      return Ok(|rows|);
    }

    /** The text of now - timedelta(seconds=window), as its sort key. */
    method Cutoff(now: Instant, window: int) returns (key: int)
      ensures key == Cut(SortKey(now), window)
    {
      KeyShift(now, window);
      key := SortKey(now - window * 1_000_000);
    }

    method Downsample(now: Instant) returns (r: Result<Report, Error>)
      requires Valid()
      modifies this
      ensures Valid() && Book() == old(Book())
      ensures Contents() == MetricRuns.Apply(old(Contents()), MetricRuns.Downsample(now))
      ensures r.Ok? <==> MetricRuns.Completes(now)
      ensures r.Ok? ==>
                && |raw| + r.value.rawPruned == old(|raw|)
                && |minutes| + r.value.minutePruned == old(|minutes|) + r.value.rawToMinute
                && |hours| + r.value.hourPruned == old(|hours|) + r.value.minuteToHour
                && r.value.rawPruned == SumCount(GroupBy(Aged(old(raw), SortKey(now)), MINUTE))
                && r.value.rawToMinute == |GroupBy(Aged(old(raw), SortKey(now)), MINUTE)|
                && r.value.minutePruned == |AgedMinutes(old(Contents()), SortKey(now))|
                && r.value.minuteToHour == |GroupBy(AgedMinutes(old(Contents()), SortKey(now)), HOUR)|
      ensures r.Ok? ==>
                && (forall x :: x in raw ==> Cut(SortKey(now), RAW_WINDOW) <= x.key)
                && (forall x :: x in minutes ==> Cut(SortKey(now), MINUTE_WINDOW) <= x.key)
                && (forall x :: x in hours ==> Cut(SortKey(now), HOUR_WINDOW) <= x.key)
    {
      if now < HOUR_WINDOW * 1_000_000 {
        return Err(OutOfRange);
      }
      var cutoffRaw := Cutoff(now, RAW_WINDOW);
      var cutoffMinute := Cutoff(now, MINUTE_WINDOW);
      var cutoffHour := Cutoff(now, HOUR_WINDOW);
      MetricRuns.PrunedAreCounted(raw, SortKey(now));
      var report := Roll(cutoffRaw, cutoffMinute, cutoffHour, SortKey(now));
      return Ok(report);
    }

    /** The transaction itself, statement by statement. */
    method Roll(cutoffRaw: int, cutoffMinute: int, cutoffHour: int, ghost key: int) returns (report: Report)
      requires cutoffRaw == Cut(key, RAW_WINDOW) && cutoffMinute == Cut(key, MINUTE_WINDOW)
      requires cutoffHour == Cut(key, HOUR_WINDOW)
      modifies `raw, `minutes, `hours
      ensures Contents() == Rolled(old(Contents()), key)
      ensures |raw| + report.rawPruned == old(|raw|)
      ensures |minutes| + report.minutePruned == old(|minutes|) + report.rawToMinute
      ensures |hours| + report.hourPruned == old(|hours|) + report.minuteToHour
      ensures report.rawPruned == |Aged(old(raw), key)|
      ensures report.rawToMinute == |GroupBy(Aged(old(raw), key), MINUTE)|
      ensures report.minutePruned == |AgedMinutes(old(Contents()), key)|
      ensures report.minuteToHour == |GroupBy(AgedMinutes(old(Contents()), key), HOUR)|
    {
      var oldRaw := Filter(raw, Older(cutoffRaw));
      var newMinutes := GroupBy(oldRaw, MINUTE);
      minutes := minutes + newMinutes;
      Complement(raw, cutoffRaw);
      raw := Filter(raw, Recent(cutoffRaw));

      var oldMinutes := Filter(minutes, Older(cutoffMinute));
      var newHours := GroupBy(oldMinutes, HOUR);
      hours := hours + newHours;
      Complement(minutes, cutoffMinute);
      minutes := Filter(minutes, Recent(cutoffMinute));

      var oldHours := Filter(hours, Older(cutoffHour));
      Complement(hours, cutoffHour);
      hours := Filter(hours, Recent(cutoffHour));
      report := Report(|newMinutes|, |oldRaw|, |newHours|, |oldMinutes|, |oldHours|);
    }

    method AddAlertRule(metric: string, threshold: real, condition: string, duration: int,
                        title: string, fallback: string, enabled: bool)
      returns (r: Result<nat, Error>)
      requires Valid()
      modifies this
      ensures Valid() && Contents() == old(Contents())
      ensures r == if metric !in METRIC_TYPES then Err(UnknownMetric)
                   else if condition !in Alerts.CONDITIONS then Err(UnknownCondition)
                   else Ok(old(lastRuleId) + 1)
      ensures r.Err? ==> Book() == old(Book())
      ensures r.Ok? ==>
                Book() == Alerts.Apply(old(Book()), Alerts.Add(metric, threshold, condition, duration,
                                                               if title == "" then fallback else title, enabled))
    {
      if metric !in METRIC_TYPES {
        return Err(UnknownMetric);
      }
      if condition !in Alerts.CONDITIONS {
        return Err(UnknownCondition);
      }
      var text := if title == "" then fallback else title;
      var rule := Alerts.Rule(lastRuleId + 1, metric, threshold, condition, duration, text, enabled, "ok", None);
      AddedIs(Book(), Alerts.Add(metric, threshold, condition, duration, text, enabled), rule);
      InsertRule(rule);
      return Ok(lastRuleId);
    }

    /** The INSERT of add_alert_rule. */
    method InsertRule(rule: Alerts.Rule)
      requires Valid() && rule.id == lastRuleId + 1
      modifies `rules, `lastRuleId
      ensures Valid() && rules == old(rules) + [rule] && lastRuleId == old(lastRuleId) + 1
    {
      KeyedNext(rules, lastRuleId, rule);
      rules := rules + [rule];
      lastRuleId := lastRuleId + 1;
    }

    /** Unknown keywords are skipped; with nothing left the table is not touched. */
    method UpdateAlertRule(id: nat, keywords: seq<Keyword>) returns (ok: bool)
      requires Valid()
      modifies this
      ensures Valid() && Contents() == old(Contents())
      ensures ok <==> Fields(keywords) != []
      ensures Book() == if ok then Alerts.Apply(old(Book()), Alerts.Update(id, Fields(keywords))) else old(Book())
    {
      var sets := [];
      for i := 0 to |keywords|
        invariant sets == Fields(keywords[..i])
      {
        assert keywords[..i + 1][..i] == keywords[..i];
        if keywords[i].Field? {
          sets := sets + [keywords[i].change];
        }
      }
      assert keywords[..|keywords|] == keywords;
      if sets == [] {
        return false;
      }
      Alerts.UpdatedKeyed(rules, lastRuleId, id, sets);
      rules := Alerts.Updated(rules, id, sets);
      return true;
    }

    method DeleteAlertRule(id: nat)
      requires Valid()
      modifies this
      ensures Valid() && Contents() == old(Contents())
      ensures Book() == Alerts.Apply(old(Book()), Alerts.Delete(id))
    {
      Alerts.DeletedKeyed(rules, lastRuleId, id);
      rules := Alerts.Deleted(rules, id);
    }

    /** One rule of the loop; the row written is the one just read, since id is the primary key. */
    method EvaluateRule(i: nat, values: map<string, real>, now: Instant) returns (events: seq<Alerts.Event>)
      requires i < |rules|
      modifies `rules, `alertLog
      ensures rules == old(rules)[i := Alerts.EvalRule(old(rules[i]), values, now).0]
      ensures events == Alerts.EvalRule(old(rules[i]), values, now).1
      ensures alertLog == old(alertLog) + events
    {
      var rule := rules[i];
      events := [];
      if !rule.enabled || rule.metric !in values {
        return;
      }
      var value := values[rule.metric];
      var triggered := Alerts.CheckCondition(value, rule.threshold, rule.condition);
      if triggered && rule.lastState != "firing" {
        events := [Alerts.EventOf(rule, value, Alerts.Fired, now)];
        alertLog := alertLog + events;
        rules := rules[i := rule.(lastState := "firing", lastFired := Some(now))];
      } else if !triggered && rule.lastState == "firing" {
        events := [Alerts.EventOf(rule, value, Alerts.Resolved, now)];
        alertLog := alertLog + events;
        rules := rules[i := rule.(lastState := "ok")];
      }
    }

    /** The loop over the enabled rules. */
    method EvaluateRules(values: map<string, real>, now: Instant) returns (events: seq<Alerts.Event>)
      modifies `rules, `alertLog
      ensures (rules, events) == Alerts.EvalRules(old(rules), values, now)
      ensures alertLog == old(alertLog) + events
    {
      ghost var was := rules;
      events := [];
      for i := 0 to |rules|
        invariant HalfEvaluated(was, i, rules, events, values, now)
        invariant alertLog == old(alertLog) + events
      {
        HalfStep(was, i, rules, events, values, now);
        var more := EvaluateRule(i, values, now);
        events := events + more;
      }
      HalfDone(was, rules, events, values, now);
    }

    method EvaluateAlerts(values: map<string, real>, now: Instant) returns (events: seq<Alerts.Event>)
      requires Valid()
      modifies `rules, `alertLog
      ensures Valid()
      ensures Book() == Alerts.Apply(old(Book()), Alerts.Evaluate(values, now))
      ensures alertLog == old(alertLog) + events
    {
      Alerts.EvalKeyed(rules, lastRuleId, values, now);
      events := EvaluateRules(values, now);
    }
  }

  lemma AddedIs(b: Alerts.Book, op: Alerts.Op, r: Alerts.Rule)
    requires op.Add?
    requires r == Alerts.Rule(b.lastId + 1, op.metric, op.threshold, op.condition, op.duration, op.title, op.enabled, "ok", None)
    ensures Alerts.Apply(b, op) == Alerts.Book(b.rules + [r], b.log, b.lastId + 1)
  {
  }

  lemma KeyedNext(rules: seq<Alerts.Rule>, lastId: nat, rule: Alerts.Rule)
    requires Alerts.Keyed(rules, lastId) && rule.id == lastId + 1
    ensures Alerts.Keyed(rules + [rule], lastId + 1)
  {
    Alerts.KeyedFind(rules, lastId, lastId + 1);
    Alerts.KeyedMore(rules, lastId);
    Alerts.KeyedSnoc(rules, rule, lastId + 1);
  }

  /** The loop of evaluate_alerts has handled the first i rules of was. */
  ghost predicate HalfEvaluated(was: seq<Alerts.Rule>, i: nat, rules: seq<Alerts.Rule>, events: seq<Alerts.Event>,
                                values: map<string, real>, now: Instant) {
    && i <= |was| == |rules|
    && (rules[..i], events) == Alerts.EvalRules(was[..i], values, now)
    && rules[i..] == was[i..]
  }

  lemma HalfStep(was: seq<Alerts.Rule>, i: nat, rules: seq<Alerts.Rule>, events: seq<Alerts.Event>,
                 values: map<string, real>, now: Instant)
    requires HalfEvaluated(was, i, rules, events, values, now) && i < |was|
    ensures var (rule, more) := Alerts.EvalRule(rules[i], values, now);
            HalfEvaluated(was, i + 1, rules[i := rule], events + more, values, now)
  {
    assert rules[i..][0] == was[i..][0] && was[..i + 1][..i] == was[..i];
    var rule := Alerts.EvalRule(rules[i], values, now).0;
    assert rules[i := rule][..i + 1] == rules[..i] + [rule];
    assert rules[i := rule][i + 1..] == rules[i..][1..] == was[i..][1..] == was[i + 1..];
  }

  lemma HalfDone(was: seq<Alerts.Rule>, rules: seq<Alerts.Rule>, events: seq<Alerts.Event>,
                 values: map<string, real>, now: Instant)
    requires HalfEvaluated(was, |was|, rules, events, values, now)
    ensures (rules, events) == Alerts.EvalRules(was, values, now)
  {
    assert was[..|was|] == was && rules[..|rules|] == rules;
  }

  /** Every row is on one side of the cutoff. */
  lemma {:induction false} Complement(rows: seq<Row>, cutoff: int)
    ensures |Filter(rows, Older(cutoff))| + |Filter(rows, Recent(cutoff))| == |rows|
  {
    if rows != [] {
      Complement(rows[1..], cutoff);
    }
  }
}

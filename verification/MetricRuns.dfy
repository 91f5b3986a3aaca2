/** Whole runs of the metrics store: any interleaving of inserts, late
    timestamps included, with downsampling runs (gui/metrics_store.py). */
module MetricRuns {
  import opened Prelude
  import opened IsoTime
  import opened MetricTiers

  datatype Sample = Sample(metric: string, value: real, at: Instant)

  datatype Op = Insert(samples: seq<Sample>) | Downsample(now: Instant)

  function Stored(samples: seq<Sample>): (rows: seq<Row>)
    ensures |rows| == |samples| && AllSamples(rows)
  {
    if samples == [] then []
    else [SampleRow(samples[0].metric, samples[0].value, samples[0].at)] + Stored(samples[1..])
  }

  /** now - timedelta(days=30) must still be a datetime; otherwise it raises and
      the transaction rolls back. */
  predicate Completes(now: Instant) {
    HOUR_WINDOW * 1_000_000 <= now
  }

  function Apply(t: Tables, op: Op): Tables {
    match op
    case Insert(samples) => t.(raw := t.raw + Stored(samples))
    case Downsample(now) => if Completes(now) then Rolled(t, SortKey(now)) else t
  }

  function Run(ops: seq<Op>): Tables {
    if ops == [] then Tables([], [], []) else Apply(Run(ops[..|ops| - 1]), ops[|ops| - 1])
  }

  /** Every sample ever inserted. */
  function Inserted(ops: seq<Op>): seq<Row> {
    if ops == [] then []
    else
      var init, last := ops[..|ops| - 1], ops[|ops| - 1];
      if last.Insert? then Inserted(init) + Stored(last.samples) else Inserted(init)
  }

  /** When downsampling was run. */
  function Times(ops: seq<Op>): seq<Instant> {
    if ops == [] then []
    else
      var init, last := ops[..|ops| - 1], ops[|ops| - 1];
      if last.Downsample? then Times(init) + [last.now] else Times(init)
  }

  /** None of these runs is later than key, as a text. */
  predicate Latest(times: seq<Instant>, key: int) {
    forall t :: t in times && Completes(t) ==> SortKey(t) <= key
  }

  lemma {:induction false} RunTidy(ops: seq<Op>)
    ensures Tidy(Run(ops)) && AllSamples(Inserted(ops))
  {
    if ops != [] {
      var init, last := ops[..|ops| - 1], ops[|ops| - 1];
      RunTidy(init);
      if last.Downsample? && Completes(last.now) {
        RolledTidy(Run(init), SortKey(last.now));
      }
    }
  }

  lemma InsertForesees(t: Tables, history: seq<Row>, more: seq<Row>, key: int, p: Row -> bool)
    ensures var u := t.(raw := t.raw + more);
            && ForeseenMinutes(u, key, p) == Merge(ForeseenMinutes(t, key, p), Tally(more, TierAnd(Minutes, key, p)))
            && ForeseenHours(u, key, p) == Merge(ForeseenHours(t, key, p), Tally(more, TierAnd(Hours, key, p)))
            && Filter(u.raw, InTier(Raw, key)) == Filter(t.raw, InTier(Raw, key)) + Filter(more, InTier(Raw, key))
  {
    var inMinutes, inHours := TierAnd(Minutes, key, p), TierAnd(Hours, key, p);
    TallyConcat(t.raw, more, inMinutes);
    TallyConcat(t.raw, more, inHours);
    FilterConcat(t.raw, more, InTier(Raw, key));
    MergeAssoc(Tally(t.minutes, KeptMinutes(key, p)), Tally(t.raw, inMinutes), Tally(more, inMinutes));
    MergeAssoc(Tally(t.minutes, Moving(key, p)), Tally(t.raw, inHours), Tally(more, inHours));
    MergeAssoc(Tally(t.hours, KeptHours(key, p)), Merge(Tally(t.minutes, Moving(key, p)), Tally(t.raw, inHours)), Tally(more, inHours));
  }

  /** What a run at key will find, whatever runs at earlier or equal texts there
      were: each sample counts in the tier its own time and key give it. */
  ghost predicate Foretells(t: Tables, history: seq<Row>, key: int, p: Row -> bool) {
    && Filter(t.raw, InTier(Raw, key)) == Filter(history, InTier(Raw, key))
    && (ByBucket(p, MINUTE) ==> ForeseenMinutes(t, key, p) == Tally(history, TierAnd(Minutes, key, p)))
    && (ByBucket(p, HOUR) ==> ForeseenHours(t, key, p).Loose() == Tally(history, TierAnd(Hours, key, p)).Loose())
  }

  lemma InsertStep(t: Tables, history: seq<Row>, more: seq<Row>, key: int, p: Row -> bool)
    requires Foretells(t, history, key, p)
    ensures Foretells(t.(raw := t.raw + more), history + more, key, p)
  {
    InsertForesees(t, history, more, key, p);
    FilterConcat(history, more, InTier(Raw, key));
    TallyConcat(history, more, TierAnd(Minutes, key, p));
    TallyConcat(history, more, TierAnd(Hours, key, p));
    var tail := Tally(more, TierAnd(Hours, key, p));
    MergeLoose(ForeseenHours(t, key, p), tail);
    MergeLoose(Tally(history, TierAnd(Hours, key, p)), tail);
  }

  lemma RunStep(t: Tables, history: seq<Row>, k: int, key: int, p: Row -> bool)
    requires Foretells(t, history, key, p) && Tidy(t) && k <= key
    ensures Foretells(Rolled(t, k), history, key, p)
  {
    RawForeseen(t, k, key);
    if ByBucket(p, MINUTE) {
      MinutesForeseen(t, k, key, p);
    }
    if ByBucket(p, HOUR) {
      HoursForeseen(t, k, key, p);
    }
  }

  /** The invariant of every run. */
  lemma {:induction false} RunForetells(ops: seq<Op>, key: int, p: Row -> bool)
    requires Latest(Times(ops), key)
    ensures Foretells(Run(ops), Inserted(ops), key, p)
  {
    if ops != [] {
      var init, last := ops[..|ops| - 1], ops[|ops| - 1];
      assert forall t :: t in Times(init) ==> t in Times(ops);
      RunForetells(init, key, p);
      RunTidy(init);
      match last
      case Insert(samples) => InsertStep(Run(init), Inserted(init), Stored(samples), key, p);
      case Downsample(now) =>
        if Completes(now) {
          assert now in Times(ops);
          RunStep(Run(init), Inserted(init), SortKey(now), key, p);
        }
    }
  }

  const ANY: Row -> bool := (r: Row) => true

  /** Right after a run at key, every sample of history is in the tier its own
      time and key give it, and nowhere else. */
  ghost predicate TierExact(t: Tables, history: seq<Row>, key: int) {
    && t.raw == Filter(history, InTier(Raw, key))
    && MinutesAgree(t.minutes, history, key)
    && HoursAgree(t.hours, history, key)
  }

  /** Schedule independence: however many runs came before, in whatever order,
      right after downsample(now) the tables are the one-shot summary of all
      samples, as long as none of the earlier runs is later as a text. */
  lemma ScheduleIndependence(ops: seq<Op>, now: Instant)
    requires Completes(now) && Latest(Times(ops), SortKey(now))
    ensures TierExact(Run(ops + [Downsample(now)]), Inserted(ops), SortKey(now))
  {
    var t, h, key := Run(ops), Inserted(ops), SortKey(now);
    OneDownsample(ops, now);
    RunTidy(ops);
    RunForetells(ops, key, ANY);
    RollFulfils(t, key, ANY);
    forall p: Row -> bool | ByBucket(p, MINUTE)
      ensures Tally(Rolled(t, key).minutes, p) == Tally(h, TierAnd(Minutes, key, p))
    {
      RunForetells(ops, key, p);
      RollFulfils(t, key, p);
    }
    forall p: Row -> bool | ByBucket(p, HOUR)
      ensures Tally(Rolled(t, key).hours, p).Loose() == Tally(h, TierAnd(Hours, key, p)).Loose()
    {
      RunForetells(ops, key, p);
      RollFulfils(t, key, p);
    }
  }

  function InCell(metric: string, w: int, b: int): Row -> bool
    requires 0 < w
  {
    (r: Row) => r.metric == metric && Bucket(r.key, w) == b
  }

  lemma CellsByBucket(metric: string, b: int)
    ensures ByBucket(InCell(metric, MINUTE, b), MINUTE)
    ensures ByBucket(InCell(metric, HOUR, b), HOUR)
  {
  }

  /** Cell by cell: for each metric and minute the 1-minute rows have the count,
      minimum, maximum and weighted sum of the samples they replaced, and for
      each metric and hour the 1-hour rows have the count, minimum and maximum. */
  lemma CellsRefineHistory(ops: seq<Op>, now: Instant, metric: string, b: int)
    requires Completes(now) && Latest(Times(ops), SortKey(now))
    ensures var t, k, h := Run(ops + [Downsample(now)]), SortKey(now), Inserted(ops);
            && Tally(t.minutes, InCell(metric, MINUTE, b)) == Tally(h, TierAnd(Minutes, k, InCell(metric, MINUTE, b)))
            && Tally(t.hours, InCell(metric, HOUR, b)).Loose() == Tally(h, TierAnd(Hours, k, InCell(metric, HOUR, b))).Loose()
  {
    ScheduleIndependence(ops, now);
    CellsByBucket(metric, b);
  }

  // ---- The same in terms of the samples themselves -------------------------

  /** Every sample ever given. */
  function Samples(ops: seq<Op>): seq<Sample> {
    if ops == [] then []
    else
      var init, last := ops[..|ops| - 1], ops[|ops| - 1];
      if last.Insert? then Samples(init) + last.samples else Samples(init)
  }

  /** Count, minimum, maximum and sum of the values of some samples. */
  function Summed(ss: seq<Sample>, p: Sample -> bool): Stat {
    if ss == [] then Nothing
    else
      var rest, v := Summed(ss[1..], p), ss[0].value;
      if !p(ss[0]) then rest
      else
        match rest
        case Nothing => Stat(1, v, v, v)
        case Stat(n, lo, hi, sum) => Stat(n + 1, if v < lo then v else lo, if v > hi then v else hi, v + sum)
  }

  lemma {:induction false} StoredConcat(a: seq<Sample>, b: seq<Sample>)
    ensures Stored(a + b) == Stored(a) + Stored(b)
  {
    if a == [] {
      assert a + b == b;
    } else {
      assert (a + b)[1..] == a[1..] + b;
      StoredConcat(a[1..], b);
    }
  }

  lemma {:induction false} InsertedAreStored(ops: seq<Op>)
    ensures Inserted(ops) == Stored(Samples(ops))
  {
    if ops != [] {
      var init, last := ops[..|ops| - 1], ops[|ops| - 1];
      InsertedAreStored(init);
      if last.Insert? {
        StoredConcat(Samples(init), last.samples);
      }
    }
  }

  lemma {:induction false} SummedIsTally(ss: seq<Sample>, p: Sample -> bool, q: Row -> bool)
    requires forall s :: s in ss ==> (p(s) <==> q(SampleRow(s.metric, s.value, s.at)))
    ensures Tally(Stored(ss), q) == Summed(ss, p)
  {
    if ss != [] {
      assert ss[0] in ss;
      SummedIsTally(ss[1..], p, q);
    }
  }

  /** Not before the text of the instant 24 hours ago. */
  predicate StaysRaw(at: Instant, now: Instant) {
    SortKey(now) - 86_400 * TICKS <= SortKey(at)
  }

  /** Otherwise, in a minute whose text is not before that of 7 days ago. */
  predicate GoesToMinutes(at: Instant, now: Instant) {
    !StaysRaw(at, now) && SortKey(now) - 604_800 * TICKS <= Bucket(SortKey(at), 60 * TICKS)
  }

  /** Otherwise, in an hour whose text is not before that of 30 days ago. */
  predicate GoesToHours(at: Instant, now: Instant) {
    && !StaysRaw(at, now) && !GoesToMinutes(at, now)
    && SortKey(now) - 2_592_000 * TICKS <= Bucket(SortKey(at), 3600 * TICKS)
  }

  function RawAt(metric: string, key: int): Row -> bool {
    (r: Row) => r.metric == metric && r.key == key
  }

  function StillRaw(metric: string, key: int, now: Instant): Sample -> bool {
    (s: Sample) => s.metric == metric && SortKey(s.at) == key && StaysRaw(s.at, now)
  }

  function MinuteSamples(metric: string, b: int, now: Instant): Sample -> bool {
    (s: Sample) => s.metric == metric && Bucket(SortKey(s.at), 60 * TICKS) == b && GoesToMinutes(s.at, now)
  }

  function HourSamples(metric: string, b: int, now: Instant): Sample -> bool {
    (s: Sample) => s.metric == metric && Bucket(SortKey(s.at), 3600 * TICKS) == b && GoesToHours(s.at, now)
  }

  lemma SampleTier(metric: string, value: real, at: Instant, now: Instant)
    ensures var tier := TierOf(SampleRow(metric, value, at), SortKey(now));
            && (tier == Raw <==> StaysRaw(at, now))
            && (tier == Minutes <==> GoesToMinutes(at, now))
            && (tier == Hours <==> GoesToHours(at, now))
  {
  }

  lemma RawCells(ss: seq<Sample>, now: Instant, metric: string, k: int)
    ensures Tally(Filter(Stored(ss), InTier(Raw, SortKey(now))), RawAt(metric, k)) == Summed(ss, StillRaw(metric, k, now))
  {
    var tier := TierAnd(Raw, SortKey(now), RawAt(metric, k));
    TallyFilter(Stored(ss), InTier(Raw, SortKey(now)), RawAt(metric, k), tier);
    forall s | s in ss ensures StillRaw(metric, k, now)(s) <==> tier(SampleRow(s.metric, s.value, s.at)) {
      SampleTier(s.metric, s.value, s.at, now);
    }
    SummedIsTally(ss, StillRaw(metric, k, now), tier);
  }

  lemma MinuteCells(ss: seq<Sample>, now: Instant, metric: string, b: int)
    ensures Tally(Stored(ss), TierAnd(Minutes, SortKey(now), InCell(metric, MINUTE, b)))
            == Summed(ss, MinuteSamples(metric, b, now))
  {
    var tier := TierAnd(Minutes, SortKey(now), InCell(metric, MINUTE, b));
    forall s | s in ss ensures MinuteSamples(metric, b, now)(s) <==> tier(SampleRow(s.metric, s.value, s.at)) {
      SampleTier(s.metric, s.value, s.at, now);
    }
    SummedIsTally(ss, MinuteSamples(metric, b, now), tier);
  }

  lemma HourCells(ss: seq<Sample>, now: Instant, metric: string, b: int)
    ensures Tally(Stored(ss), TierAnd(Hours, SortKey(now), InCell(metric, HOUR, b)))
            == Summed(ss, HourSamples(metric, b, now))
  {
    var tier := TierAnd(Hours, SortKey(now), InCell(metric, HOUR, b));
    forall s | s in ss ensures HourSamples(metric, b, now)(s) <==> tier(SampleRow(s.metric, s.value, s.at)) {
      SampleTier(s.metric, s.value, s.at, now);
    }
    SummedIsTally(ss, HourSamples(metric, b, now), tier);
  }

  /** From what was inserted to what the tables say: for each metric the raw rows
      of a time, the 1-minute rows of a minute and the 1-hour rows of an hour have
      the count, minimum, maximum and (but for hours) sum of the samples given. */
  lemma CellsRefineSamples(ops: seq<Op>, now: Instant, metric: string, b: int)
    requires Completes(now) && Latest(Times(ops), SortKey(now))
    ensures var t, ss := Run(ops + [Downsample(now)]), Samples(ops);
            && Tally(t.raw, RawAt(metric, b)) == Summed(ss, StillRaw(metric, b, now))
            && Tally(t.minutes, InCell(metric, MINUTE, b)) == Summed(ss, MinuteSamples(metric, b, now))
            && Tally(t.hours, InCell(metric, HOUR, b)).Loose() == Summed(ss, HourSamples(metric, b, now)).Loose()
  {
    InsertedAreStored(ops);
    CellsRefineHistory(ops, now, metric, b);
    ScheduleIndependence(ops, now);
    RawCells(Samples(ops), now, metric, b);
    MinuteCells(Samples(ops), now, metric, b);
    HourCells(Samples(ops), now, metric, b);
  }

  /** Two schedules over the same samples cannot be told apart afterwards. */
  lemma SchedulesAgree(ops1: seq<Op>, ops2: seq<Op>, now: Instant, p: Row -> bool)
    requires Completes(now) && Latest(Times(ops1), SortKey(now)) && Latest(Times(ops2), SortKey(now))
    requires Inserted(ops1) == Inserted(ops2)
    ensures var t1, t2 := Run(ops1 + [Downsample(now)]), Run(ops2 + [Downsample(now)]);
            && t1.raw == t2.raw
            && (ByBucket(p, MINUTE) ==> Tally(t1.minutes, p) == Tally(t2.minutes, p))
            && (ByBucket(p, HOUR) ==> Tally(t1.hours, p).Loose() == Tally(t2.hours, p).Loose())
  {
    ScheduleIndependence(ops1, now);
    ScheduleIndependence(ops2, now);
  }

  // ---- Exactly which schedules are safe ------------------------------------

  /** Whatever is inserted and when, the tiers are right after the last run of a
      schedule: that is so exactly when no earlier run is later as a text. */
  lemma ExactIffLatest(times: seq<Instant>, now: Instant)
    requires Completes(now)
    ensures (forall ops :: Times(ops) == times ==>
               TierExact(Run(ops + [Downsample(now)]), Inserted(ops), SortKey(now)))
            <==> Latest(times, SortKey(now))
  {
    if Latest(times, SortKey(now)) {
      forall ops | Times(ops) == times
        ensures TierExact(Run(ops + [Downsample(now)]), Inserted(ops), SortKey(now))
      {
        ScheduleIndependence(ops, now);
      }
    } else {
      LostSample(times, now);
    }
  }

  /** The sample exactly 24 hours before now. */
  function Probe(now: Instant): Sample {
    Sample("cpu", 0.0, now - RAW_WINDOW * 1_000_000)
  }

  function ProbeRow(now: Instant): Row {
    SampleRow(Probe(now).metric, Probe(now).value, Probe(now).at)
  }

  /** One sample, then these runs. */
  function InsertThenRun(s: Sample, times: seq<Instant>): seq<Op> {
    if times == [] then [Insert([s])] else InsertThenRun(s, times[..|times| - 1]) + [Downsample(times[|times| - 1])]
  }

  /** One of these runs takes the row out of the raw table. */
  predicate Leaves(row: Row, times: seq<Instant>) {
    exists t :: t in times && LeavesAt(row, t)
  }

  predicate LeavesAt(row: Row, t: Instant) {
    Completes(t) && row.key < Cut(SortKey(t), RAW_WINDOW)
  }

  lemma LeavesSnoc(row: Row, init: seq<Instant>, last: Instant)
    ensures Leaves(row, init + [last]) <==> Leaves(row, init) || LeavesAt(row, last)
  {
    if Leaves(row, init) {
      var t :| t in init && LeavesAt(row, t);
      assert t in init + [last];
    }
    assert last in init + [last];
  }

  lemma RawAfter(t: Tables, row: Row, now: Instant)
    ensures t.raw == [] ==> Apply(t, Downsample(now)).raw == []
    ensures t.raw == [row] ==> Apply(t, Downsample(now)).raw == if LeavesAt(row, now) then [] else [row]
  {
    if t.raw == [row] && LeavesAt(row, now) {
      FilterNone([row], Recent(Cut(SortKey(now), RAW_WINDOW)));
    } else if t.raw == [row] && Completes(now) {
      FilterAll([row], Recent(Cut(SortKey(now), RAW_WINDOW)));
    }
  }

  lemma {:induction false} OneSample(s: Sample, times: seq<Instant>)
    ensures var ops, row := InsertThenRun(s, times), SampleRow(s.metric, s.value, s.at);
            && Times(ops) == times && Inserted(ops) == [row]
            && Run(ops).raw == if Leaves(row, times) then [] else [row]
  {
    if times == [] {
      OneInsert(s);
    } else {
      var init, last := times[..|times| - 1], times[|times| - 1];
      var row := SampleRow(s.metric, s.value, s.at);
      OneSample(s, init);
      OneDownsample(InsertThenRun(s, init), last);
      assert times == init + [last];
      LeavesSnoc(row, init, last);
      RawAfter(Run(InsertThenRun(s, init)), row, last);
    }
  }

  lemma ProbeStays(now: Instant)
    ensures ProbeRow(now).key == Cut(SortKey(now), RAW_WINDOW)
    ensures Filter([ProbeRow(now)], InTier(Raw, SortKey(now))) == [ProbeRow(now)]
  {
    KeyShift(now, RAW_WINDOW);
    assert TierOf(ProbeRow(now), SortKey(now)) == Raw;
    FilterAll([ProbeRow(now)], InTier(Raw, SortKey(now)));
  }

  lemma ProbeLeaves(times: seq<Instant>, now: Instant)
    requires !Latest(times, SortKey(now))
    ensures Leaves(ProbeRow(now), times)
  {
    ProbeStays(now);
    var t :| t in times && Completes(t) && SortKey(now) < SortKey(t);
    assert LeavesAt(ProbeRow(now), t);
  }

  /** The probe is aggregated by the later run, although at now it still belongs to the raw table. */
  lemma LostSample(times: seq<Instant>, now: Instant)
    requires Completes(now) && !Latest(times, SortKey(now))
    ensures var ops := InsertThenRun(Probe(now), times);
            && Times(ops) == times
            && Run(ops + [Downsample(now)]).raw == []
            && Filter(Inserted(ops), InTier(Raw, SortKey(now))) == [ProbeRow(now)]
            && !TierExact(Run(ops + [Downsample(now)]), Inserted(ops), SortKey(now))
  {
    var ops := InsertThenRun(Probe(now), times);
    OneSample(Probe(now), times);
    ProbeLeaves(times, now);
    ProbeStays(now);
    OneDownsample(ops, now);
    RawAfter(Run(ops), ProbeRow(now), now);
  }

  lemma OneInsert(s: Sample)
    ensures var ops, row := [Insert([s])], SampleRow(s.metric, s.value, s.at);
            Run(ops) == Tables([row], [], []) && Inserted(ops) == [row] && Times(ops) == []
  {
    var ops := [Insert([s])];
    assert ops[..0] == [];
    assert Stored([s]) == [SampleRow(s.metric, s.value, s.at)];
    assert Run([]) == Tables([], [], []) && Inserted([]) == [];
  }

  lemma OneDownsample(ops: seq<Op>, t: Instant)
    ensures Run(ops + [Downsample(t)]) == Apply(Run(ops), Downsample(t))
    ensures Inserted(ops + [Downsample(t)]) == Inserted(ops)
    ensures Times(ops + [Downsample(t)]) == Times(ops) + [t]
  {
    assert (ops + [Downsample(t)])[..|ops|] == ops;
  }

  /** For a clock that does not go back, the schedule is safe unless the last run
      has a fraction and an earlier one falls on the whole second it belongs to. */
  lemma SafeByTheClock(times: seq<Instant>, now: Instant)
    requires forall t :: t in times ==> t <= now
    ensures Latest(times, SortKey(now)) <==>
            now % 1_000_000 == 0 || (now / 1_000_000) * 1_000_000 !in times || !Completes((now / 1_000_000) * 1_000_000)
  {
    var whole := (now / 1_000_000) * 1_000_000;
    Divide(now);
    Quotient(whole, 1_000_000, now / 1_000_000, 0);
    forall t | t in times ensures SortKey(now) < SortKey(t) <==> t == whole && now % 1_000_000 != 0 {
      UnsafePairs(t, now);
      Divide(t);
    }
  }

  /** The offending pairs: one whole second, the first time without a fraction
      and the second with one. */
  lemma UnsafePairs(t0: Instant, t1: Instant)
    requires t0 <= t1
    ensures SortKey(t1) < SortKey(t0) <==>
            t0 / 1_000_000 == t1 / 1_000_000 && t0 % 1_000_000 == 0 && t1 % 1_000_000 != 0
  {
    Divide(t0);
    Divide(t1);
  }

  lemma Divide(t: Instant)
    ensures t == (t / 1_000_000) * 1_000_000 + t % 1_000_000 && 0 <= t % 1_000_000 < 1_000_000
  {
  }

  // ---- Consequences --------------------------------------------------------

  function CountIn(s: Stat): nat {
    if s.Nothing? then 0 else s.count
  }

  lemma {:induction false} TallyCount(rows: seq<Row>)
    ensures CountIn(Tally(rows, ANY)) == SumCount(rows)
  {
    if rows != [] {
      TallyCount(rows[1..]);
    }
  }

  lemma {:induction false} SamplesCount(rows: seq<Row>)
    requires AllSamples(rows)
    ensures SumCount(rows) == |rows|
  {
    if rows != [] {
      assert rows[0] in rows;
      SamplesCount(rows[1..]);
    }
  }

  lemma {:induction false} TierCounts(history: seq<Row>, key: int)
    requires AllSamples(history)
    ensures |history| == |Filter(history, InTier(Raw, key))| + CountIn(Tally(history, TierAnd(Minutes, key, ANY)))
                         + CountIn(Tally(history, TierAnd(Hours, key, ANY))) + |Filter(history, InTier(Pruned, key))|
  {
    if history != [] {
      assert history[0] in history;
      TierCounts(history[1..], key);
    }
  }

  /** Every sample is counted exactly once: in the raw table, in a 1-minute row,
      in a 1-hour row, or it is past 30 days. */
  lemma NothingLost(ops: seq<Op>, now: Instant)
    requires Completes(now) && Latest(Times(ops), SortKey(now))
    ensures var t := Run(ops + [Downsample(now)]);
            |Inserted(ops)| == |t.raw| + SumCount(t.minutes) + SumCount(t.hours)
                               + |Filter(Inserted(ops), InTier(Pruned, SortKey(now)))|
  {
    var t, k := Run(ops + [Downsample(now)]), SortKey(now);
    ScheduleIndependence(ops, now);
    RunTidy(ops);
    TierCounts(Inserted(ops), k);
    assert ByBucket(ANY, MINUTE) && ByBucket(ANY, HOUR);
    TallyCount(t.minutes);
    TallyCount(t.hours);
    assert Tally(t.hours, ANY).Loose() == Tally(Inserted(ops), TierAnd(Hours, k, ANY)).Loose();
  }

  /** In every run each row's average lies between its extremes. */
  lemma {:induction false} RowsBounded(ops: seq<Op>)
    ensures var t := Run(ops); forall r :: r in t.raw + t.minutes + t.hours ==> Bounded(r)
  {
    if ops != [] {
      var init, last := ops[..|ops| - 1], ops[|ops| - 1];
      RowsBounded(init);
      var t := Run(init);
      if last.Downsample? && Completes(last.now) {
        var k := SortKey(last.now);
        GroupByBounded(Aged(t.raw, k), MINUTE);
        GroupByBounded(Filter(MinutesBefore(t, k), Older(Cut(k, MINUTE_WINDOW))), HOUR);
      }
    }
  }

  /** A second run at the same time changes nothing, whatever the tables hold. */
  lemma RollTwice(t: Tables, key: int)
    ensures Rolled(Rolled(t, key), key) == Rolled(t, key)
  {
    var u := Rolled(t, key);
    FilterNone(u.raw, Older(Cut(key, RAW_WINDOW)));
    FilterAll(u.raw, Recent(Cut(key, RAW_WINDOW)));
    assert u.minutes + [] == u.minutes && u.hours + [] == u.hours;
    FilterNone(u.minutes, Older(Cut(key, MINUTE_WINDOW)));
    FilterAll(u.minutes, Recent(Cut(key, MINUTE_WINDOW)));
    FilterAll(u.hours, Recent(Cut(key, HOUR_WINDOW)));
  }

  // ---- Retention -----------------------------------------------------------

  /** 24 hours in microseconds. */
  const DAY := 86_400_000_000

  /** A run less than 30 days after the first instant there is changes nothing;
      any other is carried out. */
  lemma CarriedOut(ops: seq<Op>, now: Instant)
    ensures Run(ops + [Downsample(now)]) == if now < 30 * DAY then Run(ops) else Rolled(Run(ops), SortKey(now))
  {
    OneDownsample(ops, now);
  }

  /** The instant window seconds before now. */
  function Horizon(now: Instant, window: int): Instant {
    now - window * 1_000_000
  }

  lemma HorizonKey(now: Instant, window: int)
    ensures SortKey(Horizon(now, window)) == Cut(SortKey(now), window)
    ensures Horizon(now, window) / 1_000_000 == now / 1_000_000 - window
    ensures Horizon(now, window) % 1_000_000 == now % 1_000_000
  {
    KeyShift(now, window);
    Quotient(Horizon(now, window), 1_000_000, now / 1_000_000 - window, now % 1_000_000);
  }

  /** A raw sample older than 24 hours outlives the run exactly when its time is
      a whole second, the very one in which the window begins. */
  lemma OldSampleStays(t: Tables, metric: string, value: real, at: Instant, now: Instant)
    requires SampleRow(metric, value, at) in t.raw && at < Horizon(now, RAW_WINDOW)
    ensures SampleRow(metric, value, at) in Rolled(t, SortKey(now)).raw <==>
            at / 1_000_000 == now / 1_000_000 - RAW_WINDOW && at % 1_000_000 == 0
  {
    HorizonKey(now, RAW_WINDOW);
    UnsafePairs(at, Horizon(now, RAW_WINDOW));
    Divide(at);
    Divide(Horizon(now, RAW_WINDOW));
    SameKeySameTime(at, Horizon(now, RAW_WINDOW));
    var row, cut := SampleRow(metric, value, at), Cut(SortKey(now), RAW_WINDOW);
    FilterKeeps(t.raw, Recent(cut), row);
  }

  lemma FilterKeeps(rows: seq<Row>, p: Row -> bool, row: Row)
    requires row in rows
    ensures row in Filter(rows, p) <==> p(row)
  {
  }

  lemma SameKeySameTime(a: Instant, b: Instant)
    ensures SortKey(a) == SortKey(b) ==> a == b
  {
    KeyParts(a);
    KeyParts(b);
    Divide(a);
    Divide(b);
  }

  lemma KeyParts(a: Instant)
    ensures (SortKey(a) - 1) / TICKS == a / 1_000_000
    ensures (SortKey(a) - 1) % TICKS == if a % 1_000_000 == 0 then 999_999 else a % 1_000_000 - 1
  {
    var part := if a % 1_000_000 == 0 then 999_999 else a % 1_000_000 - 1;
    Quotient(SortKey(a) - 1, TICKS, a / 1_000_000, part);
  }

  /** No raw sample older than 24 hours, whatever the table held, exactly when
      the run happens at a whole second. */
  lemma RawRetention(now: Instant)
    ensures (forall t: Tables, metric, value, at :: SampleRow(metric, value, at) in Rolled(t, SortKey(now)).raw ==>
               now - DAY <= at)
            <==> now % 1_000_000 == 0
  {
    Divide(now);
    if now % 1_000_000 == 0 {
      forall t: Tables, metric, value, at | SampleRow(metric, value, at) in Rolled(t, SortKey(now)).raw
        ensures now - DAY <= at
      {
        if at < Horizon(now, RAW_WINDOW) {
          OldSampleStays(t, metric, value, at, now);
          Divide(at);
        }
      }
    } else {
      var at := (now / 1_000_000 - RAW_WINDOW) * 1_000_000;
      Quotient(at, 1_000_000, now / 1_000_000 - RAW_WINDOW, 0);
      var t := Tables([SampleRow("cpu", 0.0, at)], [], []);
      OldSampleStays(t, "cpu", 0.0, at, now);
      assert SampleRow("cpu", 0.0, at) in Rolled(t, SortKey(now)).raw;
    }
  }

  /** The run that shows it: a sample taken at second s is still a raw sample
      24 hours and half a second later. */
  lemma OverdueSample(s: int)
    requires (HOUR_WINDOW - RAW_WINDOW) * 1_000_000 <= s * 1_000_000
    ensures var now := (s + RAW_WINDOW) * 1_000_000 + 500_000;
            Run([Insert([Sample("cpu", 0.0, s * 1_000_000)]), Downsample(now)]).raw == [SampleRow("cpu", 0.0, s * 1_000_000)]
  {
    var now := (s + RAW_WINDOW) * 1_000_000 + 500_000;
    var sample := Sample("cpu", 0.0, s * 1_000_000);
    OneInsert(sample);
    OneDownsample([Insert([sample])], now);
    assert [Insert([sample])] + [Downsample(now)] == [Insert([sample]), Downsample(now)];
    HorizonKey(now, RAW_WINDOW);
    UnsafePairs(s * 1_000_000, Horizon(now, RAW_WINDOW));
    Quotient(s * 1_000_000, 1_000_000, s, 0);
    Quotient(Horizon(now, RAW_WINDOW), 1_000_000, s, 500_000);
    FilterAll([SampleRow("cpu", 0.0, s * 1_000_000)], Recent(Cut(SortKey(now), RAW_WINDOW)));
  }

  /** The instant at which an aggregate row's bucket starts. */
  function Start(r: Row): Instant {
    r.key / TICKS * 1_000_000
  }

  lemma BucketStart(r: Row, w: int, now: Instant, window: int)
    requires w == MINUTE || w == HOUR
    requires Bucket(r.key, w) == r.key && Cut(SortKey(now), window) <= r.key
    ensures r.key == SortKey(Start(r)) - 1_000_000 && Horizon(now, window) < Start(r)
  {
    var size := w / TICKS;
    var q := r.key / w;
    assert r.key == q * w == (q * size) * TICKS;
    Quotient(r.key, TICKS, q * size, 0);
    Quotient(Start(r), 1_000_000, r.key / TICKS, 0);
    Divide(now);
    KeyParts(now);
    assert (now / 1_000_000) * TICKS < SortKey(now);
    assert now / 1_000_000 - window < r.key / TICKS;
  }

  /** Aggregate rows have no such exception: over every run, each 1-minute row
      that stays starts strictly within the last 7 days, each 1-hour row strictly
      within the last 30. */
  lemma BucketRetention(ops: seq<Op>, now: Instant)
    requires Completes(now)
    ensures var t := Run(ops + [Downsample(now)]);
            && (forall r :: r in t.minutes ==> now - 7 * DAY < Start(r))
            && (forall r :: r in t.hours ==> now - 30 * DAY < Start(r))
  {
    var all := ops + [Downsample(now)];
    RunTidy(all);
    OneDownsample(ops, now);
    var t := Run(all);
    forall r | r in t.minutes ensures Horizon(now, MINUTE_WINDOW) < Start(r) {
      BucketStart(r, MINUTE, now, MINUTE_WINDOW);
    }
    forall r | r in t.hours ensures Horizon(now, HOUR_WINDOW) < Start(r) {
      BucketStart(r, HOUR, now, HOUR_WINDOW);
    }
  }

  /** The reported number of pruned samples is what the new 1-minute rows count. */
  lemma PrunedAreCounted(raw: seq<Row>, key: int)
    requires AllSamples(raw)
    ensures |Aged(raw, key)| == SumCount(GroupBy(Aged(raw, key), MINUTE))
  {
    var aged := Aged(raw, key);
    assert ByBucket(ANY, MINUTE);
    GroupByKeepsTally(aged, MINUTE, ANY);
    TallyCount(aged);
    TallyCount(GroupBy(aged, MINUTE));
    SamplesCount(aged);
  }
}

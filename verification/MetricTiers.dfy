/** Raw samples, 1-minute rows and 1-hour rows, and what one downsampling run
    does to them (gui/metrics_store.py). Times appear as the sort keys of their
    texts, because SQLite compares the texts. */
module MetricTiers {
  import opened Prelude
  import opened IsoTime

  /** A table row. A raw sample is the row its own history query shows:
      average, minimum and maximum are its value, and it counts for one. */
  datatype Row = Row(metric: string, avg: real, lo: real, hi: real, count: nat, key: int)

  datatype Tables = Tables(raw: seq<Row>, minutes: seq<Row>, hours: seq<Row>)

  const METRIC_TYPES: set<string> := {"cpu", "mem", "disk", "net"}

  const RAW_WINDOW := 24 * 3600
  const MINUTE_WINDOW := 7 * 24 * 3600
  const HOUR_WINDOW := 30 * 24 * 3600

  function SampleRow(metric: string, value: real, at: Instant): Row {
    Row(metric, value, value, value, 1, SortKey(at))
  }

  predicate IsSample(r: Row) {
    r.count == 1 && r.avg == r.lo == r.hi
  }

  // ---- SQL aggregates ------------------------------------------------------

  function MinLo(rows: seq<Row>): real
    requires rows != []
  {
    if |rows| == 1 then rows[0].lo
    else var m := MinLo(rows[1..]); if rows[0].lo < m then rows[0].lo else m
  }

  function MaxHi(rows: seq<Row>): real
    requires rows != []
  {
    if |rows| == 1 then rows[0].hi
    else var m := MaxHi(rows[1..]); if rows[0].hi > m then rows[0].hi else m
  }

  function SumCount(rows: seq<Row>): nat {
    if rows == [] then 0 else rows[0].count + SumCount(rows[1..])
  }

  function SumAvg(rows: seq<Row>): real {
    if rows == [] then 0.0 else rows[0].avg + SumAvg(rows[1..])
  }

  /** AVG, MIN, MAX and SUM(count) over one group; AVG ignores the counts. */
  function Summary(group: seq<Row>, key: int): Row
    requires group != []
  {
    Row(group[0].metric, SumAvg(group) / |group| as real, MinLo(group), MaxHi(group), SumCount(group), key)
  }

  predicate SameGroup(a: Row, b: Row, w: int)
    requires 0 < w
  {
    a.metric == b.metric && Bucket(a.key, w) == Bucket(b.key, w)
  }

  function InGroup(a: Row, w: int): Row -> bool
    requires 0 < w
  {
    (r: Row) => SameGroup(a, r, w)
  }

  function OutOfGroup(a: Row, w: int): Row -> bool
    requires 0 < w
  {
    (r: Row) => !SameGroup(a, r, w)
  }

  /** SELECT ... GROUP BY metric_type, bucket. */
  function GroupBy(rows: seq<Row>, w: int): seq<Row>
    requires 0 < w
    decreases |rows|
  {
    if rows == [] then [] else
    var group := Filter(rows, InGroup(rows[0], w));
    assert rows[0] in group;
    var rest := Filter(rows, OutOfGroup(rows[0], w));
    assert rest == Filter(rows[1..], OutOfGroup(rows[0], w));
    [Summary(group, Bucket(rows[0].key, w))] + GroupBy(rest, w)
  }

  // ---- One downsampling run ------------------------------------------------

  function Older(cutoff: int): Row -> bool {
    (r: Row) => r.key < cutoff
  }

  function Recent(cutoff: int): Row -> bool {
    (r: Row) => !(r.key < cutoff)
  }

  function Cut(key: int, window: int): int {
    key - window * TICKS
  }

  /** The tables after downsampling at a time whose sort key is key. */
  function Rolled(t: Tables, key: int): Tables {
    var newMinutes := GroupBy(Filter(t.raw, Older(Cut(key, RAW_WINDOW))), MINUTE);
    var minutes := t.minutes + newMinutes;
    var newHours := GroupBy(Filter(minutes, Older(Cut(key, MINUTE_WINDOW))), HOUR);
    var hours := t.hours + newHours;
    Tables(Filter(t.raw, Recent(Cut(key, RAW_WINDOW))),
           Filter(minutes, Recent(Cut(key, MINUTE_WINDOW))),
           Filter(hours, Recent(Cut(key, HOUR_WINDOW))))
  }

  // ---- What a collection of rows says --------------------------------------

  /** Count, extremes and count-weighted sum of some rows. */
  datatype Stat = Nothing | Stat(count: nat, lo: real, hi: real, sum: real) {
    /** The same without the sum: a 1-hour average forgets the weights. */
    function Loose(): Stat {
      match this
      case Nothing => Nothing
      case Stat(c, l, h, _) => Stat(c, l, h, 0.0)
    }
  }

  function Min(a: real, b: real): real { if b < a then b else a }
  function Max(a: real, b: real): real { if b > a then b else a }

  function Merge(a: Stat, b: Stat): Stat {
    if a.Nothing? then b
    else if b.Nothing? then a
    else Stat(a.count + b.count, Min(a.lo, b.lo), Max(a.hi, b.hi), a.sum + b.sum)
  }

  function StatOf(r: Row): Stat {
    Stat(r.count, r.lo, r.hi, r.avg * r.count as real)
  }

  /** The statistic of the rows satisfying p. */
  function Tally(rows: seq<Row>, p: Row -> bool): Stat {
    if rows == [] then Nothing
    else if p(rows[0]) then Merge(StatOf(rows[0]), Tally(rows[1..], p))
    else Tally(rows[1..], p)
  }

  lemma {:induction false} TallyConcat(a: seq<Row>, b: seq<Row>, p: Row -> bool)
    ensures Tally(a + b, p) == Merge(Tally(a, p), Tally(b, p))
  {
    if a == [] {
      assert a + b == b;
    } else {
      assert (a + b)[1..] == a[1..] + b;
      TallyConcat(a[1..], b, p);
    }
  }

  /** Splitting the selection z into disjoint p and q splits the statistic. */
  lemma {:induction false} TallySplit(rows: seq<Row>, p: Row -> bool, q: Row -> bool, z: Row -> bool)
    requires forall r :: r in rows ==> (z(r) <==> p(r) || q(r)) && !(p(r) && q(r))
    ensures Tally(rows, z) == Merge(Tally(rows, p), Tally(rows, q))
  {
    if rows != [] {
      assert rows[0] in rows;
      TallySplit(rows[1..], p, q, z);
    }
  }

  lemma {:induction false} TallyFilter(rows: seq<Row>, q: Row -> bool, p: Row -> bool, z: Row -> bool)
    requires forall r :: r in rows ==> (z(r) <==> q(r) && p(r))
    ensures Tally(Filter(rows, q), p) == Tally(rows, z)
  {
    if rows != [] {
      assert rows[0] in rows;
      TallyFilter(rows[1..], q, p, z);
      if q(rows[0]) {
        assert Filter(rows, q)[1..] == Filter(rows[1..], q);
      }
    }
  }

  lemma {:induction false} TallySame(rows: seq<Row>, p: Row -> bool, q: Row -> bool)
    requires forall r :: r in rows ==> (p(r) <==> q(r))
    ensures Tally(rows, p) == Tally(rows, q)
  {
    if rows != [] {
      assert rows[0] in rows;
      TallySame(rows[1..], p, q);
    }
  }

  lemma {:induction false} TallyNone(rows: seq<Row>, p: Row -> bool)
    requires forall r :: r in rows ==> !p(r)
    ensures Tally(rows, p) == Nothing
  {
    if rows != [] {
      assert rows[0] in rows;
      TallyNone(rows[1..], p);
    }
  }

  lemma MergeLoose(a: Stat, b: Stat)
    ensures Merge(a, b).Loose() == Merge(a.Loose(), b.Loose())
  {
  }

  // ---- Grouping keeps the statistic ----------------------------------------

  lemma {:induction false} TallyWhole(group: seq<Row>, p: Row -> bool)
    requires group != [] && forall r :: r in group ==> p(r)
    ensures Tally(group, p).Loose() == Stat(SumCount(group), MinLo(group), MaxHi(group), 0.0)
    ensures (forall r :: r in group ==> r.count == 1) ==>
              SumCount(group) == |group| && Tally(group, p).sum == SumAvg(group)
  {
    assert group[0] in group;
    if |group| > 1 {
      TallyWhole(group[1..], p);
    }
  }

  lemma SummaryStat(group: seq<Row>, key: int, p: Row -> bool)
    requires group != [] && forall r :: r in group ==> p(r)
    ensures StatOf(Summary(group, key)).Loose() == Tally(group, p).Loose()
    ensures (forall r :: r in group ==> r.count == 1) ==> StatOf(Summary(group, key)) == Tally(group, p)
  {
    TallyWhole(group, p);
  }

  /** p looks at a row's metric and bucket only. */
  ghost predicate ByBucket(p: Row -> bool, w: int)
    requires 0 < w
  {
    forall a, b :: SameGroup(a, b, w) ==> p(a) == p(b)
  }

  lemma BucketTwice(key: int, w: int)
    requires 0 < w
    ensures Bucket(Bucket(key, w), w) == Bucket(key, w)
  {
  }

  /** A selection by metric and bucket sees the same counts and extremes before
      and after grouping, and the same sum when every row counts for one. */
  lemma {:induction false} GroupByKeepsTally(rows: seq<Row>, w: int, p: Row -> bool)
    requires 0 < w && ByBucket(p, w)
    ensures Tally(GroupBy(rows, w), p).Loose() == Tally(rows, p).Loose()
    ensures (forall r :: r in rows ==> r.count == 1) ==> Tally(GroupBy(rows, w), p) == Tally(rows, p)
    decreases |rows|
  {
    if rows != [] {
      var first := rows[0];
      var pin, pout := (r: Row) => SameGroup(first, r, w) && p(r), (r: Row) => !SameGroup(first, r, w) && p(r);
      var group, rest := Filter(rows, InGroup(first, w)), Filter(rows, OutOfGroup(first, w));
      assert first in group;
      assert rest == Filter(rows[1..], OutOfGroup(first, w));
      TallySplit(rows, pin, pout, p);
      TallyFilter(rows, InGroup(first, w), p, pin);
      TallyFilter(rows, OutOfGroup(first, w), p, pout);
      GroupByKeepsTally(rest, w, p);
      var row := Summary(group, Bucket(first.key, w));
      assert group[0] in group;
      BucketTwice(first.key, w);
      assert SameGroup(row, first, w);
      if p(first) {
        SummaryStat(group, Bucket(first.key, w), p);
      } else {
        TallyNone(group, p);
      }
      MergeLoose(Tally(group, p), Tally(rest, p));
      MergeLoose(StatOf(row), Tally(GroupBy(rest, w), p));
    }
  }

  /** Every aggregate row starts a bucket and stands for a row r that is there. */
  lemma {:induction false} GroupByKeys(rows: seq<Row>, w: int, g: Row) returns (r: Row)
    requires 0 < w && g in GroupBy(rows, w)
    ensures Bucket(g.key, w) == g.key
    ensures r in rows && SameGroup(g, r, w)
    decreases |rows|
  {
    var first := rows[0];
    var group, rest := Filter(rows, InGroup(first, w)), Filter(rows, OutOfGroup(first, w));
    assert first in group && group[0] in group;
    assert rest == Filter(rows[1..], OutOfGroup(first, w));
    if g == Summary(group, Bucket(first.key, w)) {
      BucketTwice(first.key, w);
      r := first;
    } else {
      r := GroupByKeys(rest, w, g);
    }
  }

  function TotalAvg(rows: seq<Row>): real {
    if rows == [] then 0.0 else TotalAvg(rows[..|rows| - 1]) + rows[|rows| - 1].avg
  }

  lemma {:induction false} SumIsTotal(rows: seq<Row>)
    ensures SumAvg(rows) == TotalAvg(rows)
  {
    if |rows| == 1 {
      assert rows[..0] == [] && rows[1..] == [];
    } else if |rows| > 1 {
      var first, mid, last := rows[0], rows[1..|rows| - 1], rows[|rows| - 1];
      var init := rows[..|rows| - 1];
      assert rows[1..][..|rows| - 2] == mid && init[1..] == mid;
      SumIsTotal(rows[1..]);
      SumIsTotal(init);
      SumIsTotal(mid);
    }
  }

  /** g carries the unweighted mean of the averages of its rows, whatever they count. */
  predicate MeanOf(g: Row, group: seq<Row>) {
    group != [] && g.avg * |group| as real == TotalAvg(group)
  }

  lemma MeanOfSummary(group: seq<Row>, key: int)
    requires group != []
    ensures MeanOf(Summary(group, key), group)
  {
    SumIsTotal(group);
    Divided(SumAvg(group), |group| as real, SumAvg(group) / |group| as real);
  }

  lemma SameRest(rows: seq<Row>, first: Row, g: Row, w: int)
    requires 0 < w && !SameGroup(first, g, w)
    ensures Filter(Filter(rows, OutOfGroup(first, w)), InGroup(g, w)) == Filter(rows, InGroup(g, w))
  {
    FilterTwice(rows, OutOfGroup(first, w), InGroup(g, w), InGroup(g, w));
  }

  /** AVG over a group. */
  lemma {:induction false} GroupByMeans(rows: seq<Row>, w: int, g: Row)
    requires 0 < w && g in GroupBy(rows, w)
    ensures MeanOf(g, Filter(rows, InGroup(g, w)))
    decreases |rows|
  {
    var first := rows[0];
    var group, rest := Filter(rows, InGroup(first, w)), Filter(rows, OutOfGroup(first, w));
    assert first in group && group[0] in group;
    assert rest == Filter(rows[1..], OutOfGroup(first, w));
    var head := Summary(group, Bucket(first.key, w));
    BucketTwice(first.key, w);
    if g == head {
      MeanOfSummary(group, Bucket(first.key, w));
      FilterSame(rows, InGroup(first, w), InGroup(g, w));
    } else {
      GroupByMeans(rest, w, g);
      var r := GroupByKeys(rest, w, g);
      SameRest(rows, first, g, w);
    }
  }

  lemma {:induction false} GroupByAligned(rows: seq<Row>, w: int)
    requires 0 < w
    ensures Aligned(GroupBy(rows, w), w)
  {
    forall g | g in GroupBy(rows, w) ensures Bucket(g.key, w) == g.key {
      var r := GroupByKeys(rows, w, g);
    }
  }

  lemma HeadGroup(rows: seq<Row>, w: int)
    requires 0 < w && rows != []
    ensures GroupBy(rows, w) != [] && SameGroup(GroupBy(rows, w)[0], rows[0], w)
  {
    var group := Filter(rows, InGroup(rows[0], w));
    assert rows[0] in group && group[0] in group;
    BucketTwice(rows[0].key, w);
  }

  /** No two of these rows share metric and bucket. */
  predicate DistinctGroups(gs: seq<Row>, w: int)
    requires 0 < w
  {
    gs == [] || ((forall g :: g in gs[1..] ==> !SameGroup(gs[0], g, w)) && DistinctGroups(gs[1..], w))
  }

  /** One run makes at most one row for a metric and bucket. */
  lemma {:induction false} GroupByDistinct(rows: seq<Row>, w: int)
    requires 0 < w
    ensures DistinctGroups(GroupBy(rows, w), w)
    decreases |rows|
  {
    if rows != [] {
      var first := rows[0];
      var rest := Filter(rows, OutOfGroup(first, w));
      assert rest == Filter(rows[1..], OutOfGroup(first, w));
      GroupByDistinct(rest, w);
      HeadGroup(rows, w);
      var out := GroupBy(rows, w);
      assert out[1..] == GroupBy(rest, w);
      forall g | g in out[1..] ensures !SameGroup(out[0], g, w) {
        var r := GroupByKeys(rest, w, g);
      }
    }
  }

  // ---- Averages stay between the extremes ----------------------------------

  predicate Bounded(r: Row) {
    r.lo <= r.avg <= r.hi && 1 <= r.count
  }

  /** MIN and MAX bound every row of the group. */
  lemma {:induction false} Extremes(group: seq<Row>)
    requires group != []
    ensures forall r :: r in group ==> MinLo(group) <= r.lo && r.hi <= MaxHi(group)
  {
    if |group| > 1 {
      Extremes(group[1..]);
    }
  }

  /** x added up n times. */
  function Times(x: real, n: nat): real {
    if n == 0 then 0.0 else x + Times(x, n - 1)
  }

  lemma {:induction false} TimesIsProduct(x: real, n: nat)
    ensures Times(x, n) == x * n as real
  {
    if n > 0 {
      TimesIsProduct(x, n - 1);
      OneMore(x, (n - 1) as real);
    }
  }

  lemma OneMore(a: real, n: real)
    ensures a * (n + 1.0) == a * n + a
  {
  }

  lemma {:induction false} SumBounds(group: seq<Row>, lo: real, hi: real)
    requires forall r :: r in group ==> lo <= r.avg <= hi
    ensures Times(lo, |group|) <= SumAvg(group) <= Times(hi, |group|)
  {
    if group != [] {
      assert group[0] in group;
      SumBounds(group[1..], lo, hi);
    }
  }

  lemma MeanBounds(group: seq<Row>)
    requires group != [] && forall r :: r in group ==> Bounded(r)
    ensures Times(MinLo(group), |group|) <= SumAvg(group) <= Times(MaxHi(group), |group|)
    ensures 1 <= SumCount(group)
  {
    Extremes(group);
    forall r | r in group ensures MinLo(group) <= r.avg <= MaxHi(group) {
      assert Bounded(r);
    }
    SumBounds(group, MinLo(group), MaxHi(group));
    assert Bounded(group[0]) by { assert group[0] in group; }
  }

  lemma Positive(d: real, n: real, dn: real)
    requires 0.0 < d && 0.0 < n && dn == d * n
    ensures 0.0 < dn
  {
  }

  lemma Cancel(a: real, b: real, n: real, an: real, bn: real)
    requires 0.0 < n && an == a * n && bn == b * n && an <= bn
    ensures a <= b
  {
    var d := a - b;
    assert d * n == an - bn;
    if 0.0 < d {
      Positive(d, n, d * n);
    }
  }

  lemma Divided(sum: real, n: real, q: real)
    requires 0.0 < n && q == sum / n
    ensures q * n == sum
  {
  }

  lemma Quotients(lo: real, sum: real, hi: real, n: nat)
    requires 0 < n && Times(lo, n) <= sum <= Times(hi, n)
    ensures lo <= sum / n as real <= hi
  {
    var k := n as real;
    var q := sum / k;
    TimesIsProduct(lo, n);
    TimesIsProduct(hi, n);
    Divided(sum, k, q);
    Cancel(lo, q, k, Times(lo, n), sum);
    Cancel(q, hi, k, sum, Times(hi, n));
  }

  lemma {:induction false} GroupByBounded(rows: seq<Row>, w: int)
    requires 0 < w && forall r :: r in rows ==> Bounded(r)
    ensures forall g :: g in GroupBy(rows, w) ==> Bounded(g)
    decreases |rows|
  {
    if rows != [] {
      var group := Filter(rows, InGroup(rows[0], w));
      assert rows[0] in group;
      MeanBounds(group);
      Quotients(MinLo(group), SumAvg(group), MaxHi(group), |group|);
      var rest := Filter(rows, OutOfGroup(rows[0], w));
      assert rest == Filter(rows[1..], OutOfGroup(rows[0], w));
      GroupByBounded(rest, w);
    }
  }

  // ---- Which tier a sample belongs to --------------------------------------

  datatype Tier = Raw | Minutes | Hours | Pruned

  /** A pure function of the sample's own time and the time of the last run. */
  function TierOf(r: Row, key: int): Tier {
    if !(r.key < Cut(key, RAW_WINDOW)) then Raw
    else if !(Bucket(r.key, MINUTE) < Cut(key, MINUTE_WINDOW)) then Minutes
    else if !(Bucket(r.key, HOUR) < Cut(key, HOUR_WINDOW)) then Hours
    else Pruned
  }

  function InTier(tier: Tier, key: int): Row -> bool {
    (r: Row) => TierOf(r, key) == tier
  }

  function TierAnd(tier: Tier, key: int, p: Row -> bool): Row -> bool {
    (r: Row) => TierOf(r, key) == tier && p(r)
  }

  /** Every aggregate row of this table starts a bucket. */
  predicate Aligned(rows: seq<Row>, w: int)
    requires 0 < w
  {
    forall r :: r in rows ==> Bucket(r.key, w) == r.key
  }

  /** Seen through any selection by metric and minute, the rows and the samples agree. */
  ghost predicate MinutesAgree(minutes: seq<Row>, history: seq<Row>, key: int) {
    forall p: Row -> bool :: ByBucket(p, MINUTE) ==> Tally(minutes, p) == Tally(history, TierAnd(Minutes, key, p))
  }

  /** Seen through any selection by metric and hour, counts and extremes agree. */
  ghost predicate HoursAgree(hours: seq<Row>, history: seq<Row>, key: int) {
    forall p: Row -> bool :: ByBucket(p, HOUR) ==>
      Tally(hours, p).Loose() == Tally(history, TierAnd(Hours, key, p)).Loose()
  }

  predicate AllSamples(rows: seq<Row>) {
    forall r :: r in rows ==> IsSample(r)
  }

  lemma BucketNesting(key: int)
    ensures Bucket(Bucket(key, MINUTE), HOUR) == Bucket(key, HOUR)
    ensures Bucket(key, HOUR) <= Bucket(key, MINUTE) <= key
  {
    var h := key / HOUR;
    var r := key % HOUR;
    assert Bucket(key, MINUTE) == h * HOUR + (r - r % MINUTE) by {
      Quotient(key, MINUTE, h * 60 + r / MINUTE, r % MINUTE);
    }
    Quotient(Bucket(key, MINUTE), HOUR, h, r - r % MINUTE);
  }

  // ---- What a run leaves for a later one -----------------------------------

  /** What one run aggregates out of the raw table. */
  function Aged(raw: seq<Row>, key: int): seq<Row> {
    Filter(raw, Older(Cut(key, RAW_WINDOW)))
  }

  function MinutesBefore(t: Tables, key: int): seq<Row> {
    t.minutes + GroupBy(Aged(t.raw, key), MINUTE)
  }

  function AgedMinutes(t: Tables, key: int): seq<Row> {
    Filter(MinutesBefore(t, key), Older(Cut(key, MINUTE_WINDOW)))
  }

  function HoursBefore(t: Tables, key: int): seq<Row> {
    t.hours + GroupBy(AgedMinutes(t, key), HOUR)
  }

  function KeptMinutes(key: int, p: Row -> bool): Row -> bool {
    (r: Row) => !(Bucket(r.key, MINUTE) < Cut(key, MINUTE_WINDOW)) && p(r)
  }

  function KeptHours(key: int, p: Row -> bool): Row -> bool {
    (r: Row) => !(Bucket(r.key, HOUR) < Cut(key, HOUR_WINDOW)) && p(r)
  }

  /** 1-minute rows that a run at key moves into hours it keeps. */
  function Moving(key: int, p: Row -> bool): Row -> bool {
    (r: Row) => Bucket(r.key, MINUTE) < Cut(key, MINUTE_WINDOW) && KeptHours(key, p)(r)
  }

  /** What the 1-minute table would say after a run at key. */
  function ForeseenMinutes(t: Tables, key: int, p: Row -> bool): Stat {
    Merge(Tally(t.minutes, KeptMinutes(key, p)), Tally(t.raw, TierAnd(Minutes, key, p)))
  }

  /** What the 1-hour table would say after a run at key. */
  function ForeseenHours(t: Tables, key: int, p: Row -> bool): Stat {
    Merge(Tally(t.hours, KeptHours(key, p)), Merge(Tally(t.minutes, Moving(key, p)), Tally(t.raw, TierAnd(Hours, key, p))))
  }

  /** Tables as runs leave them. */
  predicate Tidy(t: Tables) {
    AllSamples(t.raw) && Aligned(t.minutes, MINUTE) && Aligned(t.hours, HOUR)
  }

  lemma RolledTidy(t: Tables, key: int)
    requires Tidy(t)
    ensures Tidy(Rolled(t, key))
    ensures Aligned(MinutesBefore(t, key), MINUTE) && Aligned(HoursBefore(t, key), HOUR)
  {
    GroupByAligned(Aged(t.raw, key), MINUTE);
    GroupByAligned(AgedMinutes(t, key), HOUR);
  }

  lemma MergeAssoc(a: Stat, b: Stat, c: Stat)
    ensures Merge(Merge(a, b), c) == Merge(a, Merge(b, c))
  {
  }

  /** The rows of a tier are among those a run aggregates and those it leaves raw. */
  lemma RawSplit(raw: seq<Row>, k: int, p: Row -> bool, z: Row -> bool)
    requires forall r: Row :: r.key < Cut(k, RAW_WINDOW) ==> (p(r) <==> z(r))
    ensures Tally(raw, z) == Merge(Tally(Aged(raw, k), p), Tally(Filter(raw, Recent(Cut(k, RAW_WINDOW))), z))
  {
    var older, recent := (r: Row) => Older(Cut(k, RAW_WINDOW))(r) && p(r), (r: Row) => Recent(Cut(k, RAW_WINDOW))(r) && z(r);
    TallyFilter(raw, Older(Cut(k, RAW_WINDOW)), p, older);
    TallyFilter(raw, Recent(Cut(k, RAW_WINDOW)), z, recent);
    TallySplit(raw, older, recent, z);
  }

  lemma BeforeTally(t: Tables, k: int, p: Row -> bool)
    requires AllSamples(t.raw) && ByBucket(p, MINUTE)
    ensures Tally(MinutesBefore(t, k), p) == Merge(Tally(t.minutes, p), Tally(Aged(t.raw, k), p))
  {
    TallyConcat(t.minutes, GroupBy(Aged(t.raw, k), MINUTE), p);
    GroupByKeepsTally(Aged(t.raw, k), MINUTE, p);
  }

  /** A run does not change what a run at the same or a later text will put
      into the 1-minute table. */
  lemma MinutesForeseen(t: Tables, k: int, key: int, p: Row -> bool)
    requires Tidy(t) && k <= key && ByBucket(p, MINUTE)
    ensures ForeseenMinutes(Rolled(t, k), key, p) == ForeseenMinutes(t, key, p)
  {
    var kept := KeptMinutes(key, p);
    assert ByBucket(kept, MINUTE);
    RolledTidy(t, k);
    TallyFilter(MinutesBefore(t, k), Recent(Cut(k, MINUTE_WINDOW)), kept, kept);
    BeforeTally(t, k, kept);
    RawSplit(t.raw, k, kept, TierAnd(Minutes, key, p));
    MergeAssoc(Tally(t.minutes, kept), Tally(Aged(t.raw, k), kept), Tally(Rolled(t, k).raw, TierAnd(Minutes, key, p)));
  }

  /** An hour that a later run keeps, seen from a minute that it moves. */
  lemma MovingTier(r: Row, k: int, key: int, p: Row -> bool)
    requires k <= key && r.key < Cut(k, RAW_WINDOW)
    ensures Moving(key, p)(r) <==> TierAnd(Hours, key, p)(r)
  {
    var kept := KeptHours(key, p);
    assert kept(r) <==> !(Bucket(r.key, HOUR) < Cut(key, HOUR_WINDOW)) && p(r);
    assert Moving(key, p)(r) <==> Bucket(r.key, MINUTE) < Cut(key, MINUTE_WINDOW) && kept(r);
    assert Cut(k, RAW_WINDOW) <= Cut(key, RAW_WINDOW);
  }

  lemma MovingByMinute(key: int, p: Row -> bool)
    requires ByBucket(p, HOUR)
    ensures ByBucket(Moving(key, p), MINUTE) && ByBucket(KeptHours(key, p), HOUR)
  {
    var kept := KeptHours(key, p);
    forall r: Row ensures Moving(key, p)(r) <==> Bucket(r.key, MINUTE) < Cut(key, MINUTE_WINDOW) && kept(r) {
    }
    assert ByBucket(kept, HOUR);
    forall a: Row, b: Row | SameGroup(a, b, MINUTE) ensures Moving(key, p)(a) == Moving(key, p)(b) {
      BucketNesting(a.key);
      BucketNesting(b.key);
      assert SameGroup(a, b, HOUR);
    }
  }

  /** 1-minute rows on their way into kept hours: those moved now and those to be moved. */
  lemma MinuteRowsSplit(t: Tables, k: int, key: int, p: Row -> bool)
    requires Tidy(t) && k <= key
    ensures Tally(MinutesBefore(t, k), Moving(key, p))
            == Merge(Tally(AgedMinutes(t, k), KeptHours(key, p)), Tally(Rolled(t, k).minutes, Moving(key, p)))
  {
    RolledTidy(t, k);
    var cut := Cut(k, MINUTE_WINDOW);
    var now, later := (r: Row) => Older(cut)(r) && KeptHours(key, p)(r), (r: Row) => Recent(cut)(r) && Moving(key, p)(r);
    TallyFilter(MinutesBefore(t, k), Older(cut), KeptHours(key, p), now);
    TallyFilter(MinutesBefore(t, k), Recent(cut), Moving(key, p), later);
    TallySplit(MinutesBefore(t, k), now, later, Moving(key, p));
  }

  lemma HourRows(t: Tables, k: int, key: int, p: Row -> bool)
    requires Tidy(t) && k <= key && ByBucket(p, HOUR)
    ensures Tally(Rolled(t, k).hours, KeptHours(key, p)).Loose()
            == Merge(Tally(t.hours, KeptHours(key, p)), Tally(AgedMinutes(t, k), KeptHours(key, p))).Loose()
  {
    var kept := KeptHours(key, p);
    MovingByMinute(key, p);
    RolledTidy(t, k);
    TallyFilter(HoursBefore(t, k), Recent(Cut(k, HOUR_WINDOW)), kept, kept);
    TallyConcat(t.hours, GroupBy(AgedMinutes(t, k), HOUR), kept);
    GroupByKeepsTally(AgedMinutes(t, k), HOUR, kept);
    MergeLoose(Tally(t.hours, kept), Tally(GroupBy(AgedMinutes(t, k), HOUR), kept));
    MergeLoose(Tally(t.hours, kept), Tally(AgedMinutes(t, k), kept));
  }

  lemma HourSum(h: Stat, m: Stat, a: Stat, b: Stat, c: Stat, raw: Stat, d: Stat)
    requires h.Loose() == Merge(m, a).Loose() && Merge(a, b) == Merge(c, d)
    ensures Merge(h, Merge(b, raw)).Loose() == Merge(m, Merge(c, Merge(d, raw))).Loose()
  {
    MergeLoose(h, Merge(b, raw));
    MergeLoose(Merge(m, a), Merge(b, raw));
    MergeAssoc(m, a, Merge(b, raw));
    MergeAssoc(a, b, raw);
    MergeAssoc(c, d, raw);
  }

  /** The same for the 1-hour table, in counts and extremes, through both levels. */
  lemma HoursForeseen(t: Tables, k: int, key: int, p: Row -> bool)
    requires Tidy(t) && k <= key && ByBucket(p, HOUR)
    ensures ForeseenHours(Rolled(t, k), key, p).Loose() == ForeseenHours(t, key, p).Loose()
  {
    var kept, moving, tier := KeptHours(key, p), Moving(key, p), TierAnd(Hours, key, p);
    var u := Rolled(t, k);
    MovingByMinute(key, p);
    HourRows(t, k, key, p);
    MinuteRowsSplit(t, k, key, p);
    BeforeTally(t, k, moving);
    forall r: Row | r.key < Cut(k, RAW_WINDOW) ensures moving(r) <==> tier(r) {
      MovingTier(r, k, key, p);
    }
    RawSplit(t.raw, k, moving, tier);
    HourSum(Tally(u.hours, kept), Tally(t.hours, kept), Tally(AgedMinutes(t, k), kept), Tally(u.minutes, moving),
            Tally(t.minutes, moving), Tally(u.raw, tier), Tally(Aged(t.raw, k), moving));
  }

  /** And no run takes a sample out of the raw table that a run at a later text would leave there. */
  lemma RawForeseen(t: Tables, k: int, key: int)
    requires k <= key
    ensures Filter(Rolled(t, k).raw, InTier(Raw, key)) == Filter(t.raw, InTier(Raw, key))
  {
    FilterTwice(t.raw, Recent(Cut(k, RAW_WINDOW)), InTier(Raw, key), InTier(Raw, key));
  }

  /** Every row a run adds to the 1-minute or the 1-hour table carries the mean of
      the averages of the rows of that metric and bucket that it replaces. */
  lemma RunMeans(t: Tables, key: int)
    ensures forall g :: g in Rolled(t, key).minutes ==>
              g in t.minutes || MeanOf(g, Filter(Aged(t.raw, key), InGroup(g, MINUTE)))
    ensures forall g :: g in Rolled(t, key).hours ==>
              g in t.hours || MeanOf(g, Filter(AgedMinutes(t, key), InGroup(g, HOUR)))
  {
    forall g | g in Rolled(t, key).minutes && g !in t.minutes
      ensures MeanOf(g, Filter(Aged(t.raw, key), InGroup(g, MINUTE)))
    {
      GroupByMeans(Aged(t.raw, key), MINUTE, g);
    }
    forall g | g in Rolled(t, key).hours && g !in t.hours
      ensures MeanOf(g, Filter(AgedMinutes(t, key), InGroup(g, HOUR)))
    {
      GroupByMeans(AgedMinutes(t, key), HOUR, g);
    }
  }

  /** A run at key puts into each table what was foreseen for it. */
  lemma RollFulfils(t: Tables, key: int, p: Row -> bool)
    requires Tidy(t)
    ensures Rolled(t, key).raw == Filter(t.raw, InTier(Raw, key))
    ensures ByBucket(p, MINUTE) ==> Tally(Rolled(t, key).minutes, p) == ForeseenMinutes(t, key, p)
    ensures ByBucket(p, HOUR) ==> Tally(Rolled(t, key).hours, p).Loose() == ForeseenHours(t, key, p).Loose()
  {
    var u := Rolled(t, key);
    RolledTidy(t, key);
    FilterSame(t.raw, Recent(Cut(key, RAW_WINDOW)), InTier(Raw, key));
    TallyNone(u.raw, TierAnd(Minutes, key, p));
    TallyNone(u.raw, TierAnd(Hours, key, p));
    TallyNone(u.minutes, Moving(key, p));
    TallySame(u.minutes, KeptMinutes(key, p), p);
    TallySame(u.hours, KeptHours(key, p), p);
    if ByBucket(p, MINUTE) {
      MinutesForeseen(t, key, key, p);
    }
    if ByBucket(p, HOUR) {
      HoursForeseen(t, key, key, p);
    }
  }
}

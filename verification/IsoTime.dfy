/** Timestamps as the metrics store writes them to its TEXT columns, and the
    order in which SQLite compares those texts (gui/metrics_store.py). */
module IsoTime {
  import opened Prelude
  import opened Text

  // ---- Calendar ------------------------------------------------------------

  /** A naive timestamp, field by field. */
  datatype DateTime = DateTime(year: int, month: int, day: int, hour: int, minute: int, second: int, micro: int)

  predicate IsLeap(y: int) {
    y % 4 == 0 && (y % 100 != 0 || y % 400 == 0)
  }

  function DaysInMonth(y: int, m: int): int {
    if m == 2 then (if IsLeap(y) then 29 else 28)
    else if m == 4 || m == 6 || m == 9 || m == 11 then 30
    else 31
  }

  /** The ranges the datetime constructor enforces. */
  predicate Valid(t: DateTime) {
    && 1 <= t.year <= 9999 && 1 <= t.month <= 12 && 1 <= t.day <= DaysInMonth(t.year, t.month)
    && 0 <= t.hour < 24 && 0 <= t.minute < 60 && 0 <= t.second < 60 && 0 <= t.micro < 1_000_000
  }

  function DaysBeforeYear(y: int): int {
    (y - 1) * 365 + (y - 1) / 4 - (y - 1) / 100 + (y - 1) / 400
  }

  function DaysBeforeMonth(y: int, m: int): int
    requires 1 <= m <= 13
  {
    if m == 1 then 0 else DaysBeforeMonth(y, m - 1) + DaysInMonth(y, m - 1)
  }

  /** Seconds since 0001-01-01T00:00:00. */
  function Seconds(t: DateTime): int
    requires Valid(t)
  {
    (DaysBeforeYear(t.year) + DaysBeforeMonth(t.year, t.month) + t.day - 1) * 86400
    + t.hour * 3600 + t.minute * 60 + t.second
  }

  /** Microseconds since 0001-01-01T00:00:00. */
  type Instant = int

  function Chrono(t: DateTime): Instant
    requires Valid(t)
  {
    Seconds(t) * 1_000_000 + t.micro
  }

  /** Field-by-field order on the whole-second part. */
  predicate Earlier(a: DateTime, b: DateTime) {
    if a.year != b.year then a.year < b.year
    else if a.month != b.month then a.month < b.month
    else if a.day != b.day then a.day < b.day
    else if a.hour != b.hour then a.hour < b.hour
    else if a.minute != b.minute then a.minute < b.minute
    else a.second < b.second
  }

  lemma {:induction false} YearsGrow(a: int, b: int)
    requires 1 <= a < b
    ensures DaysBeforeYear(a) + DaysBeforeMonth(a, 13) <= DaysBeforeYear(b)
    decreases b
  {
    assert DaysBeforeYear(b - 1) + DaysBeforeMonth(b - 1, 13) == DaysBeforeYear(b) by { YearLength(b - 1); }
    if a < b - 1 {
      YearsGrow(a, b - 1);
      MonthsGrow(b - 1, 1, 13);
    }
  }

  lemma YearLength(y: int)
    requires 1 <= y
    ensures DaysBeforeMonth(y, 13) == 365 + (if IsLeap(y) then 1 else 0)
    ensures DaysBeforeYear(y + 1) == DaysBeforeYear(y) + DaysBeforeMonth(y, 13)
  {
    MonthTotals(y);
    LeapDays(y);
  }

  lemma MonthTotals(y: int)
    ensures DaysBeforeMonth(y, 13) == 365 + (if IsLeap(y) then 1 else 0)
  {
    var leap := if IsLeap(y) then 1 else 0;
    assert DaysBeforeMonth(y, 2) == 31;
    assert DaysBeforeMonth(y, 3) == 59 + leap;
    assert DaysBeforeMonth(y, 5) == 120 + leap;
    assert DaysBeforeMonth(y, 7) == 181 + leap;
    assert DaysBeforeMonth(y, 9) == 243 + leap;
    assert DaysBeforeMonth(y, 11) == 304 + leap;
  }

  lemma LeapDays(y: int)
    requires 1 <= y
    ensures DaysBeforeYear(y + 1) == DaysBeforeYear(y) + 365 + (if IsLeap(y) then 1 else 0)
  {
    Carry(y, 4);
    Carry(y, 100);
    Carry(y, 400);
    CenturyMultiples(y);
  }

  lemma CenturyMultiples(y: int)
    ensures y % 400 == 0 ==> y % 100 == 0
    ensures y % 100 == 0 ==> y % 4 == 0
  {
    if y % 400 == 0 { Quotient(y, 100, 4 * (y / 400), 0); }
    if y % 100 == 0 { Quotient(y, 4, 25 * (y / 100), 0); }
  }

  lemma Carry(y: int, n: int)
    requires 1 <= y && 1 <= n
    ensures y / n == (y - 1) / n + (if y % n == 0 then 1 else 0)
  {
    var q, r := (y - 1) / n, (y - 1) % n;
    assert y == n * q + r + 1;
    if r + 1 == n {
      Quotient(y, n, q + 1, 0);
    } else {
      Quotient(y, n, q, r + 1);
    }
  }

  lemma Quotient(x: int, n: int, q: int, r: int)
    requires 0 < n && 0 <= r < n && x == n * q + r
    ensures x / n == q && x % n == r
  {
    var d := x / n - q;
    assert n * (x / n) + x % n == n * q + r;
    assert n * d == r - x % n;
    Multiple(n, d);
  }

  lemma Multiple(n: int, d: int)
    requires 0 < n
    ensures d >= 1 ==> n * d >= n
    ensures d <= -1 ==> n * d <= -n
  {
  }

  lemma {:induction false} MonthsGrow(y: int, a: int, b: int)
    requires 1 <= a < b <= 13
    ensures DaysBeforeMonth(y, a) + DaysInMonth(y, a) <= DaysBeforeMonth(y, b)
    ensures 0 <= DaysBeforeMonth(y, a)
  {
    if a + 1 < b {
      MonthsGrow(y, a, b - 1);
    } else if 1 < a {
      MonthsGrow(y, 1, a);
    }
  }

  lemma DayOfYear(t: DateTime)
    requires Valid(t)
    ensures 0 <= DaysBeforeMonth(t.year, t.month) + t.day - 1 < DaysBeforeMonth(t.year, 13)
  {
    MonthsGrow(t.year, t.month, 13);
  }

  /** Field order is calendar order: an earlier field tuple is an earlier second. */
  lemma EarlierGrows(a: DateTime, b: DateTime)
    requires Valid(a) && Valid(b) && Earlier(a, b)
    ensures Seconds(a) < Seconds(b)
  {
    var da := DaysBeforeYear(a.year) + DaysBeforeMonth(a.year, a.month) + a.day - 1;
    var db := DaysBeforeYear(b.year) + DaysBeforeMonth(b.year, b.month) + b.day - 1;
    DayOfYear(a);
    DayOfYear(b);
    if a.year != b.year {
      YearsGrow(a.year, b.year);
      assert da < db;
    } else if a.month != b.month {
      MonthsGrow(a.year, a.month, b.month);
      assert da < db;
    }
  }

  lemma SecondsOrder(a: DateTime, b: DateTime)
    requires Valid(a) && Valid(b)
    ensures Earlier(a, b) <==> Seconds(a) < Seconds(b)
    ensures Seconds(a) == Seconds(b) <==> a.(micro := 0) == b.(micro := 0)
  {
    if Earlier(a, b) {
      EarlierGrows(a, b);
    } else if Earlier(b, a) {
      EarlierGrows(b, a);
    }
  }

  /** The length of a month, by knuckles and centuries. */
  function MonthLength(y: int, m: int): int {
    if m == 2 then 28 + (if (y % 4 == 0 && y % 100 != 0) || y % 400 == 0 then 1 else 0) else 30 + (m + m / 8) % 2
  }

  /** u is the same time one day later on the calendar. */
  predicate DayAfter(t: DateTime, u: DateTime) {
    && u.hour == t.hour && u.minute == t.minute && u.second == t.second && u.micro == t.micro
    && if t.day < MonthLength(t.year, t.month) then u.year == t.year && u.month == t.month && u.day == t.day + 1
       else if t.month < 12 then u.year == t.year && u.month == t.month + 1 && u.day == 1
       else u.year == t.year + 1 && u.month == 1 && u.day == 1
  }

  /** The instant of a timestamp follows the calendar: a day on it is 24 hours,
      over the ends of months, of leap years and of centuries. */
  lemma DayIsADay(t: DateTime, u: DateTime)
    requires Valid(t) && Valid(u) && DayAfter(t, u)
    ensures Chrono(u) == Chrono(t) + 86_400_000_000
  {
    assert DaysInMonth(t.year, t.month) == MonthLength(t.year, t.month);
    if t.day == MonthLength(t.year, t.month) {
      assert DaysBeforeMonth(t.year, t.month + 1) == DaysBeforeMonth(t.year, t.month) + DaysInMonth(t.year, t.month);
      if t.month == 12 {
        YearLength(t.year);
      }
    }
  }

  // ---- Decimal text --------------------------------------------------------

  /** n in exactly w decimal digits, zero padded. */
  function Digits(n: nat, w: nat): (s: string)
    ensures |s| == w
    ensures forall i :: 0 <= i < w ==> IsDigit(s[i])
  {
    if w == 0 then "" else Digits(n / 10, w - 1) + [DigitChar(n % 10)]
  }

  function Pow10(w: nat): (p: nat)
    ensures 1 <= p
  {
    if w == 0 then 1 else 10 * Pow10(w - 1)
  }

  lemma {:induction false} ValueOfDigits(n: nat, w: nat)
    requires n < Pow10(w)
    ensures Number(Digits(n, w)) == n
  {
    if w > 0 {
      ValueOfDigits(n / 10, w - 1);
      assert Digits(n, w)[..w - 1] == Digits(n / 10, w - 1);
    }
  }

  /** strptime's %f: a fraction of one to six digits is padded to six on the right. */
  function PadMicros(s: string): (n: nat)
    requires |s| <= 6 && forall i :: 0 <= i < |s| ==> IsDigit(s[i])
  {
    Number(s) * Pow10(6 - |s|)
  }

  // ---- Writing -------------------------------------------------------------

  /** YYYY-MM-DDTHH:MM:SS */
  function WholeText(t: DateTime): string
    requires Valid(t)
  {
    Digits(t.year, 4) + ("-" + (Digits(t.month, 2) + ("-" + (Digits(t.day, 2) + ("T" +
    (Digits(t.hour, 2) + (":" + (Digits(t.minute, 2) + (":" + Digits(t.second, 2))))))))))
  }

  /** isoformat() leaves the fraction out when it is zero. */
  function FractionText(t: DateTime): string
    requires Valid(t)
  {
    if t.micro == 0 then "" else "." + Digits(t.micro, 6)
  }

  function ToIso(t: DateTime): string
    requires Valid(t)
  {
    WholeText(t) + (FractionText(t) + "Z")
  }

  // ---- Reading -------------------------------------------------------------

  function StripZ(s: string): string {
    if s != "" && s[|s| - 1] == 'Z' then StripZ(s[..|s| - 1]) else s
  }

  /** Length of the run of digits at the front of s. */
  function DigitRun(s: string): (n: nat)
    ensures n <= |s|
    ensures forall i :: 0 <= i < n ==> IsDigit(s[i])
    ensures n < |s| ==> !IsDigit(s[n])
  {
    if s == "" || !IsDigit(s[0]) then 0 else 1 + DigitRun(s[1..])
  }

  /** One number of lo to hi digits and the text behind it. */
  function ReadNumber(s: string, lo: nat, hi: nat): (r: Option<(nat, string)>)
    ensures r.Some? ==> |r.value.1| < |s| || lo == 0
  {
    var n := DigitRun(s);
    if lo <= n <= hi then Some((Number(s[..n]), s[n..])) else None
  }

  /** A separator; strptime matches letters in either case. */
  function ReadChar(s: string, c: char): (r: Option<string>)
  {
    if s != "" && (s[0] == c || (c == 'T' && s[0] == 't')) then Some(s[1..]) else None
  }

  /** A number followed by a separator. */
  function ReadField(s: string, lo: nat, hi: nat, c: char): (r: Option<(nat, string)>)
  {
    match ReadNumber(s, lo, hi)
    case None => None
    case Some((n, rest)) =>
      match ReadChar(rest, c)
      case None => None
      case Some(tail) => Some((n, tail))
  }

  /** What follows the minute's colon: seconds, and a fraction exactly when one is expected. */
  function ReadSeconds(s: string, fraction: bool): (r: Option<(nat, nat)>)
  {
    if fraction then
      match ReadField(s, 1, 2, '.')
      case None => None
      case Some((sec, rest)) =>
        var n := DigitRun(rest);
        if 1 <= n <= 6 && n == |rest| then Some((sec, PadMicros(rest))) else None
    else
      match ReadNumber(s, 1, 2)
      case None => None
      case Some((sec, rest)) => if rest == "" then Some((sec, 0)) else None
  }

  /** The whole text, once it is known whether a fraction is expected; the
      datetime constructor rejects out-of-range fields. */
  function ReadAll(s: string, fraction: bool): (r: Option<DateTime>)
    ensures r.Some? ==> Valid(r.value)
  {
    var y := ReadField(s, 4, 4, '-');
    if y.None? then None else
    var mo := ReadField(y.value.1, 1, 2, '-');
    if mo.None? then None else
    var d := ReadField(mo.value.1, 1, 2, 'T');
    if d.None? then None else
    var h := ReadField(d.value.1, 1, 2, ':');
    if h.None? then None else
    var mi := ReadField(h.value.1, 1, 2, ':');
    if mi.None? then None else
    var sf := ReadSeconds(mi.value.1, fraction);
    if sf.None? then None else
    var t := DateTime(y.value.0, mo.value.0, d.value.0, h.value.0, mi.value.0, sf.value.0, sf.value.1);
    if Valid(t) then Some(t) else None
  }

  /** strptime on the text without its trailing "Z"; None stands for ValueError. */
  function FromIso(text: string): (r: Option<DateTime>)
    ensures r.Some? ==> Valid(r.value)
  {
    var s := StripZ(text);
    ReadAll(s, '.' in s)
  }

  // ---- Round trip ----------------------------------------------------------

  lemma {:induction false} RunOfDigits(s: string, rest: string)
    requires forall i :: 0 <= i < |s| ==> IsDigit(s[i])
    requires rest == "" || !IsDigit(rest[0])
    ensures DigitRun(s + rest) == |s|
  {
    if s == "" {
      assert s + rest == rest;
    } else {
      RunOfDigits(s[1..], rest);
      assert (s + rest)[1..] == s[1..] + rest;
    }
  }

  lemma NumberRead(n: nat, w: nat, rest: string, lo: nat, hi: nat)
    requires n < Pow10(w) && lo <= w <= hi
    requires rest == "" || !IsDigit(rest[0])
    ensures ReadNumber(Digits(n, w) + rest, lo, hi) == Some((n, rest))
  {
    var s := Digits(n, w) + rest;
    RunOfDigits(Digits(n, w), rest);
    assert s[..w] == Digits(n, w) && s[w..] == rest;
    ValueOfDigits(n, w);
  }

  lemma FieldRead(n: nat, w: nat, c: char, tail: string, lo: nat, hi: nat)
    requires n < Pow10(w) && lo <= w <= hi && !IsDigit(c)
    ensures ReadField(Digits(n, w) + ([c] + tail), lo, hi, c) == Some((n, tail))
  {
    NumberRead(n, w, [c] + tail, lo, hi);
    assert ([c] + tail)[1..] == tail;
  }

  lemma PowersOfTen()
    ensures Pow10(0) == 1 && Pow10(2) == 100 && Pow10(4) == 10_000 && Pow10(6) == 1_000_000
  {
    assert Pow10(2) == 10 * Pow10(1) && Pow10(1) == 10 * Pow10(0);
    assert Pow10(4) == 10 * Pow10(3) && Pow10(3) == 10 * Pow10(2);
    assert Pow10(6) == 10 * Pow10(5) && Pow10(5) == 10 * Pow10(4);
  }

  lemma SecondsRead(t: DateTime)
    requires Valid(t)
    ensures ReadSeconds(Digits(t.second, 2) + FractionText(t), t.micro != 0) == Some((t.second as nat, t.micro as nat))
  {
    PowersOfTen();
    if t.micro == 0 {
      NumberRead(t.second, 2, "", 1, 2);
    } else {
      var f := Digits(t.micro, 6);
      FieldRead(t.second, 2, '.', f, 1, 2);
      RunOfDigits(f, "");
      assert f + "" == f;
      ValueOfDigits(t.micro, 6);
    }
  }

  lemma DotInText(t: DateTime)
    requires Valid(t)
    ensures '.' in WholeText(t) + FractionText(t) <==> t.micro != 0
  {
    assert '.' !in Digits(t.year, 4) && '.' !in Digits(t.month, 2) && '.' !in Digits(t.day, 2);
    assert '.' !in Digits(t.hour, 2) && '.' !in Digits(t.minute, 2) && '.' !in Digits(t.second, 2);
    assert '.' !in WholeText(t);
    if t.micro != 0 {
      assert FractionText(t)[0] == '.';
    }
  }

  lemma AllRead(t: DateTime)
    requires Valid(t)
    ensures ReadAll(WholeText(t) + FractionText(t), t.micro != 0) == Some(t)
  {
    var s6 := Digits(t.second, 2) + FractionText(t);
    var s5 := Digits(t.minute, 2) + (":" + s6);
    var s4 := Digits(t.hour, 2) + (":" + s5);
    var s3 := Digits(t.day, 2) + ("T" + s4);
    var s2 := Digits(t.month, 2) + ("-" + s3);
    assert WholeText(t) + FractionText(t) == Digits(t.year, 4) + ("-" + s2);
    PowersOfTen();
    FieldRead(t.year, 4, '-', s2, 4, 4);
    FieldRead(t.month, 2, '-', s3, 1, 2);
    FieldRead(t.day, 2, 'T', s4, 1, 2);
    FieldRead(t.hour, 2, ':', s5, 1, 2);
    FieldRead(t.minute, 2, ':', s6, 1, 2);
    SecondsRead(t);
  }

  lemma LastIsDigit(t: DateTime)
    requires Valid(t)
    ensures var s := WholeText(t) + FractionText(t); s != "" && IsDigit(s[|s| - 1])
  {
    var s := WholeText(t) + FractionText(t);
    var tail := if t.micro == 0 then Digits(t.second, 2) else Digits(t.micro, 6);
    assert s[|s| - 1] == tail[|tail| - 1];
  }

  /** Reading back what was written gives the same timestamp. */
  lemma RoundTrip(t: DateTime)
    requires Valid(t)
    ensures FromIso(ToIso(t)) == Some(t)
  {
    var s := WholeText(t) + FractionText(t);
    assert ToIso(t) == s + "Z";
    LastIsDigit(t);
    assert StripZ(ToIso(t)) == s by {
      assert (s + "Z")[..|s|] == s;
    }
    DotInText(t);
    AllRead(t);
  }

  // ---- Text order ----------------------------------------------------------

  /** SQLite's BINARY collation: character by character, a proper prefix first. */
  predicate Lex(a: string, b: string) {
    if b == "" then false
    else if a == "" then true
    else if a[0] != b[0] then a[0] < b[0]
    else Lex(a[1..], b[1..])
  }

  lemma {:induction false} LexAppend(a: string, b: string, x: string, y: string)
    requires |a| == |b|
    ensures Lex(a + x, b + y) <==> if a == b then Lex(x, y) else Lex(a, b)
  {
    if a == "" {
      assert a + x == x && b + y == y;
    } else {
      assert (a + x)[1..] == a[1..] + x && (b + y)[1..] == b[1..] + y;
      LexAppend(a[1..], b[1..], x, y);
    }
  }

  lemma {:induction false} LexDigits(n: nat, m: nat, w: nat)
    requires n < Pow10(w) && m < Pow10(w)
    ensures Lex(Digits(n, w), Digits(m, w)) <==> n < m
    ensures Digits(n, w) == Digits(m, w) <==> n == m
  {
    ValueOfDigits(n, w);
    ValueOfDigits(m, w);
    if w > 0 {
      LexDigits(n / 10, m / 10, w - 1);
      LexAppend(Digits(n / 10, w - 1), Digits(m / 10, w - 1), [DigitChar(n % 10)], [DigitChar(m % 10)]);
    }
  }

  /** Two texts that start with a w-digit number and a separator compare by the number first. */
  lemma LexField(n: nat, m: nat, w: nat, c: char, x: string, y: string)
    requires n < Pow10(w) && m < Pow10(w)
    ensures Lex(Digits(n, w) + ([c] + x), Digits(m, w) + ([c] + y)) <==> if n == m then Lex(x, y) else n < m
  {
    LexDigits(n, m, w);
    LexAppend(Digits(n, w), Digits(m, w), [c] + x, [c] + y);
    LexAppend([c], [c], x, y);
  }

  /** Texts with the same layout compare by their whole seconds, then by what follows. */
  lemma LexWhole(a: DateTime, b: DateTime, x: string, y: string)
    requires Valid(a) && Valid(b)
    ensures Lex(WholeText(a) + x, WholeText(b) + y) <==>
            if Seconds(a) == Seconds(b) then Lex(x, y) else Seconds(a) < Seconds(b)
  {
    PowersOfTen();
    SecondsOrder(a, b);
    var a6, b6 := Digits(a.second, 2) + x, Digits(b.second, 2) + y;
    var a5, b5 := Digits(a.minute, 2) + (":" + a6), Digits(b.minute, 2) + (":" + b6);
    var a4, b4 := Digits(a.hour, 2) + (":" + a5), Digits(b.hour, 2) + (":" + b5);
    var a3, b3 := Digits(a.day, 2) + ("T" + a4), Digits(b.day, 2) + ("T" + b4);
    var a2, b2 := Digits(a.month, 2) + ("-" + a3), Digits(b.month, 2) + ("-" + b3);
    assert WholeText(a) + x == Digits(a.year, 4) + ("-" + a2);
    assert WholeText(b) + y == Digits(b.year, 4) + ("-" + b2);
    LexField(a.year, b.year, 4, '-', a2, b2);
    LexField(a.month, b.month, 2, '-', a3, b3);
    LexField(a.day, b.day, 2, 'T', a4, b4);
    LexField(a.hour, b.hour, 2, ':', a5, b5);
    LexField(a.minute, b.minute, 2, ':', a6, b6);
    LexDigits(a.second, b.second, 2);
    LexAppend(Digits(a.second, 2), Digits(b.second, 2), x, y);
  }

  // ---- Integer stand-in for the text order ---------------------------------

  /** Room for every text that starts with one given second. */
  const TICKS := 2_000_000

  /** The position of a timestamp's text among all texts: inside one second the
      fractional texts come first, because '.' sorts before 'Z'. */
  function SortKey(at: Instant): int {
    var frac := at % 1_000_000;
    (at / 1_000_000) * TICKS + (if frac == 0 then 1_000_000 else frac)
  }

  /** Text order of stored timestamps is exactly the order of their sort keys. */
  lemma TextOrder(a: DateTime, b: DateTime)
    requires Valid(a) && Valid(b)
    ensures Lex(ToIso(a), ToIso(b)) <==> SortKey(Chrono(a)) < SortKey(Chrono(b))
  {
    var x, y := FractionText(a) + "Z", FractionText(b) + "Z";
    LexWhole(a, b, x, y);
    KeyOf(a);
    KeyOf(b);
    if a.micro != 0 && b.micro != 0 {
      PowersOfTen();
      assert x == "." + (Digits(a.micro, 6) + "Z") && y == "." + (Digits(b.micro, 6) + "Z");
      LexAppend(".", ".", Digits(a.micro, 6) + "Z", Digits(b.micro, 6) + "Z");
      LexDigits(a.micro, b.micro, 6);
      LexAppend(Digits(a.micro, 6), Digits(b.micro, 6), "Z", "Z");
    }
  }

  /** For instants in different whole seconds, text order is chronological order. */
  lemma TextOrderIsTimeOrder(a: DateTime, b: DateTime)
    requires Valid(a) && Valid(b) && Seconds(a) != Seconds(b)
    ensures Lex(ToIso(a), ToIso(b)) <==> Chrono(a) < Chrono(b)
  {
    LexWhole(a, b, FractionText(a) + "Z", FractionText(b) + "Z");
  }

  /** Exactly when text order and chronological order differ on two distinct
      instants: same second, and one of them has no fraction. */
  lemma TextOrderMisorders(a: DateTime, b: DateTime)
    requires Valid(a) && Valid(b) && Chrono(a) < Chrono(b)
    ensures !Lex(ToIso(a), ToIso(b)) <==> Seconds(a) == Seconds(b) && a.micro == 0
  {
    if Seconds(a) != Seconds(b) {
      TextOrderIsTimeOrder(a, b);
    } else {
      TextOrder(a, b);
      KeyOf(a);
      KeyOf(b);
    }
  }

  lemma KeyOf(t: DateTime)
    requires Valid(t)
    ensures SortKey(Chrono(t)) == Seconds(t) * TICKS + (if t.micro == 0 then 1_000_000 else t.micro)
  {
    Quotient(Chrono(t), 1_000_000, Seconds(t), t.micro);
  }

  // ---- Bucket texts --------------------------------------------------------

  /** Start of the bucket a key lies in; w is the bucket size in ticks. */
  function Bucket(key: int, w: int): (b: int)
    requires 0 < w
    ensures b <= key < b + w && b % w == 0
  {
    BucketBounds(key, w);
    key - key % w
  }

  lemma BucketBounds(key: int, w: int)
    requires 0 < w
    ensures (key - key % w) % w == 0
  {
    Quotient(key - key % w, w, key / w, 0);
  }

  const MINUTE := 60 * TICKS
  const HOUR := 3600 * TICKS

  /** strftime('%Y-%m-%dT%H:%M:00', timestamp): no fraction and no trailing "Z". */
  function MinuteText(t: DateTime): string
    requires Valid(t)
  {
    WholeText(t.(second := 0))
  }

  /** strftime('%Y-%m-%dT%H:00:00', timestamp) */
  function HourText(t: DateTime): string
    requires Valid(t)
  {
    WholeText(t.(minute := 0, second := 0))
  }

  lemma BucketOfSecond(t: DateTime, off: int, size: int)
    requires Valid(t) && (size == 60 || size == 3600)
    requires off == if size == 60 then t.second else t.minute * 60 + t.second
    ensures Bucket(SortKey(Chrono(t)), size * TICKS) == (Seconds(t) - off) * TICKS
  {
    KeyOf(t);
    var key := SortKey(Chrono(t));
    var days := DaysBeforeYear(t.year) + DaysBeforeMonth(t.year, t.month) + t.day - 1;
    var q := if size == 60 then days * 1440 + t.hour * 60 + t.minute else days * 24 + t.hour;
    Quotient(key, size * TICKS, q, key - q * size * TICKS);
  }

  /** The text comparison of an aggregate row with a cutoff is a comparison of its bucket key. */
  lemma BucketTextOrder(t: DateTime, c: DateTime)
    requires Valid(t) && Valid(c)
    ensures Lex(MinuteText(t), ToIso(c)) <==> Bucket(SortKey(Chrono(t)), MINUTE) < SortKey(Chrono(c))
    ensures Lex(HourText(t), ToIso(c)) <==> Bucket(SortKey(Chrono(t)), HOUR) < SortKey(Chrono(c))
  {
    BucketOfSecond(t, t.second, 60);
    BucketOfSecond(t, t.minute * 60 + t.second, 3600);
    KeyOf(c);
    var m, h := t.(second := 0), t.(minute := 0, second := 0);
    assert WholeText(m) + "" == MinuteText(t) && WholeText(h) + "" == HourText(t);
    LexWhole(m, c, "", FractionText(c) + "Z");
    LexWhole(h, c, "", FractionText(c) + "Z");
  }

  /** strftime('%Y-%m-%dT%H:%M', timestamp) */
  function MinuteGroup(t: DateTime): string
    requires Valid(t)
  {
    WholeText(t)[..16]
  }

  /** strftime('%Y-%m-%dT%H', timestamp) */
  function HourGroup(t: DateTime): string
    requires Valid(t)
  {
    WholeText(t)[..13]
  }

  lemma TwoZeros()
    ensures Digits(0, 2) == "00"
  {
    assert Digits(0, 0) == "" && Digits(0, 1) == "0";
  }

  lemma Assoc(a: string, b: string, c: string)
    ensures (a + b) + c == a + (b + c)
  {
  }

  /** YYYY-MM-DDTHH */
  function HourPart(t: DateTime): (s: string)
    requires Valid(t)
    ensures |s| == 13
  {
    Digits(t.year, 4) + ("-" + (Digits(t.month, 2) + ("-" + (Digits(t.day, 2) + ("T" + Digits(t.hour, 2))))))
  }

  lemma WholeParts(t: DateTime)
    requires Valid(t)
    ensures WholeText(t) == HourPart(t) + (":" + (Digits(t.minute, 2) + (":" + Digits(t.second, 2))))
  {
    var rest := ":" + (Digits(t.minute, 2) + (":" + Digits(t.second, 2)));
    var p1 := "T" + Digits(t.hour, 2);
    var p2 := Digits(t.day, 2) + p1;
    var p3 := "-" + p2;
    var p4 := Digits(t.month, 2) + p3;
    var p5 := "-" + p4;
    Assoc("T", Digits(t.hour, 2), rest);
    Assoc(Digits(t.day, 2), p1, rest);
    Assoc("-", p2, rest);
    Assoc(Digits(t.month, 2), p3, rest);
    Assoc("-", p4, rest);
    Assoc(Digits(t.year, 4), p5, rest);
  }

  lemma Prefix(a: string, b: string)
    ensures (a + b)[..|a|] == a
  {
  }

  lemma MinutePrefix(t: DateTime)
    requires Valid(t)
    ensures MinuteText(t) == MinuteGroup(t) + ":00"
  {
    var hour, minute, second := HourPart(t), ":" + Digits(t.minute, 2), ":" + Digits(t.second, 2);
    TwoZeros();
    WholeParts(t);
    WholeParts(t.(second := 0));
    assert HourPart(t.(second := 0)) == hour;
    Assoc(":", Digits(t.minute, 2), second);
    Assoc(hour, minute, second);
    Prefix(hour + minute, second);
    Assoc(":", Digits(t.minute, 2), ":00");
    Assoc(hour, minute, ":00");
    assert ":" + "00" == ":00";
  }

  lemma HourPrefix(t: DateTime)
    requires Valid(t)
    ensures HourText(t) == HourGroup(t) + ":00:00"
  {
    TwoZeros();
    WholeParts(t);
    WholeParts(t.(minute := 0, second := 0));
    assert HourPart(t.(minute := 0, second := 0)) == HourPart(t);
    Prefix(HourPart(t), ":" + (Digits(t.minute, 2) + (":" + Digits(t.second, 2))));
    assert ":" + ("00" + (":" + "00")) == ":00:00";
  }

  /** A whole-second text stands for one second. */
  lemma SameWhole(a: DateTime, b: DateTime)
    requires Valid(a) && Valid(b)
    ensures WholeText(a) == WholeText(b) <==> Seconds(a) == Seconds(b)
  {
    SecondsOrder(a, b);
    assert WholeText(a) + "" == WholeText(a) && WholeText(b) + "" == WholeText(b);
    LexWhole(a, a, "", "");
    LexWhole(a, b, "", "");
    LexWhole(b, a, "", "");
    assert WholeText(a) == WholeText(a.(micro := 0)) && WholeText(b) == WholeText(b.(micro := 0));
  }

  /** Two timestamps fall into one group of GROUP BY exactly when their keys
      fall into one bucket. */
  lemma SameGroupText(a: DateTime, b: DateTime)
    requires Valid(a) && Valid(b)
    ensures MinuteGroup(a) == MinuteGroup(b) <==> Bucket(SortKey(Chrono(a)), MINUTE) == Bucket(SortKey(Chrono(b)), MINUTE)
    ensures HourGroup(a) == HourGroup(b) <==> Bucket(SortKey(Chrono(a)), HOUR) == Bucket(SortKey(Chrono(b)), HOUR)
  {
    BucketOfSecond(a, a.second, 60);
    BucketOfSecond(b, b.second, 60);
    BucketOfSecond(a, a.minute * 60 + a.second, 3600);
    BucketOfSecond(b, b.minute * 60 + b.second, 3600);
    SameWhole(a.(second := 0), b.(second := 0));
    SameWhole(a.(minute := 0, second := 0), b.(minute := 0, second := 0));
    MinutePrefix(a);
    MinutePrefix(b);
    HourPrefix(a);
    HourPrefix(b);
    assert |MinuteGroup(a)| == |MinuteGroup(b)| && |HourGroup(a)| == |HourGroup(b)|;
    assert MinuteText(a) == MinuteText(b) <==> MinuteGroup(a) == MinuteGroup(b) by {
      assert MinuteText(a)[..16] == MinuteGroup(a) && MinuteText(b)[..16] == MinuteGroup(b);
    }
    assert HourText(a) == HourText(b) <==> HourGroup(a) == HourGroup(b) by {
      assert HourText(a)[..13] == HourGroup(a) && HourText(b)[..13] == HourGroup(b);
    }
  }

  /** Going back a whole number of seconds shifts the key by that many ticks. */
  lemma KeyShift(at: Instant, secs: int)
    ensures SortKey(at - secs * 1_000_000) == SortKey(at) - secs * TICKS
  {
    Quotient(at - secs * 1_000_000, 1_000_000, at / 1_000_000 - secs, at % 1_000_000);
  }
}

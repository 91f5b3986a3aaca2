/** The audit log and its rotation (gui/audit_log.py): every event type keeps
    its last entries. */
module AuditLog {
  import opened Prelude

  datatype Entry = Entry(id: nat, kind: string, at: string, user: string, details: string, source: string, success: bool)

  /** The table in id order, and SQLite's AUTOINCREMENT counter. */
  datatype Log = Log(rows: seq<Entry>, lastId: nat)

  /** The rows of one event type. */
  function OfKind(rows: seq<Entry>, kind: string): seq<Entry> {
    if rows == [] then []
    else if rows[0].kind == kind then [rows[0]] + OfKind(rows[1..], kind)
    else OfKind(rows[1..], kind)
  }

  /** DELETE ... WHERE event_type = kind */
  function WithoutKind(rows: seq<Entry>, kind: string): (r: seq<Entry>)
    ensures |r| <= |rows|
  {
    if rows == [] then []
    else if rows[0].kind == kind then WithoutKind(rows[1..], kind)
    else [rows[0]] + WithoutKind(rows[1..], kind)
  }

  /** DELETE ... WHERE id IN (SELECT id ... WHERE event_type = kind ORDER BY id LIMIT n) */
  function DropOldest(rows: seq<Entry>, kind: string, n: nat): seq<Entry> {
    if rows == [] || n == 0 then rows
    else if rows[0].kind == kind then DropOldest(rows[1..], kind, n - 1)
    else [rows[0]] + DropOldest(rows[1..], kind, n)
  }

  /** Rotation of one type; max is the configured bound. */
  function Rotated(rows: seq<Entry>, kind: string, max: int): seq<Entry> {
    var count := |OfKind(rows, kind)|;
    if count > max then DropOldest(rows, kind, count - max) else rows
  }

  function RotatedAll(rows: seq<Entry>, kinds: seq<string>, max: int): seq<Entry> {
    if kinds == [] then rows else Rotated(RotatedAll(rows, kinds[..|kinds| - 1], max), kinds[|kinds| - 1], max)
  }

  /** SELECT DISTINCT event_type */
  function Kinds(rows: seq<Entry>): (ks: seq<string>)
    ensures forall e :: e in rows ==> e.kind in ks
  {
    if rows == [] then []
    else
      var ks := Kinds(rows[..|rows| - 1]);
      var k := rows[|rows| - 1].kind;
      assert forall e :: e in rows ==> e in rows[..|rows| - 1] || e == rows[|rows| - 1];
      if k in ks then ks else ks + [k]
  }

  /** An empty type name makes the rotation check every type. */
  function KindsToCheck(rows: seq<Entry>, kind: string): seq<string> {
    if kind != "" then [kind] else Kinds(rows)
  }

  function Appended(l: Log, e: Entry): Log {
    Log(l.rows + [e.(id := l.lastId + 1)], l.lastId + 1)
  }

  /** e carries everything but its id. */
  function Logged(l: Log, e: Entry, max: int): Log {
    var m := Appended(l, e);
    m.(rows := RotatedAll(m.rows, KindsToCheck(m.rows, e.kind), max))
  }

  /** No type, or an empty one, clears everything. */
  function Cleared(l: Log, kind: Option<string>): Log {
    if kind.Some? && kind.value != "" then l.(rows := WithoutKind(l.rows, kind.value)) else l.(rows := [])
  }

  // ---- Runs ----------------------------------------------------------------

  datatype Op = Write(entry: Entry) | Clear(kind: Option<string>)

  function Next(l: Log, op: Op, max: int): Log {
    match op
    case Write(e) => Logged(l, e, max)
    case Clear(kind) => Cleared(l, kind)
  }

  function Run(ops: seq<Op>, max: int): Log {
    if ops == [] then Log([], 0) else Next(Run(ops[..|ops| - 1], max), ops[|ops| - 1], max)
  }

  function Writes(ops: seq<Op>): nat {
    if ops == [] then 0 else Writes(ops[..|ops| - 1]) + (if ops[|ops| - 1].Write? then 1 else 0)
  }

  function SinceNext(since: seq<Entry>, op: Op, id: nat, kind: string): seq<Entry> {
    match op
    case Write(e) => if e.kind == kind then since + [e.(id := id)] else since
    case Clear(k) => if k.None? || k.value == "" || k.value == kind then [] else since
  }

  /** All entries of one type logged since that type was last cleared; the
      entry of the n-th log call has id n. */
  function Since(ops: seq<Op>, kind: string): seq<Entry> {
    if ops == [] then []
    else SinceNext(Since(ops[..|ops| - 1], kind), ops[|ops| - 1], Writes(ops), kind)
  }

  function Last<T>(s: seq<T>, n: int): seq<T> {
    if n <= 0 then [] else if |s| <= n then s else s[|s| - n..]
  }

  // ---- One rotation --------------------------------------------------------

  lemma {:induction false} DropOldestKeeps(rows: seq<Entry>, kind: string, n: nat, other: string)
    requires n <= |OfKind(rows, kind)| || other != kind
    ensures OfKind(DropOldest(rows, kind, n), other) ==
            if other == kind then OfKind(rows, kind)[n..] else OfKind(rows, other)
  {
    if rows != [] && n > 0 {
      if rows[0].kind == kind {
        assert OfKind(rows, kind) == [rows[0]] + OfKind(rows[1..], kind);
        DropOldestKeeps(rows[1..], kind, n - 1, other);
      } else {
        DropOldestKeeps(rows[1..], kind, n, other);
      }
    }
  }

  lemma {:induction false} DropTooMany(rows: seq<Entry>, kind: string, n: nat)
    requires |OfKind(rows, kind)| <= n
    ensures OfKind(DropOldest(rows, kind, n), kind) == []
  {
    if rows != [] && n > 0 {
      DropTooMany(rows[1..], kind, if rows[0].kind == kind then n - 1 else n);
    }
  }

  lemma DropToLast(rows: seq<Entry>, kind: string, max: int)
    requires |OfKind(rows, kind)| > max
    ensures OfKind(DropOldest(rows, kind, |OfKind(rows, kind)| - max), kind) == Last(OfKind(rows, kind), max)
  {
    var count := |OfKind(rows, kind)|;
    if max <= 0 {
      DropTooMany(rows, kind, count - max);
    } else {
      DropOldestKeeps(rows, kind, count - max, kind);
    }
  }

  /** From any table: the rotated type keeps its newest entries, other types all of theirs. */
  lemma RotateOne(rows: seq<Entry>, kind: string, max: int, other: string)
    ensures OfKind(Rotated(rows, kind, max), other) ==
            if other == kind then Last(OfKind(rows, kind), max) else OfKind(rows, other)
  {
    var count := |OfKind(rows, kind)|;
    if count > max {
      if other == kind {
        DropToLast(rows, kind, max);
      } else {
        DropOldestKeeps(rows, kind, count - max, other);
      }
    }
  }

  lemma LastTwice<T>(s: seq<T>, n: int)
    ensures Last(Last(s, n), n) == Last(s, n)
  {
  }

  lemma {:induction false} RotateMany(rows: seq<Entry>, kinds: seq<string>, max: int, other: string)
    ensures OfKind(RotatedAll(rows, kinds, max), other) ==
            if other in kinds then Last(OfKind(rows, other), max) else OfKind(rows, other)
  {
    if kinds != [] {
      var init, last := kinds[..|kinds| - 1], kinds[|kinds| - 1];
      assert kinds == init + [last];
      RotateMany(rows, init, max, other);
      RotateOne(RotatedAll(rows, init, max), last, max, other);
      LastTwice(OfKind(rows, other), max);
    }
  }

  lemma {:induction false} NoSuchKind(rows: seq<Entry>, kind: string)
    requires forall e :: e in rows ==> e.kind != kind
    ensures OfKind(rows, kind) == []
  {
    if rows != [] {
      assert rows[0] in rows;
      NoSuchKind(rows[1..], kind);
    }
  }

  lemma {:induction false} OfKindSnoc(rows: seq<Entry>, e: Entry, kind: string)
    ensures OfKind(rows + [e], kind) == if e.kind == kind then OfKind(rows, kind) + [e] else OfKind(rows, kind)
  {
    if rows == [] {
      assert rows + [e] == [e];
    } else {
      assert (rows + [e])[1..] == rows[1..] + [e];
      OfKindSnoc(rows[1..], e, kind);
    }
  }

  lemma {:induction false} WithoutOfKind(rows: seq<Entry>, gone: string, kind: string)
    ensures OfKind(WithoutKind(rows, gone), kind) == if gone == kind then [] else OfKind(rows, kind)
  {
    if rows != [] {
      WithoutOfKind(rows[1..], gone, kind);
    }
  }

  /** From any table, one log call of a type restores that type's bound. */
  lemma LogRestoresBound(l: Log, e: Entry, max: int)
    ensures OfKind(Logged(l, e, max).rows, e.kind) == Last(OfKind(l.rows, e.kind) + [e.(id := l.lastId + 1)], max)
    ensures |OfKind(Logged(l, e, max).rows, e.kind)| <= if max < 0 then 0 else max
  {
    LogOfKind(l, e, max, e.kind);
    OfKindSnoc(l.rows, e.(id := l.lastId + 1), e.kind);
  }

  lemma LogOfKind(l: Log, e: Entry, max: int, kind: string)
    ensures var all := OfKind(Appended(l, e).rows, kind);
            OfKind(Logged(l, e, max).rows, kind) == if e.kind == kind || e.kind == "" then Last(all, max) else all
  {
    var rows := Appended(l, e).rows;
    RotateMany(rows, KindsToCheck(rows, e.kind), max, kind);
    if e.kind == "" && kind !in Kinds(rows) {
      NoSuchKind(rows, kind);
    }
  }

  // ---- Whole runs ----------------------------------------------------------

  lemma {:induction false} CounterCountsWrites(ops: seq<Op>, max: int)
    ensures Run(ops, max).lastId == Writes(ops)
  {
    if ops != [] {
      CounterCountsWrites(ops[..|ops| - 1], max);
    }
  }

  lemma LastSnoc<T>(s: seq<T>, x: T, n: int)
    ensures Last(Last(s, n) + [x], n) == Last(s + [x], n)
  {
  }

  lemma WriteStep(l: Log, e: Entry, max: int, kind: string, since: seq<Entry>)
    requires OfKind(l.rows, kind) == Last(since, max)
    ensures OfKind(Logged(l, e, max).rows, kind) ==
            Last(if e.kind == kind then since + [e.(id := l.lastId + 1)] else since, max)
  {
    LogOfKind(l, e, max, kind);
    OfKindSnoc(l.rows, e.(id := l.lastId + 1), kind);
    LastSnoc(since, e.(id := l.lastId + 1), max);
    LastTwice(since, max);
  }

  lemma ClearStep(l: Log, k: Option<string>, kind: string)
    ensures OfKind(Cleared(l, k).rows, kind) ==
            if k.None? || k.value == "" || k.value == kind then [] else OfKind(l.rows, kind)
  {
    if k.Some? {
      WithoutOfKind(l.rows, k.value, kind);
    }
  }

  lemma KeepStep(l: Log, op: Op, max: int, kind: string, since: seq<Entry>)
    requires OfKind(l.rows, kind) == Last(since, max)
    ensures OfKind(Next(l, op, max).rows, kind) == Last(SinceNext(since, op, l.lastId + 1, kind), max)
  {
    match op
    case Write(e) => WriteStep(l, e, max, kind, since);
    case Clear(k) => ClearStep(l, k, kind);
  }

  /** Rotation is "keep the last": of every event type the table holds exactly
      the last entries logged since that type was cleared. */
  lemma {:induction false} KeepsTheLast(ops: seq<Op>, max: int, kind: string)
    ensures OfKind(Run(ops, max).rows, kind) == Last(Since(ops, kind), max)
  {
    if ops != [] {
      var init, last := ops[..|ops| - 1], ops[|ops| - 1];
      KeepsTheLast(init, max, kind);
      CounterCountsWrites(init, max);
      KeepStep(Run(init, max), last, max, kind, Since(init, kind));
    }
  }

  /** Rows are in id order and below the counter. */
  predicate InOrder(rows: seq<Entry>, lastId: nat) {
    && (forall i, j :: 0 <= i < j < |rows| ==> rows[i].id < rows[j].id)
    && (forall i :: 0 <= i < |rows| ==> 1 <= rows[i].id <= lastId)
  }

  lemma InOrderTail(rows: seq<Entry>, first: Entry, rest: seq<Entry>, lastId: nat)
    requires rows != [] && InOrder(rows, lastId) && first == rows[0] && InOrder(rest, lastId)
    requires forall e :: e in rest ==> e in rows[1..]
    ensures InOrder([first] + rest, lastId)
  {
    forall j | 0 <= j < |rest| ensures first.id < rest[j].id {
      assert rest[j] in rows[1..];
    }
  }

  lemma {:induction false} WithoutInOrder(rows: seq<Entry>, kind: string, lastId: nat)
    requires InOrder(rows, lastId)
    ensures InOrder(WithoutKind(rows, kind), lastId)
    ensures forall e :: e in WithoutKind(rows, kind) ==> e in rows
  {
    if rows != [] {
      WithoutInOrder(rows[1..], kind, lastId);
      if rows[0].kind != kind {
        InOrderTail(rows, rows[0], WithoutKind(rows[1..], kind), lastId);
      }
    }
  }

  lemma {:induction false} DropOldestInOrder(rows: seq<Entry>, kind: string, n: nat, lastId: nat)
    requires InOrder(rows, lastId)
    ensures InOrder(DropOldest(rows, kind, n), lastId)
    ensures forall e :: e in DropOldest(rows, kind, n) ==> e in rows
  {
    if rows != [] && n > 0 {
      if rows[0].kind == kind {
        DropOldestInOrder(rows[1..], kind, n - 1, lastId);
      } else {
        DropOldestInOrder(rows[1..], kind, n, lastId);
        InOrderTail(rows, rows[0], DropOldest(rows[1..], kind, n), lastId);
      }
    }
  }

  lemma {:induction false} RotatedInOrder(rows: seq<Entry>, kinds: seq<string>, max: int, lastId: nat)
    requires InOrder(rows, lastId)
    ensures InOrder(RotatedAll(rows, kinds, max), lastId)
  {
    if kinds != [] {
      var init := kinds[..|kinds| - 1];
      RotatedInOrder(rows, init, max, lastId);
      var now := RotatedAll(rows, init, max);
      var count := |OfKind(now, kinds[|kinds| - 1])|;
      if count > max {
        DropOldestInOrder(now, kinds[|kinds| - 1], count - max, lastId);
      }
    }
  }

  /** Ids strictly increase down the table, and the next id is above every id
      ever given: the counter is the number of log calls, whatever was cleared. */
  lemma {:induction false} IdsNeverReused(ops: seq<Op>, max: int)
    ensures InOrder(Run(ops, max).rows, Writes(ops))
    ensures Run(ops, max).lastId == Writes(ops)
  {
    CounterCountsWrites(ops, max);
    if ops != [] {
      var init, last := ops[..|ops| - 1], ops[|ops| - 1];
      IdsNeverReused(init, max);
      var l := Run(init, max);
      match last
      case Write(e) =>
        var rows := Appended(l, e).rows;
        RotatedInOrder(rows, KindsToCheck(rows, e.kind), max, Writes(ops));
      case Clear(k) =>
        if k.Some? && k.value != "" {
          WithoutInOrder(l.rows, k.value, Writes(ops));
        }
    }
  }

  // ---- The logger object ---------------------------------------------------

  class AuditLogger {
    const maxEntriesPerType: int
    var rows: seq<Entry>
    var lastId: nat

    ghost function Contents(): Log
      reads this
    {
      Log(rows, lastId)
    }

    constructor (maxEntriesPerType: int)
      ensures this.maxEntriesPerType == maxEntriesPerType && Contents() == Run([], maxEntriesPerType)
    {
      this.maxEntriesPerType := maxEntriesPerType;
      rows, lastId := [], 0;
    }

    /** Insert, then rotate; the returned entry carries its id. */
    method Write(e: Entry) returns (entry: Entry)
      modifies this
      ensures Contents() == Next(old(Contents()), Op.Write(e), maxEntriesPerType)
      ensures entry == e.(id := lastId) && lastId == old(lastId) + 1
    {
      lastId := lastId + 1;
      entry := e.(id := lastId);
      rows := rows + [entry];
      RotateIfNeeded(e.kind);
    }

    method RotateIfNeeded(kind: string)
      modifies `rows
      ensures rows == RotatedAll(old(rows), KindsToCheck(old(rows), kind), maxEntriesPerType)
    {
      var kinds := KindsToCheck(rows, kind);
      for i := 0 to |kinds|
        invariant rows == RotatedAll(old(rows), kinds[..i], maxEntriesPerType)
      {
        assert kinds[..i + 1][..i] == kinds[..i];
        var count := |OfKind(rows, kinds[i])|;
        if count > maxEntriesPerType {
          var excess := count - maxEntriesPerType;
          rows := DropOldest(rows, kinds[i], excess);
        }
      }
      assert kinds[..|kinds|] == kinds;
    }

    method Clear(kind: Option<string>) returns (deleted: nat)
      modifies `rows
      ensures Contents() == Next(old(Contents()), Op.Clear(kind), maxEntriesPerType)
      ensures |rows| + deleted == old(|rows|)
    {
      var before := |rows|;
      if kind.Some? && kind.value != "" {
        rows := WithoutKind(rows, kind.value);
      } else {
        rows := [];
      }
      deleted := before - |rows|;
    }
  }
}

/** State kept in a JSON file behind a write-ahead log (gui/atomic_state.py).
    A commit is five disk steps; a crash or an I/O error may stop it after any
    of them. */
module AtomicState {
  import opened Prelude

  /** Values are JSON texts. */
  type State = map<string, string>

  datatype File = Missing | Corrupt | Holds(state: State)

  /** A WAL line: a whole JSON object; an object at the end of the file whose
      newline an interrupted write left out; a line that does not parse; or at the
      end of the file a shorter fragment, which does not parse either. */
  datatype Line = Whole(entry: State) | Unended(entry: State) | Bad | Torn

  predicate Parses(l: Line) {
    l.Whole? || l.Unended?
  }

  /** Only the last line of a file can lack its newline. */
  predicate Formed(lines: seq<Line>) {
    forall i :: 0 <= i < |lines| - 1 ==> lines[i].Whole? || lines[i].Bad?
  }

  type Log = lines: seq<Line> | Formed(lines) witness []

  datatype Disk = Disk(file: File, tmp: File, wal: Option<Log>)

  const FRESH := Disk(Missing, Missing, None)

  // ---- Recovery ------------------------------------------------------------

  /** What json.load gives, or the empty state. */
  function Loaded(f: File): State {
    if f.Holds? then f.state else map[]
  }

  function Lines(d: Disk): seq<Line> {
    if d.wal.Some? then d.wal.value else []
  }

  /** dict.update line by line; a line that does not parse ends the replay. */
  function Replay(s: State, lines: seq<Line>): State
    decreases |lines|
  {
    if lines == [] || !Parses(lines[0]) then s else Replay(s + lines[0].entry, lines[1..])
  }

  predicate AllParse(lines: seq<Line>) {
    forall l :: l in lines ==> Parses(l)
  }

  predicate AllWhole(lines: seq<Line>) {
    forall l :: l in lines ==> l.Whole?
  }

  /** The in-memory state after opening this directory. */
  function Recovered(d: Disk): State {
    Replay(Loaded(d.file), Lines(d))
  }

  // ---- Commit --------------------------------------------------------------

  const STEPS: nat := 5

  /** How many steps of a commit were carried out. */
  type Stop = n: nat | n <= STEPS

  /** The file does not end in a newline. */
  predicate OpenEnded(lines: seq<Line>) {
    lines != [] && (lines[|lines| - 1].Torn? || lines[|lines| - 1].Unended?)
  }

  /** Text written behind such an end joins that line, and the two do not parse as one. */
  function Append(lines: seq<Line>, l: Line): (r: seq<Line>)
    ensures Formed(lines) ==> Formed(r)
  {
    if OpenEnded(lines) then lines[..|lines| - 1] + [if l.Whole? || l.Bad? then Bad else Torn] else lines + [l]
  }

  /** Open the WAL, append a line, write the temporary file, replace the state
      file, truncate the WAL. */
  function Step(d: Disk, s: State, n: Stop): Disk
    requires 1 <= n
  {
    if n == 1 then d.(wal := Some(Lines(d)))
    else if n == 2 then d.(wal := Some(Append(Lines(d), Whole(s))))
    else if n == 3 then d.(tmp := Holds(s))
    else if n == 4 then d.(file := d.tmp, tmp := Missing)
    else d.(wal := Some([]))
  }

  /** The disk when committing s stopped after n steps. */
  function AfterCommit(d: Disk, s: State, n: Stop): Disk {
    if n == 0 then d else Step(AfterCommit(d, s, n - 1), s, n)
  }

  lemma AppendWhole(lines: seq<Line>, s: State)
    requires AllWhole(lines)
    ensures Append(lines, Whole(s)) == lines + [Whole(s)] && AllWhole(lines + [Whole(s)])
  {
    if lines != [] {
      assert lines[|lines| - 1] in lines;
    }
  }

  lemma CommitStages(d: Disk, s: State, n: Stop)
    ensures var e := AfterCommit(d, s, n);
            && e.file == (if n < 4 then d.file else Holds(s))
            && Lines(e) == (if n < 2 then Lines(d) else if n < 5 then Append(Lines(d), Whole(s)) else [])
            && (n == 3 ==> e.tmp == Holds(s))
            && (n >= 1 ==> e.wal.Some?)
    decreases n
  {
    if n > 0 {
      CommitStages(d, s, n - 1);
    }
  }

  /** Opening commits what it recovered, but only when there is a WAL and all of it parses. */
  function AfterRecovery(d: Disk, n: Stop): Disk {
    if d.wal.Some? && AllParse(d.wal.value) then AfterCommit(d, Recovered(d), n) else d
  }

  /** The append is interrupted: the line lacks its newline, or more than that. */
  function CutAppend(d: Disk, s: State, newlineOnly: bool): Disk {
    d.(wal := Some(Append(Lines(d), if newlineOnly then Unended(s) else Torn)))
  }

  // ---- Operations and runs -------------------------------------------------

  datatype Op = Set(key: string, value: string) | Update(updates: State) | Delete(key: string) | Restore(snapshot: State)

  function Effect(s: State, op: Op): State {
    match op
    case Set(k, v) => s[k := v]
    case Update(u) => s + u
    case Delete(k) => s - {k}
    case Restore(snap) => snap
  }

  /** A call or an opening whose commit stops after n steps; one whose append is
      cut short, by more or by the newline only; or the process dies. */
  datatype Event =
    | Call(op: Op, n: Stop)
    | Open(n: Stop)
    | CutCall(op: Op, newlineOnly: bool)
    | CutOpen(newlineOnly: bool)
    | Crash

  datatype Machine = Machine(disk: Disk, mem: Option<State>)

  function Next(m: Machine, e: Event): Machine {
    match e
    case Call(op, n) =>
      if m.mem.None? then m
      else var s := Effect(m.mem.value, op); Machine(AfterCommit(m.disk, s, n), Some(s))
    case Open(n) => if m.mem.Some? then m else Machine(AfterRecovery(m.disk, n), Some(Recovered(m.disk)))
    case CutCall(op, nl) =>
      if m.mem.None? then m
      else var s := Effect(m.mem.value, op); Machine(CutAppend(m.disk, s, nl), Some(s))
    case CutOpen(nl) =>
      if m.mem.Some? then m
      else Machine(if m.disk.wal.Some? && AllParse(m.disk.wal.value) then CutAppend(m.disk, Recovered(m.disk), nl) else m.disk,
                   Some(Recovered(m.disk)))
    case Crash => m.(mem := None)
  }

  function Run(events: seq<Event>): Machine {
    if events == [] then Machine(FRESH, None)
    else Next(Run(events[..|events| - 1]), events[|events| - 1])
  }

  // ---- Replay facts --------------------------------------------------------

  lemma {:induction false} ReplayAppend(s: State, lines: seq<Line>, l: Line)
    requires AllParse(lines)
    ensures Replay(s, lines + [l]) == Replay(Replay(s, lines), [l])
    decreases |lines|
  {
    if lines == [] {
      assert lines + [l] == [l];
    } else {
      assert lines[0] in lines && (lines + [l])[1..] == lines[1..] + [l];
      ReplayAppend(s + lines[0].entry, lines[1..], l);
    }
  }

  lemma {:induction false} ReplayKeys(s: State, lines: seq<Line>)
    ensures s.Keys <= Replay(s, lines).Keys
    ensures forall t: State :: t.Keys <= Replay(s, lines).Keys ==> Replay(t, lines).Keys <= Replay(s, lines).Keys
    decreases |lines|
  {
    if lines != [] && Parses(lines[0]) {
      ReplayKeys(s + lines[0].entry, lines[1..]);
      forall t: State | t.Keys <= Replay(s, lines).Keys ensures Replay(t, lines).Keys <= Replay(s, lines).Keys {
        assert (t + lines[0].entry).Keys <= Replay(s, lines).Keys;
      }
    }
  }

  /** Overlaying a state on one with no further keys gives that state. */
  lemma Covers(a: State, b: State)
    requires a.Keys <= b.Keys
    ensures a + b == b
  {
  }

  /** Some WAL line mentions the key. */
  predicate Mentions(lines: seq<Line>, key: string) {
    exists i :: 0 <= i < |lines| && Parses(lines[i]) && key in lines[i].entry
  }

  lemma MentionsSplit(lines: seq<Line>, key: string)
    requires lines != []
    ensures Mentions(lines, key) <==> (Parses(lines[0]) && key in lines[0].entry) || Mentions(lines[1..], key)
  {
    if Mentions(lines, key) {
      var i :| 0 <= i < |lines| && Parses(lines[i]) && key in lines[i].entry;
      if i > 0 {
        assert lines[1..][i - 1] == lines[i];
      }
    }
    if Mentions(lines[1..], key) {
      var i :| 0 <= i < |lines[1..]| && Parses(lines[1..][i]) && key in lines[1..][i].entry;
      assert lines[i + 1] == lines[1..][i];
    }
  }

  lemma {:induction false} ReplayMentions(s: State, lines: seq<Line>, key: string)
    requires AllParse(lines)
    ensures key in Replay(s, lines) <==> key in s || Mentions(lines, key)
    decreases |lines|
  {
    if lines != [] {
      assert lines[0] in lines;
      MentionsSplit(lines, key);
      ReplayMentions(s + lines[0].entry, lines[1..], key);
    }
  }

  lemma {:induction false} ReplayWins(a: State, b: State, lines: seq<Line>, key: string)
    requires AllParse(lines) && Mentions(lines, key)
    ensures key in Replay(a, lines) && key in Replay(b, lines) && Replay(a, lines)[key] == Replay(b, lines)[key]
    decreases |lines|
  {
    ReplayMentions(a, lines, key);
    ReplayMentions(b, lines, key);
    assert lines[0] in lines;
    MentionsSplit(lines, key);
    var a', b' := a + lines[0].entry, b + lines[0].entry;
    if Mentions(lines[1..], key) {
      ReplayWins(a', b', lines[1..], key);
    } else {
      ReplayUntouched(a', lines[1..], key);
      ReplayUntouched(b', lines[1..], key);
    }
  }

  lemma {:induction false} ReplayUntouched(s: State, lines: seq<Line>, key: string)
    requires AllParse(lines) && !Mentions(lines, key)
    ensures key in Replay(s, lines) <==> key in s
    ensures key in s ==> Replay(s, lines)[key] == s[key]
    decreases |lines|
  {
    if lines != [] {
      assert lines[0] in lines;
      MentionsSplit(lines, key);
      ReplayUntouched(s + lines[0].entry, lines[1..], key);
    }
  }

  /** What the lines say, read back from the state they lead to. */
  function Said(s: State, lines: seq<Line>): State {
    map k | k in Replay(s, lines) && Mentions(lines, k) :: Replay(s, lines)[k]
  }

  /** Replaying the lines over another state overlays on it what they say. */
  lemma ReplayOver(s: State, t: State, lines: seq<Line>)
    requires AllParse(lines)
    ensures Replay(t, lines) == t + Said(s, lines)
  {
    var r := Replay(t, lines);
    forall k ensures k in r <==> k in t + Said(s, lines) {
      ReplayMentions(t, lines, k);
      ReplayMentions(s, lines, k);
    }
    forall k | k in r ensures r[k] == (t + Said(s, lines))[k] {
      ReplayMentions(s, lines, k);
      if Mentions(lines, k) {
        ReplayWins(t, s, lines, k);
      } else {
        ReplayUntouched(t, lines, k);
      }
    }
  }

  /** What the log says to an opening. */
  function Logs(d: Disk): State {
    Said(Loaded(d.file), Lines(d))
  }

  /** Committing any state over whole lines: what is recovered if the commit
      stops after n steps. Behind the replace, what old lines say comes back
      where the new state says nothing. */
  lemma CommitOutcome(d: Disk, t: State, n: Stop)
    requires AllWhole(Lines(d))
    ensures AllWhole(Lines(AfterCommit(d, t, n)))
    ensures Recovered(AfterCommit(d, t, n)) ==
            if n < 2 then Recovered(d) else if n < 4 then Recovered(d) + t else if n == 4 then Logs(d) + t else t
  {
    CommitStages(d, t, n);
    AppendWhole(Lines(d), t);
    if 2 <= n < 4 {
      ReplayWhole(Loaded(d.file), Lines(d), t);
    } else if n == 4 {
      ReplayWhole(t, Lines(d), t);
      ReplayOver(Loaded(d.file), t, Lines(d));
      OverlayTwice(t, Logs(d));
    }
  }

  lemma ReplayWhole(s: State, lines: seq<Line>, t: State)
    requires AllWhole(lines)
    ensures Replay(s, lines + [Whole(t)]) == Replay(s, lines) + t
  {
    ReplayAppend(s, lines, Whole(t));
  }

  lemma OverlayTwice(t: State, logs: State)
    ensures t + logs + t == logs + t
  {
  }

  /** A commit of a state that covers all keys on disk: once the line is in the
      WAL, recovery gives that state; before that, nothing has changed. */
  lemma CoveringCommit(d: Disk, s: State, n: Stop)
    requires AllWhole(Lines(d)) && Recovered(d).Keys <= s.Keys
    ensures var e := AfterCommit(d, s, n);
            AllWhole(Lines(e)) && Recovered(e) == if n < 2 then Recovered(d) else s
  {
    CommitOutcome(d, s, n);
    Covers(Recovered(d), s);
    assert Logs(d).Keys <= Recovered(d).Keys;
    Covers(Logs(d), s);
  }

  /** A state file that does not parse counts as none; the log is replayed all the same. */
  lemma CorruptFile(tmp: File, wal: Option<Log>)
    ensures Recovered(Disk(Corrupt, tmp, wal)) == Recovered(Disk(Missing, tmp, wal)) == Replay(map[], if wal.Some? then wal.value else [])
  {
  }

  // ---- Recovery is restartable ---------------------------------------------

  /** Openings that each die in the middle of their own commit. */
  function Reopened(d: Disk, stops: seq<Stop>): Disk
    decreases |stops|
  {
    if stops == [] then d else Reopened(AfterRecovery(d, stops[0]), stops[1..])
  }

  predicate Submap(a: State, b: State) {
    forall k :: k in a ==> k in b && b[k] == a[k]
  }

  /** The log parses to its end but lacks the last newline. */
  predicate Unfinished(d: Disk) {
    AllParse(Lines(d)) && OpenEnded(Lines(d))
  }

  function LastEntry(d: Disk): State
    requires Unfinished(d)
  {
    var last := Lines(d)[|Lines(d)| - 1];
    assert last in Lines(d);
    last.entry
  }

  /** Everything but that last line. */
  function Earlier(d: Disk): seq<Line>
    requires Unfinished(d)
  {
    Lines(d)[..|Lines(d)| - 1]
  }

  lemma OverlayCases(before: State, snapshot: State)
    ensures before + snapshot == snapshot <==> before.Keys <= snapshot.Keys
    ensures before + snapshot == before <==> Submap(snapshot, before)
  {
    assert before.Keys <= (before + snapshot).Keys;
    if before + snapshot == before {
      forall k | k in snapshot ensures k in before && before[k] == snapshot[k] {
        assert k in before + snapshot;
      }
    }
  }

  /** The only way an interrupted opening can do harm: its own line joins the
      unfinished one, and both are lost to the replay. */
  lemma UnfinishedCommit(d: Disk, t: State, n: Stop)
    requires Unfinished(d)
    ensures var q := Replay(Loaded(d.file), Earlier(d));
            && Recovered(d) == q + LastEntry(d)
            && Recovered(AfterCommit(d, t, n)) ==
               if n < 2 then Recovered(d) else if n < 4 then q else if n == 4 then Replay(t, Earlier(d)) else t
    ensures 2 <= n < 5 ==> !AllParse(Lines(AfterCommit(d, t, n)))
  {
    var lines, init, last := Lines(d), Earlier(d), Lines(d)[|Lines(d)| - 1];
    assert lines == init + [last] && last in lines;
    assert AllParse(init);
    var f := Loaded(d.file);
    ReplayAppend(f, init, last);
    assert Replay(Replay(f, init), [last]) == Replay(f, init) + last.entry;
    CommitStages(d, t, n);
    if 2 <= n < 5 {
      var e := AfterCommit(d, t, n);
      assert Lines(e) == init + [Bad] && Bad in Lines(e);
      ReplayBad(Loaded(e.file), init);
    }
  }

  lemma ReplayBad(s: State, lines: seq<Line>)
    requires AllParse(lines)
    ensures Replay(s, lines + [Bad]) == Replay(s, lines)
  {
    ReplayAppend(s, lines, Bad);
  }

  /** Whether an opening that dies after n steps of its commit leaves to the next
      one what it found itself: always, except behind an unfinished line that says
      something new, between the append and the replace; and behind one that
      contradicts an earlier line, before the truncation. */
  lemma RecoverOnce(d: Disk, n: Stop)
    ensures Recovered(AfterRecovery(d, n)) == Recovered(d) <==>
            (Unfinished(d) ==>
               && (2 <= n < 4 ==> Submap(LastEntry(d), Replay(Loaded(d.file), Earlier(d))))
               && (n == 4 ==> Submap(Said(Loaded(d.file), Earlier(d)), Recovered(d))))
  {
    if Unfinished(d) {
      var q, last := Replay(Loaded(d.file), Earlier(d)), LastEntry(d);
      UnfinishedCommit(d, Recovered(d), n);
      ReplayOver(Loaded(d.file), Recovered(d), Earlier(d));
      OverlayCases(q, last);
      OverlayCases(Recovered(d), Said(Loaded(d.file), Earlier(d)));
    } else if d.wal.Some? && AllParse(d.wal.value) {
      WholeUnlessOpen(Lines(d));
      CoveringCommit(d, Recovered(d), n);
    }
  }

  lemma WholeUnlessOpen(lines: Log)
    requires AllParse(lines) && !OpenEnded(lines)
    ensures AllWhole(lines)
  {
    forall l | l in lines ensures l.Whole? {
      var i :| 0 <= i < |lines| && lines[i] == l;
    }
  }

  /** The log lacks at most the newline of a line that says nothing new. */
  predicate Harmless(d: Disk) {
    Unfinished(d) ==> Submap(LastEntry(d), Replay(Loaded(d.file), Earlier(d)))
  }

  lemma HarmlessStays(d: Disk, n: Stop)
    requires Harmless(d)
    ensures Harmless(AfterRecovery(d, n)) && Recovered(AfterRecovery(d, n)) == Recovered(d)
  {
    RecoverOnce(d, n);
    if Unfinished(d) {
      var q, last := Replay(Loaded(d.file), Earlier(d)), LastEntry(d);
      UnfinishedCommit(d, Recovered(d), n);
      OverlayCases(q, last);
      SaidWithin(Loaded(d.file), Earlier(d));
      CommitStages(d, Recovered(d), n);
    } else if d.wal.Some? && AllParse(d.wal.value) {
      WholeUnlessOpen(Lines(d));
      CommitOutcome(d, Recovered(d), n);
      NeverOpen(Lines(AfterRecovery(d, n)));
    }
  }

  lemma SaidWithin(s: State, lines: seq<Line>)
    ensures Submap(Said(s, lines), Replay(s, lines))
  {
  }

  lemma NeverOpen(lines: seq<Line>)
    requires AllWhole(lines)
    ensures !OpenEnded(lines)
  {
    if lines != [] {
      assert lines[|lines| - 1] in lines;
    }
  }

  predicate Steady(d: Disk, stops: seq<Stop>) {
    Recovered(Reopened(d, stops)) == Recovered(d)
  }

  lemma {:induction false} RestartableWhenHarmless(d: Disk, stops: seq<Stop>)
    requires Harmless(d)
    ensures Steady(d, stops)
    decreases |stops|
  {
    if stops != [] {
      HarmlessStays(d, stops[0]);
      RestartableWhenHarmless(AfterRecovery(d, stops[0]), stops[1..]);
    }
  }

  /** From any disk, torn and corrupt files included: however often recovery is
      interrupted, the next one finds what the first would have, exactly unless
      the log ends in a line that lacks its newline and says something new. */
  lemma RecoveryRestartable(d: Disk)
    ensures (forall stops: seq<Stop> :: Steady(d, stops)) <==> Harmless(d)
  {
    if Harmless(d) {
      forall stops: seq<Stop> ensures Steady(d, stops) {
        RestartableWhenHarmless(d, stops);
      }
    } else {
      RecoverOnce(d, 2);
      var stops: seq<Stop> := [2];
      assert stops[1..] == [];
      assert Reopened(d, stops) == Reopened(AfterRecovery(d, 2), stops[1..]);
      assert !Steady(d, stops);
    }
  }

  // ---- All or nothing ------------------------------------------------------

  /** The step at which an operation's effect becomes the recovered state. */
  function Point(op: Op): nat {
    if op.Set? || op.Update? then 2 else 4
  }

  predicate Cut(e: Event) {
    (e.Call? || e.Open?) && e.n < STEPS
  }

  /** No I/O errors: a commit stops early only because the process dies. */
  predicate OnlyCrashes(events: seq<Event>) {
    forall i :: 0 <= i < |events| - 1 && Cut(events[i]) ==> events[i + 1] == Crash
  }

  /** No append is cut short. */
  predicate WholeAppends(events: seq<Event>) {
    forall e :: e in events ==> !e.CutCall? && !e.CutOpen?
  }

  predicate NoRestores(events: seq<Event>) {
    WholeAppends(events) && forall e :: e in events && e.Call? ==> !e.op.Restore?
  }

  /** The logical state: each call counts entirely or not at all. */
  function Expected(events: seq<Event>): State {
    if events == [] then map[]
    else
      var init, last := events[..|events| - 1], events[|events| - 1];
      if last.Call? && Run(init).mem.Some? && Point(last.op) <= last.n then Effect(Expected(init), last.op)
      else Expected(init)
  }

  predicate Clean(d: Disk, s: State) {
    Lines(d) == [] && Loaded(d.file) == s
  }

  /** A smaller state logged over a clean file changes nothing before the replace. */
  lemma SmallerCommit(d: Disk, s: State, t: State, n: Stop)
    requires Clean(d, s) && s + t == s && AllWhole(Lines(d))
    ensures var e := AfterCommit(d, t, n);
            && AllWhole(Lines(e))
            && Recovered(e) == (if n < 4 then s else t)
            && (n == STEPS ==> Clean(e, t))
  {
    CommitStages(d, t, n);
    assert Append([], Whole(t)) == [Whole(t)];
    assert Replay(s, [Whole(t)]) == s + t && Replay(t, [Whole(t)]) == t + t == t;
  }

  lemma CleanCommit(d: Disk, s: State, op: Op, n: Stop)
    requires Clean(d, s) && !op.Restore?
    ensures var e := AfterCommit(d, Effect(s, op), n);
            && AllWhole(Lines(e))
            && Recovered(e) == (if Point(op) <= n then Effect(s, op) else s)
            && (n == STEPS ==> Clean(e, Effect(s, op)))
  {
    var t := Effect(s, op);
    if op.Delete? {
      assert s + t == s;
      SmallerCommit(d, s, t, n);
    } else {
      CommitStages(d, t, n);
      CoveringCommit(d, t, n);
    }
  }

  /** The state after a run is exactly the logical one; in between calls the
      files are clean and memory agrees. */
  lemma {:induction false} AllOrNothing(events: seq<Event>)
    requires OnlyCrashes(events) && NoRestores(events)
    ensures var m, x := Run(events), Expected(events);
            && AllWhole(Lines(m.disk))
            && Recovered(m.disk) == x
            && (m.mem.Some? && (events == [] || !Cut(events[|events| - 1])) ==> m.mem == Some(x) && Clean(m.disk, x))
  {
    if events != [] {
      var init, last := events[..|events| - 1], events[|events| - 1];
      assert last in events;
      AllOrNothing(init);
      var m, x := Run(init), Expected(init);
      if init != [] && Cut(init[|init| - 1]) {
        assert events[|init| - 1] == init[|init| - 1];
        assert last == Crash;
      } else if last.Call? && m.mem.Some? {
        CleanCommit(m.disk, x, last.op, last.n);
      } else if last.Open? && m.mem.None? {
        CommitStages(m.disk, x, last.n);
        CoveringCommit(m.disk, x, last.n);
      }
    }
  }

  /** Reopening after a call that a crash interrupted finds the state before the
      call or the state after it: the latter once the state file is replaced,
      and for set and update already once the WAL line is written. */
  lemma InterruptedCall(events: seq<Event>, op: Op, n: Stop)
    requires OnlyCrashes(events) && NoRestores(events) && !op.Restore?
    requires Run(events).mem.Some? && (events == [] || !Cut(events[|events| - 1]))
    ensures var before := Run(events).mem.value;
            var m := Run(events + [Call(op, n), Crash]);
            && Recovered(m.disk) == (if Point(op) <= n then Effect(before, op) else before)
            && (4 <= n ==> Recovered(m.disk) == Effect(before, op))
  {
    var called, all := events + [Call(op, n)], events + [Call(op, n), Crash];
    assert all[..|all| - 1] == called && called[..|called| - 1] == events;
    forall i | 0 <= i < |all| - 1 && Cut(all[i]) ensures all[i + 1] == Crash {
      if i < |events| - 1 {
        assert events[i + 1] == Crash;
      }
    }
    AllOrNothing(events);
    AllOrNothing(all);
    assert Expected(all) == Expected(called);
  }

  /** The value of the last call that counted and wrote the key; a delete writes nothing there. */
  function LastWrite(events: seq<Event>, key: string): Option<string> {
    if events == [] then None
    else
      var init, last := events[..|events| - 1], events[|events| - 1];
      if !last.Call? || Run(init).mem.None? || last.n < Point(last.op) then LastWrite(init, key)
      else
        match last.op
        case Set(k, v) => if k == key then Some(v) else LastWrite(init, key)
        case Update(u) => if key in u then Some(u[key]) else LastWrite(init, key)
        case Delete(k) => if k == key then None else LastWrite(init, key)
        case Restore(snap) => if key in snap then Some(snap[key]) else None
  }

  lemma {:induction false} ExpectedIsLastWrite(events: seq<Event>, key: string)
    ensures LastWrite(events, key) == if key in Expected(events) then Some(Expected(events)[key]) else None
  {
    if events != [] {
      ExpectedIsLastWrite(events[..|events| - 1], key);
    }
  }

  /** Reading a key in a running process, whatever crashes came before, gives
      what the last call that counted wrote there. */
  lemma ReadsLastWrite(events: seq<Event>, key: string)
    requires OnlyCrashes(events) && NoRestores(events)
    requires Run(events).mem.Some? && (events == [] || !Cut(events[|events| - 1]))
    ensures var mem := Run(events).mem.value;
            LastWrite(events, key) == if key in mem then Some(mem[key]) else None
  {
    AllOrNothing(events);
    ExpectedIsLastWrite(events, key);
  }

  lemma CutOutcome(d: Disk, before: State, t: State, newlineOnly: bool)
    requires Clean(d, before)
    ensures CutAppend(d, t, newlineOnly).wal == Some([if newlineOnly then Unended(t) else Torn])
    ensures Recovered(CutAppend(d, t, newlineOnly)) == if newlineOnly then before + t else before
  {
    assert Append([], Torn) == [Torn] && Append([], Unended(t)) == [Unended(t)];
    assert Replay(before, [Torn]) == before && Replay(before, [Unended(t)]) == before + t;
  }

  lemma CutThenCrash(events: seq<Event>, op: Op, newlineOnly: bool)
    requires Run(events).mem.Some?
    ensures var m := Run(events);
            Run(events + [CutCall(op, newlineOnly), Crash])
            == Machine(CutAppend(m.disk, Effect(m.mem.value, op), newlineOnly), None)
  {
    RunMore(events, CutCall(op, newlineOnly), Crash);
  }

  /** A call whose append is cut short also counts wholly or not at all: a set
      or update that lacks only the newline has taken effect, any other has not. */
  lemma CutCallWhole(events: seq<Event>, op: Op, newlineOnly: bool)
    requires OnlyCrashes(events) && NoRestores(events) && !op.Restore?
    requires Run(events).mem.Some? && (events == [] || !Cut(events[|events| - 1]))
    ensures var before := Run(events).mem.value;
            Recovered(Run(events + [CutCall(op, newlineOnly), Crash]).disk)
            == if newlineOnly && !op.Delete? then Effect(before, op) else before
  {
    AllOrNothing(events);
    CutThenCrash(events, op, newlineOnly);
    CutEffect(Run(events).disk, Run(events).mem.value, op, newlineOnly);
  }

  lemma CutEffect(d: Disk, before: State, op: Op, newlineOnly: bool)
    requires Clean(d, before) && !op.Restore?
    ensures Recovered(CutAppend(d, Effect(before, op), newlineOnly))
            == if newlineOnly && !op.Delete? then Effect(before, op) else before
  {
    CutOutcome(d, before, Effect(before, op), newlineOnly);
    if op.Delete? {
      assert before + Effect(before, op) == before;
    } else {
      Covers(before, Effect(before, op));
    }
  }

  // ---- Swallowed I/O errors ------------------------------------------------

  predicate OnlyMerges(events: seq<Event>) {
    WholeAppends(events) && forall e :: e in events && e.Call? ==> e.op.Set? || e.op.Update?
  }

  /** The last state whose line reached the WAL. */
  function Logged(events: seq<Event>): State {
    if events == [] then map[]
    else
      var init, last := events[..|events| - 1], events[|events| - 1];
      if last.Call? && Run(init).mem.Some? && 2 <= last.n then Effect(Run(init).mem.value, last.op)
      else Logged(init)
  }

  /** With set and update only, errors may be swallowed after any step of any
      commit, lines may pile up and crashes may come at any time. */
  lemma {:induction false} MergeReplay(events: seq<Event>)
    requires OnlyMerges(events)
    ensures var m, x := Run(events), Logged(events);
            && AllWhole(Lines(m.disk))
            && Recovered(m.disk) == x
            && (m.mem.Some? ==> x.Keys <= m.mem.value.Keys)
  {
    if events != [] {
      var init, last := events[..|events| - 1], events[|events| - 1];
      assert last in events;
      MergeReplay(init);
      var m := Run(init);
      if last.Call? && m.mem.Some? {
        CoveringCommit(m.disk, Effect(m.mem.value, last.op), last.n);
      } else if last.Open? && m.mem.None? {
        CoveringCommit(m.disk, Recovered(m.disk), last.n);
      }
    }
  }

  /** As long as no append is cut short, every run leaves whole lines. */
  lemma {:induction false} RunWhole(events: seq<Event>)
    requires WholeAppends(events)
    ensures AllWhole(Lines(Run(events).disk))
  {
    if events != [] {
      var init, last := events[..|events| - 1], events[|events| - 1];
      assert last in events;
      RunWhole(init);
      var m := Run(init);
      if last.Call? && m.mem.Some? {
        CommitOutcome(m.disk, Effect(m.mem.value, last.op), last.n);
      } else if last.Open? && m.mem.None? {
        CommitOutcome(m.disk, Recovered(m.disk), last.n);
      }
    }
  }

  /** Commits are where errors hurt: one that stops after n steps is recovered as
      the state before it or the one committed. */
  predicate CommitWhole(d: Disk, t: State, n: Stop) {
    var r := Recovered(AfterCommit(d, t, n));
    r == Recovered(d) || r == t
  }

  /** Exactly when, over whole lines: until the replace the two are overlaid, so
      one must cover the other; behind the replace the lines still in the log are
      overlaid by t, so t must cover them, or they must make up for what t omits. */
  lemma CommitWholeIff(d: Disk, t: State, n: Stop)
    requires AllWhole(Lines(d))
    ensures var r, logs := Recovered(d), Logs(d);
            CommitWhole(d, t, n) <==>
              if n < 2 || n == 5 then true
              else if n < 4 then r.Keys <= t.Keys || Submap(t, r)
              else logs.Keys <= t.Keys || (Submap(t, r) && r.Keys <= logs.Keys + t.Keys)
  {
    var r, logs := Recovered(d), Logs(d);
    CommitOutcome(d, t, n);
    OverlayCases(r, t);
    OverlayCases(logs, t);
    SaidWithin(Loaded(d.file), Lines(d));
    OverlayInside(logs, t, r);
  }

  lemma OverlayInside(logs: State, t: State, r: State)
    requires Submap(logs, r)
    ensures logs + t == r <==> Submap(t, r) && r.Keys <= logs.Keys + t.Keys
  {
    if logs + t == r {
      forall k | k in t ensures k in r && r[k] == t[k] {
        assert k in logs + t;
      }
      assert r.Keys <= logs.Keys + t.Keys;
    }
  }

  /** After a delete that stops after n steps the key is back in the next
      process exactly when it was on disk before the replace, and behind it
      exactly when a line left in the WAL mentions it. */
  lemma DeleteUnderErrors(d: Disk, s: State, key: string, n: Stop)
    requires AllWhole(Lines(d))
    ensures key in Recovered(AfterCommit(d, s - {key}, n)) <==>
            (n < 4 && key in Recovered(d)) || (n == 4 && Mentions(Lines(d), key))
    ensures Recovered(AfterCommit(d, s - {key}, 4)) == s - {key} <==>
            forall k :: Mentions(Lines(d), k) ==> k in s && k != key
  {
    CommitOutcome(d, s - {key}, n);
    CommitOutcome(d, s - {key}, 4);
    MentionedKeys(d);
    OverlayCases(Logs(d), s - {key});
    assert Logs(d).Keys <= (s - {key}).Keys <==> forall k :: Mentions(Lines(d), k) ==> k in s && k != key by {
      forall k ensures k in Logs(d) <==> Mentions(Lines(d), k) {
      }
    }
  }

  /** In terms of such lines, whatever memory and disk hold: when the delete is
      half applied, recovered as neither the state before it nor the one after. */
  lemma DeleteHalfApplied(d: Disk, s: State, key: string, n: Stop)
    requires AllWhole(Lines(d))
    ensures var r, t := Recovered(d), s - {key};
            !CommitWhole(d, t, n) <==>
            || (2 <= n < 4 && !(r.Keys <= t.Keys) && !Submap(t, r))
            || (n == 4 && (exists k :: Mentions(Lines(d), k) && k !in t)
                && !(Submap(t, r) && forall k :: k in r ==> k in t || Mentions(Lines(d), k)))
  {
    CommitWholeIff(d, s - {key}, n);
    MentionedKeys(d);
  }

  lemma MentionedKeys(d: Disk)
    requires AllParse(Lines(d))
    ensures forall k :: k in Logs(d) <==> Mentions(Lines(d), k)
  {
    forall k ensures k in Logs(d) <==> Mentions(Lines(d), k) {
      ReplayMentions(Loaded(d.file), Lines(d), k);
    }
  }

  /** The same over runs: a delete that a process makes on the state it has. */
  lemma DeleteInRun(events: seq<Event>, key: string, n: Stop)
    requires WholeAppends(events) && Run(events).mem.Some?
    ensures var d, s := Run(events).disk, Run(events).mem.value;
            Recovered(Run(events + [Call(Delete(key), n), Crash]).disk)
            == if n < 2 then Recovered(d) else if n < 4 then Recovered(d) + (s - {key})
               else if n == 4 then Logs(d) + (s - {key}) else s - {key}
  {
    RunWhole(events);
    RunMore(events, Call(Delete(key), n), Crash);
    CommitOutcome(Run(events).disk, Run(events).mem.value - {key}, n);
  }

  lemma KeyOnDisk()
    ensures var m := Run([Open(5), Call(Set("k", "v"), 4)]);
            && m.mem == Some(map["k" := "v"]) && Recovered(m.disk) == map["k" := "v"]
            && Logs(m.disk) == map["k" := "v"]
  {
    var s: State := map["k" := "v"];
    RunTwo(Open(5), Call(Set("k", "v"), 4));
    CommitStages(FRESH, s, 4);
    assert map[]["k" := "v"] == s;
    var d := Run([Open(5), Call(Set("k", "v"), 4)]).disk;
    assert d == AfterCommit(FRESH, s, 4);
    assert Lines(d)[0] == Whole(s);
    assert Lines(d) == [Whole(s)] && Replay(s, [Whole(s)]) == s + s == s;
    assert Mentions(Lines(d), "k");
    MentionedKeys(d);
  }

  /** Two failed truncations: the deleted key is back after reopening. */
  lemma DeletedKeyReturns()
    ensures var events := [Open(5), Call(Set("k", "v"), 4), Call(Delete("k"), 4), Crash];
            Recovered(Run(events).disk) == map["k" := "v"]
  {
    var s: State := map["k" := "v"];
    var two := [Open(5), Call(Set("k", "v"), 4)];
    KeyOnDisk();
    DeleteInRun(two, "k", 4);
    assert s + (s - {"k"}) == s;
    assert [Open(5), Call(Set("k", "v"), 4), Call(Delete("k"), 4), Crash] == two + [Call(Delete("k"), 4), Crash];
  }

  /** The same after a set whose line was lost: recovery finds the set and not
      the delete, which is neither the state on disk before the delete (only k)
      nor the state after it (only j). */
  lemma DeleteMixed()
    ensures var events := [Open(5), Call(Set("k", "v"), 4), Call(Set("j", "w"), 0), Call(Delete("k"), 4), Crash];
            Recovered(Run(events).disk) == map["k" := "v", "j" := "w"]
  {
    var s, t: State := map["k" := "v"], map["k" := "v", "j" := "w"];
    var two := [Open(5), Call(Set("k", "v"), 4)];
    KeyOnDisk();
    var three := two + [Call(Set("j", "w"), 0)];
    assert three[..2] == two && s["j" := "w"] == t;
    assert Run(three) == Machine(Run(two).disk, Some(t));
    DeleteInRun(three, "k", 4);
    assert s + (t - {"k"}) == t;
    assert [Open(5), Call(Set("k", "v"), 4), Call(Set("j", "w"), 0), Call(Delete("k"), 4), Crash]
        == three + [Call(Delete("k"), 4), Crash];
  }

  lemma RunSnoc(events: seq<Event>, e: Event)
    ensures Run(events + [e]) == Next(Run(events), e)
  {
    assert (events + [e])[..|events|] == events;
  }

  lemma RunMore(events: seq<Event>, a: Event, b: Event)
    ensures Run(events + [a, b]) == Next(Next(Run(events), a), b)
  {
    assert events + [a, b] == (events + [a]) + [b];
    RunSnoc(events, a);
    RunSnoc(events + [a], b);
  }

  lemma RunTwo(a: Event, b: Event)
    ensures Run([a, b]) == Next(Next(Machine(FRESH, None), a), b)
  {
    RunMore([], a, b);
    assert [] + [a, b] == [a, b];
  }

  // ---- Restoring a snapshot ------------------------------------------------

  /** A restore over whole lines, whatever the memory holds, is recovered as the
      state before it or as the snapshot wherever its commit stops, exactly when
      the snapshot has all keys on disk; or says nothing new there, and the lines
      in the log stay within the snapshot or make up for what it omits. */
  lemma RestoreAllOrNothing(d: Disk, snapshot: State)
    requires AllWhole(Lines(d))
    ensures var r, logs := Recovered(d), Logs(d);
            (forall n: Stop :: CommitWhole(d, snapshot, n)) <==>
            || r.Keys <= snapshot.Keys
            || (Submap(snapshot, r) && (logs.Keys <= snapshot.Keys || r.Keys <= logs.Keys + snapshot.Keys))
  {
    assert Logs(d).Keys <= Recovered(d).Keys;
    forall n: Stop {
      CommitWholeIff(d, snapshot, n);
    }
    CommitWholeIff(d, snapshot, 2);
    CommitWholeIff(d, snapshot, 4);
  }

  /** A run in which a restore is recovered as the union of both states. */
  lemma RestoreWitness()
    ensures var events := [Open(5), Call(Set("a", "1"), 5), Call(Restore(map["b" := "2"]), 2), Crash];
            Recovered(Run(events).disk) == map["a" := "1", "b" := "2"]
  {
    var a, b: State := map["a" := "1"], map["b" := "2"];
    var two := [Open(5), Call(Set("a", "1"), 5)];
    RunTwo(two[0], two[1]);
    CommitStages(FRESH, a, 5);
    assert map[]["a" := "1"] == a;
    var d := Run(two).disk;
    assert d == AfterCommit(FRESH, a, 5) && Clean(d, a);
    CommitOutcome(d, b, 2);
    var events := two + [Call(Restore(b), 2), Crash];
    assert events == [Open(5), Call(Set("a", "1"), 5), Call(Restore(b), 2), Crash];
    RunMore(two, events[2], events[3]);
    assert a + b == map["a" := "1", "b" := "2"];
  }

  /** The machine together with its snapshot files. */
  datatype World = World(machine: Machine, snapshots: map<string, File>)

  datatype Action = Do(event: Event) | Create(name: string) | RestoreFrom(name: string, n: Stop)

  function Act(w: World, a: Action): World {
    match a
    case Do(e) => w.(machine := Next(w.machine, e))
    case Create(name) =>
      if w.machine.mem.None? then w else w.(snapshots := w.snapshots[name := Holds(w.machine.mem.value)])
    case RestoreFrom(name, n) =>
      if name in w.snapshots && w.snapshots[name].Holds?
      then w.(machine := Next(w.machine, Call(Restore(w.snapshots[name].state), n)))
      else w
  }

  function ActAll(w: World, actions: seq<Action>): World
    decreases |actions|
  {
    if actions == [] then w else ActAll(Act(w, actions[0]), actions[1..])
  }

  lemma {:induction false} SnapshotStays(w: World, name: string, actions: seq<Action>)
    requires name in w.snapshots && Create(name) !in actions
    ensures name in ActAll(w, actions).snapshots && ActAll(w, actions).snapshots[name] == w.snapshots[name]
    decreases |actions|
  {
    if actions != [] {
      assert actions[0] in actions;
      SnapshotStays(Act(w, actions[0]), name, actions[1..]);
    }
  }

  /** Whatever happens between, errors, crashes and other restores included, a
      snapshot brings back in memory and on disk the state it was created from. */
  lemma SnapshotRoundTrip(w: World, name: string, actions: seq<Action>)
    requires w.machine.mem.Some? && Create(name) !in actions
    requires ActAll(Act(w, Create(name)), actions).machine.mem.Some?
    ensures var u := Act(ActAll(Act(w, Create(name)), actions), RestoreFrom(name, STEPS));
            u.machine.mem == w.machine.mem && Recovered(u.machine.disk) == w.machine.mem.value
  {
    var s := w.machine.mem.value;
    var v := Act(w, Create(name));
    SnapshotStays(v, name, actions);
    CommitStages(ActAll(v, actions).machine.disk, s, STEPS);
  }

  // ---- A log that appending does not reach ---------------------------------

  /** The lines in front of the first one that does not parse. */
  function Leading(lines: seq<Line>): (r: seq<Line>)
    ensures AllParse(r) && r <= lines
  {
    if lines == [] || !Parses(lines[0]) then [] else [lines[0]] + Leading(lines[1..])
  }

  lemma {:induction false} ReplayLeading(s: State, lines: seq<Line>)
    ensures Replay(s, lines) == Replay(s, Leading(lines))
    decreases |lines|
  {
    if lines != [] && Parses(lines[0]) {
      ReplayLeading(s + lines[0].entry, lines[1..]);
    }
  }

  lemma LeadingStop(lines: seq<Line>)
    requires lines != [] && !Parses(lines[0])
    ensures Leading(lines) == [] && !AllParse(lines)
  {
    assert lines[0] in lines;
  }

  lemma LeadingCons(l: Line, lines: seq<Line>)
    requires Parses(l)
    ensures Leading([l] + lines) == [l] + Leading(lines) && (AllParse([l] + lines) <==> AllParse(lines))
  {
    assert ([l] + lines)[1..] == lines;
    assert forall k :: k in lines ==> k in [l] + lines;
  }

  lemma AppendCons(first: Line, rest: seq<Line>, l: Line)
    requires rest != []
    ensures Append([first] + rest, l) == [first] + Append(rest, l)
  {
    var lines := [first] + rest;
    assert lines[|lines| - 1] == rest[|rest| - 1];
    assert lines[..|lines| - 1] == [first] + rest[..|rest| - 1];
  }

  lemma {:induction false} LeadingAppend(lines: seq<Line>, l: Line)
    requires !AllParse(lines)
    ensures Leading(Append(lines, l)) == Leading(lines) && !AllParse(Append(lines, l))
  {
    if !Parses(lines[0]) {
      LeadingStop(lines);
      LeadingStop(Append(lines, l));
    } else {
      var first, rest := lines[0], lines[1..];
      assert lines == [first] + rest;
      LeadingCons(first, rest);
      LeadingAppend(rest, l);
      AppendCons(first, rest, l);
      LeadingCons(first, Append(rest, l));
    }
  }

  /** A line appended to this log will not be replayed. */
  predicate Blocked(d: Disk) {
    !AllParse(Lines(d)) || OpenEnded(Lines(d))
  }

  /** The lines that still are. */
  function Surviving(d: Disk): (r: seq<Line>)
    requires Blocked(d)
    ensures AllParse(r)
  {
    if Unfinished(d) then Earlier(d) else Leading(Lines(d))
  }

  /** Committing over such a log. */
  lemma BlockedCommit(d: Disk, s: State, n: Stop)
    requires Blocked(d)
    ensures Recovered(AfterCommit(d, s, n)) ==
            if n < 2 then Recovered(d) else if n < 4 then Replay(Loaded(d.file), Surviving(d))
            else if n == 4 then Replay(s, Surviving(d)) else s
  {
    if Unfinished(d) {
      UnfinishedCommit(d, s, n);
    } else {
      CommitStages(d, s, n);
      LeadingAppend(Lines(d), Whole(s));
      ReplayLeading(Loaded(d.file), Lines(d));
      ReplayLeading(Loaded(d.file), Append(Lines(d), Whole(s)));
      ReplayLeading(s, Append(Lines(d), Whole(s)));
    }
  }

  lemma {:induction false} LongerThan(names: set<string>) returns (key: string)
    ensures key !in names
    ensures forall k :: k in names ==> |k| < |key|
  {
    key := "a";
    var left := names;
    while left != {}
      invariant left <= names
      invariant forall k :: k in names - left ==> |k| < |key|
      decreases |left|
    {
      var k :| k in left;
      key := key + k + "a";
      left := left - {k};
    }
  }

  /** No key is mentioned. */
  predicate Silent(lines: seq<Line>) {
    forall i :: 0 <= i < |lines| && Parses(lines[i]) ==> lines[i].entry == map[]
  }

  lemma {:induction false} ReplaySilent(s: State, lines: seq<Line>)
    requires Silent(lines)
    ensures Replay(s, lines) == s
    decreases |lines|
  {
    if lines != [] && Parses(lines[0]) {
      assert s + lines[0].entry == s;
      ReplaySilent(s, lines[1..]);
    }
  }

  /** An update whose commit stops after n steps is recovered entirely or not at all. */
  predicate UpdateWhole(d: Disk, u: State, n: Stop) {
    CommitWhole(d, Recovered(d) + u, n)
  }

  /** Behind a line that does not parse, or one that lacks its newline, updates
      are all or nothing exactly when the lines in front of it are empty states
      and the unfinished line says nothing new: an earlier line would be overlaid
      on the replaced file, and an unfinished one is lost to the append. */
  lemma BlockedAllOrNothing(d: Disk)
    requires Blocked(d)
    ensures (forall u: State, n: Stop :: UpdateWhole(d, u, n)) <==> Silent(Surviving(d)) && Recovered(d) == Loaded(d.file)
  {
    var lead := Surviving(d);
    if Silent(lead) && Recovered(d) == Loaded(d.file) {
      forall u: State, n: Stop ensures UpdateWhole(d, u, n) {
        BlockedCommit(d, Recovered(d) + u, n);
        ReplaySilent(Loaded(d.file), lead);
        ReplaySilent(Recovered(d) + u, lead);
      }
    } else if !Silent(lead) {
      var i :| 0 <= i < |lead| && Parses(lead[i]) && lead[i].entry != map[];
      assert lead[i] in lead;
      var key :| key in lead[i].entry;
      var u := MixedUpdate(d, key);
      assert !UpdateWhole(d, u, 4);
    } else {
      ReplaySilent(Loaded(d.file), lead);
      var u := LostLine(d);
      assert !UpdateWhole(d, u, 2);
    }
  }

  /** One failing update overwrites a key an earlier line mentions and adds a new one. */
  lemma MixedUpdate(d: Disk, key: string) returns (u: State)
    requires Blocked(d) && Mentions(Surviving(d), key)
    ensures !UpdateWhole(d, u, 4)
  {
    var s, f, lead := Recovered(d), Loaded(d.file), Surviving(d);
    ReplayMentions(f, lead, key);
    var was := Replay(f, lead)[key];
    var other := LongerThan(s.Keys + {key});
    u := map[key := was + "x", other := ""];
    var t := s + u;
    assert |t[key]| == |was| + 1;
    BlockedCommit(d, t, 4);
    ReplayWins(f, t, lead, key);
    ReplayKeys(t, lead);
    assert Replay(t, lead)[key] == was && other in Replay(t, lead) && other !in s;
  }

  /** The other adds a key while the unfinished line is lost. */
  lemma LostLine(d: Disk) returns (u: State)
    requires Blocked(d) && Replay(Loaded(d.file), Surviving(d)) != Recovered(d)
    ensures !UpdateWhole(d, u, 2)
  {
    var s, q := Recovered(d), Replay(Loaded(d.file), Surviving(d));
    ReplayLeading(Loaded(d.file), Lines(d));
    var other := LongerThan(s.Keys + q.Keys);
    u := map[other := ""];
    BlockedCommit(d, s + u, 2);
    assert other in s + u && other !in q;
  }

  // ---- Runs with an interrupted append -------------------------------------

  lemma OneKey(v: string)
    ensures Run([Open(5), Call(Set("a", v), 5)]).mem == Some(map["a" := v])
    ensures Clean(Run([Open(5), Call(Set("a", v), 5)]).disk, map["a" := v])
  {
    RunTwo(Open(5), Call(Set("a", v), 5));
    CommitStages(FRESH, map["a" := v], 5);
    assert map[]["a" := v] == map["a" := v];
  }

  lemma UnendedDisk() returns (d: Disk)
    ensures d == Run([Open(5), Call(Set("a", "0"), 5), CutCall(Set("a", "1"), true), Crash]).disk
    ensures d.wal == Some([Unended(map["a" := "1"])]) && Loaded(d.file) == map["a" := "0"]
    ensures Recovered(d) == map["a" := "1"]
  {
    var a, b: State := map["a" := "0"], map["a" := "1"];
    var two := [Open(5), Call(Set("a", "0"), 5)];
    OneKey("0");
    CutThenCrash(two, Set("a", "1"), true);
    assert a["a" := "1"] == b;
    assert two + [CutCall(Set("a", "1"), true), Crash] == [Open(5), Call(Set("a", "0"), 5), CutCall(Set("a", "1"), true), Crash];
    CutOutcome(Run(two).disk, a, b, true);
    d := CutAppend(Run(two).disk, b, true);
    assert a + b == b;
  }

  /** A set is there after its append lost only the newline, and gone again once
      the recovery that found it is interrupted. */
  lemma UnendedWitness()
    ensures var events := [Open(5), Call(Set("a", "0"), 5), CutCall(Set("a", "1"), true), Crash];
            && Recovered(Run(events).disk) == map["a" := "1"]
            && Recovered(Run(events + [Open(2), Crash]).disk) == map["a" := "0"]
  {
    var events := [Open(5), Call(Set("a", "0"), 5), CutCall(Set("a", "1"), true), Crash];
    var d := UnendedDisk();
    RunMore(events, Open(2), Crash);
    assert Run(events).mem == None by {
      OneKey("0");
      CutThenCrash([Open(5), Call(Set("a", "0"), 5)], Set("a", "1"), true);
      assert events == [Open(5), Call(Set("a", "0"), 5)] + [CutCall(Set("a", "1"), true), Crash];
    }
    assert AllParse(Lines(d)) && Unfinished(d) && Earlier(d) == [];
    UnfinishedCommit(d, Recovered(d), 2);
  }

  lemma LoggedDisk() returns (c: Disk)
    ensures Run([Open(5), Call(Set("a", "0"), 5), Call(Set("a", "1"), 2), Crash]) == Machine(c, None)
    ensures c.wal == Some([Whole(map["a" := "1"])]) && Loaded(c.file) == map["a" := "0"]
  {
    var a, b: State := map["a" := "0"], map["a" := "1"];
    var two := [Open(5), Call(Set("a", "0"), 5)];
    OneKey("0");
    RunMore(two, Call(Set("a", "1"), 2), Crash);
    assert two + [Call(Set("a", "1"), 2), Crash] == [Open(5), Call(Set("a", "0"), 5), Call(Set("a", "1"), 2), Crash];
    assert a["a" := "1"] == b;
    c := AfterCommit(Run(two).disk, b, 2);
    CommitStages(Run(two).disk, b, 2);
    assert Append([], Whole(b)) == [Whole(b)];
  }

  lemma CutOpenThenCrash(events: seq<Event>)
    requires var m := Run(events); m.mem.None? && m.disk.wal.Some? && AllParse(m.disk.wal.value)
    ensures var d := Run(events).disk;
            Run(events + [CutOpen(false), Crash]) == Machine(CutAppend(d, Recovered(d), false), None)
  {
    RunMore(events, CutOpen(false), Crash);
  }

  lemma TornDisk() returns (d: Disk)
    ensures d == Run([Open(5), Call(Set("a", "0"), 5), Call(Set("a", "1"), 2), Crash, CutOpen(false), Crash]).disk
    ensures d.wal == Some([Whole(map["a" := "1"]), Torn]) && Loaded(d.file) == map["a" := "0"]
  {
    var four := [Open(5), Call(Set("a", "0"), 5), Call(Set("a", "1"), 2), Crash];
    var b: State := map["a" := "1"];
    var c := LoggedDisk();
    assert AllParse([Whole(b)]) && Append([Whole(b)], Torn) == [Whole(b), Torn];
    CutOpenThenCrash(four);
    assert four + [CutOpen(false), Crash]
        == [Open(5), Call(Set("a", "0"), 5), Call(Set("a", "1"), 2), Crash, CutOpen(false), Crash];
    d := CutAppend(c, Recovered(c), false);
  }

  /** A set is interrupted after its append, the next opening's own append is
      torn, and in the process after that an update is recovered half applied. */
  lemma TornWitness()
    ensures var d := Run([Open(5), Call(Set("a", "0"), 5), Call(Set("a", "1"), 2), Crash, CutOpen(false), Crash]).disk;
            && Recovered(d) == map["a" := "1"]
            && Recovered(AfterCommit(d, Recovered(d) + map["a" := "2", "b" := "3"], 4)) == map["a" := "1", "b" := "3"]
  {
    var a, b, u: State := map["a" := "0"], map["a" := "1"], map["a" := "2", "b" := "3"];
    var d := TornDisk();
    assert Lines(d) == [Whole(b)] + [Torn];
    LeadingStop([Torn]);
    LeadingCons(Whole(b), [Torn]);
    assert Leading(Lines(d)) == [Whole(b)];
    ReplayLeading(a, Lines(d));
    assert Replay(a, [Whole(b)]) == a + b == b && Replay(u, [Whole(b)]) == u + b;
    assert b + u == u && u + b == map["a" := "1", "b" := "3"];
    BlockedCommit(d, u, 4);
  }
}

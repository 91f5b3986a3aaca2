/** Fail-fast phase gating in a track (ci/desktop.py) and the status of a whole
    pipeline, sequential or parallel (ci/pipeline.py). */
module Pipeline {
  import opened Prelude

  datatype Status = Passed | Failed | Skipped | DryRun | NoTracks | Mixed

  datatype PhaseResult = PhaseResult(phase: string, status: Status)

  datatype TrackResult = TrackResult(track: string, phases: seq<PhaseResult>, overall: Status)

  const PHASES: set<string> := {"prepare", "preflight", "test", "build", "deploy"}

  // ---- One track -----------------------------------------------------------

  /** Outcomes are a function of the phase; an unknown phase is skipped. */
  function RunPhase(phase: string, outcome: string -> Status): PhaseResult {
    PhaseResult(phase, if phase in PHASES then outcome(phase) else Skipped)
  }

  function Statuses(rs: seq<PhaseResult>): seq<Status> {
    if rs == [] then [] else Statuses(rs[..|rs| - 1]) + [rs[|rs| - 1].status]
  }

  function TrackStatus(ss: seq<Status>): Status {
    if Failed in ss then Failed
    else if forall s :: s in ss ==> s == Skipped then Skipped
    else Passed
  }

  function RunAll(phases: seq<string>, outcome: string -> Status): (rs: seq<PhaseResult>)
    ensures |rs| == |phases|
  {
    if phases == [] then [] else RunAll(phases[..|phases| - 1], outcome) + [RunPhase(phases[|phases| - 1], outcome)]
  }

  /** Length of the shortest prefix that ends in a failure, or of all phases. */
  function StopAfter(phases: seq<string>, outcome: string -> Status): (n: nat)
    ensures n <= |phases|
    ensures forall i :: 0 <= i < n - 1 ==> RunPhase(phases[i], outcome).status != Failed
    ensures n < |phases| ==> 0 < n && RunPhase(phases[n - 1], outcome).status == Failed
    ensures phases != [] ==> 0 < n
  {
    if phases == [] then 0
    else if RunPhase(phases[0], outcome).status == Failed then 1
    else 1 + StopAfter(phases[1..], outcome)
  }

  function Members(ss: seq<Status>): set<Status> {
    set s | s in ss
  }

  lemma MembersSnoc(ss: seq<Status>, s: Status)
    ensures Members(ss + [s]) == Members(ss) + {s}
  {
  }

  lemma {:induction false} StatusSet(phases: seq<string>, outcome: string -> Status)
    ensures Members(Statuses(RunAll(phases, outcome))) == set p | p in phases :: RunPhase(p, outcome).status
  {
    if phases != [] {
      var init, last := phases[..|phases| - 1], phases[|phases| - 1];
      assert phases == init + [last];
      StatusSet(init, outcome);
      var rs := RunAll(phases, outcome);
      assert rs[..|rs| - 1] == RunAll(init, outcome);
      MembersSnoc(Statuses(RunAll(init, outcome)), RunPhase(last, outcome).status);
    }
  }

  /** The overall status says whether some phase failed, else whether all were skipped. */
  lemma StatusOfRun(phases: seq<string>, outcome: string -> Status)
    ensures var s := TrackStatus(Statuses(RunAll(phases, outcome)));
            && (s == Failed <==> exists p :: p in phases && RunPhase(p, outcome).status == Failed)
            && (s == Skipped <==> forall p :: p in phases ==> RunPhase(p, outcome).status == Skipped)
            && (s == Passed || s == Failed || s == Skipped)
  {
    StatusSet(phases, outcome);
    var ss := Statuses(RunAll(phases, outcome));
    assert Failed in ss <==> Failed in Members(ss);
    assert forall s :: s in ss <==> s in Members(ss);
    if forall s :: s in ss ==> s == Skipped {
      forall p | p in phases ensures RunPhase(p, outcome).status == Skipped {
        assert RunPhase(p, outcome).status in Members(ss);
      }
    }
  }

  /** The five phases run, any other name is skipped. */
  predicate Named(p: string) {
    p == "prepare" || p == "preflight" || p == "test" || p == "build" || p == "deploy"
  }

  /** The result of a phase in its place in the list. */
  lemma {:induction false} PhaseAt(phases: seq<string>, outcome: string -> Status, i: nat)
    requires i < |phases|
    ensures RunAll(phases, outcome)[i] == PhaseResult(phases[i], if Named(phases[i]) then outcome(phases[i]) else Skipped)
  {
    if i < |phases| - 1 {
      PhaseAt(phases[..|phases| - 1], outcome, i);
    }
  }

  lemma PhasesAt(phases: seq<string>, outcome: string -> Status)
    ensures forall i :: 0 <= i < |phases| ==>
              RunAll(phases, outcome)[i] == PhaseResult(phases[i], if Named(phases[i]) then outcome(phases[i]) else Skipped)
  {
    forall i | 0 <= i < |phases|
      ensures RunAll(phases, outcome)[i] == PhaseResult(phases[i], if Named(phases[i]) then outcome(phases[i]) else Skipped)
    {
      PhaseAt(phases, outcome, i);
    }
  }

  /** A track fails exactly when a phase that is run fails, and is skipped exactly
      when each phase is skipped by itself or for its name. */
  lemma TrackTells(phases: seq<string>, outcome: string -> Status)
    ensures var s := TrackStatus(Statuses(RunAll(phases, outcome)));
            && (s == Failed <==> exists p :: p in phases && Named(p) && outcome(p) == Failed)
            && (s == Skipped <==> forall p :: p in phases ==> Named(p) ==> outcome(p) == Skipped)
  {
    StatusOfRun(phases, outcome);
    forall p | p in phases
      ensures RunPhase(p, outcome).status == (if Named(p) then outcome(p) else Skipped)
    {
    }
  }

  /** Stopping at the first failure does not change the overall status. */
  lemma FailFastSameStatus(phases: seq<string>, outcome: string -> Status)
    ensures var n := StopAfter(phases, outcome);
            && TrackStatus(Statuses(RunAll(phases[..n], outcome))) == TrackStatus(Statuses(RunAll(phases, outcome)))
            && (n < |phases| ==> TrackStatus(Statuses(RunAll(phases, outcome))) == Failed)
  {
    var n := StopAfter(phases, outcome);
    if n < |phases| {
      assert phases[..n][n - 1] == phases[n - 1];
      OneFailure(phases, outcome, phases[n - 1]);
      OneFailure(phases[..n], outcome, phases[n - 1]);
    } else {
      assert phases[..n] == phases;
    }
  }

  lemma OneFailure(phases: seq<string>, outcome: string -> Status, p: string)
    requires p in phases && RunPhase(p, outcome).status == Failed
    ensures TrackStatus(Statuses(RunAll(phases, outcome))) == Failed
  {
    StatusOfRun(phases, outcome);
  }

  /** The first failing phase is where the prefix ends. */
  lemma {:induction false} FirstFailure(phases: seq<string>, outcome: string -> Status, i: nat)
    requires i <= |phases|
    requires forall j :: 0 <= j < i ==> RunPhase(phases[j], outcome).status != Failed
    ensures i == |phases| ==> StopAfter(phases, outcome) == i
    ensures i < |phases| && RunPhase(phases[i], outcome).status == Failed ==> StopAfter(phases, outcome) == i + 1
    decreases i
  {
    if 0 < i {
      FirstFailure(phases[1..], outcome, i - 1);
    }
  }

  /** run_desktop_pipeline: a disabled track is skipped; with fail_fast the
      phases run are exactly the prefix up to the first failure. */
  method RunTrack(track: string, enabled: bool, phases: seq<string>, outcome: string -> Status, failFast: bool)
    returns (r: TrackResult)
    ensures r.track == track
    ensures !enabled ==> r.phases == [] && r.overall == Skipped
    ensures enabled ==> r.phases == RunAll(if failFast then phases[..StopAfter(phases, outcome)] else phases, outcome)
    ensures enabled ==> r.overall == TrackStatus(Statuses(RunAll(phases, outcome)))
    ensures enabled ==> |r.phases| <= |phases| && (!failFast ==> |r.phases| == |phases|)
    ensures forall i :: 0 <= i < |r.phases| ==>
              r.phases[i] == PhaseResult(phases[i], if Named(phases[i]) then outcome(phases[i]) else Skipped)
  {
    if !enabled {
      return TrackResult(track, [], Skipped);
    }
    var results := [];
    for i := 0 to |phases|
      invariant results == RunAll(phases[..i], outcome)
      invariant failFast ==> forall j :: 0 <= j < i ==> RunPhase(phases[j], outcome).status != Failed
    {
      assert phases[..i + 1][..i] == phases[..i];
      var result := RunPhase(phases[i], outcome);
      results := results + [result];
      if result.status == Failed && failFast {
        FirstFailure(phases, outcome, i);
        OneFailure(phases, outcome, phases[i]);
        PhasesAt(phases[..i + 1], outcome);
        return TrackResult(track, results, Failed);
      }
    }
    assert phases[..|phases|] == phases;
    if failFast {
      FirstFailure(phases, outcome, |phases|);
    }
    PhasesAt(phases, outcome);
    return TrackResult(track, results, TrackStatus(Statuses(results)));
  }

  // ---- The pipeline --------------------------------------------------------

  function Aggregate(ss: seq<Status>): Status {
    if Failed in ss then Failed
    else if DryRun in ss then DryRun
    else if ss == [] then NoTracks
    else if forall s :: s in ss ==> s == Passed then Passed
    else if forall s :: s in ss ==> s == Passed || s == Skipped then Passed
    else Mixed
  }

  /** A track function either finishes with a status or raises. */
  datatype Outcome = Finished(status: Status) | Raised

  /** Which track modules could be imported, and what their tracks do. */
  datatype World = World(desktopThere: bool, androidThere: bool, desktop: Outcome, android: Outcome)

  predicate Unavailable(w: World, track: string) {
    (track == "desktop" && !w.desktopThere) || (track == "android" && !w.androidThere)
  }

  /** _run_single_track; the caller has skipped unavailable tracks. */
  function SingleTrack(w: World, track: string): Outcome {
    if track == "desktop" then w.desktop
    else if track == "android" then w.android
    else Finished(Skipped)
  }

  /** The statuses a sequential run collects, or None when a track raises. */
  function Sequential(w: World, tracks: seq<string>): Option<seq<Status>> {
    if tracks == [] then Some([])
    else
      var init, last := Sequential(w, tracks[..|tracks| - 1]), tracks[|tracks| - 1];
      if init.None? then None
      else if Unavailable(w, last) then init
      else
        match SingleTrack(w, last)
        case Raised => None
        case Finished(s) => Some(init.value + [s])
  }

  /** run_track in a worker thread: anything but "desktop" runs the android
      pipeline, and a crash counts as failed. */
  function ParallelTrack(w: World, track: string): Status {
    if Unavailable(w, track) then Skipped
    else if track == "desktop" then (if w.desktop.Finished? then w.desktop.status else Failed)
    else if !w.androidThere then Failed
    else if w.android.Finished? then w.android.status
    else Failed
  }

  function Parallel(w: World, order: seq<string>): seq<Status> {
    if order == [] then [] else Parallel(w, order[..|order| - 1]) + [ParallelTrack(w, order[|order| - 1])]
  }

  /** When each status of a pipeline comes out. */
  lemma AggregateTells(ss: seq<Status>)
    ensures var a := Aggregate(ss);
            && (a == Failed <==> Failed in ss)
            && (a == DryRun <==> Failed !in ss && DryRun in ss)
            && (a == NoTracks <==> ss == [])
            && (a == Passed <==> ss != [] && forall s :: s in ss ==> s == Passed || s == Skipped)
            && a != Skipped
  {
    if ss != [] {
      assert ss[0] in ss;
    }
  }

  /** The status depends on which statuses occur, not on their order or number. */
  lemma AggregateBySet(a: seq<Status>, b: seq<Status>)
    requires Members(a) == Members(b)
    ensures Aggregate(a) == Aggregate(b)
  {
    assert forall s :: s in a <==> s in Members(a);
    assert forall s :: s in b <==> s in Members(b);
    if a != [] { assert a[0] in b; }
    if b != [] { assert b[0] in a; }
  }

  lemma {:induction false} ParallelSet(w: World, order: seq<string>)
    ensures Members(Parallel(w, order)) == set t | t in order :: ParallelTrack(w, t)
  {
    if order != [] {
      var init, last := order[..|order| - 1], order[|order| - 1];
      assert order == init + [last];
      ParallelSet(w, init);
      MembersSnoc(Parallel(w, init), ParallelTrack(w, last));
    }
  }

  /** Every completion order of the same tracks gives the same pipeline status. */
  lemma CompletionOrderFree(w: World, tracks: seq<string>, order: seq<string>)
    requires multiset(order) == multiset(tracks)
    ensures Aggregate(Parallel(w, order)) == Aggregate(Parallel(w, tracks))
  {
    ParallelSet(w, order);
    ParallelSet(w, tracks);
    assert forall t :: t in order <==> t in multiset(order);
    assert forall t :: t in tracks <==> t in multiset(tracks);
    AggregateBySet(Parallel(w, order), Parallel(w, tracks));
  }

  /** A track run raises or ends with one of the three statuses a track can have. */
  predicate TrackEnd(o: Outcome) {
    o.Raised? || o.status == Passed || o.status == Failed || o.status == Skipped
  }

  predicate KnownTracks(tracks: seq<string>) {
    forall t :: t in tracks ==> t == "desktop" || t == "android"
  }

  function Available(w: World, tracks: seq<string>): set<string> {
    set t | t in tracks && !Unavailable(w, t)
  }

  /** No track that is run raises. */
  predicate NoneRaises(w: World, tracks: seq<string>) {
    forall t :: t in Available(w, tracks) ==> SingleTrack(w, t).Finished?
  }

  lemma AvailableSnoc(w: World, init: seq<string>, last: string)
    ensures Available(w, init + [last]) == Available(w, init) + if Unavailable(w, last) then {} else {last}
  {
  }

  /** A sequential run is cut short exactly when an available track raises. */
  lemma {:induction false} SequentialRaises(w: World, tracks: seq<string>)
    ensures Sequential(w, tracks).Some? <==> NoneRaises(w, tracks)
  {
    if tracks != [] {
      var init, last := tracks[..|tracks| - 1], tracks[|tracks| - 1];
      assert tracks == init + [last];
      AvailableSnoc(w, init, last);
      SequentialRaises(w, init);
    }
  }

  /** The sequential statuses are those of the available tracks. */
  lemma {:induction false} SequentialSet(w: World, tracks: seq<string>)
    requires KnownTracks(tracks) && NoneRaises(w, tracks)
    ensures Sequential(w, tracks).Some?
    ensures Members(Sequential(w, tracks).value) == set t | t in Available(w, tracks) :: ParallelTrack(w, t)
  {
    if tracks != [] {
      var init, last := tracks[..|tracks| - 1], tracks[|tracks| - 1];
      assert tracks == init + [last] && last in tracks;
      assert forall t :: t in init ==> t in tracks;
      AvailableSnoc(w, init, last);
      SequentialSet(w, init);
      if !Unavailable(w, last) {
        MembersSnoc(Sequential(w, init).value, ParallelTrack(w, last));
      }
    }
  }

  function SequentialStatus(w: World, tracks: seq<string>): Option<Status> {
    if Sequential(w, tracks).Some? then Some(Aggregate(Sequential(w, tracks).value)) else None
  }

  /** On passed, failed and skipped results the status is failed, passed or "no tracks". */
  lemma AggregatePlain(ss: seq<Status>)
    requires Members(ss) <= {Passed, Failed, Skipped}
    ensures Aggregate(ss) == if Failed in Members(ss) then Failed else if Members(ss) == {} then NoTracks else Passed
  {
    assert forall s :: s in ss <==> s in Members(ss);
    if ss != [] { assert ss[0] in Members(ss); }
  }

  lemma PlainStatuses(w: World, ts: set<string>)
    requires TrackEnd(w.desktop) && TrackEnd(w.android)
    ensures (set t | t in ts :: ParallelTrack(w, t)) <= {Passed, Failed, Skipped}
  {
  }

  /** The parallel status, a raising track included. */
  lemma ParallelPlain(w: World, tracks: seq<string>)
    requires TrackEnd(w.desktop) && TrackEnd(w.android)
    ensures var b := set t | t in tracks :: ParallelTrack(w, t);
            Aggregate(Parallel(w, tracks)) == if Failed in b then Failed else if b == {} then NoTracks else Passed
  {
    ParallelSet(w, tracks);
    PlainStatuses(w, set t | t in tracks);
    assert (set t | t in (set u | u in tracks) :: ParallelTrack(w, t)) == set t | t in tracks :: ParallelTrack(w, t);
    AggregatePlain(Parallel(w, tracks));
  }

  lemma SequentialPlain(w: World, tracks: seq<string>)
    requires TrackEnd(w.desktop) && TrackEnd(w.android) && KnownTracks(tracks) && NoneRaises(w, tracks)
    ensures var a := set t | t in Available(w, tracks) :: ParallelTrack(w, t);
            SequentialStatus(w, tracks) == Some(if Failed in a then Failed else if a == {} then NoTracks else Passed)
  {
    SequentialSet(w, tracks);
    PlainStatuses(w, Available(w, tracks));
    AggregatePlain(Sequential(w, tracks).value);
  }

  /** A pipeline never ends "mixed"; sequentially it has no status at all
      exactly when a track that is run raises. */
  lemma NeverMixed(w: World, tracks: seq<string>)
    requires TrackEnd(w.desktop) && TrackEnd(w.android) && KnownTracks(tracks)
    ensures SequentialStatus(w, tracks) in {Some(Passed), Some(Failed), Some(NoTracks), None}
    ensures SequentialStatus(w, tracks) == None <==> !NoneRaises(w, tracks)
    ensures Aggregate(Parallel(w, tracks)) in {Passed, Failed, NoTracks}
  {
    SequentialRaises(w, tracks);
    ParallelPlain(w, tracks);
    if NoneRaises(w, tracks) {
      SequentialPlain(w, tracks);
    }
  }

  /** A requested track that is there. */
  predicate Runs(there: bool, name: string, tracks: seq<string>) {
    there && name in tracks
  }

  predicate Fails(o: Outcome) {
    o == Raised || o == Finished(Failed)
  }

  /** What both modes answer, in terms of the two tracks: sequentially an exception
      goes through, in parallel it is a failure; otherwise a failed track fails the
      pipeline, and without a result there are no tracks. */
  lemma StatusTells(w: World, tracks: seq<string>)
    requires TrackEnd(w.desktop) && TrackEnd(w.android) && KnownTracks(tracks)
    ensures var d, a := Runs(w.desktopThere, "desktop", tracks), Runs(w.androidThere, "android", tracks);
            && SequentialStatus(w, tracks) ==
               (if (d && w.desktop == Raised) || (a && w.android == Raised) then None
                else if (d && w.desktop == Finished(Failed)) || (a && w.android == Finished(Failed)) then Some(Failed)
                else if !d && !a then Some(NoTracks) else Some(Passed))
            && Aggregate(Parallel(w, tracks)) ==
               (if (d && Fails(w.desktop)) || (a && Fails(w.android)) then Failed
                else if tracks == [] then NoTracks else Passed)
  {
    var d, a := Runs(w.desktopThere, "desktop", tracks), Runs(w.androidThere, "android", tracks);
    SequentialRaises(w, tracks);
    var there := Available(w, tracks);
    assert there == (if d then {"desktop"} else {}) + (if a then {"android"} else {});
    assert d ==> "desktop" in there;
    assert a ==> "android" in there;
    if NoneRaises(w, tracks) {
      SequentialPlain(w, tracks);
      var b := set t | t in there :: ParallelTrack(w, t);
      assert d ==> ParallelTrack(w, "desktop") in b;
      assert a ==> ParallelTrack(w, "android") in b;
    }
    ParallelPlain(w, tracks);
    if tracks != [] {
      assert ParallelTrack(w, tracks[0]) in (set t | t in tracks :: ParallelTrack(w, t));
    }
  }

  lemma AgreeWhenRun(w: World, tracks: seq<string>)
    requires TrackEnd(w.desktop) && TrackEnd(w.android) && KnownTracks(tracks) && NoneRaises(w, tracks) && tracks != []
    ensures SequentialStatus(w, tracks) == Some(Aggregate(Parallel(w, tracks))) <==> Available(w, tracks) != {}
  {
    SequentialPlain(w, tracks);
    ParallelPlain(w, tracks);
    var a, b := set t | t in Available(w, tracks) :: ParallelTrack(w, t), set t | t in tracks :: ParallelTrack(w, t);
    assert ParallelTrack(w, tracks[0]) in b;
    assert Failed in b ==> Failed in a by {
      if Failed in b {
        var u :| u in tracks && ParallelTrack(w, u) == Failed;
        assert u in Available(w, tracks);
      }
    }
    if Available(w, tracks) != {} {
      var t :| t in Available(w, tracks);
      assert ParallelTrack(w, t) in a;
    }
  }

  /** Sequential and parallel runs agree for every completion order exactly when
      some requested track is available and none that is available raises: an
      unavailable track leaves no result sequentially and a skipped one in
      parallel, and an exception ends the sequential run but is a failed track
      in parallel. */
  lemma SequentialVersusParallel(w: World, tracks: seq<string>, order: seq<string>)
    requires TrackEnd(w.desktop) && TrackEnd(w.android) && KnownTracks(tracks)
    requires 1 < |tracks| && multiset(order) == multiset(tracks)
    ensures SequentialStatus(w, tracks) == Some(Aggregate(Parallel(w, order)))
            <==> Available(w, tracks) != {} && NoneRaises(w, tracks)
  {
    CompletionOrderFree(w, tracks, order);
    SequentialRaises(w, tracks);
    if NoneRaises(w, tracks) {
      AgreeWhenRun(w, tracks);
    }
  }

  /** Both ways to disagree: a crash in the desktop track, and no track module at all. */
  lemma ModesDisagree(o: Outcome)
    ensures var tracks := ["desktop", "android"];
            && SequentialStatus(World(true, true, Raised, Finished(Passed)), tracks) == None
            && Aggregate(Parallel(World(true, true, Raised, Finished(Passed)), tracks)) == Failed
            && SequentialStatus(World(false, false, o, o), tracks) == Some(NoTracks)
            && Aggregate(Parallel(World(false, false, o, o), tracks)) == Passed
  {
    var tracks := ["desktop", "android"];
    assert tracks[..1] == ["desktop"] && ["desktop"][..0] == [];
    var crash, bare := World(true, true, Raised, Finished(Passed)), World(false, false, o, o);
    assert Sequential(crash, ["desktop"]) == None;
    assert Parallel(crash, ["desktop"]) == [] + [Failed] && Parallel(crash, tracks) == [Failed, Passed];
    assert Sequential(bare, ["desktop"]) == Some([]) && Sequential(bare, tracks) == Some([]);
    assert Parallel(bare, ["desktop"]) == [] + [Skipped] && Parallel(bare, tracks) == [Skipped, Skipped];
  }

  /** _run_sequential over the requested tracks; None when a track raises. */
  method RunSequential(w: World, tracks: seq<string>) returns (overall: Option<Status>)
    ensures overall == SequentialStatus(w, tracks)
  {
    var results: seq<Status> := [];
    for i := 0 to |tracks|
      invariant Sequential(w, tracks[..i]) == Some(results)
    {
      assert tracks[..i + 1][..i] == tracks[..i];
      if Unavailable(w, tracks[i]) {
        continue;
      }
      var outcome := SingleTrack(w, tracks[i]);
      if outcome.Raised? {
        RaiseStops(w, tracks, i + 1);
        return None;
      }
      results := results + [outcome.status];
    }
    assert tracks[..|tracks|] == tracks;
    return Some(Aggregate(results));
  }

  lemma {:induction false} RaiseStops(w: World, tracks: seq<string>, n: nat)
    requires n <= |tracks| && Sequential(w, tracks[..n]).None?
    ensures Sequential(w, tracks).None?
  {
    if n < |tracks| {
      var init := tracks[..|tracks| - 1];
      assert init[..n] == tracks[..n];
      RaiseStops(w, init, n);
    } else {
      assert tracks[..n] == tracks;
    }
  }

  /** _run_parallel, with the tracks in the order in which they complete. */
  method RunParallel(w: World, order: seq<string>) returns (overall: Status)
    ensures overall == Aggregate(Parallel(w, order))
  {
    var results: seq<Status> := [];
    for i := 0 to |order|
      invariant results == Parallel(w, order[..i])
    {
      assert order[..i + 1][..i] == order[..i];
      results := results + [ParallelTrack(w, order[i])];
    }
    assert order[..|order|] == order;
    return Aggregate(results);
  }
}

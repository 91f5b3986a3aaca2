/** The QMP bridges of several VMs: in switch mode at most one is live
    (gui/multi_vm_qmp_bridge.py). */
module QmpBridge {
  import opened Prelude

  /** Any text is taken when the manager is created; set_mode accepts two. */
  type Mode = string

  predicate ModeName(m: Mode) {
    m == "switch" || m == "multi"
  }

  datatype Bridge = Bridge(handle: nat, uri: string)

  /** bridges maps a registered VM to its bridge or to a placeholder; live are
      the handles of bridge threads started and not yet stopped. */
  datatype Bridges = Bridges(mode: Mode, bridges: map<string, Option<Bridge>>, active: Option<string>,
                             live: set<nat>, started: nat)

  function Initial(mode: Mode): Bridges {
    Bridges(mode, map[], None, {}, 0)
  }

  predicate Given(uri: Option<string>) {
    uri.Some? && uri.value != ""
  }

  /** Start a bridge thread for a VM. */
  function Launched(b: Bridges, name: string, uri: string): Bridges {
    b.(bridges := b.bridges[name := Some(Bridge(b.started, uri))], live := b.live + {b.started}, started := b.started + 1)
  }

  /** Registering a name again updates the address, but on a placeholder the
      call raises and changes nothing. */
  function Added(b: Bridges, name: string, uri: string): (Bridges, bool) {
    if name in b.bridges then
      match b.bridges[name]
      case Some(x) => (b.(bridges := b.bridges[name := Some(x.(uri := uri))]), true)
      case None => (b, false)
    else if b.mode == "multi" then (Launched(b, name, uri), true)
    else (b.(bridges := b.bridges[name := None]), true)
  }

  function StopOne(live: set<nat>, x: Option<Bridge>): set<nat> {
    if x.Some? then live - {x.value.handle} else live
  }

  function Removed(b: Bridges, name: string): Bridges {
    var c := if name in b.bridges
             then b.(bridges := b.bridges - {name}, live := StopOne(b.live, b.bridges[name])) else b;
    if c.active == Some(name) then c.(active := None) else c
  }

  /** The handles of all bridges but one VM's and those left. */
  function OtherHandles(b: Bridges, name: string, left: set<string>): set<nat> {
    set n | n in b.bridges && n !in left && n != name && b.bridges[n].Some? :: b.bridges[n].value.handle
  }

  /** Stop every bridge but this VM's and those left. */
  function OthersStopped(b: Bridges, name: string, left: set<string>): Bridges {
    b.(bridges := map n | n in b.bridges :: if n == name || n in left then b.bridges[n] else None,
       live := b.live - OtherHandles(b, name, left))
  }

  function Switched(b: Bridges, name: string, uri: Option<string>): Bridges {
    if name !in b.bridges && !Given(uri) then b
    else
      var c := if name in b.bridges then b else Added(b, name, uri.value).0;
      var d := c.(active := Some(name));
      if d.mode != "switch" then d
      else
        var e := OthersStopped(d, name, {});
        if e.bridges[name].None? && Given(uri) then Launched(e, name, uri.value) else e
  }

  function AllStopped(b: Bridges): Bridges {
    b.(bridges := map[], active := None, live := b.live - Handles(b))
  }

  function Handles(b: Bridges): set<nat> {
    set n | n in b.bridges && b.bridges[n].Some? :: b.bridges[n].value.handle
  }

  // ---- Runs ----------------------------------------------------------------

  datatype Op =
    | Add(name: string, uri: string)
    | Remove(name: string)
    | SwitchTo(name: string, newUri: Option<string>)
    | SetMode(mode: Mode)
    | StopAll

  function Next(b: Bridges, op: Op): Bridges {
    match op
    case Add(name, uri) => Added(b, name, uri).0
    case Remove(name) => Removed(b, name)
    case SwitchTo(name, uri) => Switched(b, name, uri)
    case SetMode(m) => if ModeName(m) then b.(mode := m) else b
    case StopAll => AllStopped(b)
  }

  function Run(mode: Mode, ops: seq<Op>): Bridges {
    if ops == [] then Initial(mode) else Next(Run(mode, ops[..|ops| - 1]), ops[|ops| - 1])
  }

  /** The live threads are exactly the registered bridges, one thread each:
      nothing is leaked and nothing registered is dead. */
  predicate Accounted(b: Bridges) {
    && b.live == Handles(b)
    && (forall n :: n in b.bridges && b.bridges[n].Some? ==> b.bridges[n].value.handle < b.started)
    && (forall m, n :: m in b.bridges && n in b.bridges && m != n && b.bridges[m].Some? && b.bridges[n].Some? ==>
          b.bridges[m].value.handle != b.bridges[n].value.handle)
  }

  /** The only bridge there may be is the active VM's. */
  predicate Single(b: Bridges) {
    forall n :: n in b.bridges && b.bridges[n].Some? ==> b.active == Some(n)
  }

  lemma HandleIn(b: Bridges, n: string)
    requires n in b.bridges && b.bridges[n].Some?
    ensures b.bridges[n].value.handle in Handles(b)
  {
  }

  lemma LaunchAccounted(b: Bridges, name: string, uri: string)
    requires Accounted(b) && (name in b.bridges ==> b.bridges[name].None?)
    ensures Accounted(Launched(b, name, uri))
  {
    var c := Launched(b, name, uri);
    HandleIn(c, name);
    forall h | h in c.live ensures h in Handles(c) {
      if h != b.started {
        var n :| n in b.bridges && b.bridges[n].Some? && b.bridges[n].value.handle == h;
        assert c.bridges[n] == b.bridges[n];
        HandleIn(c, n);
      }
    }
    forall h | h in Handles(c) ensures h in c.live {
      var n :| n in c.bridges && c.bridges[n].Some? && c.bridges[n].value.handle == h;
      if n != name {
        HandleIn(b, n);
      }
    }
  }

  lemma AddAccounted(b: Bridges, name: string, uri: string)
    requires Accounted(b)
    ensures Accounted(Added(b, name, uri).0)
  {
    var c := Added(b, name, uri).0;
    if name !in b.bridges && b.mode == "multi" {
      LaunchAccounted(b, name, uri);
    } else {
      assert forall n :: n in c.bridges && c.bridges[n].Some? ==>
               n in b.bridges && b.bridges[n].Some? && b.bridges[n].value.handle == c.bridges[n].value.handle;
      assert forall n :: n in b.bridges && b.bridges[n].Some? ==>
               n in c.bridges && c.bridges[n].Some? && b.bridges[n].value.handle == c.bridges[n].value.handle;
      assert Handles(c) == Handles(b);
    }
  }

  lemma RemoveAccounted(b: Bridges, name: string)
    requires Accounted(b)
    ensures Accounted(Removed(b, name))
  {
    var c := Removed(b, name);
    if name in b.bridges {
      assert Handles(c) == StopOne(Handles(b), b.bridges[name]) by {
        forall h | h in StopOne(Handles(b), b.bridges[name]) ensures h in Handles(c) {
          var n :| n in b.bridges && b.bridges[n].Some? && b.bridges[n].value.handle == h;
          HandleIn(c, n);
        }
      }
    }
  }

  lemma OneLess(b: Bridges, name: string, left: set<string>, n: string)
    requires n in left && n in b.bridges
    ensures var c := OthersStopped(b, name, left);
            OthersStopped(b, name, left - {n})
            == if n == name || b.bridges[n].None? then c
               else c.(bridges := c.bridges[n := None], live := c.live - {b.bridges[n].value.handle})
  {
    assert OtherHandles(b, name, left - {n})
        == OtherHandles(b, name, left) + if n != name && b.bridges[n].Some? then {b.bridges[n].value.handle} else {};
  }

  lemma StopOthersAccounted(b: Bridges, name: string)
    requires Accounted(b)
    ensures Accounted(OthersStopped(b, name, {}))
  {
    var c := OthersStopped(b, name, {});
    forall h | h in c.live ensures h in Handles(c) {
      var n :| n in b.bridges && b.bridges[n].Some? && b.bridges[n].value.handle == h;
      assert n == name;
      HandleIn(c, n);
    }
    forall h | h in Handles(c) ensures h in c.live {
      HandleIn(b, name);
    }
  }

  lemma SwitchAccounted(b: Bridges, name: string, uri: Option<string>)
    requires Accounted(b)
    ensures Accounted(Switched(b, name, uri))
  {
    if name in b.bridges || Given(uri) {
      var c := if name in b.bridges then b else Added(b, name, uri.value).0;
      if name !in b.bridges {
        AddAccounted(b, name, uri.value);
      }
      var d := c.(active := Some(name));
      assert Handles(d) == Handles(c);
      if d.mode == "switch" {
        StopOthersAccounted(d, name);
        var e := OthersStopped(d, name, {});
        if e.bridges[name].None? && Given(uri) {
          LaunchAccounted(e, name, uri.value);
        }
      }
    }
  }

  /** No bridge thread is leaked in any run, mode changes included. */
  lemma {:induction false} RunAccounted(mode: Mode, ops: seq<Op>)
    ensures Accounted(Run(mode, ops))
  {
    if ops != [] {
      var b := Run(mode, ops[..|ops| - 1]);
      RunAccounted(mode, ops[..|ops| - 1]);
      match ops[|ops| - 1]
      case Add(name, uri) => AddAccounted(b, name, uri);
      case Remove(name) => RemoveAccounted(b, name);
      case SwitchTo(name, uri) => SwitchAccounted(b, name, uri);
      case SetMode(m) => assert Handles(b.(mode := m)) == Handles(b);
      case StopAll =>
    }
  }

  /** From any state, mode changes included: switching to a VM in switch mode
      leaves no other bridge, and with an address the VM's own bridge is there. */
  lemma SwitchLeavesOne(b: Bridges, name: string, uri: Option<string>)
    requires b.mode == "switch" && (name in b.bridges || Given(uri))
    ensures var c := Switched(b, name, uri);
            && c.active == Some(name) && name in c.bridges && Single(c)
            && (Given(uri) || (name in b.bridges && b.bridges[name].Some?) <==> c.bridges[name].Some?)
            && (name in b.bridges && b.bridges[name].Some? ==> c.bridges[name] == b.bridges[name])
  {
  }

  /** The address given in switch mode is not kept, although the bridge is said
      to be created from it later: switching to the VM without an address starts
      nothing, and giving an address again raises. */
  lemma AddressForgotten()
    ensures var b := Run("switch", [Add("a", "u"), SwitchTo("a", None)]);
            b.active == Some("a") && b.live == {} && !Added(b, "a", "u").1
  {
    var ops := [Add("a", "u"), SwitchTo("a", None)];
    assert ops[..1] == [Add("a", "u")] && ops[..1][..0] == [];
    var b := Run("switch", ops[..1]);
    assert Run("switch", []) == Initial("switch");
    assert b == Added(Initial("switch"), "a", "u").0;
    assert b.bridges == map["a" := None];
    assert Run("switch", ops) == Switched(b, "a", None);
    assert Run("switch", ops).bridges["a"] == None;
  }

  predicate KeepsMode(ops: seq<Op>) {
    forall op :: op in ops ==> !op.SetMode?
  }

  predicate NoBridge(b: Bridges) {
    forall n :: n in b.bridges ==> b.bridges[n].None?
  }

  /** In a mode that is neither, no bridge is ever made. */
  predicate Held(b: Bridges) {
    Single(b) && (b.mode == "switch" || NoBridge(b))
  }

  lemma HeldNext(b: Bridges, op: Op)
    requires b.mode != "multi" && Held(b) && !op.SetMode?
    ensures Held(Next(b, op)) && Next(b, op).mode == b.mode
  {
    match op
    case SwitchTo(name, uri) =>
      if b.mode == "switch" && (name in b.bridges || Given(uri)) {
        SwitchLeavesOne(b, name, uri);
      }
    case _ =>
  }

  lemma {:induction false} RunSingle(mode: Mode, ops: seq<Op>)
    requires mode != "multi" && KeepsMode(ops)
    ensures Held(Run(mode, ops)) && Run(mode, ops).mode == mode
  {
    if ops != [] {
      assert ops[|ops| - 1] in ops;
      RunSingle(mode, ops[..|ops| - 1]);
      HeldNext(Run(mode, ops[..|ops| - 1]), ops[|ops| - 1]);
    }
  }

  /** In a manager that is never in multi mode at most one bridge thread lives,
      the active VM's. */
  lemma AtMostOneLive(mode: Mode, ops: seq<Op>)
    requires mode != "multi" && KeepsMode(ops)
    ensures var b := Run(mode, ops);
            && |b.live| <= 1
            && (b.live != {} ==> b.active.Some? && b.active.value in b.bridges && b.bridges[b.active.value].Some?
                                 && b.live == {b.bridges[b.active.value].value.handle})
  {
    RunSingle(mode, ops);
    RunAccounted(mode, ops);
    var b := Run(mode, ops);
    if b.live != {} {
      var h :| h in b.live;
      var n :| n in b.bridges && b.bridges[n].Some? && b.bridges[n].value.handle == h;
      forall k | k in b.live ensures k == h {
        var m :| m in b.bridges && b.bridges[m].Some? && b.bridges[m].value.handle == k;
        assert b.active == Some(m) && b.active == Some(n);
      }
      assert b.live == {h};
    }
  }

  /** Modes may have changed on the way, with any number of threads: a switch in
      switch mode leaves the active VM's thread alone, or none if it has no bridge. */
  lemma SwitchLeavesOneLive(mode: Mode, ops: seq<Op>, name: string, uri: Option<string>)
    requires var b := Run(mode, ops); b.mode == "switch" && (name in b.bridges || Given(uri))
    ensures var b := Run(mode, ops + [SwitchTo(name, uri)]);
            && b.active == Some(name) && name in b.bridges
            && b.live == if b.bridges[name].Some? then {b.bridges[name].value.handle} else {}
  {
    var all := ops + [SwitchTo(name, uri)];
    assert all[..|ops|] == ops;
    SwitchLeavesOne(Run(mode, ops), name, uri);
    RunAccounted(mode, all);
    var b := Run(mode, all);
    forall h | h in Handles(b) ensures b.bridges[name].Some? && h == b.bridges[name].value.handle {
      var n :| n in b.bridges && b.bridges[n].Some? && b.bridges[n].value.handle == h;
      assert b.active == Some(n);
    }
    if b.bridges[name].Some? {
      HandleIn(b, name);
    }
  }

  /** Whatever text the manager was created with, that holds exactly unless it is "multi". */
  lemma SingleUnlessMulti(mode: Mode)
    ensures (forall ops :: KeepsMode(ops) ==> |Run(mode, ops).live| <= 1) <==> mode != "multi"
  {
    if mode != "multi" {
      forall ops | KeepsMode(ops) ensures |Run(mode, ops).live| <= 1 {
        AtMostOneLive(mode, ops);
      }
    } else {
      var ops := [Add("a", "x"), Add("b", "y")];
      assert ops[..1] == [Add("a", "x")] && ops[..1][..0] == [];
      assert Run(mode, ops[..1]) == Next(Initial(mode), ops[0]);
      assert Run(mode, ops).live == {0, 1} && KeepsMode(ops);
      assert |{0, 1}| == 2;
    }
  }

  // ---- What each operation does --------------------------------------------

  /** Mode and all other registrations are as they were. */
  ghost predicate OthersKept(b: Bridges, c: Bridges, name: string) {
    && c.mode == b.mode
    && (forall n :: n != name ==> (n in c.bridges <==> n in b.bridges))
    && (forall n :: n in b.bridges && n != name ==> c.bridges[n] == b.bridges[n])
  }

  /** The bridge of name has this address and runs in a thread none had before. */
  predicate FreshBridge(b: Bridges, c: Bridges, name: string, uri: string) {
    && name in c.bridges && c.bridges[name].Some?
    && c.bridges[name].value.uri == uri && c.bridges[name].value.handle !in b.live
    && c.live == b.live + {c.bridges[name].value.handle}
  }

  /** Registering: a new name gets a bridge at this address at once in multi mode
      and a placeholder otherwise; a known bridge keeps its thread and takes the
      address; on a placeholder the call raises. */
  lemma AddEffect(b: Bridges, name: string, uri: string)
    requires Accounted(b)
    ensures var (c, ok) := Added(b, name, uri);
            && (ok <==> name !in b.bridges || b.bridges[name].Some?)
            && (!ok ==> c == b)
            && (ok ==> OthersKept(b, c, name) && c.active == b.active)
            && (name !in b.bridges && b.mode == "multi" ==> FreshBridge(b, c, name, uri))
            && (name !in b.bridges && b.mode != "multi" ==> name in c.bridges && c.bridges[name] == None && c.live == b.live)
            && (name in b.bridges && b.bridges[name].Some? ==>
                 c.live == b.live && name in c.bridges && c.bridges[name] == Some(Bridge(b.bridges[name].value.handle, uri)))
  {
  }

  /** Removing: the registration is gone and its thread is stopped, no other is. */
  lemma RemoveEffect(b: Bridges, name: string)
    requires Accounted(b)
    ensures var c := Removed(b, name);
            && OthersKept(b, c, name) && name !in c.bridges
            && c.active == (if b.active == Some(name) then None else b.active)
            && c.live == b.live - (if name in b.bridges && b.bridges[name].Some? then {b.bridges[name].value.handle} else {})
  {
  }

  /** Switching to an unknown name needs an address. In switch mode the VM keeps
      its bridge or gets a new one at the address given; in any other only the
      active VM changes, and a new name is registered. */
  lemma SwitchEffect(b: Bridges, name: string, uri: Option<string>)
    requires Accounted(b)
    ensures var c := Switched(b, name, uri);
            if name !in b.bridges && (uri == None || uri == Some("")) then c == b
            else
              && c.active == Some(name) && c.mode == b.mode && name in c.bridges
              && c.bridges.Keys == b.bridges.Keys + {name}
              && (name in b.bridges && b.bridges[name].Some? ==> c.bridges[name] == b.bridges[name])
              && (b.mode != "switch" ==> OthersKept(b, c, name))
              && (b.mode != "switch" && name in b.bridges ==> c.bridges == b.bridges && c.live == b.live)
              && (b.mode != "switch" && name !in b.bridges ==>
                   if b.mode == "multi" then FreshBridge(b, c, name, uri.value)
                   else c.bridges[name] == None && c.live == b.live)
              && (b.mode == "switch" && !(name in b.bridges && b.bridges[name].Some?) ==>
                   if uri == None || uri == Some("") then c.bridges[name] == None
                   else c.bridges[name].Some? && c.bridges[name].value.uri == uri.value
                        && c.bridges[name].value.handle !in b.live)
  {
  }

  /** Setting the mode takes the two names only and stops or starts nothing. */
  lemma ModeEffect(b: Bridges, mode: Mode)
    ensures var c := Next(b, SetMode(mode));
            && c.mode == (if mode == "switch" || mode == "multi" then mode else b.mode)
            && c.bridges == b.bridges && c.active == b.active && c.live == b.live
  {
  }

  /** Stopping all: no registration, no active VM, no thread. */
  lemma StopAllEffect(mode: Mode, ops: seq<Op>)
    ensures var b, c := Run(mode, ops), Run(mode, ops + [StopAll]);
            c.bridges == map[] && c.active == None && c.live == {} && c.mode == b.mode
  {
    assert (ops + [StopAll])[..|ops|] == ops;
    RunAccounted(mode, ops);
  }

  // ---- The manager object --------------------------------------------------

  class Manager {
    var mode: Mode
    var bridges: map<string, Option<Bridge>>
    var active: Option<string>
    var live: set<nat>
    var started: nat

    ghost function Contents(): Bridges
      reads this
    {
      Bridges(mode, bridges, active, live, started)
    }

    constructor (mode: Mode)
      ensures Contents() == Run(mode, [])
    {
      this.mode, bridges, active, live, started := mode, map[], None, {}, 0;
    }

    /** Any other mode name is a ValueError. */
    method SetModeByName(name: string) returns (ok: bool)
      modifies `mode
      ensures ok <==> ModeName(name)
      ensures Contents() == Next(old(Contents()), SetMode(name))
    {
      if name != "switch" && name != "multi" {
        return false;
      }
      mode := name;
      return true;
    }

    /** Create and start a bridge for name. */
    method Launch(name: string, uri: string)
      modifies `bridges, `live, `started
      ensures Contents() == Launched(old(Contents()), name, uri)
    {
      bridges := bridges[name := Some(Bridge(started, uri))];
      live := live + {started};
      started := started + 1;
    }

    method AddVm(name: string, uri: string) returns (ok: bool)
      modifies `bridges, `live, `started
      ensures (Contents(), ok) == Added(old(Contents()), name, uri)
    {
      if name in bridges {
        if bridges[name].None? {
          return false;
        }
        bridges := bridges[name := Some(bridges[name].value.(uri := uri))];
        return true;
      }
      if mode == "multi" {
        Launch(name, uri);
      } else {
        bridges := bridges[name := None];
      }
      return true;
    }

    method RemoveVm(name: string)
      modifies `bridges, `live, `active
      ensures Contents() == Next(old(Contents()), Remove(name))
    {
      if name in bridges {
        var bridge := bridges[name];
        bridges := bridges - {name};
        if bridge.Some? {
          live := live - {bridge.value.handle};
        }
      }
      if active == Some(name) {
        active := None;
      }
    }

    /** The loop that nulls all other bridges. */
    method StopOthers(name: string)
      modifies `bridges, `live
      ensures Contents() == OthersStopped(old(Contents()), name, {})
    {
      ghost var b := Contents();
      var left := bridges.Keys;
      assert OthersStopped(b, name, left) == b;
      while left != {}
        invariant left <= bridges.Keys && Contents() == OthersStopped(b, name, left)
        decreases |left|
      {
        var n :| n in left;
        OneLess(b, name, left, n);
        if n != name && bridges[n].Some? {
          live := live - {bridges[n].value.handle};
          bridges := bridges[n := None];
        }
        left := left - {n};
      }
    }

    method SwitchToVm(name: string, uri: Option<string>)
      modifies `bridges, `live, `started, `active
      ensures Contents() == Next(old(Contents()), SwitchTo(name, uri))
    {
      if name !in bridges {
        if !Given(uri) {
          return;
        }
        var _ := AddVm(name, uri.value);
      }
      active := Some(name);
      if mode == "switch" {
        StopOthers(name);
        if bridges[name].None? && Given(uri) {
          Launch(name, uri.value);
        }
      }
    }

    method StopAllVms()
      modifies `bridges, `live, `active
      ensures Contents() == Next(old(Contents()), StopAll)
    {
      ghost var b := Contents();
      var left := bridges.Keys;
      while left != {}
        invariant left <= bridges.Keys && bridges == b.bridges
        invariant live == b.live - set n | n in b.bridges && n !in left && b.bridges[n].Some? :: b.bridges[n].value.handle
        decreases |left|
      {
        var n :| n in left;
        if bridges[n].Some? {
          live := live - {bridges[n].value.handle};
        }
        left := left - {n};
      }
      bridges := map[];
      active := None;
    }
  }
}

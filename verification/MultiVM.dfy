/** Configurations, processes and port counters of the multi-VM manager
    (gui/multi_vm.py), and what every run of the manager keeps. */
module MultiVM {
  import opened Prelude
  import opened Text

  const MAX_RAM: nat := 65536
  const MAX_CPUS: nat := 32
  const MAX_VMS: nat := 16
  const DEFAULT_RAM: nat := 4096
  const DEFAULT_CPUS: nat := 2
  const QMP_BASE := 4444
  const SSH_BASE := 2222
  const LAST_PORT := 65000

  datatype VM = VM(ram: nat, cpus: nat, qmpPort: int, sshPort: int, status: string, pid: Option<nat>,
                   lastError: string, maxRam: nat, maxCpus: nat, notes: string)

  /** alive is the environment: handle h is a launched process, alive[h] tells
      whether it still runs. */
  datatype System = System(configs: map<string, VM>, running: map<string, nat>,
                           nextQmp: int, nextSsh: int, alive: seq<bool>)

  predicate Alive(s: System, name: string) {
    name in s.running && s.running[name] < |s.alive| && s.alive[s.running[name]]
  }

  // ---- Ports ---------------------------------------------------------------

  /** The search of both allocators, against the ports in use. */
  function Search(port: int, busy: set<int>): (r: Option<int>)
    decreases if port <= LAST_PORT then LAST_PORT + 1 - port else 0
  {
    if port !in busy then Some(port)
    else if port + 1 > LAST_PORT then None
    else Search(port + 1, busy)
  }

  /** The least free port at or above the counter, never above 65000 or the
      counter itself; none only when all of those are busy. */
  lemma {:induction false} LeastFreePort(port: int, busy: set<int>)
    ensures Search(port, busy) == None <==> forall p :: port <= p <= (if port < 65000 then 65000 else port) ==> p in busy
    ensures Search(port, busy).Some? ==>
              var r := Search(port, busy).value;
              port <= r <= (if port < 65000 then 65000 else port) && r !in busy && forall p :: port <= p < r ==> p in busy
    decreases if port <= LAST_PORT then LAST_PORT + 1 - port else 0
  {
    if port in busy && port + 1 <= LAST_PORT {
      LeastFreePort(port + 1, busy);
    }
  }

  // ---- Sums over the configured VMs ----------------------------------------

  ghost function Sum(m: map<string, nat>): nat {
    if m == map[] then 0
    else
      var k :| k in m;
      m[k] + Sum(m - {k})
  }

  /** The sum can be taken apart at any key. */
  lemma {:induction false} SumSplit(m: map<string, nat>, k: string)
    requires k in m
    ensures Sum(m) == m[k] + Sum(m - {k})
  {
    var j :| j in m && Sum(m) == m[j] + Sum(m - {j});
    if j != k {
      SumSplit(m - {j}, k);
      SumSplit(m - {k}, j);
      assert m - {j} - {k} == m - {k} - {j};
    }
  }

  lemma SumAdd(m: map<string, nat>, k: string, v: nat)
    requires k !in m
    ensures Sum(m[k := v]) == Sum(m) + v
  {
    SumSplit(m[k := v], k);
    assert m[k := v] - {k} == m;
  }

  function Rams(configs: map<string, VM>): map<string, nat> {
    map n | n in configs :: configs[n].ram
  }

  function Cpus(configs: map<string, VM>): map<string, nat> {
    map n | n in configs :: configs[n].cpus
  }

  /** The global limits over all configured VMs. */
  ghost predicate InCaps(configs: map<string, VM>) {
    |configs| <= MAX_VMS && Sum(Rams(configs)) <= MAX_RAM && Sum(Cpus(configs)) <= MAX_CPUS
  }

  // ---- Adding and removing -------------------------------------------------

  predicate NameChar(c: char) {
    'a' <= c <= 'z' || 'A' <= c <= 'Z' || '0' <= c <= '9' || c == '-' || c == '_'
  }

  predicate NameOk(name: string) {
    name != "" && forall i :: 0 <= i < |name| ==> NameChar(name[i])
  }

  /** The settings of a new VM that the manager looks at; a port 0 is to be allocated. */
  datatype Request = Request(ram: Option<nat>, cpus: Option<nat>, maxRam: Option<nat>, maxCpus: Option<nat>,
                             qmpPort: int, sshPort: int, status: string, pid: Option<nat>, lastError: string, notes: string)

  /** What the machine looks like while add_vm runs. */
  datatype Surroundings = Surroundings(qmpBusy: set<int>, sshBusy: set<int>, diskMissing: bool)

  function OrDefault(o: Option<nat>, d: nat): nat {
    if o.Some? then o.value else d
  }

  function NewVM(req: Request): VM {
    var ram, cpus := OrDefault(req.ram, DEFAULT_RAM), OrDefault(req.cpus, DEFAULT_CPUS);
    VM(ram, cpus, req.qmpPort, req.sshPort, req.status, req.pid, req.lastError,
       OrDefault(req.maxRam, ram), OrDefault(req.maxCpus, cpus), req.notes)
  }

  function AllocQmp(s: System, busy: set<int>): (System, Option<int>) {
    var p := Search(s.nextQmp, busy);
    (if p.Some? then s.(nextQmp := p.value + 1) else s, p)
  }

  function AllocSsh(s: System, busy: set<int>): (System, Option<int>) {
    var p := Search(s.nextSsh, busy);
    (if p.Some? then s.(nextSsh := p.value + 1) else s, p)
  }

  ghost predicate Fits(configs: map<string, VM>, name: string, vm: VM) {
    && NameOk(name) && name !in configs && |configs| < MAX_VMS
    && Sum(Rams(configs)) + vm.ram <= MAX_RAM && Sum(Cpus(configs)) + vm.cpus <= MAX_CPUS
  }

  /** QMP port, then SSH port; a port found before a failure stays spent. */
  function WithPorts(s: System, vm: VM, auto: bool, env: Surroundings): (System, Option<VM>) {
    var (s1, q) := if auto && vm.qmpPort == 0 then AllocQmp(s, env.qmpBusy) else (s, Some(vm.qmpPort));
    if q.None? then (s1, None) else
    var (s2, p) := if auto && vm.sshPort == 0 then AllocSsh(s1, env.sshBusy) else (s1, Some(vm.sshPort));
    if p.None? then (s2, None) else (s2, Some(vm.(qmpPort := q.value, sshPort := p.value)))
  }

  ghost function Placed(s: System, name: string, vm: VM, auto: bool, env: Surroundings): (r: (System, bool)) {
    if !Fits(s.configs, name, vm) then (s, false)
    else
      var (t, placed) := WithPorts(s, vm, auto, env);
      if placed.None? || env.diskMissing then (t, false)
      else (t.(configs := t.configs[name := placed.value]), true)
  }

  ghost function Added(s: System, rawName: string, req: Request, auto: bool, env: Surroundings): (r: (System, bool)) {
    Placed(s, Strip(rawName), NewVM(req), auto, env)
  }

  /** The QMP and SSH ports one add_vm call takes from the counters, whether or
      not it succeeds in the end. */
  ghost function Taken(s: System, name: string, vm: VM, auto: bool, env: Surroundings): (Option<int>, Option<int>) {
    if !auto || !Fits(s.configs, name, vm) then (None, None)
    else
      var q := if vm.qmpPort == 0 then Search(s.nextQmp, env.qmpBusy) else None;
      var reached := vm.qmpPort != 0 || q.Some?;
      (q, if reached && vm.sshPort == 0 then Search(s.nextSsh, env.sshBusy) else None)
  }

  /** What add_vm does to each part of the manager. */
  lemma PlacedFacts(s: System, name: string, vm: VM, auto: bool, env: Surroundings)
    ensures var ((t, ok), (q, p)) := (Placed(s, name, vm, auto, env), Taken(s, name, vm, auto, env));
            && t.running == s.running && t.alive == s.alive
            && t.nextQmp == (if q.Some? then q.value + 1 else s.nextQmp)
            && t.nextSsh == (if p.Some? then p.value + 1 else s.nextSsh)
            && (!ok ==> t.configs == s.configs)
            && (ok ==> Fits(s.configs, name, vm) && !env.diskMissing
                       && (auto && vm.qmpPort == 0 ==> q.Some?) && (auto && vm.sshPort == 0 ==> p.Some?)
                       && t.configs == s.configs[name := vm.(qmpPort := if q.Some? then q.value else vm.qmpPort,
                                                             sshPort := if p.Some? then p.value else vm.sshPort)])
  {
  }

  /** A port is needed and some port from the counter up is free. */
  predicate PortFor(wanted: int, auto: bool, next: int, busy: set<int>) {
    auto && wanted == 0 ==> exists p :: next <= p <= (if next < 65000 then 65000 else next) && p !in busy
  }

  lemma SearchFinds(port: int, busy: set<int>)
    ensures Search(port, busy).Some? <==> exists p :: port <= p <= (if port < 65000 then 65000 else port) && p !in busy
  {
    LeastFreePort(port, busy);
  }

  lemma PortsIff(s: System, vm: VM, auto: bool, env: Surroundings)
    ensures WithPorts(s, vm, auto, env).1.Some? <==>
            PortFor(vm.qmpPort, auto, s.nextQmp, env.qmpBusy) && PortFor(vm.sshPort, auto, s.nextSsh, env.sshBusy)
  {
    SearchFinds(s.nextQmp, env.qmpBusy);
    SearchFinds(s.nextSsh, env.sshBusy);
  }

  predicate AllowedChars(name: string) {
    forall c :: c in name ==> 'a' <= c <= 'z' || 'A' <= c <= 'Z' || '0' <= c <= '9' || c == '-' || c == '_'
  }

  lemma NameIff(name: string)
    ensures NameOk(name) <==> name != "" && AllowedChars(name)
  {
    if NameOk(name) {
      forall c | c in name ensures NameChar(c) {
        var i :| 0 <= i < |name| && name[i] == c;
      }
    } else if name != "" && AllowedChars(name) {
      forall i | 0 <= i < |name| ensures NameChar(name[i]) {
        assert name[i] in name;
      }
    }
  }

  /** add_vm accepts a VM exactly when its name without outer white space is made
      of letters, digits, "-" and "_" and is new, there are fewer than 16 VMs, its
      memory (4096 MB unless given) and processors (2 unless given) fit beside all
      others, the ports to be allocated can be, and the disk is there. */
  lemma AddAcceptedIff(s: System, rawName: string, req: Request, auto: bool, env: Surroundings)
    ensures var name := Strip(rawName);
            Added(s, rawName, req, auto, env).1 <==>
            && name != "" && AllowedChars(name)
            && name !in s.configs && |s.configs| < 16
            && Sum(Rams(s.configs)) + (if req.ram.Some? then req.ram.value else 4096) <= 65536
            && Sum(Cpus(s.configs)) + (if req.cpus.Some? then req.cpus.value else 2) <= 32
            && PortFor(req.qmpPort, auto, s.nextQmp, env.qmpBusy) && PortFor(req.sshPort, auto, s.nextSsh, env.sshBusy)
            && !env.diskMissing
  {
    var name := Strip(rawName);
    NameIff(name);
    PortsIff(s, NewVM(req), auto, env);
  }

  /** And then it has what was asked for: the limits default to its own size, a
      port 0 becomes an allocated one, all else is taken over. */
  lemma AcceptedAsAsked(s: System, rawName: string, req: Request, auto: bool, env: Surroundings)
    requires Added(s, rawName, req, auto, env).1
    ensures var (t, name) := (Added(s, rawName, req, auto, env).0, Strip(rawName));
            name in t.configs &&
            var vm := t.configs[name];
            && vm.ram == (if req.ram.Some? then req.ram.value else 4096)
            && vm.cpus == (if req.cpus.Some? then req.cpus.value else 2)
            && vm.maxRam == (if req.maxRam.Some? then req.maxRam.value else vm.ram)
            && vm.maxCpus == (if req.maxCpus.Some? then req.maxCpus.value else vm.cpus)
            && (auto && req.qmpPort == 0 ==> s.nextQmp <= vm.qmpPort && vm.qmpPort !in env.qmpBusy)
            && (auto && req.sshPort == 0 ==> s.nextSsh <= vm.sshPort && vm.sshPort !in env.sshBusy)
            && (!auto || req.qmpPort != 0 ==> vm.qmpPort == req.qmpPort)
            && (!auto || req.sshPort != 0 ==> vm.sshPort == req.sshPort)
            && vm.status == req.status && vm.pid == req.pid && vm.lastError == req.lastError && vm.notes == req.notes
            && t.configs == s.configs[name := vm]
  {
    LeastFreePort(s.nextQmp, env.qmpBusy);
    LeastFreePort(s.nextSsh, env.sshBusy);
  }

  function Stopped(vm: VM): VM {
    vm.(status := "stopped", pid := None)
  }

  function StopConfig(configs: map<string, VM>, name: string): map<string, VM> {
    if name in configs then configs[name := Stopped(configs[name])] else configs
  }

  datatype Answer = Done | Refused | Raised

  /** terminate or kill, wait, and forget the process. dies tells whether the
      process ends within the last wait; if not, the wait raises. */
  function StoppedVm(s: System, name: string, dies: bool): (System, Answer) {
    if name !in s.running then (s.(configs := StopConfig(s.configs, name)), Refused)
    else if Alive(s, name) && !dies then (s, Raised)
    else
      var h := s.running[name];
      (s.(configs := StopConfig(s.configs, name), running := s.running - {name},
          alive := if h < |s.alive| then s.alive[h := false] else s.alive), Done)
  }

  function Removed(s: System, name: string, force: bool, dies: bool): (System, Answer) {
    if name !in s.configs || (name in s.running && !force) then (s, Refused)
    else if Alive(s, name) && !dies then (s, Raised)
    else
      var t := if name in s.running then StoppedVm(s, name, dies).0 else s;
      (t.(configs := t.configs - {name}), Done)
  }

  // ---- Updating ------------------------------------------------------------

  datatype Field =
    | SetRam(n: nat) | SetCpus(n: nat) | SetQmpPort(p: int) | SetSshPort(p: int)
    | SetStatus(text: string) | SetPid(pid: Option<nat>) | SetLastError(text: string) | SetNotes(text: string)
    | SetMaxRam(n: nat) | SetMaxCpus(n: nat) | SetUnknown

  /** The hot fields and the limit fields may change while the VM is tracked. */
  predicate Hot(f: Field) {
    f.SetStatus? || f.SetPid? || f.SetLastError? || f.SetNotes? || f.SetMaxRam? || f.SetMaxCpus?
  }

  function SetField(vm: VM, f: Field): VM {
    match f
    case SetRam(n) => vm.(ram := n)
    case SetCpus(n) => vm.(cpus := n)
    case SetQmpPort(p) => vm.(qmpPort := p)
    case SetSshPort(p) => vm.(sshPort := p)
    case SetStatus(t) => vm.(status := t)
    case SetPid(p) => vm.(pid := p)
    case SetLastError(t) => vm.(lastError := t)
    case SetNotes(t) => vm.(notes := t)
    case SetMaxRam(n) => vm.(maxRam := n)
    case SetMaxCpus(n) => vm.(maxCpus := n)
    case SetUnknown => vm
  }

  function SetFields(vm: VM, running: bool, fs: seq<Field>): VM {
    if fs == [] then vm
    else
      var v, f := SetFields(vm, running, fs[..|fs| - 1]), fs[|fs| - 1];
      if running && !Hot(f) then v else SetField(v, f)
  }

  /** The two name the same field. */
  predicate SameField(f: Field, g: Field) {
    || (f.SetRam? && g.SetRam?) || (f.SetCpus? && g.SetCpus?)
    || (f.SetQmpPort? && g.SetQmpPort?) || (f.SetSshPort? && g.SetSshPort?)
    || (f.SetStatus? && g.SetStatus?) || (f.SetPid? && g.SetPid?) || (f.SetLastError? && g.SetLastError?)
    || (f.SetNotes? && g.SetNotes?) || (f.SetMaxRam? && g.SetMaxRam?) || (f.SetMaxCpus? && g.SetMaxCpus?)
  }

  /** The VM has the value that f gives its field. */
  predicate Has(vm: VM, f: Field) {
    match f
    case SetRam(n) => vm.ram == n
    case SetCpus(n) => vm.cpus == n
    case SetQmpPort(p) => vm.qmpPort == p
    case SetSshPort(p) => vm.sshPort == p
    case SetStatus(text) => vm.status == text
    case SetPid(pid) => vm.pid == pid
    case SetLastError(text) => vm.lastError == text
    case SetNotes(text) => vm.notes == text
    case SetMaxRam(n) => vm.maxRam == n
    case SetMaxCpus(n) => vm.maxCpus == n
    case SetUnknown => true
  }

  /** A tracked VM takes status, pid, error, notes and limits, any other everything. */
  predicate Writable(f: Field, running: bool) {
    running ==> f.SetStatus? || f.SetPid? || f.SetLastError? || f.SetNotes? || f.SetMaxRam? || f.SetMaxCpus?
  }

  lemma FieldSets(vm: VM, f: Field, g: Field)
    ensures Has(SetField(vm, f), f)
    ensures !SameField(f, g) ==> (Has(SetField(vm, f), g) <==> Has(vm, g))
  {
  }

  /** Some update is f and no later one sets its field. */
  predicate SetLast(fs: seq<Field>, f: Field) {
    exists i :: 0 <= i < |fs| && fs[i] == f && forall j :: i < j < |fs| ==> !SameField(fs[j], f)
  }

  predicate NeverSet(fs: seq<Field>, f: Field) {
    forall i :: 0 <= i < |fs| ==> !SameField(fs[i], f)
  }

  lemma SetLastInit(fs: seq<Field>, f: Field)
    requires fs != []
    ensures SetLast(fs, f) ==> fs[|fs| - 1] == f || (SetLast(fs[..|fs| - 1], f) && !SameField(fs[|fs| - 1], f))
  {
    if SetLast(fs, f) && fs[|fs| - 1] != f {
      var i :| 0 <= i < |fs| && fs[i] == f && forall j :: i < j < |fs| ==> !SameField(fs[j], f);
      assert fs[..|fs| - 1][i] == f;
    }
  }

  /** After a list of updates each field has the last value that could be written
      to it, and a field that none could be written to the value it had. */
  lemma {:induction false} LastUpdateWins(vm: VM, running: bool, fs: seq<Field>, f: Field)
    requires Writable(f, running)
    ensures SetLast(fs, f) ==> Has(SetFields(vm, running, fs), f)
    ensures NeverSet(fs, f) ==> (Has(SetFields(vm, running, fs), f) <==> Has(vm, f))
  {
    if fs != [] {
      var init, last := fs[..|fs| - 1], fs[|fs| - 1];
      LastUpdateWins(vm, running, init, f);
      SetLastInit(fs, f);
      FieldSets(SetFields(vm, running, init), last, f);
    }
  }

  lemma {:induction false} ColdFieldsStay(vm: VM, fs: seq<Field>, f: Field)
    requires !Writable(f, true)
    ensures Has(SetFields(vm, true, fs), f) <==> Has(vm, f)
  {
    if fs != [] {
      ColdFieldsStay(vm, fs[..|fs| - 1], f);
    }
  }

  function Updated(s: System, name: string, fs: seq<Field>): (System, bool) {
    if name !in s.configs then (s, false)
    else (s.(configs := s.configs[name := SetFields(s.configs[name], name in s.running, fs)]), true)
  }

  // ---- Lifecycle -----------------------------------------------------------

  /** No process; a process; or a process whose configuration file could not be written. */
  datatype Launch = Failed | Launched | NotSaved

  function Started(s: System, name: string, launch: Launch, error: string): (System, bool) {
    if name !in s.configs || Alive(s, name) then (s, false)
    else
      var vm := s.configs[name];
      var handle := |s.alive|;
      var tracked := s.(running := s.running[name := handle], alive := s.alive + [true]);
      var up := vm.(status := "running", pid := Some(handle), lastError := "");
      match launch
      case Failed => (s.(configs := s.configs[name := vm.(status := "error", lastError := error)]), false)
      case Launched => (tracked.(configs := s.configs[name := up]), true)
      case NotSaved => (tracked.(configs := s.configs[name := up.(status := "error", lastError := error)]), false)
  }

  /** is_running forgets a process it finds dead; the answer is Alive. */
  function Checked(s: System, name: string): System {
    if name in s.running && !Alive(s, name)
    then s.(running := s.running - {name}, configs := StopConfig(s.configs, name))
    else s
  }

  function Paused(s: System, name: string): (System, bool) {
    var t := Checked(s, name);
    if !Alive(s, name) then (t, false)
    else (if name in t.configs then t.(configs := t.configs[name := t.configs[name].(status := "paused")]) else t, true)
  }

  function Resumed(s: System, name: string): (System, bool) {
    if name !in s.configs || s.configs[name].status != "paused" then (s, false)
    else (s.(configs := s.configs[name := s.configs[name].(status := "running")]), true)
  }

  function PolledVM(s: System, name: string): VM
    requires name in s.configs
  {
    var vm := s.configs[name];
    if Alive(s, name) then (if vm.status == "paused" then vm else vm.(status := "running"))
    else if name in s.running || vm.status == "running" then Stopped(vm)
    else vm
  }

  /** One name of the poll. */
  function PolledOne(s: System, name: string): System {
    if name !in s.configs then s
    else s.(configs := s.configs[name := PolledVM(s, name)],
            running := if Alive(s, name) then s.running else s.running - {name})
  }

  /** Processes may exit at any moment. */
  function Exited(s: System, dead: set<nat>): System {
    s.(alive := seq(|s.alive|, h requires 0 <= h < |s.alive| => s.alive[h] && h !in dead))
  }

  /** A poll of the names in this order; exits[i] ends just before names[i] is looked at. */
  function Polling(s: System, names: seq<string>, exits: seq<set<nat>>): System
    requires |exits| == |names|
  {
    if names == [] then s
    else
      var k := |names| - 1;
      PolledOne(Exited(Polling(s, names[..k], exits[..k]), exits[k]), names[k])
  }

  // ---- Runs ----------------------------------------------------------------

  datatype Op =
    | Add(rawName: string, req: Request, auto: bool, env: Surroundings)
    | Remove(name: string, force: bool, dies: bool)
    | Update(name: string, fields: seq<Field>)
    | Start(name: string, launch: Launch, error: string)
    | Stop(name: string, dies: bool)
    | Pause(name: string)
    | Resume(name: string)
    | Check(name: string)
    | PollOne(name: string)
    | Exit(dead: set<nat>)

  ghost function Next(s: System, op: Op): System {
    match op
    case Add(name, req, auto, env) => Added(s, name, req, auto, env).0
    case Remove(name, force, dies) => Removed(s, name, force, dies).0
    case Update(name, fs) => Updated(s, name, fs).0
    case Start(name, launch, error) => Started(s, name, launch, error).0
    case Stop(name, dies) => StoppedVm(s, name, dies).0
    case Pause(name) => Paused(s, name).0
    case Resume(name) => Resumed(s, name).0
    case Check(name) => Checked(s, name)
    case PollOne(name) => PolledOne(s, name)
    case Exit(dead) => Exited(s, dead)
  }

  /** A manager just created over the configurations found on disk. */
  function Initial(configs: map<string, VM>): System {
    System(configs, map[], QMP_BASE, SSH_BASE, [])
  }

  ghost function Run(configs: map<string, VM>, ops: seq<Op>): System {
    if ops == [] then Initial(configs) else Next(Run(configs, ops[..|ops| - 1]), ops[|ops| - 1])
  }

  lemma RunOne(configs: map<string, VM>, op: Op)
    ensures Run(configs, [op]) == Next(Initial(configs), op)
  {
    assert [op][..0] == [];
    assert Run(configs, []) == Initial(configs);
  }

  // ---- Lifecycle safety ----------------------------------------------------

  /** Only configured VMs are tracked, each by its own process, and every process
      that still runs is tracked. */
  ghost predicate Tracking(s: System) {
    && s.running.Keys <= s.configs.Keys
    && (forall n :: n in s.running ==> s.running[n] < |s.alive|)
    && (forall m, n :: m in s.running && n in s.running && m != n ==> s.running[m] != s.running[n])
    && (forall h :: 0 <= h < |s.alive| && s.alive[h] ==> Tracked(s, h))
  }

  ghost predicate Tracked(s: System, h: nat) {
    exists n :: n in s.running && s.running[n] == h
  }

  /** A VM whose process runs says so. */
  ghost predicate Telling(s: System) {
    forall n :: Alive(s, n) ==> SaysSo(s, n)
  }

  predicate SaysSo(s: System, n: string) {
    && n in s.configs && n in s.running
    && (s.configs[n].status == "running" || s.configs[n].status == "paused")
    && s.configs[n].pid == Some(s.running[n])
  }

  lemma SameTracking(s: System, t: System)
    requires Tracking(s) && t.running == s.running && |t.alive| == |s.alive| && s.running.Keys <= t.configs.Keys
    requires forall h :: 0 <= h < |t.alive| && t.alive[h] ==> s.alive[h]
    ensures Tracking(t)
  {
    forall h | 0 <= h < |t.alive| && t.alive[h] ensures Tracked(t, h) {
      assert Tracked(s, h);
      var n :| n in s.running && s.running[n] == h;
      assert n in t.running;
    }
  }

  /** Forgetting a VM keeps track of the others once its process is dead. */
  lemma ForgetTracking(s: System, name: string, t: System)
    requires Tracking(s) && name in s.running && t.running == s.running - {name}
    requires |t.alive| == |s.alive| && s.running.Keys <= t.configs.Keys + {name}
    requires forall h :: 0 <= h < |t.alive| && t.alive[h] ==> s.alive[h]
    requires !t.alive[s.running[name]]
    ensures Tracking(t)
  {
    forall h | 0 <= h < |t.alive| && t.alive[h] ensures Tracked(t, h) {
      assert Tracked(s, h);
      var n :| n in s.running && s.running[n] == h;
      assert n in t.running && t.running[n] == h;
    }
  }

  lemma LaunchTracking(s: System, name: string, t: System)
    requires Tracking(s) && name in s.configs && t.configs.Keys == s.configs.Keys
    requires t.running == s.running[name := |s.alive|] && t.alive == s.alive + [true] && !Alive(s, name)
    ensures Tracking(t)
  {
    forall h | 0 <= h < |t.alive| && t.alive[h] ensures Tracked(t, h) {
      if h == |s.alive| {
        assert name in t.running && t.running[name] == h;
      } else {
        assert Tracked(s, h);
        var n :| n in s.running && s.running[n] == h;
        assert n in t.running && t.running[n] == h;
      }
    }
  }

  lemma StartTracking(s: System, name: string, launch: Launch, error: string)
    requires Tracking(s)
    ensures Tracking(Started(s, name, launch, error).0)
  {
    var t := Started(s, name, launch, error).0;
    if name in s.configs && !Alive(s, name) && !launch.Failed? {
      LaunchTracking(s, name, t);
    } else {
      SameTracking(s, t);
    }
  }

  lemma StopTracking(s: System, name: string, dies: bool)
    requires Tracking(s)
    ensures Tracking(StoppedVm(s, name, dies).0)
  {
    if name !in s.running {
      SameTracking(s, StoppedVm(s, name, dies).0);
    } else if dies || !Alive(s, name) {
      ForgetTracking(s, name, StoppedVm(s, name, dies).0);
    }
  }

  lemma RemoveTracking(s: System, name: string, force: bool, dies: bool)
    requires Tracking(s)
    ensures Tracking(Removed(s, name, force, dies).0)
  {
    var (t, answer) := Removed(s, name, force, dies);
    if answer.Done? {
      if name in s.running {
        ForgetTracking(s, name, t);
      } else {
        SameTracking(s, t);
      }
    }
  }

  lemma CheckTracking(s: System, name: string)
    requires Tracking(s)
    ensures Tracking(Checked(s, name)) && Tracking(Paused(s, name).0) && Tracking(PolledOne(s, name))
  {
    if name in s.running && !Alive(s, name) {
      ForgetTracking(s, name, Checked(s, name));
      ForgetTracking(s, name, PolledOne(s, name));
    } else if name in s.configs && !Alive(s, name) {
      assert s.running - {name} == s.running;
      SameTracking(s, PolledOne(s, name));
    } else {
      SameTracking(s, Paused(s, name).0);
      SameTracking(s, PolledOne(s, name));
    }
  }

  lemma EditTracking(s: System, op: Op)
    requires Tracking(s) && (op.Add? || op.Update? || op.Resume? || op.Exit?)
    ensures Tracking(Next(s, op))
  {
    if op.Add? {
      PlacedFacts(s, Strip(op.rawName), NewVM(op.req), op.auto, op.env);
    }
    SameTracking(s, Next(s, op));
  }

  lemma TrackingNext(s: System, op: Op)
    requires Tracking(s)
    ensures Tracking(Next(s, op))
  {
    match op
    case Remove(name, force, dies) => RemoveTracking(s, name, force, dies);
    case Start(name, launch, error) => StartTracking(s, name, launch, error);
    case Stop(name, dies) => StopTracking(s, name, dies);
    case Pause(name) => CheckTracking(s, name);
    case Check(name) => CheckTracking(s, name);
    case PollOne(name) => CheckTracking(s, name);
    case _ => EditTracking(s, op);
  }

  /** Over every run, whatever is edited, fails to be saved or refuses to die,
      no process is lost and no two VMs share one. */
  lemma {:induction false} RunTracks(configs: map<string, VM>, ops: seq<Op>)
    ensures Tracking(Run(configs, ops))
  {
    if ops != [] {
      RunTracks(configs, ops[..|ops| - 1]);
      TrackingNext(Run(configs, ops[..|ops| - 1]), ops[|ops| - 1]);
    }
  }

  // ---- What the status says ------------------------------------------------

  lemma {:induction false} FieldsKeepStatus(vm: VM, running: bool, fs: seq<Field>)
    requires forall f :: f in fs ==> !f.SetStatus? && !f.SetPid?
    ensures SetFields(vm, running, fs).status == vm.status && SetFields(vm, running, fs).pid == vm.pid
  {
    if fs != [] {
      assert fs[|fs| - 1] in fs;
      FieldsKeepStatus(vm, running, fs[..|fs| - 1]);
    }
  }

  lemma SameTelling(s: System, t: System)
    requires Telling(s) && t.running == s.running && |t.alive| == |s.alive|
    requires forall h :: 0 <= h < |t.alive| && t.alive[h] ==> s.alive[h]
    requires forall n :: Alive(s, n) ==> SaysSo(t, n)
    ensures Telling(t)
  {
    forall n | Alive(t, n) ensures SaysSo(t, n) {
      assert Alive(s, n);
    }
  }

  lemma ForgetTelling(s: System, name: string, t: System)
    requires Tracking(s) && Telling(s) && name in s.running && t.running == s.running - {name}
    requires |t.alive| == |s.alive|
    requires forall h :: 0 <= h < |t.alive| && t.alive[h] ==> s.alive[h]
    requires forall n :: n in s.configs && n != name ==> n in t.configs && t.configs[n] == s.configs[n]
    ensures Telling(t)
  {
    forall n | Alive(t, n) ensures SaysSo(t, n) {
      assert Alive(s, n) && SaysSo(s, n);
    }
  }

  /** Starting keeps the status honest exactly when it is refused or the
      configuration file is written or no process came up: a failing write
      leaves a live, tracked process behind status "error". */
  lemma StartTells(s: System, name: string, launch: Launch, error: string)
    requires Tracking(s) && Telling(s)
    ensures Telling(Started(s, name, launch, error).0) <==>
            !launch.NotSaved? || name !in s.configs || Alive(s, name)
  {
    var t := Started(s, name, launch, error).0;
    if name in s.configs && !Alive(s, name) {
      if launch.NotSaved? {
        assert Alive(t, name) && !SaysSo(t, name);
      } else {
        forall n | Alive(t, n) ensures SaysSo(t, n) {
          if n != name || launch.Failed? {
            assert Alive(s, n) && SaysSo(s, n);
          }
        }
      }
    }
  }

  lemma StopTells(s: System, name: string, force: bool, dies: bool)
    requires Tracking(s) && Telling(s)
    ensures Telling(StoppedVm(s, name, dies).0) && Telling(Removed(s, name, force, dies).0)
  {
    if name !in s.running {
      SameTelling(s, StoppedVm(s, name, dies).0);
      SameTelling(s, Removed(s, name, force, dies).0);
    } else if dies || !Alive(s, name) {
      ForgetTelling(s, name, StoppedVm(s, name, dies).0);
      if force {
        ForgetTelling(s, name, Removed(s, name, force, dies).0);
      }
    }
  }

  lemma CheckTells(s: System, name: string)
    requires Tracking(s) && Telling(s)
    ensures Telling(Checked(s, name)) && Telling(Paused(s, name).0) && Telling(PolledOne(s, name))
  {
    if name in s.running && !Alive(s, name) {
      ForgetTelling(s, name, Checked(s, name));
      ForgetTelling(s, name, PolledOne(s, name));
    } else {
      assert name in s.configs && !Alive(s, name) ==> s.running - {name} == s.running;
      SameTelling(s, Paused(s, name).0);
      SameTelling(s, PolledOne(s, name));
    }
  }

  /** No outside edit of status or pid, and no start whose save fails. */
  predicate Plain(op: Op) {
    && (op.Update? ==> forall f :: f in op.fields ==> !f.SetStatus? && !f.SetPid?)
    && (op.Start? ==> !op.launch.NotSaved?)
  }

  lemma EditTells(s: System, op: Op)
    requires Tracking(s) && Telling(s) && Plain(op) && (op.Add? || op.Update? || op.Resume?)
    ensures Telling(Next(s, op))
  {
    if op.Add? {
      PlacedFacts(s, Strip(op.rawName), NewVM(op.req), op.auto, op.env);
    } else if op.Update? && op.name in s.configs {
      FieldsKeepStatus(s.configs[op.name], op.name in s.running, op.fields);
    }
    SameTelling(s, Next(s, op));
  }

  lemma TellingNext(s: System, op: Op)
    requires Tracking(s) && Telling(s) && Plain(op)
    ensures Telling(Next(s, op))
  {
    match op
    case Remove(name, force, dies) => StopTells(s, name, force, dies);
    case Stop(name, dies) => StopTells(s, name, true, dies);
    case Start(name, launch, error) => StartTells(s, name, launch, error);
    case Pause(name) => CheckTells(s, name);
    case Check(name) => CheckTells(s, name);
    case PollOne(name) => CheckTells(s, name);
    case Add(_, _, _, _) => EditTells(s, op);
    case Update(_, _) => EditTells(s, op);
    case Resume(_) => EditTells(s, op);
    case Exit(_) => SameTelling(s, Next(s, op));
  }

  /** Over every such run, processes exiting at any moment, a live VM says
      "running" or "paused" and carries the pid of its process. */
  lemma {:induction false} RunTells(configs: map<string, VM>, ops: seq<Op>)
    requires forall op :: op in ops ==> Plain(op)
    ensures Telling(Run(configs, ops))
  {
    if ops != [] {
      var init, last := ops[..|ops| - 1], ops[|ops| - 1];
      assert last in ops;
      RunTells(configs, init);
      RunTracks(configs, init);
      TellingNext(Run(configs, init), last);
    }
  }

  /** The run that shows why: a start whose save fails. */
  lemma LiveInError(vm: VM)
    ensures var s := Run(map["a" := vm], [Start("a", NotSaved, "disk full")]);
            Alive(s, "a") && "a" in s.configs && s.configs["a"].status == "error" && !Telling(s)
  {
    var s := Run(map["a" := vm], [Start("a", NotSaved, "disk full")]);
    RunOne(map["a" := vm], Start("a", NotSaved, "disk full"));
    assert Alive(s, "a") && !SaysSo(s, "a");
  }

  // ---- What each operation does --------------------------------------------

  /** Every other VM and every process there was before, but that one VM's, is as it was. */
  ghost predicate OthersSame(s: System, t: System, name: string) {
    && t.nextQmp == s.nextQmp && t.nextSsh == s.nextSsh
    && (forall n :: n != name ==> (n in t.configs <==> n in s.configs) && (n in t.running <==> n in s.running))
    && (forall n :: n in s.configs && n != name ==> t.configs[n] == s.configs[n])
    && (forall n :: n in s.running && n != name ==> t.running[n] == s.running[n])
    && |s.alive| <= |t.alive|
    && (forall h :: 0 <= h < |s.alive| && !(name in s.running && s.running[name] == h) ==> t.alive[h] == s.alive[h])
  }

  /** All but status, pid and last error. */
  predicate SameSettings(a: VM, b: VM) {
    && a.ram == b.ram && a.cpus == b.cpus && a.qmpPort == b.qmpPort && a.sshPort == b.sshPort
    && a.maxRam == b.maxRam && a.maxCpus == b.maxCpus && a.notes == b.notes
  }

  /** A start succeeds exactly when the VM is configured, not live, launched and
      saved. Then it lives, as a process no VM had, and says so; a launch that is
      not saved lives too but says "error"; a failed one only says "error". */
  lemma StartEffect(s: System, name: string, launch: Launch, error: string)
    requires Tracking(s)
    ensures var (t, ok) := Started(s, name, launch, error);
            && (ok <==> name in s.configs && !Alive(s, name) && launch == Launched)
            && (name !in s.configs || Alive(s, name) ==> t == s)
            && (name in s.configs && !Alive(s, name) ==>
                 && OthersSame(s, t, name) && name in t.configs && SameSettings(t.configs[name], s.configs[name])
                 && (launch == Failed ==> t.running == s.running && t.alive == s.alive
                                          && t.configs[name].pid == s.configs[name].pid)
                 && (launch != Failed ==> Alive(t, name) && (forall n :: n in s.running ==> s.running[n] != t.running[name])
                                          && t.configs[name].pid == Some(t.running[name])
                                          && |t.alive| == |s.alive| + 1)
                 && t.configs[name].status == (if launch == Launched then "running" else "error")
                 && t.configs[name].lastError == (if launch == Launched then "" else error))
  {
  }

  /** Over every run a successful start leaves the VM running. */
  lemma StartedRuns(configs: map<string, VM>, ops: seq<Op>, name: string, error: string)
    requires var s := Run(configs, ops); name in s.configs && !Alive(s, name)
    ensures var t := Run(configs, ops + [Start(name, Launched, error)]);
            Alive(t, name) && name in t.configs && t.configs[name].status == "running"
            && t.configs[name].pid == Some(t.running[name])
  {
    RunTracks(configs, ops);
    assert (ops + [Start(name, Launched, error)])[..|ops|] == ops;
    StartEffect(Run(configs, ops), name, Launched, error);
  }

  /** A stop of a tracked VM raises exactly when its process outlives the kill;
      otherwise the process is dead and forgotten. An untracked VM is refused,
      but a configured one says "stopped" afterwards. */
  lemma StopEffect(s: System, name: string, dies: bool)
    requires Tracking(s)
    ensures var (t, answer) := StoppedVm(s, name, dies);
            && (answer == Refused <==> name !in s.running)
            && (answer == Raised <==> Alive(s, name) && !dies)
            && (answer == Raised ==> t == s)
            && (answer != Raised ==>
                 && OthersSame(s, t, name) && name !in t.running && |t.alive| == |s.alive|
                 && (name in s.running ==> !t.alive[s.running[name]])
                 && (name in t.configs <==> name in s.configs)
                 && (name in s.configs ==> SameSettings(t.configs[name], s.configs[name])
                                           && t.configs[name].lastError == s.configs[name].lastError
                                           && t.configs[name].status == "stopped" && t.configs[name].pid == None))
  {
  }

  /** A remove is refused for unknown names and, unless forced, for tracked VMs;
      it raises when the stop does; otherwise VM and process are gone. */
  lemma RemoveEffect(s: System, name: string, force: bool, dies: bool)
    requires Tracking(s)
    ensures var (t, answer) := Removed(s, name, force, dies);
            && (answer == Refused <==> name !in s.configs || (name in s.running && !force))
            && (answer == Raised <==> Alive(s, name) && force && !dies)
            && (answer != Done ==> t == s)
            && (answer == Done ==> OthersSame(s, t, name) && name !in t.configs && name !in t.running
                                   && |t.alive| == |s.alive| && (name in s.running ==> !t.alive[s.running[name]]))
  {
  }

  /** Looking at one VM: a live one stays tracked and says "running" unless it is
      paused; a dead one is forgotten and says "stopped", and so does an untracked
      one that said "running"; any other is left alone. */
  lemma PollEffect(s: System, name: string)
    requires Tracking(s) && name in s.configs
    ensures var t := PolledOne(s, name);
            && OthersSame(s, t, name) && t.alive == s.alive && name in t.configs
            && (name in t.running <==> Alive(s, name)) && (Alive(s, name) ==> t.running == s.running)
            && SameSettings(t.configs[name], s.configs[name]) && t.configs[name].lastError == s.configs[name].lastError
            && (Alive(s, name) ==>
                 && t.configs[name].pid == s.configs[name].pid
                 && t.configs[name].status == (if s.configs[name].status == "paused" then "paused" else "running"))
            && (!Alive(s, name) && (name in s.running || s.configs[name].status == "running") ==>
                 t.configs[name].status == "stopped" && t.configs[name].pid == None)
            && (name !in s.running && s.configs[name].status != "running" ==> t.configs[name] == s.configs[name])
  {
  }

  /** Asking whether a VM runs forgets it exactly when it is tracked and dead. */
  lemma CheckEffect(s: System, name: string)
    requires Tracking(s)
    ensures var t := Checked(s, name);
            && (name !in s.running || Alive(s, name) ==> t == s)
            && (name in s.running && !Alive(s, name) ==>
                 && OthersSame(s, t, name) && t.alive == s.alive && name !in t.running && name in t.configs
                 && SameSettings(t.configs[name], s.configs[name]) && t.configs[name].lastError == s.configs[name].lastError
                 && t.configs[name].status == "stopped" && t.configs[name].pid == None)
  {
  }

  /** A pause succeeds exactly for a live VM, a resume exactly for one that says
      "paused", live or not; only the status changes. */
  lemma PauseResumeEffect(s: System, name: string)
    requires Tracking(s)
    ensures var (t, ok) := Paused(s, name);
            && (ok <==> Alive(s, name))
            && (ok ==> t.running == s.running && t.alive == s.alive && OthersSame(s, t, name) && name in t.configs
                       && t.configs[name] == s.configs[name].(status := "paused"))
            && (!ok ==> t == Checked(s, name))
    ensures var (t, ok) := Resumed(s, name);
            && (ok <==> name in s.configs && s.configs[name].status == "paused")
            && (ok ==> t.running == s.running && t.alive == s.alive && OthersSame(s, t, name) && name in t.configs
                       && t.configs[name] == s.configs[name].(status := "running"))
            && (!ok ==> t == s)
  {
  }

  /** Exits touch the processes named and nothing else. */
  lemma ExitEffect(s: System, dead: set<nat>)
    ensures var t := Exited(s, dead);
            && t.configs == s.configs && t.running == s.running && t.nextQmp == s.nextQmp && t.nextSsh == s.nextSsh
            && |t.alive| == |s.alive|
            && forall h :: 0 <= h < |s.alive| ==> (t.alive[h] <==> s.alive[h] && h !in dead)
  {
  }

  // ---- What a poll tells ---------------------------------------------------

  lemma PollingNext(s: System, names: seq<string>, exits: seq<set<nat>>, i: nat)
    requires |exits| == |names| && i < |names|
    ensures Polling(s, names[..i + 1], exits[..i + 1])
            == PolledOne(Exited(Polling(s, names[..i], exits[..i]), exits[i]), names[i])
  {
    assert names[..i + 1][..i] == names[..i] && exits[..i + 1][..i] == exits[..i];
  }

  predicate Upright(s: System, n: string) {
    && n in s.configs
    && (s.configs[n].status == "running" ==> n in s.running)
    && (Alive(s, n) ==> s.configs[n].status == "running" || s.configs[n].status == "paused")
  }

  /** The last look at n was followed by the exit of its process. */
  predicate ExitedSince(s: System, names: seq<string>, exits: seq<set<nat>>, n: string)
    requires |exits| == |names|
  {
    exists j :: 0 <= j < |names| && n in names[..j] && n in s.running && s.running[n] in exits[j]
  }

  /** From any state, processes exiting during the poll included: afterwards each
      name polled is tracked only with a process that lives or exited after its
      turn, says "running" only if tracked, and says so if it lives. */
  lemma {:induction false} PollingTellsTruth(s: System, names: seq<string>, exits: seq<set<nat>>, n: string)
    requires |exits| == |names| && n in names && n in s.configs
    ensures var t := Polling(s, names, exits);
            && Upright(t, n)
            && (n in t.running ==> Alive(t, n) || ExitedSince(t, names, exits, n))
  {
    var k := |names| - 1;
    var u := Polling(s, names[..k], exits[..k]);
    var t := Polling(s, names, exits);
    PollingKeeps(s, names[..k], exits[..k]);
    if n != names[k] {
      PollingTellsTruth(s, names[..k], exits[..k], n);
      if n in t.running && !Alive(t, n) {
        if Alive(u, n) {
          assert u.running[n] in exits[k] && n in names[..k];
        } else {
          var j :| 0 <= j < k && n in names[..k][..j] && u.running[n] in exits[..k][j];
          assert names[..k][..j] == names[..j] && t.running[n] in exits[j];
        }
      }
    }
  }

  lemma {:induction false} PollingKeeps(s: System, names: seq<string>, exits: seq<set<nat>>)
    requires |exits| == |names|
    ensures Polling(s, names, exits).configs.Keys == s.configs.Keys
  {
    if names != [] {
      PollingKeeps(s, names[..|names| - 1], exits[..|names| - 1]);
    }
  }

  /** Pausing a live VM and resuming it leaves it running with its process. */
  lemma PauseThenResume(s: System, name: string)
    requires Tracking(s) && Alive(s, name)
    ensures var t := Paused(s, name).0;
            && t.configs[name] == s.configs[name].(status := "paused")
            && Resumed(t, name) == (s.(configs := s.configs[name := s.configs[name].(status := "running")]), true)
  {
    assert Checked(s, name) == s;
    var up := s.configs[name].(status := "running");
    assert Paused(s, name).0.configs[name := up] == s.configs[name := up];
  }

  // ---- Resource conservation -----------------------------------------------

  /** Memory, processors and ports: what a tracked VM's update must not touch. */
  predicate SameResources(a: VM, b: VM) {
    a.ram == b.ram && a.cpus == b.cpus && a.qmpPort == b.qmpPort && a.sshPort == b.sshPort
  }

  lemma {:induction false} HotFieldsOnly(vm: VM, fs: seq<Field>)
    ensures SameResources(SetFields(vm, true, fs), vm)
  {
    if fs != [] {
      HotFieldsOnly(vm, fs[..|fs| - 1]);
    }
  }

  /** update_vm on a tracked VM changes no RAM, CPU or port field of any VM. */
  lemma UpdateKeepsResources(s: System, name: string, fs: seq<Field>)
    requires name in s.running
    ensures var t := Updated(s, name, fs).0;
            t.configs.Keys == s.configs.Keys && forall n :: n in s.configs ==> SameResources(t.configs[n], s.configs[n])
  {
    if name in s.configs {
      HotFieldsOnly(s.configs[name], fs);
    }
  }

  /** A refused add_vm leaves the configurations and the processes alone. */
  lemma RefusedAdd(s: System, rawName: string, req: Request, auto: bool, env: Surroundings)
    ensures var (t, ok) := Added(s, rawName, req, auto, env);
            && t.running == s.running && t.alive == s.alive
            && (!ok ==> t.configs == s.configs)
            && (ok ==> Strip(rawName) !in s.configs && t.configs.Keys == s.configs.Keys + {Strip(rawName)})
  {
    PlacedFacts(s, Strip(rawName), NewVM(req), auto, env);
  }

  lemma SumAtLeast(m: map<string, nat>, k: string)
    requires k in m
    ensures m[k] <= Sum(m)
  {
    SumSplit(m, k);
  }

  /** The caps survive whatever fields are set exactly when the VM is tracked:
      on a VM that is not, the new values are not checked. */
  lemma UpdateSafeIffTracked(s: System, name: string)
    requires InCaps(s.configs) && name in s.configs
    ensures (forall fs :: InCaps(Updated(s, name, fs).0.configs)) <==> name in s.running
  {
    if name in s.running {
      forall fs ensures InCaps(Updated(s, name, fs).0.configs) {
        UpdateKeepsResources(s, name, fs);
        SameSums(Updated(s, name, fs).0.configs, s.configs);
      }
    } else {
      var fs := [SetRam(MAX_RAM + 1)];
      assert fs[..0] == [];
      var t := Updated(s, name, fs).0;
      assert t.configs[name].ram == MAX_RAM + 1;
      SumAtLeast(Rams(t.configs), name);
      assert !InCaps(t.configs);
    }
  }

  /** The memory a list of updates leaves: the last value given, or the old one. */
  function LastRam(fs: seq<Field>, ram: nat): nat {
    if fs == [] then ram
    else if fs[|fs| - 1].SetRam? then fs[|fs| - 1].n
    else LastRam(fs[..|fs| - 1], ram)
  }

  function LastCpus(fs: seq<Field>, cpus: nat): nat {
    if fs == [] then cpus
    else if fs[|fs| - 1].SetCpus? then fs[|fs| - 1].n
    else LastCpus(fs[..|fs| - 1], cpus)
  }

  lemma {:induction false} LastValues(vm: VM, fs: seq<Field>)
    ensures SetFields(vm, false, fs).ram == LastRam(fs, vm.ram)
    ensures SetFields(vm, false, fs).cpus == LastCpus(fs, vm.cpus)
  {
    if fs != [] {
      LastValues(vm, fs[..|fs| - 1]);
    }
  }

  /** Room for the new values beside all other VMs; a tracked or unknown VM gets none. */
  ghost predicate UpdateFits(s: System, name: string, fs: seq<Field>) {
    name in s.configs && name !in s.running ==>
      var vm, others := s.configs[name], s.configs - {name};
      && Sum(Rams(others)) + LastRam(fs, vm.ram) <= MAX_RAM
      && Sum(Cpus(others)) + LastCpus(fs, vm.cpus) <= MAX_CPUS
  }

  lemma SumsWithout(configs: map<string, VM>, name: string, vm: VM)
    ensures Sum(Rams(configs[name := vm])) == Sum(Rams(configs - {name})) + vm.ram
    ensures Sum(Cpus(configs[name := vm])) == Sum(Cpus(configs - {name})) + vm.cpus
  {
    SumSplit(Rams(configs[name := vm]), name);
    SumSplit(Cpus(configs[name := vm]), name);
    assert Rams(configs[name := vm]) - {name} == Rams(configs - {name});
    assert Cpus(configs[name := vm]) - {name} == Cpus(configs - {name});
  }

  /** One update keeps the caps exactly when its last values fit. */
  lemma UpdateInCapsIff(s: System, name: string, fs: seq<Field>)
    requires InCaps(s.configs)
    ensures InCaps(Updated(s, name, fs).0.configs) <==> UpdateFits(s, name, fs)
  {
    if name in s.running {
      UpdateKeepsResources(s, name, fs);
      SameSums(Updated(s, name, fs).0.configs, s.configs);
    } else if name in s.configs {
      var vm := SetFields(s.configs[name], false, fs);
      LastValues(s.configs[name], fs);
      SumsWithout(s.configs, name, vm);
      assert s.configs[name := vm].Keys == s.configs.Keys;
      assert |s.configs[name := vm]| == |s.configs[name := vm].Keys| && |s.configs| == |s.configs.Keys|;
    }
  }

  lemma FirstVm(req: Request, env: Surroundings)
    requires req.ram == Some(1024) && req.cpus == Some(1) && !env.diskMissing
    ensures var s := Run(map[], [Add("a", req, false, env)]);
            InCaps(s.configs) && s.configs == map["a" := NewVM(req)] && s.running == map[]
  {
    RunOne(map[], Add("a", req, false, env));
    assert Strip("a") == "a" && Rams(map[]) == map[] && Cpus(map[]) == map[];
    PlacedFacts(Initial(map[]), "a", NewVM(req), false, env);
    CapsAdd(map[], "a", NewVM(req));
  }

  /** A run past the RAM cap: a VM is added and then edited while it is stopped. */
  lemma LimitExceeded(req: Request, env: Surroundings)
    requires req.ram == Some(1024) && req.cpus == Some(1) && !env.diskMissing
    ensures var ops := [Add("a", req, false, env), Update("a", [SetRam(MAX_RAM + 1)])];
            InCaps(Run(map[], ops[..1]).configs) && !InCaps(Run(map[], ops).configs)
  {
    var ops := [Add("a", req, false, env), Update("a", [SetRam(MAX_RAM + 1)])];
    assert ops[..1] == [ops[0]];
    FirstVm(req, env);
    UpdateInCapsIff(Run(map[], ops[..1]), "a", [SetRam(MAX_RAM + 1)]);
  }

  lemma SameSums(a: map<string, VM>, b: map<string, VM>)
    requires SameVMs(a, b)
    ensures InCaps(a) <==> InCaps(b)
  {
    assert Rams(a) == Rams(b) && Cpus(a) == Cpus(b);
    assert |a| == |a.Keys| && |b| == |b.Keys|;
  }

  lemma CapsAdd(configs: map<string, VM>, name: string, vm: VM)
    requires InCaps(configs) && Fits(configs, name, vm)
    ensures InCaps(configs[name := vm])
  {
    assert Rams(configs[name := vm]) == Rams(configs)[name := vm.ram];
    assert Cpus(configs[name := vm]) == Cpus(configs)[name := vm.cpus];
    SumAdd(Rams(configs), name, vm.ram);
    SumAdd(Cpus(configs), name, vm.cpus);
  }

  lemma CapsDrop(configs: map<string, VM>, name: string)
    requires InCaps(configs)
    ensures InCaps(configs - {name})
  {
    if name in configs {
      SumSplit(Rams(configs), name);
      SumSplit(Cpus(configs), name);
      assert Rams(configs) - {name} == Rams(configs - {name});
      assert Cpus(configs) - {name} == Cpus(configs - {name});
      assert (configs - {name}).Keys == configs.Keys - {name};
    } else {
      assert configs - {name} == configs;
    }
  }

  /** Each update of a VM that is not tracked at that moment fits. */
  ghost predicate UpdatesFit(configs: map<string, VM>, ops: seq<Op>) {
    ops == [] ||
    (var init, last := ops[..|ops| - 1], ops[|ops| - 1];
     UpdatesFit(configs, init) && (last.Update? ==> UpdateFits(Run(configs, init), last.name, last.fields)))
  }

  /** The caps hold after every operation. */
  ghost predicate AlwaysInCaps(configs: map<string, VM>, ops: seq<Op>) {
    InCaps(Run(configs, ops).configs) && (ops == [] || AlwaysInCaps(configs, ops[..|ops| - 1]))
  }

  lemma CapsPlaced(s: System, name: string, vm: VM, auto: bool, env: Surroundings)
    requires InCaps(s.configs)
    ensures InCaps(Placed(s, name, vm, auto, env).0.configs)
  {
    PlacedFacts(s, name, vm, auto, env);
    var (q, p) := Taken(s, name, vm, auto, env);
    var placed := vm.(qmpPort := if q.Some? then q.value else vm.qmpPort, sshPort := if p.Some? then p.value else vm.sshPort);
    if Fits(s.configs, name, vm) {
      CapsAdd(s.configs, name, placed);
    }
  }

  lemma CapsRemoved(s: System, name: string, force: bool, dies: bool)
    requires InCaps(s.configs)
    ensures InCaps(Removed(s, name, force, dies).0.configs)
  {
    CapsDrop(s.configs, name);
    var t := Removed(s, name, force, dies).0;
    assert t.configs == s.configs || t.configs == s.configs - {name};
  }

  predicate SameVMs(a: map<string, VM>, b: map<string, VM>) {
    a.Keys == b.Keys && forall n :: n in a ==> SameResources(a[n], b[n])
  }

  predicate Lifecycle(op: Op) {
    !op.Add? && !op.Remove? && !op.Update?
  }

  /** No lifecycle operation touches resources. */
  lemma LifecycleKeepsResources(s: System, op: Op)
    requires Lifecycle(op)
    ensures SameVMs(Next(s, op).configs, s.configs)
  {
    match op
    case Start(name, launch, error) => assert SameVMs(Started(s, name, launch, error).0.configs, s.configs);
    case Stop(name, dies) => assert SameVMs(StoppedVm(s, name, dies).0.configs, s.configs);
    case Pause(name) => assert SameVMs(Paused(s, name).0.configs, s.configs);
    case Resume(name) => assert SameVMs(Resumed(s, name).0.configs, s.configs);
    case Check(name) => assert SameVMs(Checked(s, name).configs, s.configs);
    case PollOne(name) => assert SameVMs(PolledOne(s, name).configs, s.configs);
    case Exit(_) =>
  }

  lemma CapsNext(s: System, op: Op)
    requires InCaps(s.configs)
    ensures InCaps(Next(s, op).configs) <==> (op.Update? ==> UpdateFits(s, op.name, op.fields))
  {
    if Lifecycle(op) {
      LifecycleKeepsResources(s, op);
      SameSums(Next(s, op).configs, s.configs);
    } else {
      match op
      case Add(name, req, auto, env) => CapsPlaced(s, Strip(name), NewVM(req), auto, env);
      case Remove(name, force, dies) => CapsRemoved(s, name, force, dies);
      case Update(name, fs) => UpdateInCapsIff(s, name, fs);
    }
  }

  /** VM count, total RAM and total CPUs stay within the global caps throughout a
      run exactly when each update of an untracked VM fits. */
  lemma {:induction false} RunInCaps(configs: map<string, VM>, ops: seq<Op>)
    requires InCaps(configs)
    ensures AlwaysInCaps(configs, ops) <==> UpdatesFit(configs, ops)
  {
    if ops == [] {
      assert Run(configs, ops) == Initial(configs);
    } else {
      var init, last := ops[..|ops| - 1], ops[|ops| - 1];
      RunInCaps(configs, init);
      assert Run(configs, ops) == Next(Run(configs, init), last);
      if AlwaysInCaps(configs, init) {
        assert InCaps(Run(configs, init).configs);
        CapsNext(Run(configs, init), last);
      }
    }
  }

  // ---- Allocated ports -----------------------------------------------------

  ghost function TakenBy(s: System, op: Op): (Option<int>, Option<int>) {
    if op.Add? then Taken(s, Strip(op.rawName), NewVM(op.req), op.auto, op.env) else (None, None)
  }

  function Plus(ports: seq<int>, p: Option<int>): seq<int> {
    if p.Some? then ports + [p.value] else ports
  }

  /** All ports ever allocated, in order: QMP and SSH. */
  ghost function Allocated(configs: map<string, VM>, ops: seq<Op>): (seq<int>, seq<int>) {
    if ops == [] then ([], [])
    else
      var (q, p) := Allocated(configs, ops[..|ops| - 1]);
      var t := TakenBy(Run(configs, ops[..|ops| - 1]), ops[|ops| - 1]);
      (Plus(q, t.0), Plus(p, t.1))
  }

  predicate Increasing(ports: seq<int>, low: int, bound: int) {
    && low <= bound
    && (forall i, j :: 0 <= i < j < |ports| ==> ports[i] < ports[j])
    && (forall i :: 0 <= i < |ports| ==> low <= ports[i] < bound)
  }

  lemma CountersMove(s: System, op: Op)
    ensures var t, taken := Next(s, op), TakenBy(s, op);
            && t.nextQmp == (if taken.0.Some? then taken.0.value + 1 else s.nextQmp)
            && t.nextSsh == (if taken.1.Some? then taken.1.value + 1 else s.nextSsh)
            && (taken.0.Some? ==> s.nextQmp <= taken.0.value && taken.0.value !in op.env.qmpBusy)
            && (taken.1.Some? ==> s.nextSsh <= taken.1.value && taken.1.value !in op.env.sshBusy)
  {
    if op.Add? {
      PlacedFacts(s, Strip(op.rawName), NewVM(op.req), op.auto, op.env);
      LeastFreePort(s.nextQmp, op.env.qmpBusy);
      LeastFreePort(s.nextSsh, op.env.sshBusy);
    }
  }

  lemma IncreasingPlus(ports: seq<int>, low: int, bound: int, p: Option<int>)
    requires Increasing(ports, low, bound) && (p.Some? ==> bound <= p.value)
    ensures Increasing(Plus(ports, p), low, if p.Some? then p.value + 1 else bound)
  {
  }

  /** Over a manager's whole life the allocated QMP ports strictly increase, and
      so do the SSH ports: none is handed out twice. */
  lemma {:induction false} PortsDistinct(configs: map<string, VM>, ops: seq<Op>)
    ensures Increasing(Allocated(configs, ops).0, 4444, Run(configs, ops).nextQmp)
    ensures Increasing(Allocated(configs, ops).1, 2222, Run(configs, ops).nextSsh)
  {
    if ops != [] {
      var init, last := ops[..|ops| - 1], ops[|ops| - 1];
      PortsDistinct(configs, init);
      var s := Run(configs, init);
      CountersMove(s, last);
      IncreasingPlus(Allocated(configs, init).0, QMP_BASE, s.nextQmp, TakenBy(s, last).0);
      IncreasingPlus(Allocated(configs, init).1, SSH_BASE, s.nextSsh, TakenBy(s, last).1);
    }
  }

  /** A VM that add_vm accepted with port 0 carries exactly the port taken for it. */
  lemma AddedCarriesPorts(s: System, rawName: string, req: Request, env: Surroundings)
    requires Added(s, rawName, req, true, env).1
    ensures var (t, taken) := (Added(s, rawName, req, true, env).0, TakenBy(s, Add(rawName, req, true, env)));
            && Strip(rawName) in t.configs
            && (req.qmpPort == 0 ==> taken.0 == Some(t.configs[Strip(rawName)].qmpPort))
            && (req.sshPort == 0 ==> taken.1 == Some(t.configs[Strip(rawName)].sshPort))
  {
    PlacedFacts(s, Strip(rawName), NewVM(req), true, env);
  }
}

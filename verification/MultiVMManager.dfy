/** The manager object, its dictionaries and counters (gui/multi_vm.py). */
module MultiVMManager {
  import opened Prelude
  import opened Text
  import opened MultiVM

  datatype Refusal = NoPort | BadName | Exists | TooMany | TooMuchRam | TooManyCpus | NoDisk
                   | NotFound | StillRunning | NotRunning | NotPaused | StartFailed | WaitTimedOut

  /** The machine underneath: one flag per launched process, cleared when it exits. */
  class Host {
    var alive: seq<bool>

    constructor ()
      ensures alive == []
    {
      alive := [];
    }

    method Exit(dead: set<nat>)
      modifies this
      ensures alive == seq(|old(alive)|, h requires 0 <= h < |old(alive)| => old(alive)[h] && h !in dead)
    {
      alive := seq(|alive|, h requires 0 <= h < |alive| reads this => alive[h] && h !in dead);
    }
  }

  /** sum(...) over the configured values. */
  method Total(m: map<string, nat>) returns (total: nat)
    ensures total == Sum(m)
  {
    total := 0;
    var rest := m;
    while rest != map[]
      invariant total + Sum(rest) == Sum(m)
      decreases |rest|
    {
      var k :| k in rest;
      SumSplit(rest, k);
      total := total + rest[k];
      assert rest.Keys == (rest - {k}).Keys + {k};
      rest := rest - {k};
    }
  }

  class Manager {
    const host: Host
    var configs: map<string, VM>
    var running: map<string, nat>
    var nextQmp: int
    var nextSsh: int

    ghost function Contents(): System
      reads this, host
    {
      System(configs, running, nextQmp, nextSsh, host.alive)
    }

    /** Handles come from the host. */
    ghost predicate Valid()
      reads this, host
    {
      forall n :: n in running ==> running[n] < |host.alive|
    }

    constructor (host: Host, loaded: map<string, VM>)
      ensures this.host == host && Valid()
      ensures host.alive == [] ==> Contents() == Initial(loaded)
    {
      this.host := host;
      configs, running, nextQmp, nextSsh := loaded, map[], QMP_BASE, SSH_BASE;
    }

    method AllocateQmpPort(busy: set<int>) returns (r: Result<int, Refusal>)
      modifies `nextQmp
      ensures Contents() == AllocQmp(old(Contents()), busy).0
      ensures r == match Search(old(nextQmp), busy) case Some(p) => Ok(p) case None => Err(NoPort)
    {
      var port := nextQmp;
      while port in busy
        invariant Search(nextQmp, busy) == Search(port, busy)
        decreases LAST_PORT + 1 - port
      {
        port := port + 1;
        if port > LAST_PORT {
          return Err(NoPort);
        }
      }
      nextQmp := port + 1;
      return Ok(port);
    }

    method AllocateSshPort(busy: set<int>) returns (r: Result<int, Refusal>)
      modifies `nextSsh
      ensures Contents() == AllocSsh(old(Contents()), busy).0
      ensures r == match Search(old(nextSsh), busy) case Some(p) => Ok(p) case None => Err(NoPort)
    {
      var port := nextSsh;
      while port in busy
        invariant Search(nextSsh, busy) == Search(port, busy)
        decreases LAST_PORT + 1 - port
      {
        port := port + 1;
        if port > LAST_PORT {
          return Err(NoPort);
        }
      }
      nextSsh := port + 1;
      return Ok(port);
    }

    /** The checks of add_vm in their order. */
    method CheckLimits(name: string, vm: VM) returns (r: Option<Refusal>)
      ensures r.None? <==> Fits(configs, name, vm)
    {
      if !NameOk(name) { return Some(BadName); }
      if name in configs { return Some(Exists); }
      if |configs| >= MAX_VMS { return Some(TooMany); }
      var ram := Total(Rams(configs));
      if ram + vm.ram > MAX_RAM { return Some(TooMuchRam); }
      var cpus := Total(Cpus(configs));
      if cpus + vm.cpus > MAX_CPUS { return Some(TooManyCpus); }
      return None;
    }

    method AddVm(rawName: string, req: Request, auto: bool, env: Surroundings) returns (r: Option<Refusal>)
      requires Valid()
      modifies this
      ensures Valid()
      ensures (Contents(), r.None?) == Added(old(Contents()), rawName, req, auto, env)
    {
      var name := Strip(rawName);
      var vm := NewVM(req);
      r := CheckLimits(name, vm);
      if r.Some? { return; }
      if auto && vm.qmpPort == 0 {
        var q := AllocateQmpPort(env.qmpBusy);
        if q.Err? { return Some(q.error); }
        vm := vm.(qmpPort := q.value);
      }
      if auto && vm.sshPort == 0 {
        var p := AllocateSshPort(env.sshBusy);
        if p.Err? { return Some(p.error); }
        vm := vm.(sshPort := p.value);
      }
      if env.diskMissing { return Some(NoDisk); }
      configs := configs[name := vm];
      return None;
    }

    /** A refusal, or the exception of a wait that timed out. */
    static function Answer(r: Option<Refusal>): MultiVM.Answer {
      if r.None? then Done else if r.value.WaitTimedOut? then Raised else Refused
    }

    method RemoveVm(name: string, force: bool, dies: bool) returns (r: Option<Refusal>)
      requires Valid()
      modifies this, host
      ensures Valid()
      ensures (Contents(), Answer(r)) == Removed(old(Contents()), name, force, dies)
    {
      if name !in configs { return Some(NotFound); }
      if name in running {
        if !force { return Some(StillRunning); }
        r := StopVm(name, dies);
        if r.Some? { return; }
      }
      configs := configs - {name};
      return None;
    }

    method UpdateVm(name: string, fields: seq<Field>) returns (r: Option<Refusal>)
      requires Valid()
      modifies `configs
      ensures Valid()
      ensures (Contents(), r.None?) == Updated(old(Contents()), name, fields)
    {
      if name !in configs { return Some(NotFound); }
      var isTracked := name in running;
      ghost var vm := configs[name];
      for i := 0 to |fields|
        invariant name in old(configs)
        invariant configs == old(configs)[name := SetFields(vm, isTracked, fields[..i])]
      {
        assert fields[..i + 1][..i] == fields[..i];
        if !(isTracked && !Hot(fields[i])) {
          configs := configs[name := SetField(configs[name], fields[i])];
        }
      }
      assert fields[..|fields|] == fields;
      return None;
    }

    method StartVm(name: string, launch: Launch, error: string) returns (r: Option<Refusal>)
      requires Valid()
      modifies this, host
      ensures Valid()
      ensures (Contents(), r.None?) == Started(old(Contents()), name, launch, error)
    {
      if name !in configs { return Some(NotFound); }
      if name in running && host.alive[running[name]] { return Some(StillRunning); }
      if !launch.Failed? {
        var handle := |host.alive|;
        host.alive := host.alive + [true];
        running := running[name := handle];
        configs := configs[name := configs[name].(status := "running", pid := Some(handle), lastError := "")];
        if launch.Launched? { return None; }
      }
      configs := configs[name := configs[name].(status := "error", lastError := error)];
      assert configs == old(configs)[name := configs[name]];
      return Some(StartFailed);
    }

    method StopVm(name: string, dies: bool) returns (r: Option<Refusal>)
      requires Valid()
      modifies this, host
      ensures Valid() && |host.alive| == old(|host.alive|)
      ensures (Contents(), Answer(r)) == StoppedVm(old(Contents()), name, dies)
      ensures old(name in running) ==> r.None? || r == Some(WaitTimedOut)
    {
      if name !in running {
        if name in configs {
          configs := configs[name := configs[name].(status := "stopped", pid := None)];
        }
        return Some(NotRunning);
      }
      if host.alive[running[name]] && !dies { return Some(WaitTimedOut); }
      host.alive := host.alive[running[name] := false];
      running := running - {name};
      if name in configs {
        configs := configs[name := configs[name].(status := "stopped", pid := None)];
      }
      return None;
    }

    method IsRunning(name: string) returns (b: bool)
      requires Valid()
      modifies `configs, `running
      ensures Valid()
      ensures Contents() == Checked(old(Contents()), name) && b == Alive(old(Contents()), name)
    {
      if name !in running { return false; }
      if !host.alive[running[name]] {
        if name in configs {
          configs := configs[name := configs[name].(status := "stopped", pid := None)];
        }
        running := running - {name};
        return false;
      }
      return true;
    }

    method PauseVm(name: string) returns (r: Option<Refusal>)
      requires Valid()
      modifies `configs, `running
      ensures Valid()
      ensures (Contents(), r.None?) == Paused(old(Contents()), name)
    {
      var up := IsRunning(name);
      if !up { return Some(NotRunning); }
      if name in configs {
        configs := configs[name := configs[name].(status := "paused")];
      }
      return None;
    }

    method ResumeVm(name: string) returns (r: Option<Refusal>)
      requires Valid()
      modifies `configs
      ensures Valid()
      ensures (Contents(), r.None?) == Resumed(old(Contents()), name)
    {
      if name !in configs { return Some(NotFound); }
      if configs[name].status != "paused" { return Some(NotPaused); }
      configs := configs[name := configs[name].(status := "running")];
      return None;
    }

    /** The loop body of poll_status. */
    method PollOne(name: string)
      requires Valid() && name in configs
      modifies `configs, `running
      ensures Valid() && Contents() == PolledOne(old(Contents()), name)
    {
      var wasRunning := configs[name].status == "running";
      var isRunning := IsRunning(name);
      assert !isRunning ==> running == old(running) - {name};
      if wasRunning && !isRunning {
        configs := configs[name := configs[name].(status := "stopped", pid := None)];
      } else if isRunning && configs[name].status != "paused" {
        configs := configs[name := configs[name].(status := "running")];
      }
    }

    /** One round over the configured names in their order; processes may exit
        before each look. */
    method PollStatus(names: seq<string>, exits: seq<set<nat>>)
      requires Valid() && |exits| == |names| && forall n :: n in names <==> n in configs
      modifies `configs, `running, host
      ensures Valid()
      ensures Contents() == Polling(old(Contents()), names, exits)
    {
      ghost var s := Contents();
      for i := 0 to |names|
        invariant Valid() && configs.Keys == s.configs.Keys
        invariant Contents() == Polling(s, names[..i], exits[..i])
      {
        PollingNext(s, names, exits, i);
        assert names[i] in names;
        host.Exit(exits[i]);
        PollOne(names[i]);
      }
      assert names[..|names|] == names && exits[..|exits|] == exits;
    }
  }
}

/** The AtomicState object and the directory it writes to, step by step
    (gui/atomic_state.py). */
module AtomicStateStore {
  import opened Prelude
  import opened AtomicState

  /** The state directory; it outlives the process. */
  class Directory {
    var file: File
    var tmp: File
    var wal: Option<Log>
    var snapshots: map<string, File>

    function Contents(): Disk
      reads this
    {
      Disk(file, tmp, wal)
    }

    constructor ()
      ensures Contents() == FRESH && snapshots == map[]
    {
      file, tmp, wal, snapshots := Missing, Missing, None, map[];
    }
  }

  /** Each operation takes the number of disk steps its commit gets to make
      before an I/O error, or the end of the process, stops it. */
  class Store {
    const dir: Directory
    var state: State

    ghost function World(): World
      reads this, dir
    {
      AtomicState.World(Machine(dir.Contents(), Some(state)), dir.snapshots)
    }

    constructor (dir: Directory, stop: Stop)
      modifies dir`file, dir`tmp, dir`wal
      ensures this.dir == dir
      ensures state == Recovered(old(dir.Contents()))
      ensures dir.Contents() == AfterRecovery(old(dir.Contents()), stop)
    {
      this.dir := dir;
      state := Loaded(dir.file);
      new;
      if dir.wal.Some? {
        var lines := dir.wal.value;
        var i := 0;
        while i < |lines|
          invariant 0 <= i <= |lines| && dir.wal == Some(lines)
          invariant dir.Contents() == old(dir.Contents())
          invariant AllParse(lines[..i])
          invariant Replay(state, lines[i..]) == Recovered(dir.Contents())
        {
          if !Parses(lines[i]) {
            assert lines[i] in lines;
            return;
          }
          assert lines[..i + 1] == lines[..i] + [lines[i]];
          state := state + lines[i].entry;
          assert lines[i..][1..] == lines[i + 1..];
          i := i + 1;
        }
        assert lines[..|lines|] == lines;
        Commit(stop);
      }
    }

    method Commit(stop: Stop)
      modifies dir`file, dir`tmp, dir`wal
      ensures dir.Contents() == AfterCommit(old(dir.Contents()), state, stop)
    {
      ghost var d := dir.Contents();
      if stop == 0 { return; }
      if dir.wal.None? {
        dir.wal := Some([]);
      }
      assert dir.Contents() == AfterCommit(d, state, 1);
      if stop == 1 { return; }
      dir.wal := Some(Append(dir.wal.value, Whole(state)));
      assert dir.Contents() == AfterCommit(d, state, 2);
      if stop == 2 { return; }
      dir.tmp := Holds(state);
      assert dir.Contents() == AfterCommit(d, state, 3);
      if stop == 3 { return; }
      dir.file := dir.tmp;
      dir.tmp := Missing;
      assert dir.Contents() == AfterCommit(d, state, 4);
      if stop == 4 { return; }
      dir.wal := Some([]);
    }

    method Get(key: string) returns (value: Option<string>)
      ensures value == if key in state then Some(state[key]) else None
    {
      value := if key in state then Some(state[key]) else None;
    }

    method Set(key: string, value: string, stop: Stop)
      modifies `state, dir`file, dir`tmp, dir`wal
      ensures Machine(dir.Contents(), Some(state))
              == Next(Machine(old(dir.Contents()), Some(old(state))), Call(AtomicState.Set(key, value), stop))
    {
      state := state[key := value];
      Commit(stop);
    }

    method Update(updates: State, stop: Stop)
      modifies `state, dir`file, dir`tmp, dir`wal
      ensures Machine(dir.Contents(), Some(state))
              == Next(Machine(old(dir.Contents()), Some(old(state))), Call(AtomicState.Update(updates), stop))
    {
      state := state + updates;
      Commit(stop);
    }

    method Delete(key: string, stop: Stop)
      modifies `state, dir`file, dir`tmp, dir`wal
      ensures Machine(dir.Contents(), Some(state))
              == Next(Machine(old(dir.Contents()), Some(old(state))), Call(AtomicState.Delete(key), stop))
    {
      state := state - {key};
      Commit(stop);
    }

    /** Written beside the snapshot and moved into place. */
    method CreateSnapshot(name: string)
      modifies dir`snapshots
      ensures World() == Act(old(World()), Create(name))
    {
      dir.snapshots := dir.snapshots[name := Holds(state)];
    }

    /** A missing or corrupt snapshot changes nothing. */
    method RestoreSnapshot(name: string, stop: Stop) returns (ok: bool)
      modifies `state, dir`file, dir`tmp, dir`wal
      ensures ok <==> name in dir.snapshots && dir.snapshots[name].Holds?
      ensures World() == Act(old(World()), RestoreFrom(name, stop))
    {
      if name !in dir.snapshots || !dir.snapshots[name].Holds? {
        return false;
      }
      state := dir.snapshots[name].state;
      Commit(stop);
      return true;
    }
  }
}

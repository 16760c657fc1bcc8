/**
 The master process of src/proc/master.c as the source runs it: a fixed array of process
 numbers and the loops over it.  Every method is the operation of module WorkerTable on
 the table.
 */
module Supervisor {
  import opened StringUtil
  import opened WorkerTable

  class Master {
    const pids: array<int>
    var count: nat
    var listening: seq<int>
    var children: set<int>
    var used: set<int>
    ghost var log: seq<Action>

    ghost predicate Valid()
      reads this
    {
      pids.Length == MAX_WORKERS && count <= MAX_WORKERS
    }

    ghost function View(): Table
      reads this, pids
    {
      Table(count, pids[..], listening, children, used, log)
    }

    constructor (listening: seq<int>)
      ensures Valid() && fresh(pids) && View() == New(listening)
    {
      pids := new int[MAX_WORKERS](_ => 0);
      count, children, used, log := 0, {}, {}, [];
      this.listening := listening;
    }

    /** The kernel's `fork`: a new process number, or failure. */
    method Fork(result: Option<int>) returns (pid: Option<int>)
      modifies this`children, this`used, this`log
      ensures pid == FreshPid(result, old(used))
      ensures if pid.None? then children == old(children) && used == old(used) && log == old(log)
              else
                && children == old(children) + {pid.value} && used == old(used) + {pid.value}
                && log == old(log) + [Forked(pid.value)]
    {
      pid := FreshPid(result, used);
      if pid.Some? {
        children, used, log := children + {pid.value}, used + {pid.value}, log + [Forked(pid.value)];
      }
    }

    /** `spawn_worker`. */
    method Spawn(id: nat, result: Option<int>)
      requires Valid() && id < count
      modifies this`children, this`used, this`log, pids
      ensures Valid() && View() == Spawned(old(View()), id, result)
    {
      var pid := Fork(result);
      if pid.None? { return; }
      pids[id] := pid.value;
    }

    /** The loop that starts all workers. */
    method SpawnAll(n: int, forks: seq<Option<int>>)
      requires Valid()
      modifies this`children, this`used, this`log, this`count, pids
      ensures Valid() && View() == Started(old(View()), n, forks)
    {
      hide Spawned;
      ghost var all := Started(View(), n, forks);
      count := Clamp(n);
      var i := 0;
      while i < count
        invariant Valid() && 0 <= i <= count && SpawnedFrom(View(), i, forks) == all
      {
        Spawn(i, At(forks, i));
        i := i + 1;
      }
    }

    /** `kill_workers`. */
    method KillWorkers() returns (signalled: seq<int>)
      requires Valid()
      ensures signalled == Signalled(View(), 0)
    {
      signalled := [];
      var i := 0;
      while i < count
        invariant 0 <= i <= count && signalled + Signalled(View(), i) == Signalled(View(), 0)
      {
        if pids[i] > 0 { signalled := signalled + [pids[i]]; }
        i := i + 1;
      }
    }

    /** A blocking `waitpid` on one process. */
    method WaitFor(pid: int)
      requires Valid()
      modifies this`children, this`log
      ensures Valid() && View() == ReapedOne(old(View()), pid)
    {
      if pid in children {
        children, log := children - {pid}, log + [Reaped(pid)];
      }
    }

    /** `wait_workers`. */
    method WaitWorkers()
      requires Valid()
      modifies this`children, this`log, pids
      ensures Valid() && View() == Waited(old(View()), 0)
    {
      hide ReapedOne;
      ghost var all := Waited(View(), 0);
      var i := 0;
      while i < count
        invariant Valid() && 0 <= i <= count && Waited(View(), i) == all
      {
        if pids[i] > 0 {
          WaitFor(pids[i]);
          pids[i] := 0;
        }
        i := i + 1;
      }
    }

    /** The rebinding loop of a reload. */
    method Rebind(ports: seq<int>, binds: seq<bool>) returns (bound: seq<int>)
      requires |ports| <= MAX_SERVERS
      ensures bound == Bound(ports, binds, 0, []) && |bound| <= |ports|
    {
      bound := [];
      var i := 0;
      while i < |ports|
        invariant 0 <= i <= |ports| && |bound| <= i && Bound(ports, binds, i, bound) == Bound(ports, binds, 0, [])
      {
        var already := false;
        var j := 0;
        while j < |bound|
          invariant 0 <= j <= |bound| && (already <==> ports[i] in bound[..j])
        {
          if bound[j] == ports[i] {
            already := true;
            assert ports[i] in bound[..j + 1];
            break;
          }
          j := j + 1;
        }
        if !already && BindOk(binds, i) {
          bound := bound + [ports[i]];
        }
        i := i + 1;
      }
    }

    /** The reload branch: nothing at all if the configuration does not load. */
    method Reload(input: ReloadInput) returns (signalled: seq<int>)
      requires Valid() && (input.config.Some? ==> |input.config.value.ports| <= MAX_SERVERS)
      modifies this`children, this`used, this`log, this`count, this`listening, pids
      ensures Valid() && View() == Reloaded(old(View()), input)
      ensures signalled == if input.config.Some? then Signalled(old(View()), 0) else []
    {
      hide Waited, Started, Bound, Signalled;
      signalled := [];
      if input.config.Some? {
        signalled := KillWorkers();
        WaitWorkers();
        listening := Rebind(input.config.value.ports, input.binds);
        SpawnAll(input.config.value.workers, input.forks);
      }
    }

    /** The death of a worker. */
    method Bury(dead: int, stopping: bool, fork: Option<int>)
      requires Valid()
      modifies this`children, this`used, this`log, pids
      ensures Valid() && View() == Buried(old(View()), dead, stopping, fork)
    {
      hide Spawned, ReapedOne;
      WaitFor(dead);
      var i := 0;
      while i < count
        invariant 0 <= i <= count && SlotOf(View(), dead, i) == SlotOf(View(), dead, 0)
      {
        if pids[i] == dead {
          if !stopping { Spawn(i, fork); }
          return;
        }
        i := i + 1;
      }
    }

    /** One turn of the loop of `master_run`. */
    method TakeTurn(t: Turn)
      requires Valid()
      requires t.reload.Some? && t.reload.value.config.Some? ==>
                 |t.reload.value.config.value.ports| <= MAX_SERVERS
      modifies this`children, this`used, this`log, this`count, this`listening, pids
      ensures Valid() && View() == Turned(old(View()), t)
    {
      hide Buried, Reloaded;
      if t.dead.Some? && t.dead.value in children {
        Bury(t.dead.value, t.stopping, t.fork);
      }
      if t.reload.Some? {
        var signalled := Reload(t.reload.value);
      }
    }

    /** The loop of `master_run`. */
    method RunTurns(turns: seq<Turn>) returns (ghost tables: seq<Table>)
      requires Valid()
      requires forall t | t in turns :: t.reload.Some? && t.reload.value.config.Some? ==>
                 |t.reload.value.config.value.ports| <= MAX_SERVERS
      modifies this`children, this`used, this`log, this`count, this`listening, pids
      ensures Valid() && tables == Running(old(View()), turns) && View() == Last(tables)
    {
      hide Turned, Running;
      ghost var all := Running(View(), turns);
      ghost var past: seq<Table> := [];
      var i, shutdown := 0, false;
      assert turns[0..] == turns;
      while !shutdown && i < |turns|
        invariant 0 <= i <= |turns| && Valid()
        invariant shutdown ==> past + [View()] == all
        invariant !shutdown ==> past + Running(View(), turns[i..]) == all
      {
        RunningStep(View(), turns[i..], past);
        assert turns[i..][1..] == turns[i + 1..];
        past := past + [View()];
        TakeTurn(turns[i]);
        shutdown := turns[i].stop;
        i := i + 1;
      }
      if !shutdown {
        assert turns[i..] == [];
        RunningEnd(View());
      }
      tables := past + [View()];
    }

    /**
     `master_run`: the tables it goes through are those of `WorkerTable.Run`, all of them
     sound, and after the shutdown everything that was forked has been reaped.
     */
    method RunAll(cfg: Config, forks: seq<Option<int>>, turns: seq<Turn>) returns (ghost tables: seq<Table>)
      requires Valid() && View() == New(listening)
      requires forall t | t in turns :: t.reload.Some? && t.reload.value.config.Some? ==>
                 |t.reload.value.config.value.ports| <= MAX_SERVERS
      modifies this`children, this`used, this`log, this`count, this`listening, pids
      ensures Valid() && tables == Run(old(listening), cfg, forks, turns) && View() == ShutDown(Last(tables))
      ensures forall t | t in tables :: Sound(t)
      ensures children == {} && listening == [] && forall p | Forked(p) in log :: Reaped(p) in log
    {
      hide Started, Waited, Running, New, Sound, Signalled;
      RunSound(listening, cfg, forks, turns);
      SpawnAll(cfg.workers, forks);
      tables := RunTurns(turns);
      var signalled := KillWorkers();
      WaitWorkers();
      listening := [];
    }
  }

  lemma RunningEnd(t: Table)
    requires Wf(t)
    ensures Running(t, []) == [t]
  {
  }

  /** One turn more, put behind the tables that went before. */
  lemma RunningStep(t: Table, turns: seq<Turn>, past: seq<Table>)
    requires Wf(t) && turns != []
    ensures var u := Turned(t, turns[0]);
            && (turns[0].stop ==> past + Running(t, turns) == (past + [t]) + [u])
            && (!turns[0].stop ==> past + Running(t, turns) == (past + [t]) + Running(u, turns[1..]))
  {
    hide Turned;
    var u := Turned(t, turns[0]);
    if turns[0].stop {
      assert past + [t, u] == (past + [t]) + [u];
    } else {
      assert past + ([t] + Running(u, turns[1..])) == (past + [t]) + Running(u, turns[1..]);
    }
  }
}

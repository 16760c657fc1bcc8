/**
 The master process of src/proc/master.c as a function of what happens to it: forking,
 reaping, respawning and reloading workers, and what holds of every run.  The kernel's
 side is the set of children not yet waited for; it never gives out a process number
 twice, and waiting is not interrupted.  Module Supervisor has the array and the loops.
 */
module WorkerTable {
  import opened StringUtil

  const MAX_WORKERS := 64
  const MAX_SERVERS := 16

  /** What the master does to processes, in order. */
  datatype Action = Forked(pid: int) | Reaped(pid: int)

  /** A configuration as far as the master looks at it: how many workers, and which ports in which order. */
  datatype Config = Config(workers: int, ports: seq<int>)

  /** A reload: the new configuration if it loads, which binds succeed, and what the forks give. */
  datatype ReloadInput = ReloadInput(config: Option<Config>, binds: seq<bool>, forks: seq<Option<int>>)

  /** One turn of the loop: who has died, whether a shutdown was requested by then, a fork result, a reload. */
  datatype Turn = Turn(dead: Option<int>, stopping: bool, fork: Option<int>, reload: Option<ReloadInput>, stop: bool)

  /** worker_pids and worker_count, the listeners, and the kernel's view of the processes. */
  datatype Table = Table(
    count: nat,
    pids: seq<int>,
    listening: seq<int>,
    children: set<int>,
    used: set<int>,
    log: seq<Action>)

  predicate Wf(t: Table) {
    |t.pids| == MAX_WORKERS && t.count <= MAX_WORKERS
  }

  /** Before the first fork. */
  function New(listening: seq<int>): Table {
    Table(0, seq(MAX_WORKERS, _ => 0), listening, {}, {}, [])
  }

  // ----- the operations -----

  function Clamp(n: int): (r: nat)
    ensures r <= MAX_WORKERS
  {
    if n > MAX_WORKERS then MAX_WORKERS else if n < 0 then 0 else n
  }

  function At(s: seq<Option<int>>, i: nat): Option<int> {
    if i < |s| then s[i] else None
  }

  /** The process number a fork gives, if it gives one. */
  function FreshPid(result: Option<int>, used: set<int>): Option<int> {
    if result.Some? && result.value > 0 && result.value !in used then result else None
  }

  /** `spawn_worker`. */
  function Spawned(t: Table, id: nat, result: Option<int>): (r: Table)
    requires Wf(t) && id < t.count
    ensures Wf(r) && r.count == t.count && t.used <= r.used
  {
    var pid := FreshPid(result, t.used);
    if pid.None? then t
    else
      var p := pid.value;
      t.(pids := t.pids[id := p], children := t.children + {p}, used := t.used + {p}, log := t.log + [Forked(p)])
  }

  /** The loop that starts the workers, from slot `i` on. */
  function SpawnedFrom(t: Table, i: nat, forks: seq<Option<int>>): (r: Table)
    requires Wf(t) && i <= t.count
    ensures Wf(r) && r.count == t.count && t.used <= r.used
    decreases t.count - i
  {
    if i == t.count then t else SpawnedFrom(Spawned(t, i, At(forks, i)), i + 1, forks)
  }

  function Started(t: Table, workers: int, forks: seq<Option<int>>): (r: Table)
    requires Wf(t)
    ensures Wf(r) && r.count == Clamp(workers) && t.used <= r.used
  {
    SpawnedFrom(t.(count := Clamp(workers)), 0, forks)
  }

  /** A `waitpid` on one process, which is a no-op when it is no child any more. */
  function ReapedOne(t: Table, pid: int): (r: Table)
    ensures r.count == t.count && r.pids == t.pids && r.used == t.used && r.listening == t.listening
  {
    if pid in t.children then t.(children := t.children - {pid}, log := t.log + [Reaped(pid)]) else t
  }

  /** `wait_workers`, from slot `i` on. */
  function Waited(t: Table, i: nat): (r: Table)
    requires Wf(t) && i <= t.count
    ensures Wf(r) && r.count == t.count && r.used == t.used && r.listening == t.listening
    decreases t.count - i
  {
    if i == t.count then t
    else Waited(if t.pids[i] > 0 then ReapedOne(t, t.pids[i]).(pids := t.pids[i := 0]) else t, i + 1)
  }

  /** `kill_workers`, from slot `i` on: who is signalled. */
  function Signalled(t: Table, i: nat): seq<int>
    requires Wf(t) && i <= t.count
    decreases t.count - i
  {
    if i == t.count then [] else (if t.pids[i] > 0 then [t.pids[i]] else []) + Signalled(t, i + 1)
  }

  /** The first slot from `i` on that records a process, or the count. */
  function SlotOf(t: Table, pid: int, i: nat): (r: nat)
    requires Wf(t) && i <= t.count
    ensures i <= r <= t.count && (r < t.count ==> t.pids[r] == pid)
    ensures forall j | i <= j < r :: t.pids[j] != pid
    decreases t.count - i
  {
    if i == t.count || t.pids[i] == pid then i else SlotOf(t, pid, i + 1)
  }

  /** The death of a worker: reaped, and replaced in its slot unless a shutdown was requested. */
  function Buried(t: Table, dead: int, stopping: bool, fork: Option<int>): (r: Table)
    requires Wf(t)
    ensures Wf(r) && r.count == t.count && t.used <= r.used
  {
    var u := ReapedOne(t, dead);
    var i := SlotOf(u, dead, 0);
    if i == u.count || stopping then u else Spawned(u, i, fork)
  }

  predicate BindOk(binds: seq<bool>, i: nat) {
    i < |binds| ==> binds[i]
  }

  /** The rebinding loop of a reload, from port `i` on. */
  function Bound(ports: seq<int>, binds: seq<bool>, i: nat, bound: seq<int>): seq<int>
    requires i <= |ports|
    decreases |ports| - i
  {
    if i == |ports| then bound
    else Bound(ports, binds, i + 1, if ports[i] !in bound && BindOk(binds, i) then bound + [ports[i]] else bound)
  }

  /** The reload branch: nothing at all if the configuration does not load. */
  function Reloaded(t: Table, input: ReloadInput): (r: Table)
    requires Wf(t)
    ensures Wf(r) && t.used <= r.used
  {
    match input.config
    case None => t
    case Some(cfg) =>
      Started(Waited(t, 0).(listening := Bound(cfg.ports, input.binds, 0, [])), cfg.workers, input.forks)
  }

  function Turned(t: Table, turn: Turn): (r: Table)
    requires Wf(t)
    ensures Wf(r) && t.used <= r.used
  {
    var u := if turn.dead.Some? && turn.dead.value in t.children
             then Buried(t, turn.dead.value, turn.stopping, turn.fork) else t;
    if turn.reload.Some? then Reloaded(u, turn.reload.value) else u
  }

  /** The tables at each test of the loop condition, until a shutdown or the end of the turns. */
  function Running(t: Table, turns: seq<Turn>): (r: seq<Table>)
    requires Wf(t)
    ensures r != [] && r[0] == t && forall u | u in r :: Wf(u)
    decreases |turns|
  {
    if turns == [] then [t]
    else if turns[0].stop then [t, Turned(t, turns[0])]
    else [t] + Running(Turned(t, turns[0]), turns[1..])
  }

  /** The tables of a whole run of `master_run` up to the shutdown. */
  function Run(listening: seq<int>, cfg: Config, forks: seq<Option<int>>, turns: seq<Turn>): (r: seq<Table>)
    ensures r != [] && forall u | u in r :: Wf(u)
  {
    Running(Started(New(listening), cfg.workers, forks), turns)
  }

  function Last(ts: seq<Table>): Table
    requires ts != []
  {
    ts[|ts| - 1]
  }

  /** The shutdown: everybody is waited for and the listeners are closed. */
  function ShutDown(t: Table): Table
    requires Wf(t)
  {
    Waited(t, 0).(listening := [])
  }

  // ----- what every operation keeps -----

  predicate Recorded(t: Table, p: int)
    requires Wf(t)
  {
    p > 0 && exists i | 0 <= i < t.count :: t.pids[i] == p
  }

  /** The children are the processes forked and not yet reaped. */
  ghost predicate Accounts(t: Table) {
    && (forall a | a in t.log :: a.pid in t.used)
    && (forall c :: c in t.children <==> Forked(c) in t.log && Reaped(c) !in t.log)
  }

  predicate SlotOk(t: Table, i: nat)
    requires Wf(t) && i < MAX_WORKERS
  {
    t.pids[i] >= 0 && (t.pids[i] > 0 ==> t.pids[i] in t.used && i < t.count)
  }

  /** Every child is recorded in exactly one slot below the worker count. */
  predicate Slots(t: Table)
    requires Wf(t)
  {
    && t.children <= t.used
    && (forall i | 0 <= i < MAX_WORKERS :: SlotOk(t, i))
    && (forall i, j | 0 <= i < j < MAX_WORKERS :: t.pids[i] > 0 ==> t.pids[i] != t.pids[j])
    && (forall c | c in t.children :: Recorded(t, c))
  }

  ghost predicate Sound(t: Table) {
    Wf(t) && Slots(t) && Accounts(t)
  }

  lemma NewSound(listening: seq<int>)
    ensures Sound(New(listening))
  {
  }

  lemma SpawnedSlots(t: Table, id: nat, result: Option<int>)
    requires Wf(t) && Slots(t) && id < t.count && t.pids[id] !in t.children
    ensures Slots(Spawned(t, id, result))
  {
    var u := Spawned(t, id, result);
    if u != t {
      var p := u.pids[id];
      forall c | c in u.children ensures Recorded(u, c) {
        if c == p {
          assert u.pids[id] == c;
        } else {
          assert Recorded(t, c);
          var i :| 0 <= i < t.count && t.pids[i] == c;
          assert u.pids[i] == c;
        }
      }
      forall i | 0 <= i < MAX_WORKERS ensures SlotOk(u, i) { assert SlotOk(t, i); }
      forall i, j | 0 <= i < j < MAX_WORKERS ensures u.pids[i] > 0 ==> u.pids[i] != u.pids[j] {
        assert SlotOk(t, i) && SlotOk(t, j);
      }
    }
  }

  lemma SpawnedAccounts(t: Table, id: nat, result: Option<int>)
    requires Wf(t) && Accounts(t) && id < t.count
    ensures Accounts(Spawned(t, id, result))
  {
  }

  lemma SpawnedSound(t: Table, id: nat, result: Option<int>)
    requires Sound(t) && id < t.count && t.pids[id] !in t.children
    ensures Sound(Spawned(t, id, result))
  {
    hide Slots, Accounts;
    SpawnedSlots(t, id, result);
    SpawnedAccounts(t, id, result);
  }

  lemma ReapedAccounts(t: Table, pid: int)
    requires Accounts(t) && t.children <= t.used
    ensures Accounts(ReapedOne(t, pid))
  {
  }

  /** Reaping a worker, and clearing its slot or not. */
  lemma ReapedSlots(t: Table, i: nat)
    requires Wf(t) && Slots(t) && i < t.count && t.pids[i] > 0
    ensures Slots(ReapedOne(t, t.pids[i])) && Slots(ReapedOne(t, t.pids[i]).(pids := t.pids[i := 0]))
  {
    var u := ReapedOne(t, t.pids[i]);
    var v := u.(pids := t.pids[i := 0]);
    forall c | c in u.children ensures Recorded(u, c) && Recorded(v, c) {
      assert Recorded(t, c);
      var j :| 0 <= j < t.count && t.pids[j] == c;
      assert v.pids[j] == c;
    }
    forall j | 0 <= j < MAX_WORKERS ensures SlotOk(u, j) && SlotOk(v, j) { assert SlotOk(t, j); }
  }

  lemma ReapedSound(t: Table, i: nat)
    requires Sound(t) && i < t.count && t.pids[i] > 0
    ensures Sound(ReapedOne(t, t.pids[i])) && Sound(ReapedOne(t, t.pids[i]).(pids := t.pids[i := 0]))
  {
    hide Accounts;
    ReapedSlots(t, i);
    ReapedAccounts(t, t.pids[i]);
    SameAccounts(ReapedOne(t, t.pids[i]), t.pids[i := 0]);
  }

  lemma SameAccounts(t: Table, pids: seq<int>)
    requires Accounts(t)
    ensures Accounts(t.(pids := pids))
  {
  }

  predicate AllReaped(s: seq<Action>) {
    forall a | a in s :: a.Reaped?
  }

  predicate AllForked(s: seq<Action>) {
    forall a | a in s :: a.Forked?
  }

  /** The table is empty: nobody is recorded, and so there are no children. */
  predicate Vacant(t: Table)
    requires Wf(t)
  {
    t.children == {} && forall i | 0 <= i < MAX_WORKERS :: t.pids[i] == 0
  }

  /** Waiting reaps every child, only reaps, and clears the table. */
  lemma {:induction false} WaitedAll(t: Table, i: nat) returns (reaps: seq<Action>)
    requires Sound(t) && i <= t.count && forall j | 0 <= j < i :: t.pids[j] == 0
    ensures Sound(Waited(t, i)) && Vacant(Waited(t, i))
    ensures Waited(t, i).log == t.log + reaps && AllReaped(reaps) && forall c | c in t.children :: Reaped(c) in reaps
    decreases t.count - i
  {
    hide Accounts, Slots, Vacant;
    reaps := [];
    if i == t.count {
      NobodyLeft(t);
    } else if t.pids[i] > 0 {
      ReapedSound(t, i);
      var p := t.pids[i];
      var u := ReapedOne(t, p).(pids := t.pids[i := 0]);
      var rest := WaitedAll(u, i + 1);
      var first := if p in t.children then [Reaped(p)] else [];
      reaps := first + rest;
      assert u.log == t.log + first;
      assert t.log + (first + rest) == (t.log + first) + rest;
    } else {
      PidsNatural(t, i);
      reaps := WaitedAll(t, i + 1);
    }
  }

  lemma PidsNatural(t: Table, i: nat)
    requires Wf(t) && Slots(t) && i < MAX_WORKERS
    ensures t.pids[i] >= 0
  {
    assert SlotOk(t, i);
  }

  lemma NobodyRecorded(t: Table, p: int)
    requires Wf(t) && forall j | 0 <= j < t.count :: t.pids[j] == 0
    ensures !Recorded(t, p)
  {
  }

  lemma NobodyLeft(t: Table)
    requires Wf(t) && Slots(t) && forall j | 0 <= j < t.count :: t.pids[j] == 0
    ensures Vacant(t) && t.children == {}
  {
    hide Recorded;
    forall c | c in t.children ensures false {
      NobodyRecorded(t, c);
    }
    forall i | 0 <= i < MAX_WORKERS ensures t.pids[i] == 0 { assert SlotOk(t, i); }
  }

  /** The first `n` forks all give new processes. */
  predicate AllFresh(forks: seq<Option<int>>, used: set<int>, n: nat) {
    && n <= |forks|
    && (forall i | 0 <= i < n :: FreshPid(forks[i], used).Some?)
    && (forall i, j | 0 <= i < j < n :: forks[i] != forks[j])
  }

  /** The forks from slot `i` on still give new processes. */
  predicate StillFresh(forks: seq<Option<int>>, used: set<int>, i: nat, n: nat) {
    && n <= |forks|
    && (forall j | i <= j < n :: FreshPid(forks[j], used).Some?)
    && (forall j, k | i <= j < k < n :: forks[j] != forks[k])
  }

  /** Every slot below the count has a living worker. */
  predicate Full(t: Table)
    requires Wf(t)
  {
    forall i | 0 <= i < t.count :: t.pids[i] in t.children
  }

  /** Spawning from slot `i` on only forks, keeps the table sound, and fills it when the forks succeed. */
  lemma {:induction false} SpawnedAll(t: Table, i: nat, forks: seq<Option<int>>) returns (started: seq<Action>)
    requires Sound(t) && i <= t.count && forall j | i <= j < t.count :: t.pids[j] == 0
    ensures var u := SpawnedFrom(t, i, forks);
            && Sound(u) && u.log == t.log + started && AllForked(started)
            && (forall c | c in u.children :: c in t.children || c !in t.used)
            && (StillFresh(forks, t.used, i, t.count) && (forall j | 0 <= j < i :: t.pids[j] in t.children) ==> Full(u))
    decreases t.count - i
  {
    hide Accounts, Slots;
    started := [];
    if i < t.count {
      var u := Spawned(t, i, At(forks, i));
      NoChildZero(t);
      SpawnedSound(t, i, At(forks, i));
      var rest := SpawnedAll(u, i + 1, forks);
      started := u.log[|t.log|..] + rest;
      assert u.log == t.log + u.log[|t.log|..];
      assert t.log + (u.log[|t.log|..] + rest) == (t.log + u.log[|t.log|..]) + rest;
    }
  }

  lemma NoChildZero(t: Table)
    requires Wf(t) && Slots(t)
    ensures 0 !in t.children
  {
    assert !Recorded(t, 0);
  }

  lemma StartedSound(t: Table, workers: int, forks: seq<Option<int>>) returns (started: seq<Action>)
    requires Sound(t) && Vacant(t)
    ensures var u := Started(t, workers, forks);
            && Sound(u) && u.log == t.log + started && AllForked(started)
            && (forall c | c in u.children :: c !in t.used)
            && (AllFresh(forks, t.used, Clamp(workers)) ==> Full(u))
  {
    hide Accounts, SpawnedFrom;
    var v := t.(count := Clamp(workers));
    forall i | 0 <= i < MAX_WORKERS ensures SlotOk(v, i) { assert SlotOk(t, i); }
    assert Accounts(v) by { SameChildren(t, v); }
    started := SpawnedAll(v, 0, forks);
  }

  lemma SameChildren(t: Table, v: Table)
    requires Accounts(t) && v.children == t.children && v.used == t.used && v.log == t.log
    ensures Accounts(v)
  {
  }

  /**
   A reload that loads: all old workers are reaped before the first new one is forked, none
   of them survives, and the new table is full when the forks succeed.
   */
  lemma ReloadReplaces(t: Table, input: ReloadInput) returns (reaps: seq<Action>, forks: seq<Action>)
    requires Sound(t)
    ensures var u := Reloaded(t, input);
            && Sound(u) && u.log == t.log + reaps + forks && AllReaped(reaps) && AllForked(forks)
            && (input.config.None? ==> u == t)
            && (input.config.Some? ==>
                  && u.count == Clamp(input.config.value.workers)
                  && (forall c | c in t.children :: Reaped(c) in reaps) && u.children !! t.used
                  && (AllFresh(input.forks, t.used, u.count) ==> Full(u)))
  {
    hide Accounts, Waited, Started, Slots, AllFresh, AllReaped, AllForked, Full;
    reaps, forks := [], [];
    if input.config.Some? {
      var cfg := input.config.value;
      reaps := WaitedAll(t, 0);
      var v := Waited(t, 0);
      var w := v.(listening := Bound(cfg.ports, input.binds, 0, []));
      SameChildren(v, w);
      SameSlots(v, w);
      forks := StartedSound(w, cfg.workers, input.forks);
      assert forall c | c in Reloaded(t, input).children :: c !in t.used;
    } else {
      NoActions();
      assert t.log + [] + [] == t.log;
    }
  }

  lemma NoActions()
    ensures AllReaped([]) && AllForked([])
  {
  }

  lemma SameSlots(t: Table, v: Table)
    requires Wf(t) && Slots(t) && v == t.(listening := v.listening)
    ensures Slots(v)
  {
    forall i | 0 <= i < MAX_WORKERS ensures SlotOk(v, i) { assert SlotOk(t, i); }
    forall c | c in v.children ensures Recorded(v, c) { assert Recorded(t, c); }
  }

  /** A dead worker is reaped and replaced in its own slot, unless shutting down or the fork fails. */
  lemma BuriedReplaces(t: Table, dead: int, stopping: bool, fork: Option<int>)
    requires Sound(t) && dead in t.children
    ensures var u, k := Buried(t, dead, stopping, fork), SlotOf(t, dead, 0);
            && Sound(u) && dead !in u.children && k < t.count
            && (forall j | 0 <= j < MAX_WORKERS && j != k :: u.pids[j] == t.pids[j])
            && if !stopping && FreshPid(fork, t.used).Some?
               then u.children == t.children - {dead} + {fork.value} && u.pids[k] == fork.value
               else u.children == t.children - {dead} && u.pids[k] == dead
  {
    hide Accounts;
    assert Recorded(t, dead);
    var k := SlotOf(t, dead, 0);
    var u := ReapedOne(t, dead);
    ReapedSound(t, k);
    SameSlot(t, u, dead, 0);
    assert dead in t.used;
    SpawnedSound(u, k, fork);
  }

  lemma {:induction false} SameSlot(t: Table, u: Table, pid: int, i: nat)
    requires Wf(t) && Wf(u) && u.pids == t.pids && u.count == t.count && i <= t.count
    ensures SlotOf(u, pid, i) == SlotOf(t, pid, i)
    decreases t.count - i
  {
    if i < t.count { SameSlot(t, u, pid, i + 1); }
  }

  lemma TurnedSound(t: Table, turn: Turn)
    requires Sound(t)
    ensures Sound(Turned(t, turn))
  {
    hide Accounts, Slots, Buried, Reloaded;
    var u := t;
    if turn.dead.Some? && turn.dead.value in t.children {
      BuriedReplaces(t, turn.dead.value, turn.stopping, turn.fork);
      u := Buried(t, turn.dead.value, turn.stopping, turn.fork);
    }
    if turn.reload.Some? { var reaps, forks := ReloadReplaces(u, turn.reload.value); }
  }

  // ----- runs -----

  lemma {:induction false} RunningSound(t: Table, turns: seq<Turn>)
    requires Sound(t)
    ensures forall u | u in Running(t, turns) :: Sound(u)
    decreases |turns|
  {
    hide Sound, Turned;
    if turns != [] {
      TurnedSound(t, turns[0]);
      assert Wf(t) by { SoundWf(t); }
      if !turns[0].stop { RunningSound(Turned(t, turns[0]), turns[1..]); }
    }
  }

  lemma SoundWf(t: Table)
    requires Sound(t)
    ensures Wf(t)
  {
  }

  /**
   Whatever dies, forks or reloads: at every test of the loop condition each child is
   recorded in exactly one slot below the worker count, and after the shutdown everything
   that was ever forked has been reaped.
   */
  lemma RunSound(listening: seq<int>, cfg: Config, forks: seq<Option<int>>, turns: seq<Turn>)
    ensures forall t | t in Run(listening, cfg, forks, turns) :: Sound(t)
    ensures var u := ShutDown(Last(Run(listening, cfg, forks, turns)));
            Vacant(u) && u.listening == [] && forall p | Forked(p) in u.log :: Reaped(p) in u.log
  {
    hide Slots, Waited, Running, Started;
    NewSound(listening);
    var started := StartedSound(New(listening), cfg.workers, forks);
    RunningSound(Started(New(listening), cfg.workers, forks), turns);
    var ts := Run(listening, cfg, forks, turns);
    assert Last(ts) in ts;
    var reaps := WaitedAll(Last(ts), 0);
  }

  /** Every fork of the turn succeeds, and no shutdown comes between a death and its respawn. */
  predicate Supplied(t: Table, turn: Turn)
    requires Wf(t)
  {
    var died := turn.dead.Some? && turn.dead.value in t.children;
    var u := if died then Buried(t, turn.dead.value, turn.stopping, turn.fork) else t;
    && (died ==> !turn.stopping && FreshPid(turn.fork, t.used).Some?)
    && (turn.reload.Some? && turn.reload.value.config.Some? ==>
          AllFresh(turn.reload.value.forks, u.used, Clamp(turn.reload.value.config.value.workers)))
  }

  predicate SuppliedRun(t: Table, turns: seq<Turn>)
    requires Wf(t)
    decreases |turns|
  {
    turns == [] || (Supplied(t, turns[0]) && (turns[0].stop || SuppliedRun(Turned(t, turns[0]), turns[1..])))
  }

  lemma TurnedFull(t: Table, turn: Turn)
    requires Sound(t) && Full(t) && Supplied(t, turn)
    ensures Full(Turned(t, turn))
  {
    hide Accounts, Slots, Buried, Reloaded, AllFresh;
    var u := t;
    if turn.dead.Some? && turn.dead.value in t.children {
      var dead := turn.dead.value;
      BuriedReplaces(t, dead, turn.stopping, turn.fork);
      u := Buried(t, dead, turn.stopping, turn.fork);
      assert Full(u) by { OnlyOneSlot(t, dead, SlotOf(t, dead, 0)); }
    }
    if turn.reload.Some? { var reaps, forks := ReloadReplaces(u, turn.reload.value); }
  }

  lemma OnlyOneSlot(t: Table, p: int, k: nat)
    requires Sound(t) && p in t.children && k < t.count && t.pids[k] == p
    ensures forall j | 0 <= j < t.count && j != k :: t.pids[j] != p
  {
    hide Accounts;
    assert Recorded(t, p);
  }

  lemma {:induction false} RunningFull(t: Table, turns: seq<Turn>)
    requires Sound(t) && Full(t) && SuppliedRun(t, turns)
    ensures forall u | u in Running(t, turns) :: Full(u)
    decreases |turns|
  {
    hide Sound, Turned, Full, Supplied;
    SoundWf(t);
    if turns != [] {
      TurnedSound(t, turns[0]);
      TurnedFull(t, turns[0]);
      if !turns[0].stop { RunningFull(Turned(t, turns[0]), turns[1..]); }
    }
  }

  /** As long as forks succeed, every slot has a living worker at every test of the loop condition. */
  lemma RunFull(listening: seq<int>, cfg: Config, forks: seq<Option<int>>, turns: seq<Turn>)
    requires AllFresh(forks, {}, Clamp(cfg.workers))
    requires SuppliedRun(Started(New(listening), cfg.workers, forks), turns)
    ensures forall t | t in Run(listening, cfg, forks, turns) :: Full(t)
  {
    hide Sound, Started, Full, AllFresh, SuppliedRun, Running;
    NewSound(listening);
    var started := StartedSound(New(listening), cfg.workers, forks);
    RunningFull(Started(New(listening), cfg.workers, forks), turns);
  }

  lemma {:induction false} SpawnedCount(t: Table, i: nat, forks: seq<Option<int>>)
    requires Wf(t) && t.children <= t.used && i <= t.count && StillFresh(forks, t.used, i, t.count)
    ensures |SpawnedFrom(t, i, forks).children| == |t.children| + t.count - i
    decreases t.count - i
  {
    if i < t.count { SpawnedCount(Spawned(t, i, At(forks, i)), i + 1, forks); }
  }

  /** Asked for `n` workers the master starts `n`, within the limits of none and 64. */
  lemma StartsWorkers(listening: seq<int>, n: int, forks: seq<Option<int>>)
    requires AllFresh(forks, {}, if n < 0 then 0 else if n > 64 then 64 else n)
    ensures var t := Started(New(listening), n, forks);
            |t.children| == t.count == (if n < 0 then 0 else if n > 64 then 64 else n) && Full(t)
  {
    NewSound(listening);
    var started := StartedSound(New(listening), n, forks);
    SpawnedCount(New(listening).(count := Clamp(n)), 0, forks);
  }

  /** A run goes on for as many turns as there are up to and including the first that asks to stop. */
  lemma {:induction false} RunStops(t: Table, turns: seq<Turn>, k: nat)
    requires Wf(t) && k <= |turns| && (forall j | 0 <= j < k :: !turns[j].stop) && (k < |turns| ==> turns[k].stop)
    ensures |Running(t, turns)| == if k < |turns| then k + 2 else |turns| + 1
    decreases |turns|
  {
    hide Turned;
    if k > 0 { RunStops(Turned(t, turns[0]), turns[1..], k - 1); }
  }

  // ----- who is signalled -----

  /** No slot records a process that is no child any more. */
  predicate NoStale(t: Table)
    requires Wf(t)
  {
    forall i | 0 <= i < t.count && t.pids[i] > 0 :: t.pids[i] in t.children
  }

  lemma {:induction false} SignalledFrom(t: Table, i: nat)
    requires Wf(t) && i <= t.count
    ensures forall p :: p in Signalled(t, i) <==> p > 0 && exists j | i <= j < t.count :: t.pids[j] == p
    decreases t.count - i
  {
    if i < t.count {
      SignalledFrom(t, i + 1);
      forall p ensures p in Signalled(t, i) <==> p > 0 && exists j | i <= j < t.count :: t.pids[j] == p {
        if p > 0 && p == t.pids[i] { assert p in Signalled(t, i); }
      }
    }
  }

  /** Every child is signalled, and somebody else exactly if some slot is stale. */
  lemma SignalledChildren(t: Table)
    requires Sound(t)
    ensures forall c | c in t.children :: c in Signalled(t, 0)
    ensures (forall p | p in Signalled(t, 0) :: p in t.children) <==> NoStale(t)
    ensures Full(t) ==> NoStale(t)
  {
    hide Accounts, Signalled;
    SignalledFrom(t, 0);
    forall c | c in t.children ensures c in Signalled(t, 0) { assert Recorded(t, c); }
    if forall p | p in Signalled(t, 0) :: p in t.children {
      forall i | 0 <= i < t.count && t.pids[i] > 0 ensures t.pids[i] in t.children {
        assert t.pids[i] in Signalled(t, 0);
      }
    }
  }

  /** The turn reaps a worker. */
  predicate Died(t: Table, turn: Turn) {
    turn.dead.Some? && turn.dead.value in t.children
  }

  /** The turn reloads a configuration that loads. */
  predicate Reloads(turn: Turn) {
    turn.reload.Some? && turn.reload.value.config.Some?
  }

  /** A worker that died in the turn was replaced: no shutdown was requested by then, and the fork succeeded. */
  predicate Replaced(t: Table, turn: Turn) {
    Died(t, turn) ==> !turn.stopping && FreshPid(turn.fork, t.used).Some?
  }

  lemma BuriedStale(t: Table, dead: int, stopping: bool, fork: Option<int>)
    requires Sound(t) && dead in t.children
    ensures NoStale(Buried(t, dead, stopping, fork)) <==>
            NoStale(t) && !stopping && FreshPid(fork, t.used).Some?
  {
    hide Accounts, Buried;
    BuriedReplaces(t, dead, stopping, fork);
    var u, k := Buried(t, dead, stopping, fork), SlotOf(t, dead, 0);
    OnlyOneSlot(t, dead, k);
    assert Recorded(t, dead);
    if !stopping && FreshPid(fork, t.used).Some? {
      forall j | 0 <= j < t.count && j != k && t.pids[j] > 0
        ensures t.pids[j] in t.children <==> u.pids[j] in u.children
      {
        assert SlotOk(t, j);
      }
    }
  }

  lemma SpawnedStale(t: Table, id: nat, result: Option<int>)
    requires Wf(t) && id < t.count && NoStale(t)
    ensures NoStale(Spawned(t, id, result))
  {
  }

  lemma {:induction false} SpawnedFromStale(t: Table, i: nat, forks: seq<Option<int>>)
    requires Wf(t) && i <= t.count && NoStale(t)
    ensures NoStale(SpawnedFrom(t, i, forks))
    decreases t.count - i
  {
    hide NoStale, Spawned;
    if i < t.count {
      SpawnedStale(t, i, At(forks, i));
      SpawnedFromStale(Spawned(t, i, At(forks, i)), i + 1, forks);
    }
  }

  /** Whatever the forks of a reload give, it leaves no stale slot. */
  lemma ReloadedStale(t: Table, input: ReloadInput)
    requires Sound(t) && input.config.Some?
    ensures NoStale(Reloaded(t, input))
  {
    hide Sound, Waited, SpawnedFrom;
    SoundWf(t);
    var cfg := input.config.value;
    var reaps := WaitedAll(t, 0);
    var v := Waited(t, 0).(listening := Bound(cfg.ports, input.binds, 0, []), count := Clamp(cfg.workers));
    SpawnedFromStale(v, 0, input.forks);
  }

  /** A turn leaves no stale slot exactly if it reloads, or there was none and a worker that died was replaced. */
  lemma TurnedStale(t: Table, turn: Turn)
    requires Sound(t)
    ensures NoStale(Turned(t, turn)) <==> Reloads(turn) || (NoStale(t) && Replaced(t, turn))
  {
    hide Accounts, Slots, Buried, NoStale;
    var u := t;
    if Died(t, turn) {
      BuriedReplaces(t, turn.dead.value, turn.stopping, turn.fork);
      BuriedStale(t, turn.dead.value, turn.stopping, turn.fork);
      u := Buried(t, turn.dead.value, turn.stopping, turn.fork);
    }
    if Reloads(turn) { ReloadedStale(u, turn.reload.value); }
  }

  /** The table after some turns. */
  function After(t: Table, turns: seq<Turn>): (r: Table)
    requires Wf(t)
    ensures Wf(r)
  {
    if turns == [] then t else Turned(After(t, turns[..|turns| - 1]), turns[|turns| - 1])
  }

  lemma {:induction false} AfterFirst(t: Table, turns: seq<Turn>)
    requires Wf(t) && turns != []
    ensures After(t, turns) == After(Turned(t, turns[0]), turns[1..])
    decreases |turns|
  {
    hide Turned;
    var n := |turns| - 1;
    if n > 0 {
      AfterFirst(t, turns[..n]);
      assert turns[..n][1..] == turns[1..][..n - 1];
    } else {
      assert turns[..0] == [] && turns[1..] == [];
    }
  }

  lemma {:induction false} RunningAt(t: Table, turns: seq<Turn>, k: nat)
    requires Wf(t) && k < |Running(t, turns)|
    ensures k <= |turns| && Running(t, turns)[k] == After(t, turns[..k])
    decreases |turns|
  {
    hide Turned;
    if k > 0 {
      if turns[0].stop {
        assert k == 1 && turns[..1][1..] == [];
      } else {
        RunningAt(Turned(t, turns[0]), turns[1..], k - 1);
        assert turns[..k][1..] == turns[1..][..k - 1];
      }
      AfterFirst(t, turns[..k]);
    }
  }

  predicate NoReload(turns: seq<Turn>, i: nat) {
    forall j | i <= j < |turns| :: !Reloads(turns[j])
  }

  /** Unless there is a reload in turn `i` or later, a worker that died in it was replaced. */
  predicate ReplacedIn(t: Table, turns: seq<Turn>, i: nat)
    requires Wf(t) && i < |turns|
  {
    NoReload(turns, i) ==> Replaced(After(t, turns[..i]), turns[i])
  }

  /** Every worker that died since the last successful reload was replaced. */
  predicate ReplacedSince(t: Table, turns: seq<Turn>)
    requires Wf(t)
  {
    forall i | 0 <= i < |turns| :: ReplacedIn(t, turns, i)
  }

  lemma ReplacedBefore(t: Table, turns: seq<Turn>, i: nat)
    requires Wf(t) && i + 1 < |turns| && !Reloads(turns[|turns| - 1])
    ensures ReplacedIn(t, turns, i) <==> ReplacedIn(t, turns[..|turns| - 1], i)
  {
    hide After, Replaced, Reloads;
    var before := turns[..|turns| - 1];
    assert before[..i] == turns[..i];
    assert forall j | 0 <= j < |before| :: before[j] == turns[j];
  }

  lemma ReplacedSinceLast(t: Table, turns: seq<Turn>)
    requires Wf(t) && turns != []
    ensures var before, last := turns[..|turns| - 1], turns[|turns| - 1];
            ReplacedSince(t, turns) <==>
            Reloads(last) || (ReplacedSince(t, before) && Replaced(After(t, before), last))
  {
    hide ReplacedIn, After, Replaced, Reloads;
    var n := |turns| - 1;
    LastReplaced(t, turns);
    forall i | 0 <= i < n ensures !Reloads(turns[n]) ==> (ReplacedIn(t, turns, i) <==> ReplacedIn(t, turns[..n], i)) {
      if !Reloads(turns[n]) { ReplacedBefore(t, turns, i); }
    }
  }

  lemma LastReplaced(t: Table, turns: seq<Turn>)
    requires Wf(t) && turns != []
    ensures var n := |turns| - 1;
            if Reloads(turns[n]) then forall i | 0 <= i <= n :: ReplacedIn(t, turns, i)
            else ReplacedIn(t, turns, n) <==> Replaced(After(t, turns[..n]), turns[n])
  {
    hide After, Replaced, Reloads;
  }

  lemma {:induction false} AfterStale(t: Table, turns: seq<Turn>)
    requires Sound(t) && NoStale(t)
    ensures Sound(After(t, turns)) && (NoStale(After(t, turns)) <==> ReplacedSince(t, turns))
    decreases |turns|
  {
    hide Sound, NoStale, Turned, Replaced, Reloads, ReplacedSince;
    SoundWf(t);
    if turns == [] {
      NothingSince(t);
    } else {
      var before, last := turns[..|turns| - 1], turns[|turns| - 1];
      AfterStale(t, before);
      TurnedSound(After(t, before), last);
      TurnedStale(After(t, before), last);
      ReplacedSinceLast(t, turns);
    }
  }

  lemma NothingSince(t: Table)
    requires Wf(t)
    ensures ReplacedSince(t, [])
  {
  }

  lemma StartedStale(listening: seq<int>, workers: int, forks: seq<Option<int>>)
    ensures NoStale(Started(New(listening), workers, forks))
  {
    SpawnedFromStale(New(listening).(count := Clamp(workers)), 0, forks);
  }

  /**
   At the `k`-th test of the loop condition of any run, `kill_workers` signals every child,
   and it signals nobody else exactly if every worker that died since the last successful
   reload was replaced.
   */
  lemma RunSignals(listening: seq<int>, cfg: Config, forks: seq<Option<int>>, turns: seq<Turn>, k: nat)
    requires k < |Run(listening, cfg, forks, turns)|
    ensures k <= |turns|
    ensures var t := Run(listening, cfg, forks, turns)[k];
            && (forall c | c in t.children :: c in Signalled(t, 0))
            && ((forall p | p in Signalled(t, 0) :: p in t.children) <==>
                ReplacedSince(Started(New(listening), cfg.workers, forks), turns[..k]))
  {
    hide Sound, NoStale, ReplacedSince, After, Running, Started, Signalled;
    NewSound(listening);
    var t0 := Started(New(listening), cfg.workers, forks);
    var started := StartedSound(New(listening), cfg.workers, forks);
    StartedStale(listening, cfg.workers, forks);
    RunningAt(t0, turns, k);
    AfterStale(t0, turns[..k]);
    SignalledChildren(After(t0, turns[..k]));
  }

  /** One worker, number 5, dies and the fork for its successor fails: its slot still names it, and 5 is signalled. */
  lemma StaleAfterFailedRespawn()
    ensures var t := Buried(Started(New([]), 1, [Some(5)]), 5, false, None);
            t.children == {} && 5 in Signalled(t, 0)
  {
    var t0 := New([]).(count := 1);
    var t1 := Spawned(t0, 0, Some(5));
    assert SpawnedFrom(t1, 1, [Some(5)]) == t1;
    assert Started(New([]), 1, [Some(5)]) == t1;
    assert t1.pids[0] == 5 && SlotOf(ReapedOne(t1, 5), 5, 0) == 0;
    SignalledFrom(Buried(t1, 5, false, None), 0);
  }

  // ----- the listeners -----

  predicate Distinct<T(==)>(s: seq<T>) {
    forall i, j | 0 <= i < j < |s| :: s[i] != s[j]
  }

  /** The ports a rebind leaves: none twice, each asked for and bound, and none missing that could be bound. */
  predicate Rebound(bound: seq<int>, ports: seq<int>, binds: seq<bool>, n: nat)
    requires n <= |ports|
  {
    && Distinct(bound) && |bound| <= n
    && (forall p | p in bound :: exists i | 0 <= i < n :: ports[i] == p && BindOk(binds, i))
    && (forall i | 0 <= i < n && BindOk(binds, i) :: ports[i] in bound)
  }

  lemma ReboundStep(bound: seq<int>, ports: seq<int>, binds: seq<bool>, i: nat)
    requires i < |ports| && Rebound(bound, ports, binds, i)
    ensures Rebound(if ports[i] !in bound && BindOk(binds, i) then bound + [ports[i]] else bound, ports, binds, i + 1)
  {
    hide BindOk;
    var more := if ports[i] !in bound && BindOk(binds, i) then bound + [ports[i]] else bound;
    forall p | p in more ensures exists k | 0 <= k < i + 1 :: ports[k] == p && BindOk(binds, k) {
      if p in bound {
        var k :| 0 <= k < i && ports[k] == p && BindOk(binds, k);
      }
    }
  }

  lemma {:induction false} BoundRebinds(ports: seq<int>, binds: seq<bool>, i: nat, bound: seq<int>)
    requires i <= |ports| && Rebound(bound, ports, binds, i)
    ensures Rebound(Bound(ports, binds, i, bound), ports, binds, |ports|)
    decreases |ports| - i
  {
    hide Rebound, BindOk;
    if i < |ports| {
      ReboundStep(bound, ports, binds, i);
      var more := if ports[i] !in bound && BindOk(binds, i) then bound + [ports[i]] else bound;
      BoundRebinds(ports, binds, i + 1, more);
    }
  }

  /** After a reload the ports are listened on that were asked for and could be bound, each once. */
  lemma ReloadListens(t: Table, input: ReloadInput)
    requires Wf(t) && input.config.Some?
    ensures Rebound(Reloaded(t, input).listening, input.config.value.ports, input.binds, |input.config.value.ports|)
  {
    hide Waited, Rebound, Bound;
    var cfg := input.config.value;
    NothingBound(cfg.ports, input.binds);
    BoundRebinds(cfg.ports, input.binds, 0, []);
    var v := Waited(t, 0).(listening := Bound(cfg.ports, input.binds, 0, []), count := Clamp(cfg.workers));
    SpawnedListens(v, 0, input.forks);
  }

  lemma NothingBound(ports: seq<int>, binds: seq<bool>)
    ensures Rebound([], ports, binds, 0)
  {
  }

  lemma {:induction false} SpawnedListens(t: Table, i: nat, forks: seq<Option<int>>)
    requires Wf(t) && i <= t.count
    ensures SpawnedFrom(t, i, forks).listening == t.listening
    decreases t.count - i
  {
    if i < t.count { SpawnedListens(Spawned(t, i, At(forks, i)), i + 1, forks); }
  }
}

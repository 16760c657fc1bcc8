/**
 The backend pool of src/proxy/upstream.c and the least-connections balancer of
 src/proxy/balancer.c, on values, with the properties of whole runs.  Module
 UpstreamPool has the array the source works on.
 */
module Upstream {
  import opened StringUtil
  import RoundRobin

  const INT_MAX := 0x7FFF_FFFF
  const MAX_ERRORS := 5
  const IDLE_SLOTS := 64

  datatype Mode = Rotating | LeastConnections

  datatype Backend = Backend(active: int, total: int, errors: int, healthy: bool, idle: seq<int>)

  datatype Pool = Pool(mode: Mode, keepalive: int, backs: seq<Backend>, rr: nat)

  predicate Wf(p: Pool) {
    p.backs == [] || p.rr < |p.backs|
  }

  const NEW_BACKEND := Backend(0, 0, 0, true, [])

  /** `upstream_pool_create`. */
  function Created(mode: Mode, keepalive: int, count: nat): (p: Pool)
    ensures Wf(p)
  {
    Pool(mode, keepalive, seq(count, _ => NEW_BACKEND), 0)
  }

  // ----- selection -----

  function Flags(backs: seq<Backend>): (r: seq<bool>)
    ensures |r| == |backs| && forall i | 0 <= i < |r| :: r[i] == backs[i].healthy
  {
    seq(|backs|, i requires 0 <= i < |backs| => backs[i].healthy)
  }

  /** A backend the least-connections balancer may take. */
  predicate Eligible(b: Backend) {
    b.healthy && b.active < INT_MAX
  }

  /** `balancer_least_conn`: the first of the eligible backends with the fewest connections. */
  function Least(backs: seq<Backend>): (r: Option<nat>)
    ensures r.None? ==> forall i | 0 <= i < |backs| :: !Eligible(backs[i])
    ensures r.Some? ==> r.value < |backs| && Eligible(backs[r.value])
    ensures r.Some? ==> forall i | 0 <= i < |backs| && backs[i].healthy :: backs[r.value].active <= backs[i].active
    ensures r.Some? ==> forall i | 0 <= i < r.value && backs[i].healthy :: backs[r.value].active < backs[i].active
  {
    if backs == [] then None
    else
      var n := |backs| - 1;
      var r := Least(backs[..n]);
      assert backs == backs[..n] + [backs[n]];
      if backs[n].healthy && backs[n].active < (if r.None? then INT_MAX else backs[r.value].active) then Some(n) else r
  }

  /** The backend `upstream_select` settles on. */
  function Choice(p: Pool): (r: Option<nat>)
    requires Wf(p)
    ensures r.Some? ==> r.value < |p.backs| && p.backs[r.value].healthy
  {
    if p.backs == [] then None
    else if p.mode == LeastConnections then Least(p.backs)
    else RoundRobin.Pick(Flags(p.backs), p.rr)
  }

  /** `upstream_select`. */
  function Selected(p: Pool): (r: Pool)
    requires Wf(p)
    ensures Wf(r) && |r.backs| == |p.backs|
  {
    var c := Choice(p);
    if c.None? then p
    else
      var b := p.backs[c.value];
      p.(backs := p.backs[c.value := b.(active := b.active + 1)],
         rr := if p.mode == LeastConnections then p.rr else RoundRobin.NextIndex(Flags(p.backs), p.rr))
  }

  // ----- release and connections -----

  function ReleasedBackend(b: Backend, error: bool): Backend {
    var b1 := if b.active > 0 then b.(active := b.active - 1) else b;
    if error then
      var b2 := b1.(errors := b1.errors + 1);
      if b2.errors > MAX_ERRORS then b2.(healthy := false) else b2
    else
      var b2 := b1.(total := b1.total + 1);
      if !b2.healthy && b2.errors == 0 then b2.(healthy := true) else b2
  }

  /** `upstream_release`; without a backend nothing happens. */
  function Released(p: Pool, be: Option<nat>, error: bool): (r: Pool)
    requires be.Some? ==> be.value < |p.backs|
    ensures |r.backs| == |p.backs| && r.rr == p.rr
  {
    if be.None? then p else p.(backs := p.backs[be.value := ReleasedBackend(p.backs[be.value], error)])
  }

  /** `upstream_get_connection`: an idle descriptor if there is one, else what connecting gave. */
  function Got(p: Pool, i: nat, connect: Option<int>): (r: (Option<int>, Pool))
    requires i < |p.backs|
    ensures |r.1.backs| == |p.backs| && r.1.rr == p.rr
  {
    var b := p.backs[i];
    if b.idle == [] then (connect, p)
    else
      var n := |b.idle| - 1;
      (Some(b.idle[n]), p.(backs := p.backs[i := b.(idle := b.idle[..n])]))
  }

  /** `upstream_put_connection`: keep the descriptor, or say that it was closed. */
  function Put(p: Pool, be: Option<nat>, fd: int): (r: (bool, Pool))
    requires be.Some? ==> be.value < |p.backs|
    ensures |r.1.backs| == |p.backs| && r.1.rr == p.rr
  {
    if be.None? then (true, p)
    else
      var b := p.backs[be.value];
      if |b.idle| < p.keepalive && |b.idle| < IDLE_SLOTS
      then (false, p.(backs := p.backs[be.value := b.(idle := b.idle + [fd])]))
      else (true, p)
  }

  // ----- runs -----

  datatype Op =
    | Select
    | Release(be: Option<nat>, error: bool)
    | GetConn(i: nat, connect: Option<int>)
    | PutConn(be: Option<nat>, fd: int)
    | CloseOut(fd: int)

  predicate OpOk(n: nat, op: Op) {
    match op
    case Select => true
    case Release(be, _) => be.Some? ==> be.value < n
    case GetConn(i, _) => i < n
    case PutConn(be, _) => be.Some? ==> be.value < n
    case CloseOut(_) => true
  }

  function Apply(p: Pool, op: Op): (r: Pool)
    requires Wf(p) && OpOk(|p.backs|, op)
    ensures Wf(r) && |r.backs| == |p.backs|
  {
    match op
    case Select => Selected(p)
    case Release(be, error) => Released(p, be, error)
    case GetConn(i, connect) => Got(p, i, connect).1
    case PutConn(be, fd) => Put(p, be, fd).1
    case CloseOut(_) => p
  }

  predicate RunOk(n: nat, ops: seq<Op>) {
    forall k | 0 <= k < |ops| :: OpOk(n, ops[k])
  }

  function After(p: Pool, ops: seq<Op>): (r: Pool)
    requires Wf(p) && RunOk(|p.backs|, ops)
    ensures Wf(r) && |r.backs| == |p.backs|
  {
    if ops == [] then p else Apply(After(p, ops[..|ops| - 1]), ops[|ops| - 1])
  }

  // ----- health -----

  /** Errors reported against backend `i` in a run. */
  function Reports(ops: seq<Op>, i: nat): nat {
    if ops == [] then 0
    else Reports(ops[..|ops| - 1], i) + if ops[|ops| - 1] == Release(Some(i), true) then 1 else 0
  }

  predicate Sound(b: Backend) {
    b.errors >= 0 && (b.healthy <==> b.errors <= MAX_ERRORS)
  }

  lemma ApplyHealth(p: Pool, op: Op, i: nat)
    requires Wf(p) && OpOk(|p.backs|, op) && i < |p.backs| && Sound(p.backs[i])
    ensures var b, c := p.backs[i], Apply(p, op).backs[i];
            Sound(c) && c.errors == b.errors + if op == Release(Some(i), true) then 1 else 0
  {
    hide Choice;
  }

  /** The error count is the number of errors ever reported, and it alone decides about health. */
  lemma {:induction false} HealthIsErrorCount(mode: Mode, keepalive: int, count: nat, ops: seq<Op>, i: nat)
    requires i < count && RunOk(count, ops)
    ensures var b := After(Created(mode, keepalive, count), ops).backs[i];
            b.errors == Reports(ops, i) && (b.healthy <==> Reports(ops, i) <= MAX_ERRORS)
  {
    hide Apply;
    if ops != [] {
      var before := ops[..|ops| - 1];
      HealthIsErrorCount(mode, keepalive, count, before, i);
      ApplyHealth(After(Created(mode, keepalive, count), before), ops[|ops| - 1], i);
    }
  }

  /** In no run is a backend selected after its sixth reported error, whatever succeeded in between. */
  lemma SelectedNeverSick(mode: Mode, keepalive: int, count: nat, ops: seq<Op>, i: nat)
    requires RunOk(count, ops)
    requires Choice(After(Created(mode, keepalive, count), ops)) == Some(i)
    ensures i < count && Reports(ops, i) <= MAX_ERRORS
  {
    hide After, Choice;
    HealthIsErrorCount(mode, keepalive, count, ops, i);
  }

  /** Six errors put a backend out, and a success does not bring it back. */
  lemma NoRecovery(mode: Mode, keepalive: int)
    ensures var e, ok := Release(Some(0), true), Release(Some(0), false);
            !After(Created(mode, keepalive, 1), [e, e, e, e, e, e, ok]).backs[0].healthy
  {
    var e, ok := Release(Some(0), true), Release(Some(0), false);
    var ops := [e, e, e, e, e, e, ok];
    HealthIsErrorCount(mode, keepalive, 1, ops, 0);
    assert ops[..6] == [e, e, e, e, e, e];
    SixReports();
  }

  lemma SixReports()
    ensures var e := Release(Some(0), true); Reports([e, e, e, e, e, e], 0) == 6
  {
    var e := Release(Some(0), true);
    assert [e, e, e][..2] == [e, e] && [e, e][..1] == [e] && [e][..0] == [];
    assert Reports([e], 0) == 1;
    assert Reports([e, e, e], 0) == 3;
    assert [e, e, e, e, e, e][..5] == [e, e, e, e, e] && [e, e, e, e, e][..4] == [e, e, e, e];
    assert [e, e, e, e][..3] == [e, e, e];
    assert Reports([e, e, e, e, e], 0) == 5;
  }

  // ----- rotation over runs -----

  /** What the selections of a run returned. */
  function Choices(p: Pool, ops: seq<Op>): seq<Option<nat>>
    requires Wf(p) && RunOk(|p.backs|, ops)
    decreases |ops|
  {
    if ops == [] then []
    else
      (if ops[0].Select? then [Choice(p)] else []) + Choices(Apply(p, ops[0]), ops[1..])
  }

  /** The same backends are healthy all along. */
  predicate Steady(p: Pool, ops: seq<Op>)
    requires Wf(p) && RunOk(|p.backs|, ops)
    decreases |ops|
  {
    ops == [] || (Flags(Apply(p, ops[0]).backs) == Flags(p.backs) && Steady(Apply(p, ops[0]), ops[1..]))
  }

  /** Releases and connection traffic in between do not disturb the rotation. */
  lemma {:induction false} ChoicesRotate(p: Pool, ops: seq<Op>)
    requires p.backs != [] && Wf(p) && p.mode == Rotating && RunOk(|p.backs|, ops) && Steady(p, ops)
    ensures var cs := Choices(p, ops); cs == RoundRobin.Picks(Flags(p.backs), p.rr, |cs|)
    decreases |ops|
  {
    hide RoundRobin.Pick, RoundRobin.NextIndex, Flags;
    if ops != [] {
      var p1 := Apply(p, ops[0]);
      ChoicesRotate(p1, ops[1..]);
      if ops[0].Select? { RotateStep(p); }
    }
  }

  lemma RotateStep(p: Pool)
    requires p.backs != [] && Wf(p) && p.mode == Rotating
    ensures Choice(p) == RoundRobin.Pick(Flags(p.backs), p.rr)
    ensures Selected(p).rr == RoundRobin.NextIndex(Flags(p.backs), p.rr)
  {
  }

  /** In a steady run two healthy backends are chosen equally often, give or take one. */
  lemma RotationFair(p: Pool, ops: seq<Op>, x: nat, y: nat)
    requires Wf(p) && p.mode == Rotating && RunOk(|p.backs|, ops) && Steady(p, ops)
    requires x < |p.backs| && y < |p.backs| && p.backs[x].healthy && p.backs[y].healthy
    ensures RoundRobin.Count(Choices(p, ops), x) <= RoundRobin.Count(Choices(p, ops), y) + 1
  {
    hide Choices, Steady, RoundRobin.Count, RoundRobin.Picks;
    ChoicesRotate(p, ops);
    RoundRobin.WindowFair(Flags(p.backs), p.rr, |Choices(p, ops)|, x, y);
  }

  // ----- balance -----

  /** `proxy_handle` as far as the pool is concerned: select, connect, give back on failure. */
  function Handled(p: Pool, connect: Option<int>): (r: Pool)
    requires Wf(p)
    ensures Wf(r) && |r.backs| == |p.backs|
  {
    var c := Choice(p);
    if c.None? then p
    else
      var (fd, q) := Got(Selected(p), c.value, connect);
      if fd.None? then Released(q, c, true) else q
  }

  /** Any two healthy backends carry the same number of connections, give or take one. */
  predicate Balanced(p: Pool) {
    forall i, j | 0 <= i < |p.backs| && 0 <= j < |p.backs| && p.backs[i].healthy && p.backs[j].healthy ::
      p.backs[i].active <= p.backs[j].active + 1
  }

  predicate Counted(p: Pool) {
    forall i | 0 <= i < |p.backs| :: 0 <= p.backs[i].active <= INT_MAX && Sound(p.backs[i])
  }

  lemma HandledBalanced(p: Pool, connect: Option<int>)
    requires Wf(p) && p.mode == LeastConnections && Counted(p) && Balanced(p)
    ensures var q := Handled(p, connect); q.mode == p.mode && Counted(q) && Balanced(q)
  {
    hide Least;
  }

  /** A step between requests: a request, or a descriptor coming back. */
  datatype Traffic = Request(connect: Option<int>) | Return(be: Option<nat>, fd: int)

  function Served(p: Pool, ts: seq<Traffic>): (r: Pool)
    requires Wf(p)
    ensures Wf(r) && |r.backs| == |p.backs|
  {
    if ts == [] then p
    else
      var q := Served(p, ts[..|ts| - 1]);
      match ts[|ts| - 1]
      case Request(connect) => Handled(q, connect)
      case Return(be, fd) => if be.Some? && be.value >= |q.backs| then q else Put(q, be, fd).1
  }

  /** In every state between requests of a least-connections pool the healthy backends are balanced. */
  lemma {:induction false} LeastConnBalanced(keepalive: int, count: nat, ts: seq<Traffic>)
    ensures var q := Served(Created(LeastConnections, keepalive, count), ts);
            q.mode == LeastConnections && Counted(q) && Balanced(q)
  {
    hide Handled, Put;
    if ts != [] {
      LeastConnBalanced(keepalive, count, ts[..|ts| - 1]);
      var q := Served(Created(LeastConnections, keepalive, count), ts[..|ts| - 1]);
      match ts[|ts| - 1]
      case Request(connect) => HandledBalanced(q, connect);
      case Return(be, fd) => if be.None? || be.value < |q.backs| { PutKeepsCounts(q, be, fd); }
    }
  }

  lemma PutKeepsCounts(p: Pool, be: Option<nat>, fd: int)
    requires be.Some? ==> be.value < |p.backs|
    ensures var q := Put(p, be, fd).1;
            && q.mode == p.mode
            && forall i | 0 <= i < |p.backs| ::
                 q.backs[i].active == p.backs[i].active && q.backs[i].healthy == p.backs[i].healthy
                 && q.backs[i].errors == p.backs[i].errors
  {
  }

  // ----- what the counters count -----

  /** Selections of backend `i` in a run, less its releases, never below zero at a release. */
  function Held(p: Pool, ops: seq<Op>, i: nat): int
    requires Wf(p) && RunOk(|p.backs|, ops)
  {
    if ops == [] then 0
    else
      var before, op := ops[..|ops| - 1], ops[|ops| - 1];
      var n := Held(p, before, i);
      if op.Select? && Choice(After(p, before)) == Some(i) then n + 1
      else if op.Release? && op.be == Some(i) && n > 0 then n - 1
      else n
  }

  /** Successes reported for backend `i`. */
  function Successes(ops: seq<Op>, i: nat): nat {
    if ops == [] then 0
    else Successes(ops[..|ops| - 1], i) + if ops[|ops| - 1] == Release(Some(i), false) then 1 else 0
  }

  lemma ApplyCounts(p: Pool, op: Op, i: nat)
    requires Wf(p) && OpOk(|p.backs|, op) && i < |p.backs|
    ensures var b, c := p.backs[i], Apply(p, op).backs[i];
            && c.active == (if op.Select? && Choice(p) == Some(i) then b.active + 1
                            else if op.Release? && op.be == Some(i) && b.active > 0 then b.active - 1
                            else b.active)
            && c.total == b.total + if op == Release(Some(i), false) then 1 else 0
  {
    hide Choice;
  }

  /** Over any run of a new pool the two counters of a backend count just that. */
  lemma {:induction false} CountersCount(mode: Mode, keepalive: int, count: nat, ops: seq<Op>, i: nat)
    requires i < count && RunOk(count, ops)
    ensures var p := Created(mode, keepalive, count);
            After(p, ops).backs[i].active == Held(p, ops, i) && After(p, ops).backs[i].total == Successes(ops, i)
  {
    hide Apply, Choice;
    if ops != [] {
      var before := ops[..|ops| - 1];
      CountersCount(mode, keepalive, count, before, i);
      ApplyCounts(After(Created(mode, keepalive, count), before), ops[|ops| - 1], i);
    }
  }

  /** The request goes to backend `i` and gets a descriptor there, an idle one or a new one. */
  predicate ServedBy(p: Pool, connect: Option<int>, i: nat)
    requires Wf(p)
  {
    Choice(p) == Some(i) && i < |p.backs| && (p.backs[i].idle != [] || connect.Some?)
  }

  /** How many requests of a run backend `i` has served. */
  function Serves(p: Pool, ts: seq<Traffic>, i: nat): nat
    requires Wf(p)
  {
    if ts == [] then 0
    else
      var before, t := ts[..|ts| - 1], ts[|ts| - 1];
      Serves(p, before, i) + if t.Request? && ServedBy(Served(p, before), t.connect, i) then 1 else 0
  }

  lemma HandledCounts(p: Pool, connect: Option<int>, i: nat)
    requires Wf(p) && i < |p.backs| && p.backs[i].active >= 0
    ensures Handled(p, connect).backs[i].active == p.backs[i].active + if ServedBy(p, connect, i) then 1 else 0
  {
    hide Choice;
  }

  /**
   Between requests the connection count of a backend is the number of requests it ever gave
   a descriptor to; a descriptor that comes back, or is closed, does not lower it.
   */
  lemma {:induction false} ActiveCountsServed(mode: Mode, keepalive: int, count: nat, ts: seq<Traffic>, i: nat)
    requires i < count
    ensures var p := Created(mode, keepalive, count); Served(p, ts).backs[i].active == Serves(p, ts, i)
  {
    hide Handled, Put, ServedBy;
    if ts != [] {
      var before := ts[..|ts| - 1];
      ActiveCountsServed(mode, keepalive, count, before, i);
      var q := Served(Created(mode, keepalive, count), before);
      match ts[|ts| - 1]
      case Request(connect) => HandledCounts(q, connect, i);
      case Return(be, fd) => if be.None? || be.value < |q.backs| { PutKeepsCounts(q, be, fd); }
    }
  }

  /** A failed connect leaves no trace in the counts, so the next choice is the same backend. */
  lemma FailedConnectUncounted(keepalive: int)
    ensures var p := Handled(Created(LeastConnections, keepalive, 2), None);
            p.backs[0].active == 0 && p.backs[1].active == 0 && p.backs[0].healthy
  {
    var p := Created(LeastConnections, keepalive, 2);
    HandledCounts(p, None, 0);
    HandledCounts(p, None, 1);
    assert Handled(p, None).backs[0].healthy by { HandledHealthy(p); }
  }

  lemma HandledHealthy(p: Pool)
    requires Wf(p) && forall i | 0 <= i < |p.backs| :: p.backs[i].healthy && p.backs[i].errors == 0
    ensures forall i | 0 <= i < |p.backs| :: Handled(p, None).backs[i].healthy
  {
    hide Choice;
  }

  predicate IsReturn(t: Traffic, i: nat) {
    t.Return? && t.be == Some(i)
  }

  /** Descriptors that came back for backend `i`. */
  function Returns(ts: seq<Traffic>, i: nat): nat {
    if ts == [] then 0 else Returns(ts[..|ts| - 1], i) + if IsReturn(ts[|ts| - 1], i) then 1 else 0
  }

  lemma {:induction false} NoReturns(ts: seq<Traffic>, i: nat)
    ensures Returns(ts, i) == 0 <==> forall k | 0 <= k < |ts| :: !IsReturn(ts[k], i)
  {
    if ts != [] { NoReturns(ts[..|ts| - 1], i); }
  }

  /** So it is the number of descriptors in use if and only if none has come back yet. */
  lemma InUseIff(mode: Mode, keepalive: int, count: nat, ts: seq<Traffic>, i: nat)
    requires i < count
    ensures var p := Created(mode, keepalive, count);
            Served(p, ts).backs[i].active == Serves(p, ts, i) - Returns(ts, i)
            <==> forall k | 0 <= k < |ts| :: !IsReturn(ts[k], i)
  {
    hide Returns, Served, Serves;
    ActiveCountsServed(mode, keepalive, count, ts, i);
    NoReturns(ts, i);
  }

  /** One request, its descriptor put back: the backend still counts one connection. */
  lemma ReturnedStillCounted(mode: Mode)
    ensures Served(Created(mode, 8, 1), [Traffic.Request(Some(3)), Traffic.Return(Some(0), 3)]).backs[0].active == 1
  {
    var p, ts := Created(mode, 8, 1), [Traffic.Request(Some(3)), Traffic.Return(Some(0), 3)];
    ActiveCountsServed(mode, 8, 1, ts, 0);
    assert ts[..1] == [Traffic.Request(Some(3))] && ts[..1][..0] == [];
    assert Served(p, []) == p;
    OneBackend(p);
    assert Serves(p, [], 0) == 0;
    assert Serves(p, ts[..1], 0) == 1;
  }

  lemma OneBackend(p: Pool)
    requires |p.backs| == 1 && p.rr == 0 && Eligible(p.backs[0])
    ensures Choice(p) == Some(0)
  {
    hide Least;
    RoundRobin.PickNone(Flags(p.backs), p.rr);
  }

  // ----- who owns a descriptor -----

  /** The pool, the descriptors handed to connections, and the descriptors the kernel holds open. */
  datatype World = World(pool: Pool, out: set<int>, open: set<int>)

  function Limit(keepalive: int): nat {
    if keepalive < 0 then 0 else if keepalive < IDLE_SLOTS then keepalive else IDLE_SLOTS
  }

  predicate Stack(s: seq<int>) {
    forall a, b | 0 <= a < b < |s| :: s[a] != s[b]
  }

  predicate IdleOk(w: World, i: nat)
    requires i < |w.pool.backs|
  {
    var s := w.pool.backs[i].idle;
    |s| <= Limit(w.pool.keepalive) && Stack(s) && forall fd | fd in s :: fd in w.open && fd !in w.out
  }

  /** Every open descriptor is checked out or in exactly one idle stack, and no stack is too long. */
  predicate Owned(w: World) {
    && w.out <= w.open
    && (forall i | 0 <= i < |w.pool.backs| :: IdleOk(w, i))
    && (forall i, j | 0 <= i < j < |w.pool.backs| ::
          forall fd | fd in w.pool.backs[i].idle :: fd !in w.pool.backs[j].idle)
    && (forall fd | fd in w.open :: fd in w.out || exists i | 0 <= i < |w.pool.backs| :: fd in w.pool.backs[i].idle)
  }

  /** Connecting gives descriptors that were not open; only checked-out descriptors are put back or closed. */
  predicate Honest(w: World, op: Op) {
    && OpOk(|w.pool.backs|, op)
    && (op.GetConn? && op.connect.Some? ==> op.connect.value !in w.open)
    && (op.PutConn? || op.CloseOut? ==> op.fd in w.out)
  }

  function Run1(w: World, op: Op): (r: World)
    requires Wf(w.pool) && Honest(w, op)
    ensures Wf(r.pool) && |r.pool.backs| == |w.pool.backs|
  {
    var q := Apply(w.pool, op);
    match op
    case GetConn(i, connect) =>
      var fd := Got(w.pool, i, connect).0;
      if fd.None? then w.(pool := q) else World(q, w.out + {fd.value}, w.open + {fd.value})
    case PutConn(be, fd) =>
      var closed := Put(w.pool, be, fd).0;
      World(q, w.out - {fd}, if closed then w.open - {fd} else w.open)
    case CloseOut(fd) => World(q, w.out - {fd}, w.open - {fd})
    case _ => w.(pool := q)
  }

  lemma SelectIdle(p: Pool, op: Op)
    requires Wf(p) && OpOk(|p.backs|, op) && (op.Select? || op.Release?)
    ensures var q := Apply(p, op);
            q.keepalive == p.keepalive && forall i | 0 <= i < |p.backs| :: q.backs[i].idle == p.backs[i].idle
  {
    hide Choice;
  }

  lemma QuietOwned(w: World, op: Op)
    requires Wf(w.pool) && Honest(w, op) && Owned(w) && (op.Select? || op.Release?)
    ensures Owned(Run1(w, op))
  {
    hide Apply;
    SelectIdle(w.pool, op);
    var v := Run1(w, op);
    forall i | 0 <= i < |v.pool.backs| ensures IdleOk(v, i) { assert IdleOk(w, i); }
  }

  lemma GetOwned(w: World, i: nat, connect: Option<int>)
    requires Wf(w.pool) && Honest(w, GetConn(i, connect)) && Owned(w)
    ensures Owned(Run1(w, GetConn(i, connect)))
  {
    var v := Run1(w, GetConn(i, connect));
    var s := w.pool.backs[i].idle;
    assert IdleOk(w, i);
    forall j | 0 <= j < |v.pool.backs| ensures IdleOk(v, j) { assert IdleOk(w, j); }
    if s != [] {
      forall fd | fd in v.open ensures fd in v.out || exists j | 0 <= j < |v.pool.backs| :: fd in v.pool.backs[j].idle {
        if fd !in v.out {
          var j :| 0 <= j < |w.pool.backs| && fd in w.pool.backs[j].idle;
          assert s == s[..|s| - 1] + [s[|s| - 1]];
          assert fd in v.pool.backs[j].idle;
        }
      }
    }
  }

  lemma PutOwned(w: World, be: Option<nat>, fd: int)
    requires Wf(w.pool) && Honest(w, PutConn(be, fd)) && Owned(w)
    ensures Owned(Run1(w, PutConn(be, fd)))
  {
    var v := Run1(w, PutConn(be, fd));
    forall j | 0 <= j < |v.pool.backs| ensures IdleOk(v, j) { assert IdleOk(w, j); }
    forall i, j | 0 <= i < j < |v.pool.backs|
      ensures forall x | x in v.pool.backs[i].idle :: x !in v.pool.backs[j].idle
    {
      assert IdleOk(w, i) && IdleOk(w, j);
      assert forall x | x in w.pool.backs[i].idle :: x !in w.pool.backs[j].idle;
    }
    forall x | x in v.open ensures x in v.out || exists j | 0 <= j < |v.pool.backs| :: x in v.pool.backs[j].idle {
      if x == fd {
        assert fd in v.pool.backs[be.value].idle;
      } else if x !in v.out {
        var j :| 0 <= j < |w.pool.backs| && x in w.pool.backs[j].idle;
        assert x in v.pool.backs[j].idle;
      }
    }
  }

  /** A connection that ends closes the descriptor it holds. */
  lemma CloseOwned(w: World, fd: int)
    requires Wf(w.pool) && Honest(w, CloseOut(fd)) && Owned(w)
    ensures Owned(Run1(w, CloseOut(fd)))
  {
    var v := Run1(w, CloseOut(fd));
    forall j | 0 <= j < |v.pool.backs| ensures IdleOk(v, j) { assert IdleOk(w, j); }
  }

  predicate HonestRun(w: World, ops: seq<Op>)
    requires Wf(w.pool)
    decreases |ops|
  {
    ops == [] || (Honest(w, ops[0]) && HonestRun(Run1(w, ops[0]), ops[1..]))
  }

  function RunAll(w: World, ops: seq<Op>): (r: World)
    requires Wf(w.pool) && HonestRun(w, ops)
    decreases |ops|
  {
    if ops == [] then w else RunAll(Run1(w, ops[0]), ops[1..])
  }

  /** Over every run no descriptor is shared, lost or kept beyond the limit. */
  lemma {:induction false} DescriptorsOwned(w: World, ops: seq<Op>)
    requires Wf(w.pool) && Owned(w) && HonestRun(w, ops)
    ensures Owned(RunAll(w, ops))
    decreases |ops|
  {
    hide Owned, Run1;
    if ops != [] {
      match ops[0] {
        case GetConn(i, connect) => GetOwned(w, i, connect);
        case PutConn(be, fd) => PutOwned(w, be, fd);
        case CloseOut(fd) => CloseOwned(w, fd);
        case _ => QuietOwned(w, ops[0]);
      }
      DescriptorsOwned(Run1(w, ops[0]), ops[1..]);
    }
  }

  lemma NewPoolOwned(mode: Mode, keepalive: int, count: nat)
    ensures Owned(World(Created(mode, keepalive, count), {}, {}))
  {
  }

  /** A descriptor that is kept is the next one its backend gives out, and the pool is then as before. */
  lemma LastPutFirstGot(p: Pool, i: nat, fd: int, connect: Option<int>)
    requires i < |p.backs| && !Put(p, Some(i), fd).0
    ensures Got(Put(p, Some(i), fd).1, i, connect) == (Some(fd), p)
  {
    var b := p.backs[i];
    assert (b.idle + [fd])[..|b.idle|] == b.idle;
    assert p.backs[i := b.(idle := b.idle + [fd])][i := b] == p.backs;
  }

  /** The idle descriptors of a backend are ones that were put back for that backend. */
  lemma {:induction false} IdleWerePut(mode: Mode, keepalive: int, count: nat, ops: seq<Op>, i: nat)
    requires i < count && RunOk(count, ops)
    ensures forall fd | fd in After(Created(mode, keepalive, count), ops).backs[i].idle :: PutConn(Some(i), fd) in ops
  {
    hide Choice;
    if ops != [] {
      IdleWerePut(mode, keepalive, count, ops[..|ops| - 1], i);
    }
  }

  function Puts(i: nat, fds: seq<int>): seq<Op> {
    if fds == [] then [] else Puts(i, fds[..|fds| - 1]) + [PutConn(Some(i), fds[|fds| - 1])]
  }

  function FirstOf(s: seq<int>, n: nat): seq<int> {
    if |s| <= n then s else s[..n]
  }

  /** Of descriptors put back for one backend the first are kept, as many as keepalive says but never more than 64. */
  lemma {:induction false} PutsKept(mode: Mode, keepalive: int, count: nat, i: nat, fds: seq<int>)
    requires i < count
    ensures RunOk(count, Puts(i, fds))
    ensures var p := After(Created(mode, keepalive, count), Puts(i, fds));
            && p.keepalive == keepalive
            && p.backs[i].idle == FirstOf(fds, if keepalive < 0 then 0 else if keepalive < 64 then keepalive else 64)
    decreases |fds|
  {
    hide FirstOf, Put, After, RunOk;
    var p := Created(mode, keepalive, count);
    if fds == [] {
      NothingPut(p, i);
    } else {
      var before, fd := fds[..|fds| - 1], fds[|fds| - 1];
      PutsKept(mode, keepalive, count, i, before);
      AfterLast(p, Puts(i, before), PutConn(Some(i), fd));
      PutIdle(After(p, Puts(i, before)), i, before, fd);
      assert before + [fd] == fds;
    }
  }

  lemma NothingPut(p: Pool, i: nat)
    requires Wf(p) && i < |p.backs| && p.backs[i].idle == []
    ensures RunOk(|p.backs|, Puts(i, [])) && After(p, Puts(i, [])) == p && FirstOf([], Limit(p.keepalive)) == []
  {
  }

  lemma AfterLast(p: Pool, ops: seq<Op>, op: Op)
    requires Wf(p) && RunOk(|p.backs|, ops) && OpOk(|p.backs|, op)
    ensures RunOk(|p.backs|, ops + [op]) && After(p, ops + [op]) == Apply(After(p, ops), op)
  {
    assert (ops + [op])[..|ops|] == ops;
  }

  lemma PutIdle(p: Pool, i: nat, fds: seq<int>, fd: int)
    requires i < |p.backs| && p.backs[i].idle == FirstOf(fds, Limit(p.keepalive))
    ensures var q := Put(p, Some(i), fd).1;
            q.keepalive == p.keepalive && q.backs[i].idle == FirstOf(fds + [fd], Limit(p.keepalive))
  {
    var n := Limit(p.keepalive);
    if n <= |fds| { assert (fds + [fd])[..n] == fds[..n]; }
  }

  /** So what a backend gives out was put back for it, or is what connecting to it gave. */
  lemma GivenOutFor(mode: Mode, keepalive: int, count: nat, ops: seq<Op>, i: nat, connect: Option<int>)
    requires i < count && RunOk(count, ops)
    ensures var fd := Got(After(Created(mode, keepalive, count), ops), i, connect).0;
            fd == connect || (fd.Some? && PutConn(Some(i), fd.value) in ops)
  {
    hide After;
    IdleWerePut(mode, keepalive, count, ops, i);
  }

  /** In particular over every run of a new pool. */
  lemma PoolRunOwned(mode: Mode, keepalive: int, count: nat, ops: seq<Op>)
    requires HonestRun(World(Created(mode, keepalive, count), {}, {}), ops)
    ensures Owned(RunAll(World(Created(mode, keepalive, count), {}, {}), ops))
  {
    hide Owned, HonestRun, RunAll;
    NewPoolOwned(mode, keepalive, count);
    DescriptorsOwned(World(Created(mode, keepalive, count), {}, {}), ops);
  }
}

/**
 When a timer of the hashed wheel of src/net/timeout.c fires.  A wheel is here the list
 of its buckets and the position of the hand; module TimeoutHeap ties the linked
 structure to it.
 */
module TimingWheel {
  import opened Arithmetic
  import opened StringUtil

  class Entry {
    const deadline: int
    var next: Entry?
    var prev: Entry?
    var bucket: nat
    var active: bool

    constructor (deadline: int, bucket: nat, next: Entry?)
      ensures this.deadline == deadline && this.bucket == bucket && this.next == next
      ensures prev == null && active
    {
      this.deadline, this.bucket, this.next := deadline, bucket, next;
      prev, active := null, true;
    }
  }

  datatype State = State(current: nat, lists: seq<seq<Entry>>)

  predicate Wf(w: State) {
    w.current < |w.lists|
  }

  // ----- the operations on bucket lists -----

  function Slot(current: nat, ticks: nat, n: nat): (r: nat)
    requires n > 0
    ensures r < n
  {
    (current + ticks) % n
  }

  /** One step of the hand. */
  function Next(c: nat, n: nat): (r: nat)
    requires c < n
    ensures r < n
  {
    if c + 1 == n then 0 else c + 1
  }

  lemma NextIsSlot(c: nat, n: nat)
    requires c < n
    ensures Slot(c, 1, n) == Next(c, n)
  {
    if c + 1 == n { ModUnique(c + 1, n, 1, 0); } else { ModUnique(c + 1, n, 0, c + 1); }
  }

  /** `timeout_add`: in front of the bucket `seconds / resolution` steps ahead of the hand. */
  function Added(w: State, resolution: nat, seconds: nat, e: Entry): (r: State)
    requires Wf(w) && resolution > 0
    ensures Wf(r) && |r.lists| == |w.lists|
  {
    var slot := Slot(w.current, seconds / resolution, |w.lists|);
    w.(lists := w.lists[slot := [e] + w.lists[slot]])
  }

  function Without(l: seq<Entry>, e: Entry): (r: seq<Entry>)
    ensures forall x | x in r :: x in l && x != e
    ensures forall x | x in l :: x == e || x in r
  {
    if l == [] then [] else if l[0] == e then Without(l[1..], e) else [l[0]] + Without(l[1..], e)
  }

  /** `timeout_remove`. */
  function Removed(w: State, e: Entry): (r: State)
    requires Wf(w)
    ensures Wf(r) && |r.lists| == |w.lists|
  {
    w.(lists := seq(|w.lists|, i requires 0 <= i < |w.lists| => Without(w.lists[i], e)))
  }

  function Due(l: seq<Entry>, now: int): (r: seq<Entry>)
    ensures forall x | x in r :: x in l && x.deadline <= now
    ensures forall x | x in l :: x.deadline > now || x in r
  {
    if l == [] then []
    else if l[0].deadline <= now then [l[0]] + Due(l[1..], now)
    else Due(l[1..], now)
  }

  function Late(l: seq<Entry>, now: int): (r: seq<Entry>)
    ensures forall x | x in r :: x in l && x.deadline > now
    ensures forall x | x in l :: x.deadline <= now || x in r
  {
    if l == [] then []
    else if l[0].deadline <= now then Late(l[1..], now)
    else [l[0]] + Late(l[1..], now)
  }

  /** Entries pushed one by one on the front of a list. */
  function Pushed(l: seq<Entry>, onto: seq<Entry>): (r: seq<Entry>)
    ensures forall x | x in r :: x in l || x in onto
    ensures forall x | x in l + onto :: x in r
  {
    if l == [] then onto else Pushed(l[1..], [l[0]] + onto)
  }

  /** The bucket a tick visits. */
  function Visited(w: State): nat
    requires Wf(w)
  {
    Next(w.current, |w.lists|)
  }

  /** `timeout_tick`: fire what is due in the next bucket, carry the rest one bucket on. */
  function Ticked(w: State, now: int): (r: State)
    requires Wf(w)
    ensures Wf(r) && |r.lists| == |w.lists|
  {
    var c := Visited(w);
    var s := Next(c, |w.lists|);
    var emptied := w.lists[c := []];
    State(c, emptied[s := Pushed(Late(w.lists[c], now), emptied[s])])
  }

  function Fired(w: State, now: int): seq<Entry>
    requires Wf(w)
  {
    Due(w.lists[Visited(w)], now)
  }

  // ----- where an entry is -----

  /** `e` is linked in bucket `b` and in no other. */
  predicate In(w: State, e: Entry, b: nat) {
    b < |w.lists| && e in w.lists[b] && forall c | 0 <= c < |w.lists| && c != b :: e !in w.lists[c]
  }

  predicate Absent(w: State, e: Entry) {
    forall c | 0 <= c < |w.lists| :: e !in w.lists[c]
  }

  /** The number of ticks after which the hand is on bucket `b`: at least one, at most a full turn. */
  function Distance(w: State, b: nat): (r: nat)
    requires Wf(w) && b < |w.lists|
    ensures 1 <= r <= |w.lists|
  {
    if b > w.current then b - w.current else b + |w.lists| - w.current
  }

  /** The hand comes to `b` after exactly that many steps. */
  lemma {:induction false} DistanceReaches(w: State, b: nat)
    requires Wf(w) && b < |w.lists|
    ensures if Distance(w, b) == 1 then Visited(w) == b
            else Visited(w) != b && Distance(w.(current := Visited(w)), b) == Distance(w, b) - 1
  {
  }

  lemma TickFires(w: State, now: int, e: Entry)
    requires Wf(w) && In(w, e, Visited(w)) && e.deadline <= now
    ensures e in Fired(w, now) && Absent(Ticked(w, now), e)
  {
    hide Due, Late, Pushed, Next;
  }

  lemma TickCarries(w: State, now: int, e: Entry)
    requires Wf(w) && In(w, e, Visited(w)) && e.deadline > now
    ensures var s := Next(Visited(w), |w.lists|);
            e !in Fired(w, now) && In(Ticked(w, now), e, s) && Distance(Ticked(w, now), s) == 1
  {
    hide Due, Late, Pushed;
    var late, c := Late(w.lists[Visited(w)], now), Visited(w);
    var s := Next(c, |w.lists|);
    assert e in late + w.lists[c := []][s];
  }

  lemma TickPasses(w: State, now: int, e: Entry, b: nat)
    requires Wf(w) && In(w, e, b) && b != Visited(w)
    ensures e !in Fired(w, now) && In(Ticked(w, now), e, b)
    ensures Distance(w, b) > 1 && Distance(Ticked(w, now), b) == Distance(w, b) - 1
  {
    hide Due, Late, Pushed;
    var late, c := Late(w.lists[Visited(w)], now), Visited(w);
    var s := Next(c, |w.lists|);
    assert b == s ==> e in late + w.lists[c := []][s];
  }

  lemma OthersStay(w: State, resolution: nat, seconds: nat, x: Entry, e: Entry, b: nat)
    requires Wf(w) && resolution > 0 && x != e && In(w, e, b)
    ensures In(Added(w, resolution, seconds, x), e, b) && In(Removed(w, x), e, b)
    ensures Distance(Added(w, resolution, seconds, x), b) == Distance(Removed(w, x), b) == Distance(w, b)
  {
    hide Without;
  }

  // ----- runs -----

  datatype Op = Add(e: Entry, seconds: nat) | Remove(e: Entry) | Tick(now: int)

  function Apply(w: State, resolution: nat, op: Op): (r: State)
    requires Wf(w) && resolution > 0
    ensures Wf(r) && |r.lists| == |w.lists|
  {
    match op
    case Add(e, seconds) => Added(w, resolution, seconds, e)
    case Remove(e) => Removed(w, e)
    case Tick(now) => Ticked(w, now)
  }

  function After(w: State, resolution: nat, ops: seq<Op>): (r: State)
    requires Wf(w) && resolution > 0
    ensures Wf(r) && |r.lists| == |w.lists|
    decreases |ops|
  {
    if ops == [] then w else After(Apply(w, resolution, ops[0]), resolution, ops[1..])
  }

  /** What each tick of a run fires, in order. */
  function FiredTicks(w: State, resolution: nat, ops: seq<Op>): seq<seq<Entry>>
    requires Wf(w) && resolution > 0
    decreases |ops|
  {
    if ops == [] then []
    else
      (if ops[0].Tick? then [Fired(w, ops[0].now)] else [])
      + FiredTicks(Apply(w, resolution, ops[0]), resolution, ops[1..])
  }

  lemma EmptyRun(w: State, resolution: nat)
    requires Wf(w) && resolution > 0
    ensures After(w, resolution, []) == w && FiredTicks(w, resolution, []) == []
  {
  }

  lemma {:induction false} RunConcat(w: State, resolution: nat, a: seq<Op>, b: seq<Op>)
    requires Wf(w) && resolution > 0
    ensures var v := After(w, resolution, a);
            && After(w, resolution, a + b) == After(v, resolution, b)
            && FiredTicks(w, resolution, a + b) == FiredTicks(w, resolution, a) + FiredTicks(v, resolution, b)
    decreases |a|
  {
    hide Apply, Fired;
    if a == [] {
      assert a + b == b;
    } else {
      assert (a + b)[1..] == a[1..] + b;
      RunConcat(Apply(w, resolution, a[0]), resolution, a[1..], b);
    }
  }

  lemma OneStep(w: State, resolution: nat, op: Op)
    requires Wf(w) && resolution > 0
    ensures After(w, resolution, [op]) == Apply(w, resolution, op)
    ensures FiredTicks(w, resolution, [op]) == if op.Tick? then [Fired(w, op.now)] else []
  {
    hide Apply, Fired;
    assert [op][1..] == [];
  }

  /** The times of the ticks of a run, in order. */
  function Times(ops: seq<Op>): seq<int> {
    if ops == [] then []
    else if ops[0].Tick? then [ops[0].now] + Times(ops[1..])
    else Times(ops[1..])
  }

  lemma {:induction false} TimesConcat(a: seq<Op>, b: seq<Op>)
    ensures Times(a + b) == Times(a) + Times(b)
  {
    if a == [] {
      assert a + b == b;
    } else {
      assert (a + b)[1..] == a[1..] + b;
      TimesConcat(a[1..], b);
    }
  }

  lemma {:induction false} TicksCount(w: State, resolution: nat, ops: seq<Op>)
    requires Wf(w) && resolution > 0
    ensures |FiredTicks(w, resolution, ops)| == |Times(ops)|
    decreases |ops|
  {
    hide Apply, Fired;
    if ops != [] { TicksCount(Apply(w, resolution, ops[0]), resolution, ops[1..]); }
  }

  /** No operation of the run touches `e` itself. */
  predicate Leaves(ops: seq<Op>, e: Entry) {
    forall op | op in ops :: op.Tick? || op.e != e
  }

  /** The number of the tick, counted from one, in which `e` fires. */
  function FiresAt(w: State, resolution: nat, ops: seq<Op>, e: Entry): Option<nat>
    requires Wf(w) && resolution > 0
    decreases |ops|
  {
    if ops == [] then None
    else if ops[0].Tick? && e in Fired(w, ops[0].now) then Some(1)
    else
      match FiresAt(Apply(w, resolution, ops[0]), resolution, ops[1..], e)
      case None => None
      case Some(k) => Some(if ops[0].Tick? then k + 1 else k)
  }

  /** The first tick, not before number `from`, whose time has reached the deadline. */
  function FirstTick(times: seq<int>, from: nat, deadline: int): (r: Option<nat>)
    requires from >= 1
    ensures r.Some? ==> from <= r.value <= |times| && times[r.value - 1] >= deadline
    ensures r.Some? ==> forall i | from - 1 <= i < r.value - 1 :: times[i] < deadline
    ensures r.None? ==> forall i | from - 1 <= i < |times| :: times[i] < deadline
    decreases |times| + 1 - from
  {
    if from > |times| then None
    else if times[from - 1] >= deadline then Some(from)
    else FirstTick(times, from + 1, deadline)
  }

  lemma {:induction false} FirstTickShift(t: int, times: seq<int>, from: nat, deadline: int)
    requires from >= 1
    ensures var r := FirstTick(times, from, deadline);
            FirstTick([t] + times, from + 1, deadline) == if r.None? then None else Some(r.value + 1)
    decreases |times| + 1 - from
  {
    if from <= |times| {
      assert ([t] + times)[from] == times[from - 1];
      if times[from - 1] < deadline { FirstTickShift(t, times, from + 1, deadline); }
    }
  }

  /** The first suitable tick of a run, seen from its first tick. */
  lemma FirstTickCons(t: int, times: seq<int>, d: nat, deadline: int)
    requires d >= 1
    ensures var r := FirstTick(times, if d == 1 then 1 else d - 1, deadline);
            FirstTick([t] + times, d, deadline) ==
            if d == 1 && t >= deadline then Some(1) else if r.None? then None else Some(r.value + 1)
  {
    if d > 1 { FirstTickShift(t, times, d - 1, deadline); }
    else if t < deadline { FirstTickShift(t, times, 1, deadline); }
  }

  /**
   Over any run that leaves `e` alone, whatever else is added, removed or fired and
   whatever the clock does: `e` is first looked at when the hand reaches its bucket,
   from then on at every tick, and it fires at the first of these whose time has
   reached its deadline.
   */
  lemma {:induction false} FiringTick(w: State, resolution: nat, ops: seq<Op>, e: Entry, b: nat)
    requires Wf(w) && resolution > 0 && In(w, e, b) && Leaves(ops, e)
    ensures FiresAt(w, resolution, ops, e) == FirstTick(Times(ops), Distance(w, b), e.deadline)
    decreases |ops|
  {
    hide Added, Removed, Ticked, Fired, Distance, Next, FirstTick;
    if ops != [] {
      var op, rest := ops[0], ops[1..];
      assert Leaves(rest, e);
      match op
      case Add(x, seconds) =>
        assert op in ops;
        OthersStay(w, resolution, seconds, x, e, b);
        FiringTick(Added(w, resolution, seconds, x), resolution, rest, e, b);
      case Remove(x) =>
        assert op in ops;
        OthersStay(w, resolution, 0, x, e, b);
        FiringTick(Removed(w, x), resolution, rest, e, b);
      case Tick(now) =>
        var v := Ticked(w, now);
        FirstTickCons(now, Times(rest), Distance(w, b), e.deadline);
        if b != Visited(w) {
          TickPasses(w, now, e, b);
          FiringTick(v, resolution, rest, e, b);
        } else if e.deadline > now {
          TickCarries(w, now, e);
          DistanceReaches(w, b);
          var s := Next(b, |w.lists|);
          FiringTick(v, resolution, rest, e, s);
        } else {
          TickFires(w, now, e);
          DistanceReaches(w, b);
        }
    }
  }

  lemma AbsentStep(w: State, resolution: nat, op: Op, e: Entry)
    requires Wf(w) && resolution > 0 && Absent(w, e) && (op.Add? ==> op.e != e)
    ensures Absent(Apply(w, resolution, op), e) && (op.Tick? ==> e !in Fired(w, op.now))
  {
    hide Due, Late, Pushed, Without, Next;
  }

  lemma {:induction false} AbsentNeverFires(w: State, resolution: nat, ops: seq<Op>, e: Entry)
    requires Wf(w) && resolution > 0 && Absent(w, e) && Leaves(ops, e)
    ensures forall t | t in FiredTicks(w, resolution, ops) :: e !in t
    decreases |ops|
  {
    hide Apply, Fired, Absent;
    if ops != [] {
      assert ops[0] in ops;
      AbsentStep(w, resolution, ops[0], e);
      assert Leaves(ops[1..], e);
      AbsentNeverFires(Apply(w, resolution, ops[0]), resolution, ops[1..], e);
    }
  }

  /** Where an operation on others leaves `e`: fired for good, or linked in one bucket. */
  lemma StepPlaces(w: State, resolution: nat, op: Op, e: Entry, b: nat) returns (c: nat)
    requires Wf(w) && resolution > 0 && In(w, e, b) && (op.Tick? || op.e != e)
    ensures if op.Tick? && e in Fired(w, op.now) then Absent(Apply(w, resolution, op), e)
            else In(Apply(w, resolution, op), e, c)
  {
    hide Added, Removed, Ticked, Fired, In, Absent, Next;
    c := b;
    match op
    case Add(x, seconds) => OthersStay(w, resolution, seconds, x, e, b);
    case Remove(x) => OthersStay(w, resolution, 0, x, e, b);
    case Tick(now) =>
      if b != Visited(w) {
        TickPasses(w, now, e, b);
      } else if e.deadline > now {
        TickCarries(w, now, e);
        c := Next(b, |w.lists|);
      } else {
        TickFires(w, now, e);
      }
  }

  /** Of the ticks that fired `ts`, number `k` fired `e`, counted from one, and no other did. */
  predicate OnlyAt(ts: seq<seq<Entry>>, k: Option<nat>, e: Entry) {
    && (k.Some? ==> 1 <= k.value <= |ts|)
    && forall i | 0 <= i < |ts| :: e in ts[i] <==> (k.Some? && k.value == i + 1)
  }

  lemma OnlyAtCons(t: seq<Entry>, ts: seq<seq<Entry>>, k: Option<nat>, e: Entry)
    requires OnlyAt(ts, k, e) && e !in t
    ensures OnlyAt([t] + ts, if k.None? then None else Some(k.value + 1), e)
  {
    var all := [t] + ts;
    forall i | 0 <= i < |all| ensures e in all[i] <==> (k.Some? && k.value + 1 == i + 1) {
      if i > 0 { assert all[i] == ts[i - 1]; }
    }
  }

  lemma OnlyAtFirst(t: seq<Entry>, ts: seq<seq<Entry>>, e: Entry)
    requires e in t && forall u | u in ts :: e !in u
    ensures OnlyAt([t] + ts, Some(1), e)
  {
    var all := [t] + ts;
    forall i | 0 <= i < |all| ensures e in all[i] <==> i == 0 {
      if i > 0 { assert all[i] == ts[i - 1] && ts[i - 1] in ts; }
    }
  }

  lemma OnlyAtLater(early: seq<seq<Entry>>, late: seq<seq<Entry>>, k: Option<nat>, e: Entry)
    requires OnlyAt(late, k, e) && forall i | 0 <= i < |early| :: e !in early[i]
    ensures OnlyAt(early + late, if k.None? then None else Some(|early| + k.value), e)
  {
    var all := early + late;
    forall i | 0 <= i < |all| ensures e in all[i] <==> (k.Some? && |early| + k.value == i + 1) {
      if i >= |early| { assert all[i] == late[i - |early|]; }
    }
  }

  /** Over a run that leaves `e` alone it is fired by the tick `FiresAt` names and by no other. */
  lemma {:induction false} FiresOnce(w: State, resolution: nat, ops: seq<Op>, e: Entry, b: nat)
    requires Wf(w) && resolution > 0 && In(w, e, b) && Leaves(ops, e)
    ensures OnlyAt(FiredTicks(w, resolution, ops), FiresAt(w, resolution, ops, e), e)
    decreases |ops|
  {
    hide Apply, Fired, In, Absent;
    if ops != [] {
      var op, rest := ops[0], ops[1..];
      assert op in ops && Leaves(rest, e);
      var v := Apply(w, resolution, op);
      var c := StepPlaces(w, resolution, op, e, b);
      var more := FiredTicks(v, resolution, rest);
      if op.Tick? && e in Fired(w, op.now) {
        AbsentNeverFires(v, resolution, rest, e);
        OnlyAtFirst(Fired(w, op.now), more, e);
      } else {
        FiresOnce(v, resolution, rest, e, c);
        if op.Tick? { OnlyAtCons(Fired(w, op.now), more, FiresAt(v, resolution, rest, e), e); }
        assert [] + more == more;
      }
    }
  }

  /** An entry never fires early, is not passed over once the hand has reached it, and fires at the first chance. */
  lemma NeverEarlyNeverSkipped(w: State, resolution: nat, ops: seq<Op>, e: Entry, b: nat)
    requires Wf(w) && resolution > 0 && In(w, e, b) && Leaves(ops, e)
    ensures var k, d, times := FiresAt(w, resolution, ops, e), Distance(w, b), Times(ops);
            && (k.Some? ==> d <= k.value <= |times| && times[k.value - 1] >= e.deadline)
            && forall i | d - 1 <= i < |times| && (k.Some? ==> i < k.value - 1) :: times[i] < e.deadline
  {
    hide FirstTick, FiresAt, Times, Distance;
    FiringTick(w, resolution, ops, e, b);
  }

  // ----- timers added to a regularly ticking wheel -----

  function CeilDiv(a: nat, r: nat): nat
    requires r > 0
  {
    (a + r - 1) / r
  }

  lemma AddedDistance(w: State, resolution: nat, seconds: nat, e: Entry)
    requires Wf(w) && resolution > 0 && Absent(w, e)
    ensures var q, n := seconds / resolution, |w.lists|;
            var v, b := Added(w, resolution, seconds, e), Slot(w.current, q, n);
            && In(v, e, b)
            && Distance(v, b) == (if q % n == 0 then n else q % n)
            && (q >= 1 ==> Distance(v, b) <= q)
  {
    var q, n := seconds / resolution, |w.lists|;
    ModSplit(w.current, q, n);
    if q >= 1 { ModAtMost(q, n); }
  }

  /** A wait of a full resolution is never reached late by the hand; a shorter one takes a whole turn. */
  lemma AddedReach(w: State, resolution: nat, seconds: nat, e: Entry) returns (b: nat, d: nat)
    requires Wf(w) && resolution > 0 && Absent(w, e)
    ensures var v := Added(w, resolution, seconds, e); In(v, e, b) && d == Distance(v, b)
    ensures 1 <= d <= |w.lists|
    ensures if seconds >= resolution then d <= seconds / resolution else d == |w.lists|
  {
    hide Distance, Added, In, Absent;
    b := Slot(w.current, seconds / resolution, |w.lists|);
    AddedDistance(w, resolution, seconds, e);
    d := Distance(Added(w, resolution, seconds, e), b);
    QuotientTimes(seconds, resolution, 1);
  }

  lemma ModSplit(c: nat, q: nat, n: nat)
    requires c < n
    ensures (c + q) % n == if c + q % n < n then c + q % n else c + q % n - n
  {
    var k := q / n;
    assert q == k * n + q % n;
    var r := if c + q % n < n then c + q % n else c + q % n - n;
    var m := if c + q % n < n then k else k + 1;
    assert c + q == m * n + r;
    ModUnique(c + q, n, m, r);
  }

  lemma ModAtMost(q: nat, n: nat)
    requires q >= 1 && n > 0
    ensures (if q % n == 0 then n else q % n) <= q
  {
    var k := q / n;
    assert q == k * n + q % n;
    if q % n == 0 { assert k >= 1; assert k * n >= n; }
  }

  /** Tick number `k` of a wheel that ticks every `resolution` seconds, the last time before the run at `t0`. */
  predicate Regular(times: seq<int>, t0: int, resolution: nat) {
    forall k | 0 <= k < |times| :: times[k] == t0 + (k + 1) * resolution
  }

  lemma CeilReaches(a: nat, r: nat, k: nat)
    requires r > 0
    ensures k * r >= a <==> k >= CeilDiv(a, r)
  {
    var c := CeilDiv(a, r);
    var m := (a + r - 1) % r;
    assert c * r + m == a + r - 1;
    if k >= c { assert k * r >= c * r; }
    if k < c { assert (k + 1) * r <= c * r; assert (k + 1) * r == k * r + r; }
  }

  lemma RegularFirstTick(times: seq<int>, from: nat, t0: int, resolution: nat, wait: nat)
    requires from >= 1 && resolution > 0 && Regular(times, t0, resolution)
    ensures var k := if CeilDiv(wait, resolution) > from then CeilDiv(wait, resolution) else from;
            FirstTick(times, from, t0 + wait) == if k <= |times| then Some(k) else None
  {
    var c := CeilDiv(wait, resolution);
    var k := if c > from then c else from;
    forall i | 0 <= i < |times| ensures times[i] >= t0 + wait <==> i + 1 >= c {
      CeilReaches(wait, resolution, i + 1);
    }
    var r := FirstTick(times, from, t0 + wait);
    if k <= |times| { assert times[k - 1] >= t0 + wait; }
  }

  /**
   The tick that is to fire a timer set `phase` seconds after a tick of a regularly
   ticking wheel with `n` buckets.  Set for at least one resolution this is tick
   `ceil((seconds + phase) / resolution)`, the first that is not early, however many turns
   of the wheel that takes; set for less it waits for the hand to come round once.
   */
  function DueTick(seconds: nat, phase: nat, resolution: nat, n: nat): nat
    requires resolution > 0
  {
    var due := CeilDiv(phase + seconds, resolution);
    if seconds >= resolution || due >= n then due else n
  }

  /** On a regularly ticking wheel a timer fires on that tick. */
  lemma RegularTimer(w: State, resolution: nat, seconds: nat, e: Entry, t0: int, phase: nat, ops: seq<Op>)
    requires Wf(w) && resolution > 0 && Absent(w, e) && Leaves(ops, e)
    requires phase < resolution && e.deadline == t0 + phase + seconds
    requires Regular(Times(ops), t0, resolution)
    ensures var k := DueTick(seconds, phase, resolution, |w.lists|);
            FiresAt(Added(w, resolution, seconds, e), resolution, ops, e) ==
            if k <= |Times(ops)| then Some(k) else None
  {
    hide Added, FiresAt, Times, Leaves, In, Absent, FirstTick, CeilDiv, Distance, Regular;
    var v := Added(w, resolution, seconds, e);
    var b, d := AddedReach(w, resolution, seconds, e);
    FiringTick(v, resolution, ops, e, b);
    RegularFirstTick(Times(ops), d, t0, resolution, phase + seconds);
    QuotientBelowCeil(seconds, phase, resolution);
  }

  lemma QuotientBelowCeil(seconds: nat, phase: nat, resolution: nat)
    requires resolution > 0
    ensures seconds / resolution <= CeilDiv(phase + seconds, resolution)
  {
    hide CeilDiv;
    var q, c := seconds / resolution, CeilDiv(phase + seconds, resolution);
    CeilReaches(phase + seconds, resolution, c);
    CeilReaches(seconds, resolution, c);
    QuotientTimes(seconds, resolution, c);
  }

  lemma QuotientTimes(a: nat, r: nat, c: nat)
    requires r > 0
    ensures c <= a / r <==> c * r <= a
  {
    var q, m := a / r, a % r;
    assert q * r + m == a;
    if c <= q { assert c * r <= q * r; } else { assert (q + 1) * r <= c * r; }
  }

  // ----- conservation -----

  function Bag(lists: seq<seq<Entry>>): multiset<Entry> {
    if lists == [] then multiset{} else multiset(lists[0]) + Bag(lists[1..])
  }

  lemma {:induction false} BagUpdate(lists: seq<seq<Entry>>, i: nat, l: seq<Entry>)
    requires i < |lists|
    ensures Bag(lists[i := l]) + multiset(lists[i]) == Bag(lists) + multiset(l)
  {
    if i == 0 {
      assert lists[0 := l][1..] == lists[1..];
    } else {
      assert lists[i := l][1..] == lists[1..][i - 1 := l];
      BagUpdate(lists[1..], i - 1, l);
      var head, was, rest := multiset(lists[0]), Bag(lists[1..]), Bag(lists[1..][i - 1 := l]);
      assert Bag(lists[i := l]) == head + rest && Bag(lists) == head + was;
      assert lists[1..][i - 1] == lists[i];
      assert head + rest + multiset(lists[i]) == head + (rest + multiset(lists[i]));
      assert head + was + multiset(l) == head + (was + multiset(l));
    }
  }

  lemma {:induction false} DueAndLate(l: seq<Entry>, now: int)
    ensures multiset(Due(l, now)) + multiset(Late(l, now)) == multiset(l)
  {
    if l != [] {
      DueAndLate(l[1..], now);
      assert l == [l[0]] + l[1..];
    }
  }

  lemma {:induction false} PushedBag(l: seq<Entry>, onto: seq<Entry>)
    ensures multiset(Pushed(l, onto)) == multiset(l) + multiset(onto)
    decreases |l|
  {
    if l != [] {
      PushedBag(l[1..], [l[0]] + onto);
      assert l == [l[0]] + l[1..];
    }
  }

  /** A tick neither loses nor duplicates an entry: what is linked afterwards and what fired is what was linked. */
  lemma TickConserves(w: State, now: int)
    requires Wf(w)
    ensures Bag(Ticked(w, now).lists) + multiset(Fired(w, now)) == Bag(w.lists)
  {
    var c := Visited(w);
    var s := Next(c, |w.lists|);
    hide Due, Late, Pushed, Bag;
    var l := w.lists[c];
    var emptied := w.lists[c := []];
    var pushed := Pushed(Late(l, now), emptied[s]);
    BagUpdate(w.lists, c, []);
    BagUpdate(emptied, s, pushed);
    PushedBag(Late(l, now), emptied[s]);
    DueAndLate(l, now);
    var all, without, end := Bag(w.lists), Bag(emptied), Bag(emptied[s := pushed]);
    var due, late, onto := multiset(Due(l, now)), multiset(Late(l, now)), multiset(emptied[s]);
    assert without + (due + late) == all;
    assert end + onto == (without + late) + onto;
    Cancel(end, without + late, onto);
  }

  lemma Cancel(a: multiset<Entry>, b: multiset<Entry>, c: multiset<Entry>)
    requires a + c == b + c
    ensures a == b
  {
    assert a == (a + c) - c && b == (b + c) - c;
  }
}

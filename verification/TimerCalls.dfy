/**
 What a program that sets and cancels timers sees of a wheel: the operations of module
 TimingWheel its calls amount to, when a handle is still good, and when a timer fires.
 */
module TimerCalls {
  import opened StringUtil
  import opened TimingWheel

  /** Set a timer, cancel the `k`-th that was set, let a tick pass. */
  datatype Call = Set(seconds: nat, now: int, memory: bool) | Cancel(k: nat) | Pass(now: int)

  /** The deadlines of the timers a run of calls has set, in order. */
  function Deadlines(calls: seq<Call>): seq<int> {
    if calls == [] then []
    else
      var c := calls[|calls| - 1];
      Deadlines(calls[..|calls| - 1]) + if c.Set? && c.memory then [c.now + c.seconds] else []
  }

  /** The times of its ticks. */
  function Passes(calls: seq<Call>): seq<int> {
    if calls == [] then []
    else
      var c := calls[|calls| - 1];
      Passes(calls[..|calls| - 1]) + if c.Pass? then [c.now] else []
  }

  predicate Distinct(l: seq<Entry>) {
    forall i, j | 0 <= i < j < |l| :: l[i] != l[j]
  }

  /** What a call does to a wheel when `n` of the handles `hs` have been given out: a dead handle is left alone. */
  function Step(v: State, c: Call, hs: seq<Entry>, n: nat): seq<Op>
    requires n <= |hs| && (c.Set? && c.memory ==> n < |hs|)
  {
    match c
    case Set(seconds, _, memory) => if memory then [Op.Add(hs[n], seconds)] else []
    case Cancel(k) => if k < n && !Absent(v, hs[k]) then [Op.Remove(hs[k])] else []
    case Pass(now) => [Op.Tick(now)]
  }

  /** The operations of a run of calls; the timers it sets are `hs` from `n` on. */
  function Trace(w: State, resolution: nat, calls: seq<Call>, hs: seq<Entry>, n: nat): seq<Op>
    requires Wf(w) && resolution > 0 && n + |Deadlines(calls)| <= |hs|
    decreases |calls|
  {
    if calls == [] then []
    else
      var before, c := calls[..|calls| - 1], calls[|calls| - 1];
      var ops := Trace(w, resolution, before, hs, n);
      ops + Step(After(w, resolution, ops), c, hs, n + |Deadlines(before)|)
  }

  // ----- one call more -----

  lemma OneMore(calls: seq<Call>, c: Call)
    ensures Deadlines(calls + [c]) == Deadlines(calls) + if c.Set? && c.memory then [c.now + c.seconds] else []
    ensures Passes(calls + [c]) == Passes(calls) + if c.Pass? then [c.now] else []
  {
    assert (calls + [c])[..|calls|] == calls;
  }

  lemma TraceMore(w: State, resolution: nat, calls: seq<Call>, c: Call, hs: seq<Entry>, n: nat)
    requires Wf(w) && resolution > 0 && n + |Deadlines(calls + [c])| <= |hs|
    ensures n + |Deadlines(calls)| + (if c.Set? && c.memory then 1 else 0) <= |hs|
    ensures var ops := Trace(w, resolution, calls, hs, n);
            Trace(w, resolution, calls + [c], hs, n) ==
            ops + Step(After(w, resolution, ops), c, hs, n + |Deadlines(calls)|)
  {
    hide After, Step;
    OneMore(calls, c);
    assert (calls + [c])[..|calls|] == calls;
  }

  /** Handles given out later change nothing. */
  lemma {:induction false} TraceExtends(w: State, resolution: nat, calls: seq<Call>, hs: seq<Entry>, e: Entry, n: nat)
    requires Wf(w) && resolution > 0 && n + |Deadlines(calls)| <= |hs|
    ensures Trace(w, resolution, calls, hs + [e], n) == Trace(w, resolution, calls, hs, n)
    decreases |calls|
  {
    hide After;
    if calls != [] { TraceExtends(w, resolution, calls[..|calls| - 1], hs, e, n); }
  }

  lemma {:induction false} CallsConcat(a: seq<Call>, b: seq<Call>)
    ensures Deadlines(a + b) == Deadlines(a) + Deadlines(b) && Passes(a + b) == Passes(a) + Passes(b)
    decreases |b|
  {
    if b == [] {
      assert a + b == a;
    } else {
      assert (a + b)[..|a + b| - 1] == a + b[..|b| - 1];
      CallsConcat(a, b[..|b| - 1]);
    }
  }

  lemma TraceNone(w: State, resolution: nat, hs: seq<Entry>, n: nat)
    requires Wf(w) && resolution > 0 && n <= |hs|
    ensures Deadlines([]) == [] && Trace(w, resolution, [], hs, n) == []
  {
  }

  lemma {:induction false} TraceConcat(w: State, resolution: nat, a: seq<Call>, b: seq<Call>, hs: seq<Entry>, n: nat)
    requires Wf(w) && resolution > 0 && n + |Deadlines(a)| + |Deadlines(b)| <= |hs|
    ensures |Deadlines(a + b)| == |Deadlines(a)| + |Deadlines(b)|
    ensures var ops := Trace(w, resolution, a, hs, n);
            var m, v := n + |Deadlines(a)|, After(w, resolution, ops);
            Trace(w, resolution, a + b, hs, n) == ops + Trace(v, resolution, b, hs, m)
    decreases |b|
  {
    hide After, Step, Deadlines, Trace;
    CallsConcat(a, b);
    if b == [] {
      assert a + b == a;
      TraceNone(After(w, resolution, Trace(w, resolution, a, hs, n)), resolution, hs, n + |Deadlines(a)|);
    } else {
      var b0, c := b[..|b| - 1], b[|b| - 1];
      assert a + b == (a + b0) + [c] && b == b0 + [c];
      OneMore(b0, c);
      TraceConcat(w, resolution, a, b0, hs, n);
      TraceMore(w, resolution, a + b0, c, hs, n);
      var ops := Trace(w, resolution, a, hs, n);
      var v := After(w, resolution, ops);
      TraceMore(v, resolution, b0, c, hs, n + |Deadlines(a)|);
      RunConcat(w, resolution, ops, Trace(v, resolution, b0, hs, n + |Deadlines(a)|));
    }
  }

  lemma NoTimes()
    ensures Times([]) == []
  {
  }

  lemma StepTimes(v: State, c: Call, hs: seq<Entry>, n: nat)
    requires n <= |hs| && (c.Set? && c.memory ==> n < |hs|)
    ensures Times(Step(v, c, hs, n)) == if c.Pass? then [c.now] else []
  {
    hide Absent;
    var step := Step(v, c, hs, n);
    assert step != [] ==> step[1..] == [];
  }

  /** The ticks of the run are the ticks of its calls. */
  lemma {:induction false} TraceTimes(w: State, resolution: nat, calls: seq<Call>, hs: seq<Entry>, n: nat)
    requires Wf(w) && resolution > 0 && n + |Deadlines(calls)| <= |hs|
    ensures Times(Trace(w, resolution, calls, hs, n)) == Passes(calls)
    decreases |calls|
  {
    hide After, Step, Times;
    NoTimes();
    if calls != [] {
      var before, c := calls[..|calls| - 1], calls[|calls| - 1];
      TraceTimes(w, resolution, before, hs, n);
      var ops := Trace(w, resolution, before, hs, n);
      var step := Step(After(w, resolution, ops), c, hs, n + |Deadlines(before)|);
      TimesConcat(ops, step);
      StepTimes(After(w, resolution, ops), c, hs, n + |Deadlines(before)|);
    }
  }

  /** An operation of a run is a tick, sets a handle given out in it, or cancels one as a call asked for. */
  predicate Mentioned(op: Op, calls: seq<Call>, hs: seq<Entry>, n: nat, m: nat)
    requires n <= m <= |hs|
  {
    match op
    case Tick(_) => true
    case Add(e, _) => exists i | n <= i < m :: e == hs[i]
    case Remove(e) => exists k: nat | k < m :: e == hs[k] && Cancel(k) in calls
  }

  lemma {:induction false} TraceMentions(w: State, resolution: nat, calls: seq<Call>, hs: seq<Entry>, n: nat)
    requires Wf(w) && resolution > 0 && n + |Deadlines(calls)| <= |hs|
    ensures forall op | op in Trace(w, resolution, calls, hs, n) :: Mentioned(op, calls, hs, n, n + |Deadlines(calls)|)
    decreases |calls|
  {
    hide After;
    if calls != [] {
      var before, c := calls[..|calls| - 1], calls[|calls| - 1];
      TraceMentions(w, resolution, before, hs, n);
      var ops, m := Trace(w, resolution, before, hs, n), n + |Deadlines(before)|;
      forall op | op in Trace(w, resolution, calls, hs, n)
        ensures Mentioned(op, calls, hs, n, n + |Deadlines(calls)|)
      {
        if op in ops {
          assert Mentioned(op, before, hs, n, m);
        } else {
          assert op in Step(After(w, resolution, ops), c, hs, m);
          assert c in calls;
        }
      }
    }
  }

  /** Handles of others, and a handle nobody cancels, are left alone. */
  lemma TraceLeaves(w: State, resolution: nat, calls: seq<Call>, hs: seq<Entry>, n: nat, j: nat)
    requires Wf(w) && resolution > 0 && n + |Deadlines(calls)| <= |hs| && Distinct(hs) && j < |hs|
    requires (j < n && Cancel(j) !in calls) || j >= n + |Deadlines(calls)|
    ensures Leaves(Trace(w, resolution, calls, hs, n), hs[j])
  {
    hide Trace;
    TraceMentions(w, resolution, calls, hs, n);
    forall op | op in Trace(w, resolution, calls, hs, n) ensures op.Tick? || op.e != hs[j] {
      assert Mentioned(op, calls, hs, n, n + |Deadlines(calls)|);
    }
  }

  // ----- when a handle is good -----

  /** The entry has been cancelled or has fired, and so has been freed. */
  predicate Finished(ops: seq<Op>, ts: seq<seq<Entry>>, e: Entry) {
    Op.Remove(e) in ops || exists i | 0 <= i < |ts| :: e in ts[i]
  }

  predicate Placed(v: State, e: Entry) {
    exists b: nat | b < |v.lists| :: In(v, e, b)
  }

  /** A timer is linked, in one bucket, exactly from when it is set until it is finished. */
  predicate Known(v: State, ops: seq<Op>, ts: seq<seq<Entry>>, e: Entry, isSet: bool) {
    if isSet && !Finished(ops, ts, e) then Placed(v, e)
    else Absent(v, e) && (Finished(ops, ts, e) ==> isSet)
  }

  function Fires(v: State, op: Op): seq<seq<Entry>>
    requires Wf(v)
  {
    if op.Tick? then [Fired(v, op.now)] else []
  }

  lemma FinishedMore(ops: seq<Op>, ts: seq<seq<Entry>>, op: Op, v: State, e: Entry)
    requires Wf(v)
    ensures Finished(ops + [op], ts + Fires(v, op), e) <==>
            Finished(ops, ts, e) || op == Op.Remove(e) || (op.Tick? && e in Fired(v, op.now))
  {
    hide Fired;
    var us := ts + Fires(v, op);
    if Finished(ops, ts, e) && Op.Remove(e) !in ops {
      var i :| 0 <= i < |ts| && e in ts[i];
      assert us[i] == ts[i];
    }
    if op.Tick? { assert us[|ts|] == Fired(v, op.now); }
  }

  lemma KnownStep(v: State, resolution: nat, ops: seq<Op>, ts: seq<seq<Entry>>, op: Op, e: Entry, isSet: bool)
    requires Wf(v) && resolution > 0 && Known(v, ops, ts, e, isSet)
    requires op.Add? && op.e == e ==> !isSet
    requires op.Remove? && op.e == e ==> !Absent(v, e)
    ensures Known(Apply(v, resolution, op), ops + [op], ts + Fires(v, op), e, isSet || (op.Add? && op.e == e))
  {
    hide Added, Removed, Ticked, Fired, In, Absent, Finished;
    FinishedMore(ops, ts, op, v, e);
    if op.Add? && op.e == e {
      AddedDistance(v, resolution, op.seconds, e);
    } else if op.Remove? && op.e == e {
      RemovedAbsent(v, e);
    } else if isSet && !Finished(ops, ts, e) {
      var b: nat :| b < |v.lists| && In(v, e, b);
      var c := StepPlaces(v, resolution, op, e, b);
      InBounds(Apply(v, resolution, op), e, c);
    } else {
      AbsentStep(v, resolution, op, e);
    }
  }

  lemma RemovedAbsent(v: State, e: Entry)
    requires Wf(v)
    ensures Absent(Removed(v, e), e)
  {
    hide Without;
  }

  lemma InBounds(v: State, e: Entry, c: nat)
    ensures In(v, e, c) ==> c < |v.lists| && !Absent(v, e)
  {
  }

  predicate Empty(w: State) {
    forall c | 0 <= c < |w.lists| :: w.lists[c] == []
  }

  /** After any calls: the `j`-th timer is linked exactly if it has been set, has not fired and is not cancelled. */
  lemma {:induction false} HandlesKnown(w: State, resolution: nat, calls: seq<Call>, hs: seq<Entry>, j: nat)
    requires Wf(w) && resolution > 0 && Empty(w) && |Deadlines(calls)| <= |hs| && Distinct(hs) && j < |hs|
    ensures var ops := Trace(w, resolution, calls, hs, 0);
            Known(After(w, resolution, ops), ops, FiredTicks(w, resolution, ops), hs[j], j < |Deadlines(calls)|)
    decreases |calls|
  {
    hide Known, After, FiredTicks, Apply, Fired;
    if calls == [] {
      EmptyRun(w, resolution);
      NothingKnown(w, hs[j]);
    } else {
      var before, c := calls[..|calls| - 1], calls[|calls| - 1];
      HandlesKnown(w, resolution, before, hs, j);
      var ops, n := Trace(w, resolution, before, hs, 0), |Deadlines(before)|;
      var v := After(w, resolution, ops);
      var step := Step(v, c, hs, n);
      RunConcat(w, resolution, ops, step);
      if step == [] {
        EmptyRun(v, resolution);
        assert ops + step == ops;
      } else {
        var op := step[0];
        assert step == [op];
        OneStep(v, resolution, op);
        var ts := FiredTicks(w, resolution, ops);
        if op.Remove? && op.e == hs[j] { assert c.k == j; }
        if op.Add? && op.e == hs[j] { assert n == j; }
        KnownStep(v, resolution, ops, ts, op, hs[j], j < n);
      }
    }
  }

  lemma NothingKnown(w: State, e: Entry)
    requires Empty(w)
    ensures Known(w, [], [], e, false)
  {
  }

  // ----- when a timer fires -----

  /** The handles of the timers set by `calls` on a new wheel. */
  predicate HandlesOf(calls: seq<Call>, hs: seq<Entry>) {
    && |hs| == |Deadlines(calls)| && Distinct(hs)
    && forall i | 0 <= i < |hs| :: hs[i].deadline == Deadlines(calls)[i]
  }

  lemma NoHandles(w: State, resolution: nat)
    requires Wf(w) && resolution > 0
    ensures HandlesOf([], []) && Deadlines([]) == [] && Trace(w, resolution, [], [], 0) == []
    ensures After(w, resolution, []) == w && FiredTicks(w, resolution, []) == []
  {
  }

  lemma HandlesCount(calls: seq<Call>, hs: seq<Entry>)
    requires HandlesOf(calls, hs)
    ensures |hs| == |Deadlines(calls)|
  {
  }

  lemma HandlesMore(calls: seq<Call>, c: Call, handles: seq<Entry>, e: Entry?)
    requires HandlesOf(calls, handles) && (e != null <==> c.Set? && c.memory)
    requires e != null ==> e !in handles && e.deadline == c.now + c.seconds
    ensures HandlesOf(calls + [c], if e == null then handles else handles + [e])
  {
    hide Deadlines;
    OneMore(calls, c);
  }

  /** The run so far, and one call more. */
  lemma TraceActs(w: State, resolution: nat, calls: seq<Call>, c: Call, handles: seq<Entry>, e: Entry?)
    requires Wf(w) && resolution > 0 && HandlesOf(calls, handles) && (e != null <==> c.Set? && c.memory)
    requires e != null ==> e !in handles && e.deadline == c.now + c.seconds
    ensures var hs := if e == null then handles else handles + [e];
            && HandlesOf(calls + [c], hs)
            && var ops := Trace(w, resolution, calls, handles, 0);
               var step := Step(After(w, resolution, ops), c, hs, |handles|);
               && After(w, resolution, Trace(w, resolution, calls + [c], hs, 0))
                  == After(After(w, resolution, ops), resolution, step)
               && FiredTicks(w, resolution, Trace(w, resolution, calls + [c], hs, 0))
                  == FiredTicks(w, resolution, ops) + FiredTicks(After(w, resolution, ops), resolution, step)
  {
    hide After, FiredTicks, Trace, Step, Deadlines, HandlesOf;
    HandlesMore(calls, c, handles, e);
    var hs := if e == null then handles else handles + [e];
    HandlesCount(calls, handles);
    HandlesCount(calls + [c], hs);
    if e != null { TraceExtends(w, resolution, calls, handles, e, 0); }
    TraceMore(w, resolution, calls, c, hs, 0);
    var ops := Trace(w, resolution, calls, handles, 0);
    RunConcat(w, resolution, ops, Step(After(w, resolution, ops), c, hs, |handles|));
  }

  /** A handle is linked exactly if it has neither fired nor been cancelled. */
  lemma HandleGood(w: State, resolution: nat, calls: seq<Call>, hs: seq<Entry>, j: nat)
    requires Wf(w) && resolution > 0 && Empty(w) && HandlesOf(calls, hs) && j < |hs|
    ensures var ops := Trace(w, resolution, calls, hs, 0);
            Absent(After(w, resolution, ops), hs[j]) <==> Finished(ops, FiredTicks(w, resolution, ops), hs[j])
  {
    hide After, FiredTicks, Trace, Deadlines, Finished;
    HandlesKnown(w, resolution, calls, hs, j);
  }

  /** A run of calls cut where a timer is set. */
  lemma CutAtSet(w: State, resolution: nat, before: seq<Call>, c: Call, after: seq<Call>, hs: seq<Entry>)
    returns (v: State, ops: seq<Op>)
    requires Wf(w) && resolution > 0 && c.Set? && c.memory && HandlesOf(before + [c] + after, hs)
    ensures Wf(v) && |v.lists| == |w.lists|
    ensures |Deadlines(before)| < |hs| && hs[|Deadlines(before)|].deadline == c.now + c.seconds
    ensures |Deadlines(before)| + 1 + |Deadlines(after)| == |hs|
    ensures var n := |Deadlines(before)|;
            var u := Added(v, resolution, c.seconds, hs[n]);
            var all, first := Trace(w, resolution, before + [c] + after, hs, 0), Trace(w, resolution, before, hs, 0);
            && v == After(w, resolution, first)
            && ops == Trace(u, resolution, after, hs, n + 1)
            && FiredTicks(w, resolution, all) == FiredTicks(w, resolution, first) + FiredTicks(u, resolution, ops)
  {
    hide After, FiredTicks, Deadlines, Added, Distinct, Trace;
    var n, set1 := |Deadlines(before)|, before + [c];
    CallsConcat(set1, after);
    OneMore(before, c);
    var first := Trace(w, resolution, before, hs, 0);
    v := After(w, resolution, first);
    var op := Op.Add(hs[n], c.seconds);
    TraceMore(w, resolution, before, c, hs, 0);
    assert Trace(w, resolution, set1, hs, 0) == first + [op];
    TraceConcat(w, resolution, set1, after, hs, 0);
    RunConcat(w, resolution, first, [op]);
    OneStep(v, resolution, op);
    var u := Added(v, resolution, c.seconds, hs[n]);
    ops := Trace(u, resolution, after, hs, n + 1);
    RunConcat(w, resolution, first + [op], ops);
    assert FiredTicks(w, resolution, first) + [] == FiredTicks(w, resolution, first);
  }

  /** A timer that is not set yet is not linked and has not fired. */
  lemma NotSetYet(w: State, resolution: nat, before: seq<Call>, hs: seq<Entry>)
    requires Wf(w) && resolution > 0 && Empty(w) && |Deadlines(before)| < |hs| && Distinct(hs)
    ensures var ops, e := Trace(w, resolution, before, hs, 0), hs[|Deadlines(before)|];
            Absent(After(w, resolution, ops), e) && forall t | t in FiredTicks(w, resolution, ops) :: e !in t
  {
    hide After, FiredTicks, Trace, Absent, Deadlines;
    HandlesKnown(w, resolution, before, hs, |Deadlines(before)|);
  }

  /**
   Timers on a new wheel, whatever else is set, cancelled or fired before and after: a
   timer nobody cancels, with regular ticks after it is set, is fired by tick `DueTick`
   after it is set, and by no other tick before or after that one.
   */
  lemma TimerFires(w: State, resolution: nat, before: seq<Call>, c: Call, after: seq<Call>, hs: seq<Entry>,
                   t0: int, phase: nat)
    requires Wf(w) && resolution > 0 && Empty(w) && c.Set? && c.memory && HandlesOf(before + [c] + after, hs)
    requires Cancel(|Deadlines(before)|) !in after
    requires phase < resolution && c.now == t0 + phase && Regular(Passes(after), t0, resolution)
    ensures |Deadlines(before)| < |hs|
    ensures var k := DueTick(c.seconds, phase, resolution, |w.lists|);
            OnlyAt(FiredTicks(w, resolution, Trace(w, resolution, before + [c] + after, hs, 0)),
                   if k <= |Passes(after)| then Some(|Passes(before)| + k) else None, hs[|Deadlines(before)|])
  {
    hide After, FiredTicks, Trace, Absent, Deadlines, Passes, Distinct, Added, Times, Leaves, Regular, DueTick;
    hide FiresAt, OnlyAt, Empty;
    var v, ops := CutAtSet(w, resolution, before, c, after, hs);
    var n, first := |Deadlines(before)|, Trace(w, resolution, before, hs, 0);
    var e := hs[n];
    NotSetYet(w, resolution, before, hs);
    var u := Added(v, resolution, c.seconds, e);
    TraceTimes(w, resolution, before, hs, 0);
    TraceTimes(u, resolution, after, hs, n + 1);
    TraceLeaves(u, resolution, after, hs, n + 1, n);
    TicksCount(w, resolution, first);
    RegularTimer(v, resolution, c.seconds, e, t0, phase, ops);
    var b, d := AddedReach(v, resolution, c.seconds, e);
    FiresOnce(u, resolution, ops, e, b);
    var early := FiredTicks(w, resolution, first);
    assert forall i | 0 <= i < |early| :: early[i] in early;
    OnlyAtLater(early, FiredTicks(u, resolution, ops), FiresAt(u, resolution, ops, e), e);
  }

  /** A timer set for less than one resolution, on a wheel of two buckets: it misses the first tick. */
  lemma ShortTimerWaits(w: State, e: Entry)
    requires Wf(w) && |w.lists| == 2 && Empty(w) && e.deadline == 0
    ensures var calls := [Set(0, 0, true)] + [Pass(1), Pass(2)];
            Deadlines(calls) == [0] && OnlyAt(FiredTicks(w, 1, Trace(w, 1, calls, [e], 0)), Some(2), e)
  {
    hide FiredTicks, Trace, OnlyAt, Empty;
    var c, after := Set(0, 0, true), [Pass(1), Pass(2)];
    TwoPasses();
    CallsConcat([c], after);
    OneMore([], c);
    assert [] + [c] + after == [c] + after && [] + [c] == [c];
    TimerFires(w, 1, [], c, after, [e], 0, 0);
  }

  lemma TwoPasses()
    ensures var cs := [Pass(1), Pass(2)]; Passes(cs) == [1, 2] && Deadlines(cs) == []
    ensures Passes([]) == [] && Deadlines([]) == []
  {
    OneMore([], Pass(1));
    OneMore([Pass(1)], Pass(2));
    assert [] + [Pass(1)] == [Pass(1)] && [Pass(1)] + [Pass(2)] == [Pass(1), Pass(2)];
  }
}

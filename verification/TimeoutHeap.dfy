/**
 The linked structure of src/net/timeout.c: an array of doubly linked lists threaded
 through the entries, kept in step with the bucket lists of module TimingWheel.  An entry
 is freed when it fires or is removed; the wheel never touches it again, and a caller must
 not either.  Callbacks are returned in firing order; they do not re-enter the wheel.
 */
module TimeoutHeap {
  import opened StringUtil
  import opened TimingWheel
  import opened TimerCalls

  /** Entry `i` of list `l` of bucket `b` is linked to its neighbours, the list itself hanging on `before`. */
  ghost predicate Linked(l: seq<Entry>, i: nat, b: nat, before: Entry?)
    requires i < |l|
    reads l[i]
  {
    && l[i].next == (if i + 1 < |l| then l[i + 1] else null)
    && l[i].prev == (if i > 0 then l[i - 1] else before)
    && l[i].bucket == b && l[i].active
  }

  function First(l: seq<Entry>): Entry? {
    if l == [] then null else l[0]
  }

  lemma FirstOf(x: Entry, l: seq<Entry>)
    ensures (First(l) != null ==> First(l) in l) && First([x] + l) == x
  {
  }

  ghost predicate Chain(l: seq<Entry>, b: nat)
    reads set e | e in l
  {
    Distinct(l) && forall i | 0 <= i < |l| :: Linked(l, i, b, null)
  }

  /** Pushing `x` in front of `l`: only the old first entry had to be told. */
  lemma ChainPushed(x: Entry, l: seq<Entry>, b: nat)
    requires Distinct(l) && x !in l
    requires x.next == First(l) && x.prev == null && x.bucket == b && x.active
    requires forall i | 0 <= i < |l| :: Linked(l, i, b, x)
    ensures Chain([x] + l, b)
  {
    var m := [x] + l;
    forall i | 0 <= i < |m| ensures Linked(m, i, b, null) {
      if i > 0 {
        assert Linked(l, i - 1, b, x) && m[i] == l[i - 1];
        assert i > 1 ==> m[i - 1] == l[i - 2];
        assert i < |l| ==> m[i + 1] == l[i];
      } else {
        assert l != [] ==> m[1] == l[0];
      }
    }
  }

  /** Link `x` before the list `l` that starts at `head`. */
  method Hang(x: Entry, head: Entry?, slot: nat, ghost l: seq<Entry>)
    requires Chain(l, slot) && head == First(l) && x !in l && x.active
    modifies x, head
    ensures Chain([x] + l, slot) && x.bucket == slot && x.active
    ensures head != null ==>
              head.next == old(head.next) && head.bucket == old(head.bucket) && head.active == old(head.active)
  {
    x.bucket := slot;
    x.next := head;
    x.prev := null;
    if head != null {
      head.prev := x;
    }
    forall i | 0 <= i < |l| ensures Linked(l, i, slot, x) {
      assert old(Linked(l, i, slot, null)) && (i > 0 ==> l[i] != l[0]);
    }
    ChainPushed(x, l, slot);
  }

  function Drop(l: seq<Entry>, k: nat): seq<Entry>
    requires k < |l|
  {
    l[..k] + l[k + 1..]
  }

  /** Unlink entry `k` of list `l`: its neighbours are told, nobody else is. */
  method Unhang(e: Entry, slot: nat, ghost l: seq<Entry>, ghost k: nat)
    requires Chain(l, slot) && k < |l| && l[k] == e
    modifies e, e.prev, e.next
    ensures Chain(Drop(l, k), slot) && !e.active
    ensures old(e.prev) == null <==> k == 0
    ensures First(Drop(l, k)) == if k == 0 then old(e.next) else First(l)
    ensures forall x | x in l && x != e :: x.bucket == old(x.bucket)
  {
    assert Linked(l, k, slot, null);
    assert k > 0 ==> Linked(l, k - 1, slot, null);
    assert k + 1 < |l| ==> Linked(l, k + 1, slot, null);
    e.active := false;
    if e.prev != null {
      e.prev.next := e.next;
    }
    if e.next != null {
      e.next.prev := e.prev;
    }
    e.next := null;
    e.prev := null;
    ghost var m := Drop(l, k);
    forall i | 0 <= i < |m| ensures Linked(m, i, slot, null) {
      var j := if i < k then i else i + 1;
      assert old(Linked(l, j, slot, null)) && m[i] == l[j] && l[j] != l[k];
      assert i + 1 < |m| ==> m[i + 1] == l[if i + 1 < k then i + 1 else i + 2];
      assert i > 0 ==> m[i - 1] == l[if i - 1 < k then i - 1 else i];
      assert j != k - 1 && k > 0 ==> l[j] != l[k - 1];
      assert j != k + 1 && k + 1 < |l| ==> l[j] != l[k + 1];
    }
  }

  lemma Neighbours(l: seq<Entry>, k: nat, b: nat)
    requires Chain(l, b) && k < |l|
    ensures l[k].prev != null ==> l[k].prev in l
    ensures l[k].next != null ==> l[k].next in l
  {
    assert Linked(l, k, b, null);
  }

  lemma DropAt(l: seq<Entry>, k: nat, b: nat)
    requires Chain(l, b) && k < |l|
    ensures var m := Drop(l, k);
            (forall x | x in l && x != l[k] :: x in m) && (forall x | x in m :: x in l && x != l[k])
  {
    var m := Drop(l, k);
    forall x | x in l && x != l[k] ensures x in m {
      var i :| 0 <= i < |l| && l[i] == x;
      assert m[if i < k then i else i - 1] == x;
    }
  }

  /** What the walk over a detached list relies on. */
  ghost predicate Queued(l: seq<Entry>, i: nat)
    requires i < |l|
    reads l[i]
  {
    l[i].next == (if i + 1 < |l| then l[i + 1] else null) && l[i].active
  }

  lemma ChainNext(l: seq<Entry>, b: nat)
    requires Chain(l, b)
    ensures Distinct(l) && forall i | 0 <= i < |l| :: Queued(l, i)
  {
    forall i | 0 <= i < |l| ensures Queued(l, i) { assert Linked(l, i, b, null); }
  }

  lemma ChainEmpty(b: nat)
    ensures Chain([], b)
  {
  }

  /** The entries from `k` on that fire, and what carrying the others makes of a list. */
  function DueFrom(l: seq<Entry>, k: nat, now: int): seq<Entry>
    requires k <= |l|
  {
    Due(l[k..], now)
  }

  function CarriedFrom(l: seq<Entry>, k: nat, now: int, onto: seq<Entry>): seq<Entry>
    requires k <= |l|
  {
    Pushed(Late(l[k..], now), onto)
  }

  lemma Split(l: seq<Entry>, k: nat, now: int, onto: seq<Entry>)
    requires k < |l|
    ensures var e := l[k];
            if e.deadline <= now then
              && DueFrom(l, k, now) == [e] + DueFrom(l, k + 1, now)
              && CarriedFrom(l, k, now, onto) == CarriedFrom(l, k + 1, now, onto)
            else
              && DueFrom(l, k, now) == DueFrom(l, k + 1, now)
              && CarriedFrom(l, k, now, onto) == CarriedFrom(l, k + 1, now, [e] + onto)
  {
    assert l[k..][1..] == l[k + 1..];
    if l[k].deadline > now { assert Late(l[k..], now)[1..] == Late(l[k + 1..], now); }
  }

  lemma Whole(l: seq<Entry>, now: int, onto: seq<Entry>)
    ensures DueFrom(l, 0, now) == Due(l, now) && CarriedFrom(l, 0, now, onto) == Pushed(Late(l, now), onto)
    ensures DueFrom(l, |l|, now) == [] && CarriedFrom(l, |l|, now, onto) == onto
  {
    assert l[0..] == l;
  }

  lemma Apart(l: seq<Entry>, k: nat)
    requires Distinct(l) && k < |l|
    ensures forall i | k < i < |l| :: l[i] != l[k]
  {
  }

  lemma {:induction false} WithoutNone(l: seq<Entry>, e: Entry)
    requires e !in l
    ensures Without(l, e) == l
  {
    if l != [] { WithoutNone(l[1..], e); }
  }

  lemma {:induction false} WithoutAt(l: seq<Entry>, e: Entry, k: nat)
    requires Distinct(l) && k < |l| && l[k] == e
    ensures Without(l, e) == Drop(l, k)
  {
    if k == 0 {
      WithoutNone(l[1..], e);
    } else {
      WithoutAt(l[1..], e, k - 1);
      assert l[1..][..k - 1] == l[1..k] && l[1..][k..] == l[k + 1..];
      assert l[..k] == [l[0]] + l[1..k];
    }
  }

  lemma InBucket(l: seq<Entry>, b: nat)
    requires Chain(l, b)
    ensures forall e | e in l :: e.bucket == b && e.active
  {
    forall e | e in l ensures e.bucket == b && e.active {
      var i :| 0 <= i < |l| && l[i] == e;
      assert Linked(l, i, b, null);
    }
  }

  class Wheel {
    const buckets: array<Entry?>
    const resolution: nat
    var current: nat
    ghost var lists: seq<seq<Entry>>
    ghost var linked: set<Entry>
    ghost var freed: set<Entry>

    /** Every bucket is a proper list of active entries, none of them freed, each in the bucket it names only. */
    ghost predicate Valid()
      reads this, buckets, linked
    {
      && resolution > 0 && buckets.Length == |lists| && current < |lists|
      && (forall b | 0 <= b < |lists| :: forall e | e in lists[b] :: e in linked)
      && (forall e | e in linked :: e.bucket < |lists| && e in lists[e.bucket] && e !in freed)
      && (forall b | 0 <= b < |lists| :: buckets[b] == First(lists[b]))
      && (forall b | 0 <= b < |lists| :: Chain(lists[b], b))
    }

    ghost function View(): State
      reads this
    {
      State(current, lists)
    }

    /** `timeout_wheel_create`. */
    constructor (nbuckets: nat, resolution: nat)
      requires nbuckets > 0 && resolution > 0
      ensures Valid() && fresh(buckets) && linked == {} && freed == {} && current == 0
      ensures this.resolution == resolution && buckets.Length == nbuckets
    {
      buckets := new Entry?[nbuckets](_ => null);
      this.resolution, current := resolution, 0;
      lists, linked, freed := seq(nbuckets, _ => []), {}, {};
    }

    lemma Shape()
      requires Valid()
      ensures Wf(View()) && resolution > 0 && |lists| == buckets.Length
    {
    }

    lemma Named()
      requires Valid()
      ensures forall b | 0 <= b < |lists| :: forall e | e in lists[b] :: e.bucket == b && e.active
    {
      forall b | 0 <= b < |lists| ensures forall e | e in lists[b] :: e.bucket == b && e.active {
        InBucket(lists[b], b);
      }
    }

    /** Put an unlinked entry in front of a bucket. */
    method Link(x: Entry, slot: nat)
      requires Valid() && slot < |lists| && x !in linked && x !in freed && x.active
      modifies this`lists, this`linked, buckets, x, buckets[slot]
      ensures Valid() && lists == old(lists)[slot := [x] + old(lists)[slot]] && linked == old(linked) + {x}
      ensures forall e | e in old(linked) ::
                e.next == old(e.next) && e.bucket == old(e.bucket) && e.active == old(e.active)
    {
      hide Chain, First;
      Named();
      ghost var l := lists[slot];
      FirstOf(x, l);
      Hang(x, buckets[slot], slot, l);
      assert forall b | 0 <= b < |lists| && b != slot :: Chain(lists[b], b);
      buckets[slot] := x;
      lists := lists[slot := [x] + l];
      linked := linked + {x};
    }

    /** `timeout_add` at time `now`. */
    method Add(seconds: nat, now: int, memory: bool) returns (e: Entry?)
      requires Valid()
      modifies this`lists, this`linked, buckets, linked
      ensures Valid() && (e != null <==> memory)
      ensures e == null ==> View() == old(View()) && linked == old(linked)
      ensures e != null ==>
                && fresh(e) && e.deadline == now + seconds && linked == old(linked) + {e}
                && View() == Added(old(View()), resolution, seconds, e)
    {
      if !memory { return null; }
      var slot := (current + seconds / resolution) % buckets.Length;
      var x := new Entry(now + seconds, slot, buckets[slot]);
      Link(x, slot);
      return x;
    }

    /** Take entry `k` of a bucket out of its list and free it. */
    method Unlink(e: Entry, slot: nat, ghost k: nat)
      requires Valid() && slot < |lists| && k < |lists[slot]| && lists[slot][k] == e
      modifies this`lists, this`linked, this`freed, buckets, e, e.prev, e.next
      ensures Valid() && linked == old(linked) - {e} && freed == old(freed) + {e}
      ensures lists == old(lists)[slot := Drop(old(lists)[slot], k)]
    {
      hide Chain, Drop, First;
      Named();
      ghost var l := lists[slot];
      Neighbours(l, k, slot);
      DropAt(l, k, slot);
      var prev, next := e.prev, e.next;
      Unhang(e, slot, l, k);
      assert forall b | 0 <= b < |lists| && b != slot :: Chain(lists[b], b);
      if prev == null {
        buckets[slot] := next;
      }
      lists := lists[slot := Drop(l, k)];
      linked := linked - {e};
      freed := freed + {e};
      forall b | 0 <= b < |lists| ensures forall x | x in lists[b] :: x in linked {
        assert b != slot ==> lists[b] == old(lists)[b] && e !in lists[b];
      }
      forall x | x in linked ensures x.bucket < |lists| && x in lists[x.bucket] && x !in freed {
        assert x in old(linked) && x.bucket == old(x.bucket) && x in old(lists)[x.bucket];
      }
      forall b | 0 <= b < |lists| ensures buckets[b] == First(lists[b]) && Chain(lists[b], b) {
        assert b != slot ==> lists[b] == old(lists)[b];
      }
    }

    /** `timeout_remove`; the handle must not have been freed. */
    method Remove(e: Entry?)
      requires Valid() && (e != null ==> e in linked)
      modifies this`lists, this`linked, this`freed, buckets, linked
      ensures Valid()
      ensures e == null ==> View() == old(View()) && linked == old(linked) && freed == old(freed)
      ensures e != null ==>
                View() == Removed(old(View()), e) && linked == old(linked) - {e} && freed == old(freed) + {e}
    {
      hide Chain, Removed;
      Named();
      if e == null || !e.active { return; }
      var slot := e.bucket;
      ghost var k :| 0 <= k < |lists[slot]| && lists[slot][k] == e;
      RemovedLists(View(), e, slot, k);
      Neighbours(lists[slot], k, slot);
      Unlink(e, slot, k);
    }

    lemma RemovedLists(w: State, e: Entry, slot: nat, k: nat)
      requires Wf(w) && slot < |w.lists| && k < |w.lists[slot]| && w.lists[slot][k] == e
      requires Chain(w.lists[slot], slot)
      requires forall b | 0 <= b < |w.lists| && b != slot :: e !in w.lists[b]
      ensures Removed(w, e).current == w.current
      ensures Removed(w, e).lists == w.lists[slot := Drop(w.lists[slot], k)]
    {
      var l := w.lists[slot];
      WithoutAt(l, e, k);
      forall b | 0 <= b < |w.lists| && b != slot ensures Without(w.lists[b], e) == w.lists[b] {
        WithoutNone(w.lists[b], e);
      }
    }

    /** Empty a bucket, handing its list to the caller. */
    method Detach(c: nat) returns (head: Entry?, ghost l: seq<Entry>)
      requires Valid() && c < |lists|
      modifies this`lists, this`linked, buckets
      ensures Valid() && l == old(lists)[c] && head == First(l) && lists == old(lists)[c := []]
      ensures Chain(l, c) && linked == old(linked) - (set e | e in l)
      ensures forall e | e in l :: e in old(linked) && e !in freed
    {
      hide Chain;
      Named();
      l := lists[c];
      head := buckets[c];
      buckets[c] := null;
      ghost var gone := set e | e in l;
      ChainEmpty(c);
      lists := lists[c := []];
      linked := linked - gone;
      assert forall e | e in linked :: e.bucket < |lists| && e in lists[e.bucket] && e !in freed;
    }

    /** From `k` on, the entries of a detached list are still threaded, not freed and not linked anywhere. */
    ghost predicate Waiting(l: seq<Entry>, k: nat)
      reads this`linked, this`freed, set e | e in l
    {
      k <= |l| && forall i | k <= i < |l| :: l[i] !in linked && l[i] !in freed && Queued(l, i)
    }

    lemma HeadLinked(slot: nat)
      requires Valid() && slot < |lists|
      ensures slot < buckets.Length && (buckets[slot] != null ==> buckets[slot] in linked)
    {
    }

    /** Before `k`, the entries of a detached list have been freed or are linked again. */
    ghost predicate Settled(l: seq<Entry>, k: nat)
      reads this`linked, this`freed
    {
      k <= |l| && forall i | 0 <= i < k :: l[i] in linked || l[i] in freed
    }

    /** `free` of an entry that is in no list. */
    ghost method Free(e: Entry)
      requires Valid() && e !in linked
      modifies this`freed
      ensures Valid() && freed == old(freed) + {e}
    {
      freed := freed + {e};
    }

    /** One entry of the walk: fire and free it, or carry it to `slot`. */
    method Visit(e: Entry, slot: nat, now: int, ghost l: seq<Entry>, ghost k: nat) returns (due: bool)
      requires Valid() && slot < |lists| && Distinct(l) && k < |l| && e == l[k] && Waiting(l, k) && Settled(l, k)
      modifies this`lists, this`linked, this`freed, buckets, e, linked
      ensures Valid() && Waiting(l, k + 1) && Settled(l, k + 1) && due == (e.deadline <= now)
      ensures lists == if due then old(lists) else old(lists)[slot := [e] + old(lists)[slot]]
      ensures linked == (if due then old(linked) else old(linked) + {e})
      ensures freed == if due then old(freed) + {e} else old(freed)
    {
      hide Chain, Valid;
      assert Queued(l, k);
      Apart(l, k);
      HeadLinked(slot);
      due := false;
      if e.active && e.deadline <= now {
        e.active := false;
        due := true;
        Free(e);
      } else if e.active {
        Link(e, slot);
      } else {
        assert false;
      }
    }

    /** The walk over a detached list: fire what is due, carry the rest to `slot`. */
    method Sweep(head: Entry?, slot: nat, now: int, ghost l: seq<Entry>) returns (fired: seq<Entry>)
      requires Valid() && slot < |lists| && head == First(l) && Distinct(l) && Waiting(l, 0)
      modifies this`lists, this`linked, this`freed, buckets, linked, set e | e in l
      ensures Valid() && linked <= old(linked) + set e | e in l
      ensures lists == old(lists)[slot := Pushed(Late(l, now), old(lists)[slot])]
      ensures fired == Due(l, now)
      ensures old(linked) <= linked && freed == old(freed) + set e | e in fired
      ensures forall e | e in l :: e in linked || e in freed
    {
      hide Due, Late, Pushed, Distinct, Valid, DueFrom, CarriedFrom, Waiting, Settled;
      var e := head;
      ghost var k, had, all := 0, lists, set x | x in l;
      ghost var onto: seq<Entry> := lists[slot];
      fired := [];
      Whole(l, now, onto);
      NoneSettled(l);
      while e != null
        invariant Valid() && 0 <= k <= |l| && linked <= old(linked) + all && Waiting(l, k)
        invariant e == if k < |l| then l[k] else null
        invariant old(linked) <= linked && freed == old(freed) + (set x | x in fired) && Settled(l, k)
        invariant lists == had[slot := onto]
        invariant CarriedFrom(l, k, now, onto) == CarriedFrom(l, 0, now, had[slot])
        invariant fired + DueFrom(l, k, now) == DueFrom(l, 0, now)
        decreases |l| - k
      {
        NextWaiting(l, k);
        var next := e.next;
        Split(l, k, now, onto);
        var due := Visit(e, slot, now, l, k);
        if due {
          fired := fired + [e];
        } else {
          onto := [e] + onto;
        }
        e := next;
        k := k + 1;
      }
      Whole(l, now, onto);
      AllSettled(l);
    }

    lemma NoneSettled(l: seq<Entry>)
      ensures Settled(l, 0)
    {
    }

    lemma AllSettled(l: seq<Entry>)
      requires Settled(l, |l|)
      ensures forall e | e in l :: e in linked || e in freed
    {
    }

    lemma NextWaiting(l: seq<Entry>, k: nat)
      requires Waiting(l, k) && k < |l|
      ensures l[k].next == if k + 1 < |l| then l[k + 1] else null
    {
      assert Queued(l, k);
    }

    /** The hand moves one bucket on. */
    method Advance() returns (c: nat, slot: nat)
      requires Valid()
      modifies this`current
      ensures Valid() && current == c == Next(old(current), |lists|) && slot == Next(c, |lists|)
    {
      NextIsSlot(current, |lists|);
      current := (current + 1) % buckets.Length;
      NextIsSlot(current, |lists|);
      c, slot := current, (current + 1) % buckets.Length;
    }

    /** `timeout_tick` at time `now`. */
    method Tick(now: int) returns (fired: seq<Entry>)
      requires Valid()
      modifies this, buckets, linked
      ensures Valid() && linked == old(linked) - (set e | e in fired) && freed == old(freed) + set e | e in fired
      ensures View() == Ticked(old(View()), now) && fired == Fired(old(View()), now)
    {
      hide Chain, Next, Due, Late, Pushed;
      var c, slot := Advance();
      var e;
      ghost var l;
      e, l := Detach(c);
      ChainNext(l, c);
      fired := Sweep(e, slot, now, l);
    }
  }

  // ----- runs -----

  /** The entries of the lists are the linked ones. */
  lemma LinkedIff(w: Wheel, e: Entry)
    requires w.Valid()
    ensures (e in w.linked <==> !Absent(w.View(), e)) && (e in w.linked ==> e !in w.freed)
  {
  }

  lemma HasFirst(l: seq<Entry>)
    ensures l == [] || exists e :: e in l
  {
    if l != [] { assert l[0] in l; }
  }

  lemma StartsEmpty(w: Wheel)
    requires w.Valid() && w.linked == {}
    ensures Empty(w.View())
  {
    forall b | 0 <= b < |w.lists| ensures w.lists[b] == [] { HasFirst(w.lists[b]); }
  }

  /** What a program knows of its timers: the handles it was given, and which of them are live. */
  ghost predicate Tracks(w: Wheel, handles: seq<Entry>, live: set<Entry>)
    reads w
  {
    live == w.linked && forall h | h in handles :: h in w.linked || h in w.freed
  }

  /** One call, cancelling only a live handle; `due` is what a tick fired, `e` the timer that was set. */
  method Act(w: Wheel, c: Call, handles: seq<Entry>, live: set<Entry>)
    returns (due: seq<seq<Entry>>, e: Entry?, now: set<Entry>)
    requires w.Valid() && Tracks(w, handles, live)
    modifies w, w.buckets, w.linked
    ensures w.Valid() && (e != null <==> c.Set? && c.memory)
    ensures w.linked <= old(w.linked) + (if e == null then {} else {e})
    ensures e != null ==> fresh(e) && e.deadline == c.now + c.seconds
    ensures var hs := if e == null then handles else handles + [e];
            var step := Step(old(w.View()), c, hs, |handles|);
            && Tracks(w, hs, now)
            && w.View() == After(old(w.View()), w.resolution, step)
            && due == FiredTicks(old(w.View()), w.resolution, step)
  {
    hide Wheel.Valid, After, FiredTicks, Added, Removed, Ticked, Fired, Absent;
    w.Shape();
    EmptyRun(w.View(), w.resolution);
    due, e, now := [], null, live;
    match c
    case Set(seconds, at, memory) =>
      e := w.Add(seconds, at, memory);
      if e != null {
        now := live + {e};
        OneStep(old(w.View()), w.resolution, Op.Add(e, seconds));
      }
    case Cancel(k) =>
      if k < |handles| {
        LinkedIff(w, handles[k]);
        if handles[k] in live {
          w.Remove(handles[k]);
          now := live - {handles[k]};
          OneStep(old(w.View()), w.resolution, Op.Remove(handles[k]));
        }
      }
    case Pass(at) =>
      var fired := w.Tick(at);
      due, now := [fired], live - set x | x in fired;
      OneStep(old(w.View()), w.resolution, Op.Tick(at));
  }

  /**
   Any run of calls on a new wheel, cancelling only handles known to be live: those set
   and neither cancelled nor fired.  The structure stays sound, the run is that of
   `TimerCalls.Trace` with the same timers fired tick by tick, and a handle is still good,
   that is not freed, exactly if it has neither fired nor been cancelled.
   */
  method Drive(w: Wheel, calls: seq<Call>) returns (fired: seq<seq<Entry>>, handles: seq<Entry>)
    requires w.Valid() && w.linked == {}
    modifies w, w.buckets
    ensures w.Valid() && HandlesOf(calls, handles) && forall h | h in handles :: fresh(h)
    ensures var ops := Trace(old(w.View()), w.resolution, calls, handles, 0);
            && w.View() == After(old(w.View()), w.resolution, ops)
            && fired == FiredTicks(old(w.View()), w.resolution, ops)
            && forall h | h in handles ::
                 if Finished(ops, fired, h) then h in w.freed && h !in w.linked else h in w.linked && h !in w.freed
  {
    hide Wheel.Valid, After, FiredTicks, Trace, Step, HandlesOf;
    fired, handles := [], [];
    var live: set<Entry> := {};
    ghost var start := w.View();
    w.Shape();
    StartsEmpty(w);
    NoHandles(start, w.resolution);
    for i := 0 to |calls|
      invariant w.Valid() && Wf(start) && w.resolution > 0 && Tracks(w, handles, live)
      invariant HandlesOf(calls[..i], handles) && |Deadlines(calls[..i])| == |handles|
      invariant forall h | h in handles :: fresh(h)
      invariant forall e | e in w.linked :: fresh(e)
      invariant var ops := Trace(start, w.resolution, calls[..i], handles, 0);
                w.View() == After(start, w.resolution, ops) && fired == FiredTicks(start, w.resolution, ops)
    {
      var due, e;
      ghost var had := handles;
      due, e, live := Act(w, calls[i], handles, live);
      TraceActs(start, w.resolution, calls[..i], calls[i], handles, e);
      assert calls[..i] + [calls[i]] == calls[..i + 1];
      if e != null { handles := handles + [e]; }
      fired := fired + due;
      HandlesCount(calls[..i + 1], handles);
    }
    assert calls[..|calls|] == calls;
    forall h | h in handles
      ensures var ops := Trace(start, w.resolution, calls, handles, 0);
              if Finished(ops, fired, h) then h in w.freed && h !in w.linked else h in w.linked && h !in w.freed
    {
      var j :| 0 <= j < |handles| && handles[j] == h;
      HandleGood(start, w.resolution, calls, handles, j);
      LinkedIff(w, h);
    }
  }

  /** Set, cancel: the entry is freed, so a second cancel has no entry to look at. */
  method CancelledOnce() returns (w: Wheel, e: Entry)
    ensures fresh(w) && fresh(e) && w.Valid() && e in w.freed && e !in w.linked
  {
    w := new Wheel(1, 1);
    var x := w.Add(0, 0, true);
    w.Remove(x);
    e := x;
  }

  /**
   A timer on the linked wheel: whatever is set, cancelled and fired around it, if nobody
   cancels it and the ticks after it come regularly it is fired by the tick it is due at,
   once.
   */
  method DriveTimer(w: Wheel, before: seq<Call>, c: Call, after: seq<Call>, ghost t0: int, ghost phase: nat)
    returns (fired: seq<seq<Entry>>, handles: seq<Entry>)
    requires w.Valid() && w.linked == {} && c.Set? && c.memory
    requires Cancel(|Deadlines(before)|) !in after
    requires phase < w.resolution && c.now == t0 + phase && Regular(Passes(after), t0, w.resolution)
    modifies w, w.buckets
    ensures w.Valid() && HandlesOf(before + [c] + after, handles) && |Deadlines(before)| < |handles|
    ensures var ops := Trace(old(w.View()), w.resolution, before + [c] + after, handles, 0);
            && w.View() == After(old(w.View()), w.resolution, ops)
            && fired == FiredTicks(old(w.View()), w.resolution, ops)
    ensures var k := DueTick(c.seconds, phase, w.resolution, w.buckets.Length);
            OnlyAt(fired, if k <= |Passes(after)| then Some(|Passes(before)| + k) else None,
                   handles[|Deadlines(before)|])
  {
    hide Wheel.Valid, After, FiredTicks, Trace, Deadlines, Regular, Passes, Finished, OnlyAt, DueTick;
    StartsEmpty(w);
    w.Shape();
    ghost var start := w.View();
    fired, handles := Drive(w, before + [c] + after);
    TimerFires(start, w.resolution, before, c, after, handles, t0, phase);
  }
}

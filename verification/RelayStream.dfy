/**
 A proxied or tunnelled connection as a function of its events: what
 `proxy_on_upstream_event` of src/proxy/proxy_conn.c and the relay branches of
 `handle_read` and `handle_write` of src/proc/worker.c make of the byte streams on both
 sides, and what holds of every run.  Module Relay has the buffers the source works on.
 */
module RelayStream {
  import opened StringUtil
  import opened Buffer

  datatype Kind = UpstreamReady(writable: bool, readable: bool) | ClientReadable | ClientWritable | HangUp

  /** A readiness event together with the kernel's and the allocator's choices while it is handled. */
  datatype Event = Event(
    kind: Kind,
    upReads: seq<ReadEvent>,
    upWrites: seq<WriteEvent>,
    clientReads: seq<ReadEvent>,
    clientWrites: seq<WriteEvent>,
    reallocs: seq<bool>)

  /** What does not change while a request is relayed. */
  datatype Setup = Setup(
    tunnel: bool,
    caching: bool,       // cache_store is set, by this request or by an earlier one on the pooled connection
    request: string,
    badGateway: string,  // the response send_error(conn, 502) formats
    capIn: nat,
    capOut: nat,
    capWrite: nat,
    stale: string,       // cache_buf as the previous user of the pooled connection left it
    staleCap: nat)

  datatype State = State(
    sent: string,              // everything written to the client
    taken: string,             // everything read from the backend
    waiting: string,           // upstream_rbuf: read from the backend, not yet written to the client
    pushed: string,            // everything written to the backend
    heard: string,             // everything read from the client in a tunnel
    queued: string,            // upstream_wbuf: not yet written to the backend
    closed: bool,
    relayed: nat,              // once closed, how much of `sent` came from the backend
    cacheBuf: string,
    cacheCap: nat,
    inserted: Option<string>,  // what was handed to cache_insert
    drained: bool,             // every read from the backend so far found nothing waiting
    memoryOk: bool)            // no reallocation has failed

  /**
   The state `proxy_handle` leaves: the request queued, nothing moved yet.  Neither it nor
   `conn_reset` touches the capture.
   */
  function Start(c: Setup): State {
    State("", "", "", "", "", c.request, false, 0, c.stale, c.staleCap, None, true, true)
  }

  // ----- one event -----

  /** Add what is waiting to the response being gathered; the buffer grows by reallocation. */
  function Captured(c: Setup, s: State, reallocs: seq<bool>): (State, seq<bool>) {
    if !c.caching || s.waiting == "" then (s, reallocs)
    else
      var needed, more := |s.cacheBuf| + |s.waiting|, s.cacheBuf + s.waiting;
      if needed <= s.cacheCap then (s.(cacheBuf := more), reallocs)
      else if reallocs != [] && !reallocs[0] then (s.(memoryOk := false), reallocs[1..])
      else (s.(cacheBuf := more, cacheCap := if needed * 2 < 8192 then 8192 else needed * 2), Tail(reallocs))
  }

  /** A turn of the read loop: the state, the result of the read, and the choices that are left. */
  datatype Turn = Turn(
    s: State,
    n: Io,
    toRead: seq<ReadEvent>,
    toWrite: seq<WriteEvent>,
    reallocs: seq<bool>)

  predicate Fits(c: Setup, s: State) {
    |s.waiting| <= c.capIn && |s.queued| <= c.capOut
  }

  /** Bytes read from the backend, gathered if the response is to be cached. */
  function TakeIn(c: Setup, s: State, b: string, reallocs: seq<bool>): (State, seq<bool>) {
    Captured(c, s.(taken := s.taken + b, waiting := s.waiting + b, drained := s.drained && s.waiting == ""), reallocs)
  }

  /** What is waiting, written to the client as far as it takes it. */
  function PassOn(s: State, writes: seq<WriteEvent>): State {
    var o := WriteLoop(writes, s.waiting);
    s.(sent := s.sent + o.gone, waiting := o.left)
  }

  function RelayOnce(c: Setup, t: Turn): (r: Turn)
    requires Fits(c, t.s)
    ensures |r.toRead| + (if Moved(r.n) > 0 then 1 else 0) <= |t.toRead|
    ensures Fits(c, r.s)
  {
    var i := ReadOnce(t.toRead, c.capIn - |t.s.waiting|);
    if Moved(i.r) == 0 then t.(n := i.r, toRead := i.script)
    else
      var (s, reallocs) := TakeIn(c, t.s, i.bytes, t.reallocs);
      Turn(PassOn(s, t.toWrite), i.r, i.script, WriteLoop(t.toWrite, s.waiting).script, reallocs)
  }

  /** The read loop: until the backend or the room in the buffer runs out. */
  function RelayAll(c: Setup, t: Turn): (r: Turn)
    requires Fits(c, t.s)
    ensures Fits(c, r.s) && Moved(r.n) == 0
    decreases |t.toRead|
  {
    var u := RelayOnce(c, t);
    if Moved(u.n) == 0 then u else RelayAll(c, u)
  }

  /** `worker_conn_close`: the buffers go back to the pool empty. */
  function Ended(s: State): State {
    s.(closed := true, relayed := |s.sent|, waiting := "", queued := "")
  }

  /** The backend is done: a gathered response is handed to the cache. */
  function Concluded(c: Setup, s: State, n: Io): State {
    if n.Closed? && !c.tunnel && c.caching && s.cacheBuf != ""
    then Ended(s.(inserted := Some(s.cacheBuf), cacheBuf := "", cacheCap := 0))
    else Ended(s)
  }

  /** A write to the backend failed: one write of the 502 answer, if the buffer holds it, and close. */
  function Refused(c: Setup, s: State, writes: seq<WriteEvent>): State {
    var text := if |c.badGateway| <= c.capWrite then c.badGateway else "";
    var t := Ended(s);
    t.(sent := t.sent + WriteOnce(writes, text).gone)
  }

  /** One write of what is queued for the backend. */
  function PushOnce(s: State, writes: seq<WriteEvent>): State {
    var o := WriteOnce(writes, s.queued);
    s.(pushed := s.pushed + o.gone, queued := o.left)
  }

  /** `proxy_on_upstream_event`. */
  function OnUpstream(c: Setup, s: State, writable: bool, readable: bool, e: Event): State
    requires Fits(c, s)
  {
    var p := if writable then PushOnce(s, e.upWrites) else s;
    if writable && WriteOnce(e.upWrites, s.queued).r.Failed? then Refused(c, p, e.clientWrites)
    else if !readable then p
    else
      var t := RelayAll(c, Turn(p, Again, e.upReads, e.clientWrites, e.reallocs));
      if t.n.Closed? || t.n.Failed? then Concluded(c, t.s, t.n) else t.s
  }

  /** `handle_read` in a tunnel. */
  function OnClientReadable(c: Setup, s: State, e: Event): State
    requires Fits(c, s)
  {
    var i := ReadLoop(e.clientReads, c.capOut - |s.queued|);
    var t := s.(heard := s.heard + i.bytes, queued := s.queued + i.bytes);
    if i.r.Closed? || i.r.Failed? then Ended(t)
    else
      var o := WriteLoop(e.upWrites, t.queued);
      t.(pushed := t.pushed + o.gone, queued := o.left)
  }

  /** One event; a closed connection has no descriptor left to report on. */
  function Handled(c: Setup, s: State, e: Event): State
    requires Fits(c, s)
  {
    if s.closed then s
    else
      match e.kind
      case UpstreamReady(w, r) => OnUpstream(c, s, w, r, e)
      case ClientReadable => if c.tunnel then OnClientReadable(c, s, e) else s
      case ClientWritable => PassOn(s, e.clientWrites)
      case HangUp => Ended(s)
  }

  // ----- what every event keeps -----

  /** Nothing is lost, repeated or reordered in either direction; closing may only cut the end off. */
  predicate Conserves(c: Setup, s: State) {
    if s.closed then
      && s.relayed <= |s.sent|
      && s.sent[..s.relayed] <= s.taken
      && s.sent[s.relayed..] <= c.badGateway
      && s.pushed <= c.request + s.heard
    else
      && s.sent + s.waiting == s.taken
      && s.pushed + s.queued == c.request + s.heard
  }

  /** A gathered response against what was there before and the bytes the backend sent. */
  predicate Gathers(c: Setup, s: State, b: string) {
    s.memoryOk ==> if s.drained then b == c.stale + s.taken else |b| > |c.stale| + |s.taken|
  }

  predicate Captures(c: Setup, s: State) {
    && (c.caching && s.inserted.None? ==> Gathers(c, s, s.cacheBuf))
    && (!c.caching ==> s.cacheBuf == c.stale)
    && (!s.drained ==> s.taken != "")
    && (s.inserted.Some? ==>
          c.caching && !c.tunnel && s.closed && s.cacheBuf == "" && Gathers(c, s, s.inserted.value))
  }

  predicate Invariant(c: Setup, s: State) {
    Fits(c, s) && Conserves(c, s) && Captures(c, s)
  }

  lemma WriteOncePrefix(writes: seq<WriteEvent>, before: string, text: string)
    ensures var o := WriteOnce(writes, text);
            && (before + o.gone) + o.left == before + text && |o.left| <= |text|
            && (before + o.gone)[..|before|] == before && (before + o.gone)[|before|..] <= text
  {
    var o := WriteOnce(writes, text);
    assert (before + o.gone) + o.left == before + (o.gone + o.left);
    assert (before + o.gone)[|before|..] == o.gone;
  }

  lemma WriteLoopPrefix(writes: seq<WriteEvent>, before: string, text: string)
    ensures var o := WriteLoop(writes, text);
            (before + o.gone) + o.left == before + text && |o.left| <= |text|
  {
    hide WriteLoop;
    var o := WriteLoop(writes, text);
    assert (before + o.gone) + o.left == before + (o.gone + o.left);
  }

  lemma EndedKeeps(c: Setup, s: State)
    requires Fits(c, s) && Conserves(c, s) && !s.closed
    requires c.caching && s.inserted.None? ==> Gathers(c, s, s.cacheBuf)
    requires (!c.caching ==> s.cacheBuf == c.stale) && (!s.drained ==> s.taken != "")
    requires s.inserted.Some? ==> c.caching && !c.tunnel && s.cacheBuf == "" && Gathers(c, s, s.inserted.value)
    ensures Invariant(c, Ended(s))
  {
    assert s.sent[..|s.sent|] == s.sent && s.sent[|s.sent|..] == "";
  }

  lemma TakeInKeeps(c: Setup, s: State, b: string, reallocs: seq<bool>)
    requires Invariant(c, s) && !s.closed && |s.waiting + b| <= c.capIn && b != ""
    ensures var t := TakeIn(c, s, b, reallocs).0;
            Invariant(c, t) && !t.closed && t.inserted == s.inserted && t.waiting == s.waiting + b
  {
    Rejoin(s.sent, s.waiting, b);
    Rejoin(c.stale, s.taken, b);
  }

  lemma PassOnKeeps(c: Setup, s: State, writes: seq<WriteEvent>)
    requires Invariant(c, s) && !s.closed
    ensures Invariant(c, PassOn(s, writes))
  {
    hide WriteLoop;
    WriteLoopPrefix(writes, s.sent, s.waiting);
  }

  lemma RelayOnceKeeps(c: Setup, t: Turn)
    requires Invariant(c, t.s) && !t.s.closed && t.s.inserted.None?
    ensures var u := RelayOnce(c, t).s; Invariant(c, u) && !u.closed && u.inserted.None?
  {
    hide Invariant, TakeIn, ReadOnce, WriteLoop;
    InvariantFits(c, t.s);
    var i := ReadOnce(t.toRead, c.capIn - |t.s.waiting|);
    if Moved(i.r) > 0 {
      TakeInKeeps(c, t.s, i.bytes, t.reallocs);
      PassOnKeeps(c, TakeIn(c, t.s, i.bytes, t.reallocs).0, t.toWrite);
    }
  }

  lemma InvariantFits(c: Setup, s: State)
    requires Invariant(c, s)
    ensures Fits(c, s)
  {
  }

  lemma {:induction false} RelayAllKeeps(c: Setup, t: Turn)
    requires Invariant(c, t.s) && !t.s.closed && t.s.inserted.None?
    ensures Fits(c, t.s) && var u := RelayAll(c, t).s; Invariant(c, u) && !u.closed && u.inserted.None?
    decreases |t.toRead|
  {
    hide Invariant, RelayOnce;
    InvariantFits(c, t.s);
    RelayOnceKeeps(c, t);
    var u := RelayOnce(c, t);
    if Moved(u.n) > 0 { RelayAllKeeps(c, u); }
  }

  lemma RefusedKeeps(c: Setup, s: State, writes: seq<WriteEvent>)
    requires Invariant(c, s) && !s.closed
    ensures Invariant(c, Refused(c, s, writes))
  {
    hide WriteOnce;
    var text := if |c.badGateway| <= c.capWrite then c.badGateway else "";
    WriteOncePrefix(writes, s.sent, text);
  }

  lemma PushOnceKeeps(c: Setup, s: State, writes: seq<WriteEvent>)
    requires Invariant(c, s) && !s.closed
    ensures Invariant(c, PushOnce(s, writes))
  {
    hide WriteOnce;
    WriteOncePrefix(writes, s.pushed, s.queued);
  }

  lemma ConcludedKeeps(c: Setup, s: State, n: Io)
    requires Invariant(c, s) && !s.closed && s.inserted.None?
    ensures Invariant(c, Concluded(c, s, n))
  {
    EndedKeeps(c, s);
    if n.Closed? && !c.tunnel && c.caching && s.cacheBuf != "" {
      EndedKeeps(c, s.(inserted := Some(s.cacheBuf), cacheBuf := "", cacheCap := 0));
    }
  }

  lemma OnUpstreamKeeps(c: Setup, s: State, w: bool, r: bool, e: Event)
    requires Invariant(c, s) && !s.closed && s.inserted.None?
    ensures Fits(c, s) && Invariant(c, OnUpstream(c, s, w, r, e))
  {
    hide Invariant, RelayAll, Concluded, Refused, WriteOnce;
    InvariantFits(c, s);
    var p := s;
    if w {
      PushOnceKeeps(c, s, e.upWrites);
      p := PushOnce(s, e.upWrites);
      InvariantFits(c, p);
      RefusedKeeps(c, p, e.clientWrites);
    }
    var t := Turn(p, Again, e.upReads, e.clientWrites, e.reallocs);
    RelayAllKeeps(c, t);
    ConcludedKeeps(c, RelayAll(c, t).s, RelayAll(c, t).n);
  }

  lemma OnClientReadableKeeps(c: Setup, s: State, e: Event)
    requires Invariant(c, s) && !s.closed
    ensures Invariant(c, OnClientReadable(c, s, e))
  {
    hide ReadLoop, WriteLoop;
    var i := ReadLoop(e.clientReads, c.capOut - |s.queued|);
    var t := s.(heard := s.heard + i.bytes, queued := s.queued + i.bytes);
    assert s.pushed + (s.queued + i.bytes) == (s.pushed + s.queued) + i.bytes;
    assert c.request + (s.heard + i.bytes) == (c.request + s.heard) + i.bytes;
    EndedKeeps(c, t);
    WriteLoopPrefix(e.upWrites, t.pushed, t.queued);
  }

  lemma HandledKeeps(c: Setup, s: State, e: Event)
    requires Invariant(c, s)
    ensures Invariant(c, Handled(c, s, e))
  {
    hide Conserves, OnUpstream, OnClientReadable, PassOn, Ended;
    if !s.closed {
      match e.kind
      case UpstreamReady(w, r) => OnUpstreamKeeps(c, s, w, r, e);
      case ClientReadable => OnClientReadableKeeps(c, s, e);
      case ClientWritable => PassOnKeeps(c, s, e.clientWrites);
      case HangUp => EndedKeeps(c, s);
    }
  }

  // ----- runs -----

  function Ran(c: Setup, s: State, events: seq<Event>): State
    requires Invariant(c, s)
    decreases |events|
  {
    if events == [] then s
    else
      HandledKeeps(c, s, events[0]);
      Ran(c, Handled(c, s, events[0]), events[1..])
  }

  lemma {:induction false} RanKeeps(c: Setup, s: State, events: seq<Event>)
    requires Invariant(c, s)
    ensures Invariant(c, Ran(c, s, events))
    decreases |events|
  {
    hide Invariant, Handled;
    if events != [] {
      InvariantFits(c, s);
      HandledKeeps(c, s, events[0]);
      RanKeeps(c, Handled(c, s, events[0]), events[1..]);
    }
  }

  lemma StartKeeps(c: Setup)
    requires |c.request| <= c.capOut
    ensures Invariant(c, Start(c))
  {
  }

  /**
   Every run of events from the start, with any partial reads and writes in each.  Both
   directions pass on what came in, in order, up to what is still in a buffer; after
   closing the client has a prefix of the backend's bytes, then at most a prefix of the
   502 answer.  As long as no reallocation fails, what the cache was given is the backend's
   stream exactly when no read found bytes still waiting for the client and the pooled
   connection came without a capture of its previous user.
   */
  lemma RunConserves(c: Setup, events: seq<Event>)
    requires |c.request| <= c.capOut
    ensures Invariant(c, Start(c))
    ensures var s := Ran(c, Start(c), events);
            && s.pushed <= c.request + s.heard
            && (!s.closed ==> s.sent + s.waiting == s.taken && s.pushed + s.queued == c.request + s.heard)
            && (s.closed ==>
                  s.relayed <= |s.sent| && s.sent[..s.relayed] <= s.taken && s.sent[s.relayed..] <= c.badGateway)
            && (s.inserted.Some? && s.memoryOk ==> (s.inserted.value == s.taken <==> s.drained && c.stale == ""))
  {
    hide Ran;
    StartKeeps(c);
    RanKeeps(c, Start(c), events);
    var s := Ran(c, Start(c), events);
    if s.inserted.Some? && s.memoryOk && s.drained { OnlyEmptyPrefix(c.stale, s.taken); }
  }

  lemma OnlyEmptyPrefix(a: string, b: string)
    ensures a + b == b <==> a == ""
  {
    if a == "" { assert a + b == b; } else { assert |a + b| > |b|; }
  }

  // ----- peers that keep up -----

  predicate AllOk(s: seq<bool>) {
    forall i | 0 <= i < |s| :: s[i]
  }

  /** The client takes all the backend sends in this event and memory does not run out. */
  predicate Smooth(e: Event) {
    Willing(e.clientWrites) && |e.clientWrites| >= Pending(e.upReads) && AllOk(e.reallocs)
  }

  /** The client has all the backend sent, no more and no less, and nothing of it was gathered twice or lost. */
  predicate Clear(s: State) {
    && s.drained && s.memoryOk
    && if s.closed then s.relayed <= |s.sent| && s.sent[..s.relayed] == s.taken
       else s.sent == s.taken && s.waiting == ""
  }

  /** So far so good, and the client will take what the backend is about to send. */
  predicate Flowing(t: Turn) {
    && !t.s.closed && Clear(t.s) && AllOk(t.reallocs)
    && Willing(t.toWrite) && |t.toWrite| >= Pending(t.toRead)
  }

  lemma ReadOncePending(script: seq<ReadEvent>, room: nat)
    ensures var i := ReadOnce(script, room); |i.bytes| + Pending(i.script) <= Pending(script)
  {
  }

  lemma TakeInSmooth(c: Setup, s: State, b: string, reallocs: seq<bool>)
    requires !s.closed && Clear(s) && AllOk(reallocs)
    ensures var (t, rest) := TakeIn(c, s, b, reallocs);
            && t.waiting == b && t.drained && t.memoryOk && AllOk(rest) && !t.closed
            && t.sent == s.sent && t.taken == s.taken + b
  {
  }

  lemma RelayOnceFlows(c: Setup, t: Turn)
    requires Fits(c, t.s) && Flowing(t)
    ensures Flowing(RelayOnce(c, t))
  {
    hide ReadOnce, WriteLoop, TakeIn, Willing, Pending, AllOk;
    var i := ReadOnce(t.toRead, c.capIn - |t.s.waiting|);
    ReadOncePending(t.toRead, c.capIn - |t.s.waiting|);
    if Moved(i.r) > 0 {
      TakeInSmooth(c, t.s, i.bytes, t.reallocs);
      WriteLoopEmpties(t.toWrite, i.bytes);
    }
  }

  lemma {:induction false} RelayAllFlows(c: Setup, t: Turn)
    requires Fits(c, t.s) && Flowing(t)
    ensures Flowing(RelayAll(c, t))
    decreases |t.toRead|
  {
    hide Flowing, RelayOnce;
    RelayOnceFlows(c, t);
    var u := RelayOnce(c, t);
    if Moved(u.n) > 0 { RelayAllFlows(c, u); }
  }

  lemma EndedClear(c: Setup, s: State, n: Io, writes: seq<WriteEvent>)
    requires !s.closed && Clear(s)
    ensures Clear(Ended(s)) && Clear(Concluded(c, s, n)) && Clear(Refused(c, s, writes))
  {
    hide WriteOnce;
    assert s.sent[..|s.sent|] == s.sent;
    var text := if |c.badGateway| <= c.capWrite then c.badGateway else "";
    WriteOncePrefix(writes, s.sent, text);
  }

  lemma HandledClear(c: Setup, s: State, e: Event)
    requires Fits(c, s) && Clear(s) && Smooth(e)
    ensures Clear(Handled(c, s, e))
  {
    hide ReadLoop, WriteOnce, WriteLoop, Willing, Pending, AllOk, RelayAll, Refused, Concluded, Ended;
    if !s.closed {
      match e.kind
      case UpstreamReady(w, r) =>
        var p := if w then PushOnce(s, e.upWrites) else s;
        var t := Turn(p, Again, e.upReads, e.clientWrites, e.reallocs);
        RelayAllFlows(c, t);
        EndedClear(c, p, Again, e.clientWrites);
        EndedClear(c, RelayAll(c, t).s, RelayAll(c, t).n, []);
      case ClientReadable =>
        var i := ReadLoop(e.clientReads, c.capOut - |s.queued|);
        EndedClear(c, s.(heard := s.heard + i.bytes, queued := s.queued + i.bytes), Again, []);
      case ClientWritable =>
        WriteLoopPrefix(e.clientWrites, s.sent, "");
      case HangUp =>
        EndedClear(c, s, Again, []);
    }
  }

  /** With a client that keeps up, it has all the backend sent after every event, and no byte is gathered twice. */
  lemma {:induction false} SmoothRun(c: Setup, s: State, events: seq<Event>)
    requires Invariant(c, s) && Clear(s) && forall e | e in events :: Smooth(e)
    ensures Clear(Ran(c, s, events))
    decreases |events|
  {
    hide Invariant, Clear, Handled, Smooth;
    if events != [] {
      var e := events[0];
      assert e in events;
      InvariantFits(c, s);
      HandledKeeps(c, s, e);
      HandledClear(c, s, e);
      SmoothRun(c, Handled(c, s, e), events[1..]);
    }
  }

  // ----- progress -----

  /** A talking backend is read to the end of what it has to say. */
  lemma {:induction false} RelayAllReads(c: Setup, t: Turn)
    requires Fits(c, t.s) && Flowing(t) && Talking(t.toRead) && c.capIn > 0
    ensures var u := RelayAll(c, t); u.n == Again && u.toRead == []
    decreases |t.toRead|
  {
    hide WriteLoop, TakeIn, Willing, Pending, AllOk, PassOn;
    var u := RelayOnce(c, t);
    assert Talking(Tail(t.toRead));
    RelayOnceFlows(c, t);
    if Moved(u.n) > 0 { RelayAllReads(c, u); }
  }

  /** An event with a talking backend and a client that keeps up: all of it reaches the client at once. */
  lemma UpstreamDelivers(c: Setup, s: State, e: Event)
    requires Invariant(c, s) && !s.closed && Clear(s) && Smooth(e) && c.capIn > 0
    requires e.kind.UpstreamReady? && e.kind.readable && WriteFails !in e.upWrites && Talking(e.upReads)
    ensures var p := if e.kind.writable then PushOnce(s, e.upWrites) else s;
            var t := Turn(p, Again, e.upReads, e.clientWrites, e.reallocs);
            && RelayAll(c, t).toRead == [] && Handled(c, s, e) == RelayAll(c, t).s
            && !Handled(c, s, e).closed && Handled(c, s, e).sent == Handled(c, s, e).taken
  {
    hide WriteLoop, Willing, Pending, AllOk, RelayAll;
    var p := if e.kind.writable then PushOnce(s, e.upWrites) else s;
    var t := Turn(p, Again, e.upReads, e.clientWrites, e.reallocs);
    RelayAllReads(c, t);
    RelayAllFlows(c, t);
  }

  /** When the backend ends its stream the connection is closed and a gathered response goes to the cache. */
  lemma EndCloses(c: Setup, s: State, e: Event)
    requires Invariant(c, s) && !s.closed && |s.waiting| < c.capIn
    requires e.kind == UpstreamReady(false, true) && Ending(e.upReads)
    ensures var t := Handled(c, s, e);
            && t.closed && t.sent == s.sent && t.taken == s.taken
            && t.inserted == if !c.tunnel && c.caching && s.cacheBuf != "" then Some(s.cacheBuf) else None
  {
    hide WriteLoop;
  }

  /** A willing client gets everything that waited for it. */
  lemma ClientTakesAll(c: Setup, s: State, e: Event)
    requires Invariant(c, s) && !s.closed && e.kind.ClientWritable?
    requires Willing(e.clientWrites) && |e.clientWrites| >= |s.waiting|
    ensures var t := Handled(c, s, e); !t.closed && t.sent == t.taken && t.waiting == ""
  {
    hide WriteLoop;
    WriteLoopEmpties(e.clientWrites, s.waiting);
    WriteLoopPrefix(e.clientWrites, s.sent, s.waiting);
  }

  /** In a tunnel a willing backend gets the request and everything a talking client has said. */
  lemma TunnelDelivers(c: Setup, s: State, e: Event)
    requires Invariant(c, s) && !s.closed && c.tunnel && e.kind.ClientReadable?
    requires Talking(e.clientReads) && Willing(e.upWrites) && |e.upWrites| >= c.capOut
    ensures var t := Handled(c, s, e); !t.closed && t.pushed == c.request + t.heard && t.queued == ""
  {
    hide WriteLoop, ReadLoop;
    var i := ReadLoop(e.clientReads, c.capOut - |s.queued|);
    ReadLoopTalking(e.clientReads, c.capOut - |s.queued|);
    WriteLoopEmpties(e.upWrites, s.queued + i.bytes);
    OnClientReadableKeeps(c, s, e);
  }

  // ----- the request on its way to the backend -----

  function Least(a: nat, b: nat): nat {
    if a < b then a else b
  }

  /** How many bytes the backend is ready to take in an event: what the first write of a writable event accepts. */
  function Room(e: Event): nat {
    if e.kind.UpstreamReady? && e.kind.writable && e.upWrites != [] && e.upWrites[0].Accept? then e.upWrites[0].n else 0
  }

  lemma {:induction false} RelayAllLeaves(c: Setup, t: Turn)
    requires Fits(c, t.s)
    ensures var u := RelayAll(c, t).s;
            u.pushed == t.s.pushed && u.queued == t.s.queued && u.heard == t.s.heard && u.closed == t.s.closed
    decreases |t.toRead|
  {
    hide RelayOnce;
    RelayOnceLeaves(c, t);
    var u := RelayOnce(c, t);
    if Moved(u.n) > 0 { RelayAllLeaves(c, u); }
  }

  lemma RelayOnceLeaves(c: Setup, t: Turn)
    requires Fits(c, t.s)
    ensures var u := RelayOnce(c, t).s;
            u.pushed == t.s.pushed && u.queued == t.s.queued && u.heard == t.s.heard && u.closed == t.s.closed
  {
    hide ReadOnce, WriteLoop;
  }

  lemma PushOnceTakes(s: State, e: Event)
    requires e.kind.UpstreamReady? && e.kind.writable
    ensures var n, t := Least(Room(e), |s.queued|), PushOnce(s, e.upWrites);
            t.pushed == s.pushed + s.queued[..n] && t.queued == s.queued[n..]
  {
  }

  /**
   An event in which the backend can be written to and takes `n` bytes: exactly the first `n`
   queued bytes, or all if there are fewer, have then been written to it.  Other events of a
   connection that is no tunnel write nothing to it.
   */
  lemma EventPushes(c: Setup, s: State, e: Event)
    requires Invariant(c, s) && !s.closed && (!c.tunnel || e.kind.UpstreamReady?)
    ensures var n, t := Least(Room(e), |s.queued|), Handled(c, s, e);
            t.pushed == s.pushed + s.queued[..n] && (!t.closed ==> t.queued == s.queued[n..])
  {
    hide WriteOnce, WriteLoop, ReadLoop, RelayAll, PushOnce;
    assert s.queued[..0] == "" && s.queued[0..] == s.queued;
    if e.kind.UpstreamReady? {
      var p := s;
      if e.kind.writable {
        PushOnceTakes(s, e);
        PushOnceKeeps(c, s, e.upWrites);
        p := PushOnce(s, e.upWrites);
      }
      RelayAllLeaves(c, Turn(p, Again, e.upReads, e.clientWrites, e.reallocs));
    }
  }

  /** What the backend is ready to take over a run, until the connection is closed. */
  function Offered(c: Setup, s: State, events: seq<Event>): nat
    requires Invariant(c, s)
    decreases |events|
  {
    if events == [] || s.closed then 0
    else
      HandledKeeps(c, s, events[0]);
      Room(events[0]) + Offered(c, Handled(c, s, events[0]), events[1..])
  }

  lemma {:induction false} ClosedStays(c: Setup, s: State, events: seq<Event>)
    requires Invariant(c, s) && s.closed
    ensures Ran(c, s, events) == s
    decreases |events|
  {
    if events != [] { ClosedStays(c, s, events[1..]); }
  }

  lemma TakeTwice(q: string, a: nat, b: nat)
    ensures var n := Least(a, |q|);
            && Least(a + b, |q|) == n + Least(b, |q[n..]|)
            && q[..n] + q[n..][..Least(b, |q[n..]|)] == q[..Least(a + b, |q|)]
            && q[n..][Least(b, |q[n..]|)..] == q[Least(a + b, |q|)..]
  {
  }

  /** Over any run without a tunnel, what has been written is the first bytes queued, as many as were taken. */
  lemma {:induction false} RunPushes(c: Setup, s: State, events: seq<Event>)
    requires Invariant(c, s) && !s.closed && !c.tunnel
    ensures var n, t := Least(Offered(c, s, events), |s.queued|), Ran(c, s, events);
            t.pushed == s.pushed + s.queued[..n] && (!t.closed ==> t.queued == s.queued[n..])
    decreases |events|
  {
    hide Invariant, Handled, Room;
    assert s.queued[..0] == "" && s.queued[0..] == s.queued;
    if events != [] {
      var e := events[0];
      InvariantFits(c, s);
      EventPushes(c, s, e);
      HandledKeeps(c, s, e);
      var u, k := Handled(c, s, e), Room(e);
      if u.closed {
        ClosedStays(c, u, events[1..]);
      } else {
        RunPushes(c, u, events[1..]);
        TakeTwice(s.queued, k, Offered(c, u, events[1..]));
        var n := Least(k, |s.queued|);
        Rejoin(s.pushed, s.queued[..n], u.queued[..Least(Offered(c, u, events[1..]), |u.queued|)]);
      }
    }
  }

  /** The request reaches the backend as a whole exactly if the backend is ready to take as much before the end. */
  lemma RequestPushed(c: Setup, events: seq<Event>)
    requires |c.request| <= c.capOut && !c.tunnel
    ensures Invariant(c, Start(c))
    ensures var t := Ran(c, Start(c), events);
            && (t.pushed == c.request <==> Offered(c, Start(c), events) >= |c.request|)
            && (t.pushed == c.request && !t.closed ==> t.queued == "")
  {
    hide Ran, Offered, Invariant;
    StartKeeps(c);
    RunPushes(c, Start(c), events);
    var n := Least(Offered(c, Start(c), events), |c.request|);
    assert "" + c.request[..n] == c.request[..n];
    assert c.request[..|c.request|] == c.request;
  }

  // ----- failures -----

  /** A failed write to the backend closes the connection, and the client gets the first bytes of the 502 answer. */
  lemma FailedWriteRefuses(c: Setup, s: State, e: Event)
    requires Invariant(c, s) && !s.closed && e.kind.UpstreamReady? && e.kind.writable && s.queued != ""
    requires e.upWrites != [] && e.upWrites[0].WriteFails? && |c.badGateway| <= c.capWrite
    ensures var t := Handled(c, s, e);
            && t.closed && t.inserted == s.inserted && t.taken == s.taken
            && (e.clientWrites != [] && e.clientWrites[0].Accept? ==>
                  t.sent == s.sent + c.badGateway[..Least(e.clientWrites[0].n, |c.badGateway|)])
  {
    hide RelayAll;
  }

  /** A read from the backend that fails closes the connection, and nothing goes to the cache. */
  lemma FailedReadCloses(c: Setup, s: State, e: Event)
    requires Invariant(c, s) && !s.closed && |s.waiting| < c.capIn
    requires e.kind == UpstreamReady(false, true) && e.upReads != [] && e.upReads[0].ReadFails?
    ensures var t := Handled(c, s, e); t.closed && t.sent == s.sent && t.taken == s.taken && t.inserted.None?
  {
    hide WriteLoop;
  }

  /** A client that hangs up, or ends or breaks its side of a tunnel, closes the connection. */
  lemma ClientCloses(c: Setup, s: State, e: Event)
    requires Invariant(c, s) && !s.closed
    requires var r := ReadLoop(e.clientReads, c.capOut - |s.queued|).r;
             e.kind.HangUp? || (e.kind.ClientReadable? && c.tunnel && (r.Closed? || r.Failed?))
    ensures Handled(c, s, e).closed
  {
  }

  // ----- a client that does not keep up -----

  /** An event that only brings bytes of the backend. */
  function Brings(r: ReadEvent): Event {
    Event(UpstreamReady(false, true), [r], [], [], [], [])
  }

  /** A blocked client: the bytes stay, and all that waits is gathered. */
  lemma BlockedRead(c: Setup, s: State, b: string)
    requires Fits(c, s) && !s.closed && c.caching && b != "" && |s.waiting| + |b| < c.capIn
    ensures var t := Handled(c, s, Brings(Bytes(b)));
            && !t.closed && t.inserted == s.inserted && t.memoryOk == s.memoryOk
            && t.taken == s.taken + b && t.waiting == s.waiting + b && t.cacheBuf == s.cacheBuf + t.waiting
            && t.drained == (s.drained && s.waiting == "")
  {
    var e := Brings(Bytes(b));
    var t := Turn(s, Again, e.upReads, [], []);
    var u := RelayOnce(c, t);
    assert WriteLoop([], s.waiting + b).left == s.waiting + b;
    assert u.toRead == [] && Moved(u.n) == |b|;
    assert RelayOnce(c, u) == u.(n := Again);
    assert RelayAll(c, u) == u.(n := Again);
  }

  /**
   The client is blocked while the backend sends "a", then "b", then ends: the byte that
   was still waiting is gathered twice, and the cache gets "aab" for the stream "ab".
   */
  lemma GatheredTwice(c: Setup)
    requires c.caching && !c.tunnel && c.capIn >= 3 && |c.request| <= c.capOut
    ensures Invariant(c, Start(c))
    ensures var s := Ran(c, Start(c), [Brings(Bytes("a")), Brings(Bytes("b")), Brings(Eof)]);
            s.taken == "ab" && s.inserted == Some(c.stale + "aab") && s.memoryOk && !s.drained
  {
    hide Handled, Invariant, Brings;
    var e0, e1, e2 := Brings(Bytes("a")), Brings(Bytes("b")), Brings(Eof);
    var s0 := Start(c);
    StartKeeps(c);
    BlockedRead(c, s0, "a");
    HandledKeeps(c, s0, e0);
    var s1 := Handled(c, s0, e0);
    InvariantFits(c, s1);
    BlockedRead(c, s1, "b");
    HandledKeeps(c, s1, e1);
    var s2 := Handled(c, s1, e1);
    InvariantFits(c, s2);
    assert s1.waiting == "a" && s2.waiting == "ab" && s2.cacheBuf == (c.stale + "a") + "ab";
    Rejoin(c.stale, "a", "ab");
    assert "a" + "ab" == "aab";
    EndOfStream(c, s2);
    ThreeEvents(c, s0, e0, e1, e2);
  }

  // ----- a pooled connection and its next user -----

  /** A cached response is cut short by the client hanging up: what was gathered of it stays in the connection. */
  lemma HangUpLeaves(c: Setup)
    requires c.caching && !c.tunnel && c.stale == "" && c.capIn >= 2 && |c.request| <= c.capOut
    ensures Invariant(c, Start(c))
    ensures Ran(c, Start(c), [Brings(Bytes("a")), HANG_UP]).cacheBuf == "a"
  {
    hide Handled, Invariant, Brings;
    var e := Brings(Bytes("a"));
    StartKeeps(c);
    BlockedRead(c, Start(c), "a");
    TwoEvents(c, Start(c), e, HANG_UP);
    var s := Handled(c, Start(c), e);
    InvariantFits(c, s);
    HangUpKeepsCapture(c, s);
    assert "" + "a" == "a";
  }

  const HANG_UP := Event(HangUp, [], [], [], [], [])

  lemma HangUpKeepsCapture(c: Setup, s: State)
    requires Fits(c, s)
    ensures Handled(c, s, HANG_UP).cacheBuf == s.cacheBuf
  {
  }

  /** The next cached response, "b" and no read with anything waiting, is stored behind it as "ab". */
  lemma StaleCaptured(c: Setup)
    requires c.caching && !c.tunnel && c.stale == "a" && c.capIn >= 2 && |c.request| <= c.capOut
    ensures Invariant(c, Start(c))
    ensures var s := Ran(c, Start(c), [Brings(Bytes("b")), Brings(Eof)]);
            s.taken == "b" && s.inserted == Some("ab") && s.drained && s.memoryOk
  {
    hide Handled, Invariant, Brings;
    StartKeeps(c);
    BlockedRead(c, Start(c), "b");
    TwoEvents(c, Start(c), Brings(Bytes("b")), Brings(Eof));
    var s := Handled(c, Start(c), Brings(Bytes("b")));
    assert "" + "b" == "b" && s.cacheBuf == "ab";
    EndOfStream(c, s);
  }

  lemma TwoEvents(c: Setup, s0: State, e0: Event, e1: Event)
    requires Invariant(c, s0)
    ensures var s1 := Handled(c, s0, e0);
            Invariant(c, s1) && Ran(c, s0, [e0, e1]) == Handled(c, s1, e1)
  {
    hide Handled, Invariant;
    InvariantFits(c, s0);
    HandledKeeps(c, s0, e0);
    var s1 := Handled(c, s0, e0);
    InvariantFits(c, s1);
    HandledKeeps(c, s1, e1);
    assert [e0, e1][1..] == [e1] && [e1][1..] == [];
    assert Ran(c, s1, [e1]) == Handled(c, s1, e1);
  }

  /** One use of a pooled connection: how it was set up, apart from what it found, and what happened. */
  datatype Session = Session(c: Setup, events: seq<Event>)

  /** Every request fits the write buffer, as what `build_proxy_request` queued does. */
  predicate SessionsOk(ss: seq<Session>) {
    forall i | 0 <= i < |ss| :: |ss[i].c.request| <= ss[i].c.capOut
  }

  /** The set-up of the last use, with what the uses before it left. */
  function Found(ss: seq<Session>): Setup
    requires ss != [] && SessionsOk(ss)
    decreases |ss|, 0
  {
    var n := |ss| - 1;
    var before := ss[..n];
    if before == [] then ss[n].c.(stale := "", staleCap := 0)
    else ss[n].c.(stale := Reached(before).cacheBuf, staleCap := Reached(before).cacheCap)
  }

  /** Where the last use of a pooled connection ended. */
  function Reached(ss: seq<Session>): State
    requires ss != [] && SessionsOk(ss)
    decreases |ss|, 1
  {
    var c := Found(ss);
    StartKeeps(c);
    Ran(c, Start(c), ss[|ss| - 1].events)
  }

  /** Since the last response went to the cache, no use that was to be cached has read anything. */
  predicate NothingKept(ss: seq<Session>)
    requires SessionsOk(ss)
  {
    ss == []
    || Reached(ss).inserted.Some?
    || ((ss[|ss| - 1].c.caching ==> Reached(ss).taken == "") && NothingKept(ss[..|ss| - 1]))
  }

  /** In none of the uses did a reallocation fail. */
  predicate MemoryHeld(ss: seq<Session>)
    requires SessionsOk(ss)
  {
    ss == [] || (Reached(ss).memoryOk && MemoryHeld(ss[..|ss| - 1]))
  }

  lemma LastOfRun(c: Setup, events: seq<Event>)
    requires |c.request| <= c.capOut
    ensures Invariant(c, Start(c))
    ensures var s := Ran(c, Start(c), events);
            s.memoryOk ==> (s.cacheBuf == "" <==> s.inserted.Some? || (c.stale == "" && (c.caching ==> s.taken == "")))
  {
    hide Ran;
    StartKeeps(c);
    RanKeeps(c, Start(c), events);
  }

  lemma {:induction false} LeftBehindIff(ss: seq<Session>)
    requires SessionsOk(ss) && MemoryHeld(ss)
    ensures ss != [] ==> (Reached(ss).cacheBuf == "" <==> NothingKept(ss))
    decreases |ss|
  {
    hide Ran;
    if ss != [] {
      var before := ss[..|ss| - 1];
      LeftBehindIff(before);
      LastOfRun(Found(ss), ss[|ss| - 1].events);
    }
  }

  /**
   Over any uses of one pooled connection, as long as no reallocation fails: what the last
   use hands to the cache is its backend's stream exactly when each of its reads found
   nothing waiting, and nothing was left behind: no earlier use that was to be cached has
   read anything since the last response went to the cache.
   */
  lemma PooledCapture(ss: seq<Session>)
    requires ss != [] && SessionsOk(ss) && MemoryHeld(ss) && Reached(ss).inserted.Some?
    ensures var s := Reached(ss);
            s.inserted.value == s.taken <==> s.drained && NothingKept(ss[..|ss| - 1])
  {
    hide Ran;
    LeftBehindIff(ss[..|ss| - 1]);
    RunConserves(Found(ss), ss[|ss| - 1].events);
  }

  lemma EndOfStream(c: Setup, s: State)
    requires Invariant(c, s) && !s.closed && |s.waiting| < c.capIn && c.caching && !c.tunnel && s.cacheBuf != ""
    ensures var t := Handled(c, s, Brings(Eof));
            t.taken == s.taken && t.inserted == Some(s.cacheBuf) && t.memoryOk == s.memoryOk && t.drained == s.drained
  {
    hide WriteLoop;
  }

  lemma ThreeEvents(c: Setup, s0: State, e0: Event, e1: Event, e2: Event)
    requires Invariant(c, s0)
    ensures var s1 := Handled(c, s0, e0);
            && Invariant(c, s1)
            && var s2 := Handled(c, s1, e1);
               Invariant(c, s2) && Ran(c, s0, [e0, e1, e2]) == Handled(c, s2, e2)
  {
    hide Handled, Invariant;
    InvariantFits(c, s0);
    HandledKeeps(c, s0, e0);
    var s1 := Handled(c, s0, e0);
    InvariantFits(c, s1);
    HandledKeeps(c, s1, e1);
    var s2 := Handled(c, s1, e1);
    InvariantFits(c, s2);
    HandledKeeps(c, s2, e2);
    assert [e0, e1, e2][1..] == [e1, e2] && [e1, e2][1..] == [e2] && [e2][1..] == [];
    assert Ran(c, s2, [e2]) == Handled(c, s2, e2);
    assert Ran(c, s1, [e1, e2]) == Ran(c, s2, [e2]);
  }
}

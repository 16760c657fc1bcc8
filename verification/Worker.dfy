/**
 The two ends of a request in a worker: reading it off the client buffer (`handle_read`
 of src/proc/worker.c) and queueing it for the backend (`build_proxy_request` of
 src/proxy/proxy_conn.c).
 */
module Worker {
  import opened StringUtil
  import opened HttpParser
  import opened ParserStability
  import opened ProxyRequest
  import opened ProxyRoundTrip
  import opened Buffer

  // ----- parse and consume -----

  datatype ReadOutcome = Waiting | BadRequest | Gone | Ready(req: Request, taken: Taken)

  /** Parse what is in the buffer, and on success fill in the request and consume its bytes. */
  method ParseAndConsume(rbuf: Buf) returns (r: ReadOutcome)
    requires rbuf.Valid()
    modifies rbuf
    ensures rbuf.Valid() && !r.Gone?
    ensures var data := old(rbuf.Contents());
            var o := Parse(data);
            && (r.Ready? <==> o.result == Done) && (r.BadRequest? <==> o.result == Error)
            && (r.Ready? ==>
                  && o.state.parsedBytes <= |data|
                  && r.taken == Taken(o.state, data[..o.state.parsedBytes])
                  && r.req == Populate(o.state, data)
                  && rbuf.Contents() == data[o.state.parsedBytes..])
            && (!r.Ready? ==> rbuf.Contents() == data)
  {
    hide ParseFrom, Populate;
    var data := rbuf.data[rbuf.readPos..rbuf.writePos];
    ParseEmpty();
    if |data| == 0 { return Waiting; }
    var ps := new ParseState();
    var pr := ps.ParseRequest(data);
    if pr == Incomplete { return Waiting; }
    if pr == Error { return BadRequest; }
    DoneLength(FRESH, data);
    var state := Parsed(ps.verb, ps.uri, ps.version, ps.headers[..ps.headerCount], ps.contentLength, ps.chunked,
                        ps.keepAlive, ps.hasConnection, ps.upgrade, ps.upgradeProtocol, ps.bodyOffset, ps.parsedBytes);
    r := Ready(Populate(state, data), Taken(state, data[..state.parsedBytes]));
    rbuf.Consume(state.parsedBytes);
  }

  /**
   `handle_read` outside a tunnel: drain the descriptor, then one parse attempt.  The
   connection is gone exactly when the last read found the end of the stream or an error.
   */
  method HandleRead(rbuf: Buf, fd: Socket) returns (r: ReadOutcome, ghost chunk: string)
    requires rbuf.Valid()
    modifies rbuf, rbuf.data, fd
    ensures rbuf.Valid() && fd.taken == old(fd.taken) + chunk
    ensures var i := ReadLoop(old(fd.toRead), rbuf.data.Length - |old(rbuf.Contents())|);
            && chunk == i.bytes && fd.toRead == i.script && (r.Gone? <==> i.r.Closed? || i.r.Failed?)
    ensures r.Gone? ==> rbuf.Contents() == old(rbuf.Contents()) + chunk
    ensures !r.Gone? ==>
              var f := Feed(old(rbuf.Contents()), [chunk]);
              && f.pending == rbuf.Contents() && (f.failed <==> r.BadRequest?)
              && f.taken == (if r.Ready? then [r.taken] else [])
  {
    hide ParseFrom, Populate, ReadLoop;
    ghost var pending := rbuf.Contents();
    var n;
    n, chunk := rbuf.FillFrom(fd);
    if n.Closed? || n.Failed? { return Gone, chunk; }
    OneAttempt(pending, chunk);
    r := ParseAndConsume(rbuf);
  }

  lemma OneAttempt(pending: string, chunk: string)
    ensures var buf, f := pending + chunk, Feed(pending, [chunk]);
            var o := Parse(buf);
            match o.result
            case Incomplete => f == Feeding([], false, buf)
            case Error => f == Feeding([], true, buf)
            case Done =>
              && 0 < o.state.parsedBytes <= |buf|
              && f == Feeding([Taken(o.state, buf[..o.state.parsedBytes])], false, buf[o.state.parsedBytes..])
  {
    hide ParseFrom;
    ParseEmpty();
    var buf := pending + chunk;
    var o := Parse(buf);
    assert [chunk][1..] == [];
    if o.result == Done { DoneLength(FRESH, buf); }
  }

  /** A connection served so far: what was taken off the stream, how it stands, and the pieces the reads delivered. */
  datatype Serving = Serving(taken: seq<Taken>, failed: bool, gone: bool, pending: string, chunks: seq<string>)

  function Before(taken: seq<Taken>, chunks: seq<string>, s: Serving): Serving {
    s.(taken := taken + s.taken, chunks := chunks + s.chunks)
  }

  lemma OneFeed(pending: string, chunk: string)
    ensures |Feed(pending, [chunk]).pending| <= |pending + chunk|
  {
    hide Feed;
    OneAttempt(pending, chunk);
  }

  /** Read event after read event, until a bad request or the end of the connection. */
  function Serve(pending: string, cap: nat, events: seq<seq<ReadEvent>>): (s: Serving)
    requires |pending| <= cap
    ensures |s.chunks| <= |events| && (!s.failed && !s.gone ==> |s.chunks| == |events|)
    ensures s.gone ==> s.chunks != []
    decreases |events|
  {
    if events == [] then Serving([], false, false, pending, [])
    else
      var i := ReadLoop(events[0], cap - |pending|);
      if i.r.Closed? || i.r.Failed? then Serving([], false, true, pending + i.bytes, [i.bytes])
      else
        var f := Feed(pending, [i.bytes]);
        OneFeed(pending, i.bytes);
        if f.failed then Serving(f.taken, true, false, f.pending, [i.bytes])
        else Before(f.taken, [i.bytes], Serve(f.pending, cap, events[1..]))
  }

  /** What was fed to the parser: everything read, except what came with the end of the connection. */
  function Fed(s: Serving): seq<string>
    requires s.gone ==> s.chunks != []
  {
    if s.gone then s.chunks[..|s.chunks| - 1] else s.chunks
  }

  /** The requests taken are those of `Feed` over the pieces the kernel happened to deliver. */
  lemma {:induction false} ServeIsFeed(pending: string, cap: nat, events: seq<seq<ReadEvent>>)
    requires |pending| <= cap
    ensures var s := Serve(pending, cap, events);
            var f := Feed(pending, Fed(s));
            f.taken == s.taken && f.failed == s.failed && (!s.gone ==> f.pending == s.pending)
    decreases |events|
  {
    hide ReadLoop, Feed;
    FedNothing(pending);
    if events != [] {
      var i := ReadLoop(events[0], cap - |pending|);
      if !(i.r.Closed? || i.r.Failed?) {
        var f := Feed(pending, [i.bytes]);
        OneFeed(pending, i.bytes);
        if !f.failed {
          var rest := Serve(f.pending, cap, events[1..]);
          ServeIsFeed(f.pending, cap, events[1..]);
          assert Fed(Serve(pending, cap, events)) == [i.bytes] + Fed(rest);
          FeedFirst(pending, i.bytes, Fed(rest));
        }
      }
    }
  }

  lemma FedNothing(pending: string)
    ensures Feed(pending, []) == Feeding([], false, pending)
  {
  }

  lemma FeedFirst(pending: string, c: string, chunks: seq<string>)
    requires !Feed(pending, [c]).failed
    ensures var f := Feed(pending, [c]);
            var g := Feed(f.pending, chunks);
            Feed(pending, [c] + chunks) == Feeding(f.taken + g.taken, g.failed, g.pending)
  {
    hide ParseFrom;
    assert ([c] + chunks)[1..] == chunks && [c][1..] == [];
    var buf := pending + c;
    if buf != "" && Parse(buf).result == Done { DoneLength(FRESH, buf); }
  }

  /**
   Two connections that sent the same bytes, read in any pieces by any buffers, none of the
   attempts on a header boundary: the requests served to one are the first requests
   served to the other, and once neither has a complete request left they are the same.
   */
  lemma ServingsAgree(capA: nat, a: seq<seq<ReadEvent>>, capB: nat, b: seq<seq<ReadEvent>>)
    requires var s, t := Serve("", capA, a), Serve("", capB, b);
             Concat(Fed(s)) == Concat(Fed(t)) && NoBoundaryAttempt("", Fed(s)) && NoBoundaryAttempt("", Fed(t))
    ensures var s, t := Serve("", capA, a), Serve("", capB, b);
            && (s.taken <= t.taken || t.taken <= s.taken)
            && (ParserStability.Settled(Feed("", Fed(s))) && ParserStability.Settled(Feed("", Fed(t))) ==>
                  s.taken == t.taken && s.failed == t.failed)
  {
    hide Serve, Feed, NoBoundaryAttempt, ParserStability.Settled, Concat;
    ServeIsFeed("", capA, a);
    ServeIsFeed("", capB, b);
    ChunkingIrrelevant(Fed(Serve("", capA, a)), Fed(Serve("", capB, b)));
  }

  /** A connection answered by the worker itself, over any read events: it goes as `Serve` says. */
  method ServeReads(rbuf: Buf, fd: Socket, events: seq<seq<ReadEvent>>)
    returns (taken: seq<Taken>, failed: bool, gone: bool, ghost chunks: seq<string>)
    requires rbuf.Valid() && rbuf.Contents() == "" && fd.taken == ""
    modifies rbuf, rbuf.data, fd
    ensures rbuf.Valid()
    ensures Serving(taken, failed, gone, rbuf.Contents(), chunks) == Serve("", rbuf.data.Length, events)
    ensures fd.taken == Concat(chunks)
  {
    hide Feed, Concat, Serve, ReadLoop, Before;
    taken, failed, gone, chunks := [], false, false, [];
    var i := 0;
    NoChunks();
    ghost var all := Serve("", rbuf.data.Length, events);
    assert events[0..] == events;
    BeforeNothing(all);
    while i < |events| && !failed && !gone
      invariant 0 <= i <= |events| && rbuf.Valid() && Concat(chunks) == fd.taken
      invariant if failed || gone then Serving(taken, failed, gone, rbuf.Contents(), chunks) == all
                else Before(taken, chunks, Serve(rbuf.Contents(), rbuf.data.Length, events[i..])) == all
    {
      fd.toRead := events[i];
      ServeStep(rbuf.Contents(), rbuf.data.Length, events[i..], taken, chunks);
      assert events[i..][1..] == events[i + 1..] && taken + [] == taken;
      var r;
      ghost var chunk;
      r, chunk := HandleRead(rbuf, fd);
      ConcatSnoc(chunks, chunk);
      chunks := chunks + [chunk];
      match r {
        case Gone => gone := true;
        case Waiting =>
        case BadRequest => failed := true;
        case Ready(req, t) => taken := taken + [t];
      }
      i := i + 1;
    }
    ServeNone(rbuf.Contents(), rbuf.data.Length, taken, chunks);
  }

  lemma BeforeNothing(s: Serving)
    ensures Before([], [], s) == s
  {
    assert [] + s.taken == s.taken && [] + s.chunks == s.chunks;
  }

  lemma ServeNone(pending: string, cap: nat, taken: seq<Taken>, chunks: seq<string>)
    requires |pending| <= cap
    ensures Before(taken, chunks, Serve(pending, cap, [])) == Serving(taken, false, false, pending, chunks)
  {
    assert taken + [] == taken && chunks + [] == chunks;
  }

  /** One event more, put behind what went before. */
  lemma ServeStep(pending: string, cap: nat, events: seq<seq<ReadEvent>>, taken: seq<Taken>, chunks: seq<string>)
    requires |pending| <= cap && events != []
    ensures var i := ReadLoop(events[0], cap - |pending|);
            var f, all := Feed(pending, [i.bytes]), Before(taken, chunks, Serve(pending, cap, events));
            && |f.pending| <= cap
            && if i.r.Closed? || i.r.Failed? then
                 all == Serving(taken, false, true, pending + i.bytes, chunks + [i.bytes])
               else if f.failed then
                 all == Serving(taken + f.taken, true, false, f.pending, chunks + [i.bytes])
               else
                 all == Before(taken + f.taken, chunks + [i.bytes], Serve(f.pending, cap, events[1..]))
  {
    hide ReadLoop, Feed;
    var i := ReadLoop(events[0], cap - |pending|);
    OneFeed(pending, i.bytes);
    var f := Feed(pending, [i.bytes]);
    assert taken + [] == taken;
    if !(i.r.Closed? || i.r.Failed?) && !f.failed {
      var rest := Serve(f.pending, cap, events[1..]);
      assert taken + (f.taken + rest.taken) == (taken + f.taken) + rest.taken;
      assert chunks + ([i.bytes] + rest.chunks) == (chunks + [i.bytes]) + rest.chunks;
    }
  }

  lemma NoChunks()
    ensures Feed("", []) == Feeding([], false, "") && Concat([]) == ""
  {
  }

  lemma {:induction false} ConcatSnoc(chunks: seq<string>, c: string)
    ensures Concat(chunks + [c]) == Concat(chunks) + c
  {
    if chunks == [] {
      assert [c][1..] == [];
    } else {
      assert (chunks + [c])[1..] == chunks[1..] + [c];
      ConcatSnoc(chunks[1..], c);
    }
  }

  // ----- the request for the backend -----

  /** What gets queued when there is room for `room` bytes: the head and the body, each only as a whole. */
  function Queued(req: Request, ip: string, room: nat): string {
    var head := if |Head(req, ip)| <= room then Terminated(Head(req, ip)) else "";
    head + if |req.body| <= room - |head| then req.body else ""
  }

  /** `build_proxy_request`. */
  method BuildProxyRequest(req: Request, ip: string, out: Buf)
    requires out.Valid() && NulFree(ip) && |Head(req, ip)| <= MAX_HEADER_LEN
    modifies out, out.data
    ensures out.Valid() && out.Contents() == old(out.Contents()) + Queued(req, ip, old(out.Writable()))
  {
    hide Head;
    var buf := new char[MAX_HEADER_LEN];
    var n := BuildHead(req, ip, buf);
    ghost var was := out.Contents();
    if out.Writable() >= n {
      out.Append(buf[..n]);
    }
    if |req.body| > 0 && out.Writable() >= |req.body| {
      out.Append(req.body);
    }
  }

  lemma QueuedWhole(req: Request, ip: string, room: nat)
    requires |Head(req, ip)| + |req.body| <= room && |Head(req, ip)| < MAX_HEADER_LEN
    ensures Queued(req, ip, room) == Head(req, ip) + req.body
  {
    hide Head;
  }

  /**
   From the client's bytes to the backend's: a request is taken off the read buffer and
   queued.  If there was nothing in the queue and room for it, a backend that parses like
   this proxy reads back the same request, all of the queue and nothing else, exactly when
   no printed part of it holds a NUL, unless the header table is too small for the headers
   the proxy adds.
   */
  method ForwardRequest(rbuf: Buf, out: Buf, ip: string) returns (r: ReadOutcome)
    requires rbuf.Valid() && out.Valid() && rbuf != out && rbuf.data != out.data && CleanValue(ip)
    requires var o := Parse(rbuf.Contents());
             o.result == Done ==> |Head(Populate(o.state, rbuf.Contents()), ip)| <= MAX_HEADER_LEN
    modifies rbuf, out, out.data
    ensures rbuf.Valid() && out.Valid()
    ensures var o := Parse(old(rbuf.Contents()));
            && (r.Ready? <==> o.result == Done)
            && (r.Ready? ==> r.req == Populate(o.state, old(rbuf.Contents())))
    ensures out.Contents() ==
            if r.Ready? then old(out.Contents()) + Queued(r.req, ip, old(out.Writable())) else old(out.Contents())
    ensures r.Ready? && old(out.Contents()) == "" && |Head(r.req, ip)| < MAX_HEADER_LEN
            && |Head(r.req, ip)| + |r.req.body| <= old(out.Writable()) ==>
              if |Forwarded(r.req, ip)| > MAX_HEADERS then Parse(out.Contents()).result == Error
              else Recovers(out.Contents(), r.req, ip) <==> Printable(r.req)
  {
    hide ParseFrom, Populate, Head, Printable, CleanValue, Recovers, Kept, ProxyHeaders, Queued;
    ghost var data := rbuf.Contents();
    r := ParseAndConsume(rbuf);
    if r.Ready? {
      ForwardRoundTrip(data, ip);
      OwnCount(r.req, ip);
      CleanNulFree(ip);
      ghost var was, room := out.Contents(), out.Writable();
      BuildProxyRequest(r.req, ip, out);
      if was == "" && |Head(r.req, ip)| < MAX_HEADER_LEN && |Head(r.req, ip)| + |r.req.body| <= room {
        QueuedWhole(r.req, ip, room);
        assert out.Contents() == Head(r.req, ip) + r.req.body;
      }
    }
  }

  lemma CleanNulFree(ip: string)
    requires CleanValue(ip)
    ensures NulFree(ip)
  {
  }
}

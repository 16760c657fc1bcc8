/**
 A connection while it is being proxied or tunnelled, as the source runs it: two
 descriptors, three buffers and the cache buffer updated in place.  Every method is the
 step of module RelayStream on the streams.
 */
module Relay {
  import opened StringUtil
  import opened Buffer
  import opened RelayStream

  class Conn {
    const client: Socket
    const up: Socket
    const upIn: Buf      // upstream_rbuf
    const upOut: Buf     // upstream_wbuf
    const wbuf: Buf
    const tunnel: bool
    const caching: bool
    const badGateway: string            // the response send_error(conn, 502) formats
    var closed: bool
    var cacheBuf: string
    var cacheCap: nat
    var reallocs: seq<bool>
    var inserted: Option<string>        // what was handed to cache_insert

    ghost const request: string         // what proxy_handle queued for the backend
    ghost const stale: string           // what cacheBuf held when proxy_handle was called
    ghost const staleCap: nat
    ghost var relayed: nat              // how much of client.sent came from the backend
    ghost var drained: bool             // every upstream read so far found upIn empty
    ghost var memoryOk: bool            // no reallocation has failed

    ghost predicate Valid()
      reads this, upIn, upOut, wbuf
    {
      && client != up && upIn != upOut && upIn != wbuf && upOut != wbuf
      && upIn.data != upOut.data && upIn.data != wbuf.data && upOut.data != wbuf.data
      && upIn.Valid() && upOut.Valid() && wbuf.Valid() && wbuf.readPos == wbuf.writePos
    }

    ghost function Cfg(): Setup
      reads this
    {
      Setup(tunnel, caching, request, badGateway, upIn.data.Length, upOut.data.Length, wbuf.data.Length,
            stale, staleCap)
    }

    ghost function View(): State
      requires Valid()
      reads this, client, up, upIn, upIn.data, upOut, upOut.data, wbuf
    {
      State(client.sent, up.taken, upIn.Contents(), up.sent, client.taken, upOut.Contents(), closed, relayed,
            cacheBuf, cacheCap, inserted, drained, memoryOk)
    }

    /** Sound buffers, and the invariant of the streams. */
    ghost predicate Invariant()
      reads this, client, up, upIn, upIn.data, upOut, upOut.data, wbuf
    {
      Valid() && RelayStream.Invariant(Cfg(), View())
    }

    /** The state `proxy_handle` leaves, on a pooled connection with whatever capture it came with. */
    constructor (client: Socket, up: Socket, upIn: Buf, upOut: Buf, wbuf: Buf, tunnel: bool, caching: bool,
                 badGateway: string, cacheBuf: string, cacheCap: nat)
      requires client != up && upIn != upOut && upIn != wbuf && upOut != wbuf
      requires upIn.data != upOut.data && upIn.data != wbuf.data && upOut.data != wbuf.data
      requires upIn.Valid() && upOut.Valid() && wbuf.Valid() && upIn.Contents() == wbuf.Contents() == ""
      requires client.sent == client.taken == up.sent == up.taken == ""
      ensures Invariant() && request == upOut.Contents() && View() == Start(Cfg())
      ensures stale == cacheBuf && staleCap == cacheCap
      ensures this.client == client && this.up == up && this.upIn == upIn && this.upOut == upOut
      ensures this.wbuf == wbuf && this.tunnel == tunnel && this.caching == caching && this.badGateway == badGateway
    {
      this.client, this.up, this.upIn, this.upOut, this.wbuf := client, up, upIn, upOut, wbuf;
      this.tunnel, this.caching, this.badGateway := tunnel, caching, badGateway;
      this.cacheBuf, this.cacheCap := cacheBuf, cacheCap;
      closed, reallocs, inserted := false, [], None;
      request, stale, staleCap := upOut.Contents(), cacheBuf, cacheCap;
      relayed, drained, memoryOk := 0, true, true;
    }

    lemma ViewFits()
      requires Valid()
      ensures Fits(Cfg(), View())
    {
    }

    /** `worker_conn_close`: the buffers go back to the pool empty. */
    method Close()
      requires Valid()
      modifies this`closed, this`relayed, upIn, upOut, wbuf
      ensures Valid() && View() == Ended(old(View()))
    {
      relayed := |client.sent|;
      closed := true;
      upIn.Reset();
      upOut.Reset();
      wbuf.Reset();
    }

    /** `send_error(conn, 502)` and one write of it. */
    method SendBadGateway()
      requires Valid()
      modifies client`toWrite, client`sent, wbuf, wbuf.data
      ensures wbuf.Valid()
      ensures var text := if |badGateway| <= wbuf.data.Length then badGateway else "";
              client.sent == old(client.sent) + WriteOnce(old(client.toWrite), text).gone
    {
      wbuf.Compact();
      if |badGateway| <= wbuf.Writable() { wbuf.Append(badGateway); }
      var n;
      ghost var gone;
      n, gone := wbuf.WriteFd(client);
    }

    /** A write to the backend failed: answer 502 as far as it goes, and close. */
    method Refuse()
      requires Valid()
      modifies this`closed, this`relayed, client`toWrite, client`sent, upIn, upOut, wbuf, wbuf.data
      ensures Valid() && View() == Refused(Cfg(), old(View()), old(client.toWrite))
    {
      hide WriteOnce;
      ghost var before := |client.sent|;
      SendBadGateway();
      closed, relayed := true, before;
      upIn.Reset();
      upOut.Reset();
      wbuf.Reset();
    }

    /** Add the readable bytes of upstream_rbuf to the response being gathered. */
    method Capture()
      requires Valid()
      modifies this`cacheBuf, this`cacheCap, this`reallocs, this`memoryOk
      ensures Valid() && (View(), reallocs) == Captured(Cfg(), old(View()), old(reallocs))
    {
      var readable := upIn.Readable();
      if caching && readable > 0 {
        var needed := |cacheBuf| + readable;
        if needed > cacheCap {
          var newCap := if needed * 2 < 8192 then 8192 else needed * 2;
          var ok := reallocs == [] || reallocs[0];
          reallocs := if reallocs == [] then [] else reallocs[1..];
          if ok { cacheCap := newCap; } else { memoryOk := false; }
        }
        if needed <= cacheCap {
          cacheBuf := cacheBuf + upIn.data[upIn.readPos..upIn.writePos];
        }
      }
    }

    /** Where the read loop is. */
    ghost function At(n: Io): Turn
      requires Valid()
      reads this, client, up, upIn, upIn.data, upOut, upOut.data, wbuf
    {
      Turn(View(), n, up.toRead, client.toWrite, reallocs)
    }

    /** Pass on what is readable to the client. */
    method PassToClient()
      requires Valid()
      modifies client`toWrite, client`sent, upIn
      ensures Valid() && View() == PassOn(old(View()), old(client.toWrite))
      ensures client.toWrite == WriteLoop(old(client.toWrite), old(upIn.Contents())).script
    {
      hide WriteLoop;
      var n;
      ghost var gone;
      n, gone := upIn.DrainTo(client);
    }

    /** One turn of the read loop: read, gather, pass on. */
    method RelayOnce(ghost before: Io) returns (n: Io)
      requires Valid()
      modifies this`drained, this`cacheBuf, this`cacheCap, this`reallocs, this`memoryOk, up`toRead, up`taken,
               client`toWrite, client`sent, upIn, upIn.data
      ensures Valid() && Fits(Cfg(), old(View())) && At(n) == RelayStream.RelayOnce(Cfg(), old(At(before)))
    {
      hide ReadOnce, WriteLoop, Captured, PassOn;
      ViewFits();
      ghost var left := upIn.Contents();
      ghost var got;
      n, got := upIn.ReadFd(up);
      if Moved(n) > 0 {
        if left != "" { drained := false; }
        Capture();
        PassToClient();
      }
    }

    /** The read loop: until the backend or the room in the buffer runs out. */
    method RelayAll() returns (n: Io)
      requires Valid()
      modifies this`drained, this`cacheBuf, this`cacheCap, this`reallocs, this`memoryOk, up`toRead, up`taken,
               client`toWrite, client`sent, upIn, upIn.data
      ensures Valid() && Fits(Cfg(), old(View())) && At(n) == RelayStream.RelayAll(Cfg(), old(At(Again)))
    {
      hide RelayStream.RelayOnce;
      ViewFits();
      ghost var all := RelayStream.RelayAll(Cfg(), At(Again));
      n := RelayOnce(Again);
      while Moved(n) > 0
        invariant Valid() && Fits(Cfg(), View())
        invariant if Moved(n) == 0 then At(n) == all else RelayStream.RelayAll(Cfg(), At(n)) == all
        decreases |up.toRead| + if Moved(n) > 0 then 1 else 0
      {
        n := RelayOnce(n);
      }
    }

    /** The backend is done: hand a gathered response to the cache, and close. */
    method Conclude(n: Io)
      requires Valid()
      modifies this`closed, this`relayed, this`inserted, this`cacheBuf, this`cacheCap, upIn, upOut, wbuf
      ensures Valid() && View() == Concluded(Cfg(), old(View()), n)
    {
      if n.Closed? && !tunnel && caching && |cacheBuf| > 0 {
        inserted, cacheBuf, cacheCap := Some(cacheBuf), "", 0;
      }
      Close();
    }

    /** One write of what is queued for the backend. */
    method PushRequest() returns (failed: bool)
      requires Valid()
      modifies up`toWrite, up`sent, upOut
      ensures Valid() && View() == PushOnce(old(View()), old(up.toWrite))
      ensures failed == WriteOnce(old(up.toWrite), old(upOut.Contents())).r.Failed?
    {
      hide WriteOnce;
      var n;
      ghost var gone;
      n, gone := upOut.WriteFd(up);
      failed := n.Failed?;
    }

    /** The kernel's and the allocator's choices for the event being handled. */
    ghost predicate Armed(e: Event)
      reads this, client, up
    {
      && up.toRead == e.upReads && up.toWrite == e.upWrites && reallocs == e.reallocs
      && client.toRead == e.clientReads && client.toWrite == e.clientWrites
    }

    /** `proxy_on_upstream_event`. */
    method OnUpstream(writable: bool, readable: bool, ghost e: Event)
      requires Valid() && Armed(e)
      modifies this, client, up, upIn, upIn.data, upOut, wbuf, wbuf.data
      ensures Valid() && Fits(Cfg(), old(View()))
      ensures View() == RelayStream.OnUpstream(Cfg(), old(View()), writable, readable, e)
    {
      hide RelayStream.RelayAll, Concluded, Refused, WriteOnce;
      ViewFits();
      if writable {
        var failed := PushRequest();
        if failed {
          Refuse();
          return;
        }
      }
      if readable {
        var n := RelayAll();
        if n.Closed? || n.Failed? { Conclude(n); }
      }
    }

    /** `handle_read` in a tunnel. */
    method OnClientReadable(ghost e: Event)
      requires Valid() && Armed(e)
      modifies this`closed, this`relayed, client, up, upIn, upOut, upOut.data, wbuf
      ensures Valid() && Fits(Cfg(), old(View())) && View() == RelayStream.OnClientReadable(Cfg(), old(View()), e)
    {
      hide ReadLoop, WriteLoop;
      ViewFits();
      var n;
      ghost var moved;
      n, moved := upOut.FillFrom(client);
      if n.Closed? || n.Failed? {
        Close();
        return;
      }
      NothingToWrite(up.toWrite);
      if upOut.Readable() > 0 {
        n, moved := upOut.DrainTo(up);
      }
    }

    /** One event; a closed connection has no descriptor left to report on. */
    method Handle(e: Event)
      requires Valid()
      modifies this, client, up, upIn, upIn.data, upOut, upOut.data, wbuf, wbuf.data
      ensures Valid() && Fits(Cfg(), old(View())) && View() == Handled(Cfg(), old(View()), e)
    {
      hide RelayStream.OnUpstream, RelayStream.OnClientReadable, PassOn, Ended, WriteLoop;
      ViewFits();
      if closed { return; }
      up.toRead, up.toWrite := e.upReads, e.upWrites;
      client.toRead, client.toWrite := e.clientReads, e.clientWrites;
      reallocs := e.reallocs;
      match e.kind
      case UpstreamReady(w, r) => OnUpstream(w, r, e);
      case ClientReadable => if tunnel { OnClientReadable(e); }
      case ClientWritable => PassToClient();
      case HangUp => Close();
    }

    /** Any run of events is that run on the streams. */
    method Run(events: seq<Event>)
      requires Invariant()
      modifies this, client, up, upIn, upIn.data, upOut, upOut.data, wbuf, wbuf.data
      ensures Invariant() && RelayStream.Invariant(Cfg(), old(View())) && View() == Ran(Cfg(), old(View()), events)
    {
      hide RelayStream.Invariant, Handled;
      ghost var all := Ran(Cfg(), View(), events);
      assert events[0..] == events;
      for i := 0 to |events|
        invariant Invariant() && Ran(Cfg(), View(), events[i..]) == all
      {
        ghost var s := View();
        HandledKeeps(Cfg(), s, events[i]);
        assert events[i..][1..] == events[i + 1..];
        Handle(events[i]);
      }
    }
  }

  lemma NothingToWrite(script: seq<WriteEvent>)
    ensures var o := WriteLoop(script, ""); o.gone == "" && o.left == ""
  {
  }
}

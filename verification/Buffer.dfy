/**
 The compacting byte queue of src/net/buffer.c and the kernel end it talks to.
 */
module Buffer {
  import opened StringUtil

  /** What the next `read` on a descriptor does; it may hold more bytes than a call has room for. */
  datatype ReadEvent = Bytes(b: string) | Eof | ReadAgain | ReadFails

  /** What the next `write` on a descriptor does; it may accept more bytes than a call offers. */
  datatype WriteEvent = Accept(n: nat) | WriteAgain | WriteFails

  /** `isize` results: a count, or one of the `NP_ERR` codes. */
  datatype Io = Count(n: nat) | Again | Closed | Failed

  function Tail<T>(s: seq<T>): seq<T> {
    if s == [] then [] else s[1..]
  }

  function Moved(r: Io): nat {
    if r.Count? then r.n else 0
  }

  /** What a read with room for `space` bytes gives. */
  function Answer(script: seq<ReadEvent>, space: nat): (Io, string) {
    if script == [] then (Again, "")
    else
      match script[0]
      case Bytes(b) => (Count(|Clip(b, space)|), Clip(b, space))
      case Eof => (Count(0), "")
      case ReadAgain => (Again, "")
      case ReadFails => (Failed, "")
  }

  /** How much of `size` offered bytes a write takes. */
  function Taken(script: seq<WriteEvent>, size: nat): (r: Io)
    ensures Moved(r) <= size && !r.Closed?
  {
    if script == [] then Again
    else
      match script[0]
      case Accept(n) => Count(if n <= size then n else size)
      case WriteAgain => Again
      case WriteFails => Failed
  }

  // ----- reading and writing, on values -----

  /** What a read came to: its result, the bytes, and what the kernel has still to do. */
  datatype Input = Input(r: Io, bytes: string, script: seq<ReadEvent>)

  /** What a write came to: its result, the bytes that left and those that did not, and what the kernel does next. */
  datatype Output = Output(r: Io, gone: string, left: string, script: seq<WriteEvent>)

  /** One `buf_read_fd` with room for `room` bytes. */
  function ReadOnce(script: seq<ReadEvent>, room: nat): (i: Input)
    ensures |i.bytes| == Moved(i.r) <= room
    ensures |i.script| + (if Moved(i.r) > 0 then 1 else 0) <= |script|
    ensures i.r == Count(0) ==> room == 0
  {
    if room == 0 then Input(Count(0), "", script)
    else
      var (n, b) := Answer(script, room);
      Input(if n == Count(0) then Closed else n, b, Tail(script))
  }

  /** `do { n = buf_read_fd(...); } while (n > 0);` */
  function ReadLoop(script: seq<ReadEvent>, room: nat): (i: Input)
    ensures Moved(i.r) == 0 && |i.bytes| <= room
    ensures i.r.Count? ==> |i.bytes| == room
    decreases |script|
  {
    var i := ReadOnce(script, room);
    if Moved(i.r) == 0 then i
    else
      var j := ReadLoop(i.script, room - |i.bytes|);
      Input(j.r, i.bytes + j.bytes, j.script)
  }

  /** One `buf_write_fd` of `text`. */
  function WriteOnce(script: seq<WriteEvent>, text: string): (o: Output)
    ensures o.gone + o.left == text && |o.gone| == Moved(o.r) && !o.r.Closed?
    ensures |o.script| + (if Moved(o.r) > 0 then 1 else 0) <= |script|
  {
    if text == "" then Output(Count(0), "", "", script)
    else
      var r := Taken(script, |text|);
      Output(r, text[..Moved(r)], text[Moved(r)..], Tail(script))
  }

  /** `do { n = buf_write_fd(...); } while (n > 0);` */
  function WriteLoop(script: seq<WriteEvent>, text: string): (o: Output)
    ensures o.gone + o.left == text && Moved(o.r) == 0
    decreases |script|
  {
    var o := WriteOnce(script, text);
    if Moved(o.r) == 0 then o
    else
      var p := WriteLoop(o.script, o.left);
      Rejoin(o.gone, p.gone, p.left);
      Output(p.r, o.gone + p.gone, p.left, p.script)
  }

  lemma ReadLoopStep(script: seq<ReadEvent>, room: nat, before: string)
    ensures var i := ReadOnce(script, room);
            var all := ReadLoop(script, room);
            if Moved(i.r) == 0 then all == i && i.bytes == ""
            else
              var j := ReadLoop(i.script, room - |i.bytes|);
              all == Input(j.r, i.bytes + j.bytes, j.script) && before + all.bytes == (before + i.bytes) + j.bytes
  {
    hide ReadOnce;
  }

  lemma WriteLoopStep(script: seq<WriteEvent>, text: string, before: string)
    ensures var o := WriteOnce(script, text);
            var all := WriteLoop(script, text);
            if Moved(o.r) == 0 then all == o && o.gone == ""
            else
              var p := WriteLoop(o.script, o.left);
              && all == Output(p.r, o.gone + p.gone, p.left, p.script)
              && before + all.gone == (before + o.gone) + p.gone
  {
    hide WriteOnce;
  }

  // ----- peers -----

  /** A peer that takes something on every write. */
  predicate Willing(script: seq<WriteEvent>) {
    forall e | e in script :: e.Accept? && e.n > 0
  }

  /** A peer that sends something on every read. */
  predicate Talking(script: seq<ReadEvent>) {
    forall e | e in script :: e.Bytes? && e.b != ""
  }

  /** A peer whose stream ends here. */
  predicate Ending(script: seq<ReadEvent>) {
    script != [] && script[0] == Eof
  }

  /** Bytes a script holds in all. */
  function Pending(script: seq<ReadEvent>): nat {
    if script == [] then 0 else (if script[0].Bytes? then |script[0].b| else 0) + Pending(script[1..])
  }

  /** A willing peer with enough turns takes everything. */
  lemma {:induction false} WriteLoopEmpties(script: seq<WriteEvent>, text: string)
    requires Willing(script)
    ensures var o := WriteLoop(script, text);
            && Willing(o.script) && |o.script| - |o.left| >= |script| - |text|
            && (|script| >= |text| ==> o.left == "")
    decreases |script|
  {
    var o := WriteOnce(script, text);
    assert Willing(Tail(script));
    if Moved(o.r) > 0 { WriteLoopEmpties(o.script, o.left); }
  }

  /** A talking peer is read until its script or the room is used up. */
  lemma {:induction false} ReadLoopTalking(script: seq<ReadEvent>, room: nat)
    requires Talking(script)
    ensures var i := ReadLoop(script, room); !i.r.Count? ==> i.r == Again && i.script == []
    decreases |script|
  {
    var i := ReadOnce(script, room);
    if Moved(i.r) > 0 {
      assert Talking(i.script);
      ReadLoopTalking(i.script, room - |i.bytes|);
    }
  }

  /**
   A descriptor.  The kernel's choices are two scripts, so that every behaviour of
   `read` and `write` is some pair of scripts; an empty script means "would block".
   */
  class Socket {
    var toRead: seq<ReadEvent>
    var toWrite: seq<WriteEvent>
    var taken: string   // everything read from this descriptor
    var sent: string    // everything written to this descriptor

    constructor ()
      ensures toRead == [] && toWrite == [] && taken == "" && sent == ""
    {
      toRead, toWrite, taken, sent := [], [], "", "";
    }

    method Read(space: nat) returns (r: Io, b: string)
      modifies this`toRead, this`taken
      ensures (r, b) == Answer(old(toRead), space) && toRead == Tail(old(toRead))
      ensures taken == old(taken) + b
    {
      r, b := Again, "";
      if toRead != [] {
        match toRead[0] {
        case Bytes(all) =>
          b := Clip(all, space);
          taken := taken + b;
          r := Count(|b|);
        case Eof => r := Count(0);
        case ReadAgain => r := Again;
        case ReadFails => r := Failed;
        }
        toRead := toRead[1..];
      }
    }

    method Write(b: string) returns (r: Io)
      modifies this`toWrite, this`sent
      ensures r == Taken(old(toWrite), |b|) && toWrite == Tail(old(toWrite))
      ensures sent == old(sent) + b[..Moved(r)]
    {
      r := Again;
      if toWrite != [] {
        match toWrite[0] {
        case Accept(n) =>
          var k := if n <= |b| then n else |b|;
          sent := sent + b[..k];
          r := Count(k);
        case WriteAgain => r := Again;
        case WriteFails => r := Failed;
        }
        toWrite := toWrite[1..];
      }
    }
  }

  class Buf {
    const data: array<char>
    var readPos: nat
    var writePos: nat

    ghost predicate Valid()
      reads this
    {
      readPos <= writePos <= data.Length
    }

    /** The bytes produced and not yet consumed, oldest first. */
    ghost function Contents(): string
      requires Valid()
      reads this, data
    {
      data[readPos..writePos]
    }

    /** `buf_init`. */
    constructor (cap: nat)
      ensures Valid() && fresh(data) && data.Length == cap && Contents() == ""
    {
      data := new char[cap];
      readPos, writePos := 0, 0;
    }

    function Readable(): nat
      requires Valid()
      reads this
    {
      writePos - readPos
    }

    function Writable(): nat
      requires Valid()
      reads this
    {
      data.Length - writePos
    }

    lemma ContentsSize()
      requires Valid()
      ensures |Contents()| == Readable() <= data.Length
    {
    }

    /** `buf_reset`. */
    method Reset()
      modifies this
      ensures Valid() && Contents() == "" && Writable() == data.Length
    {
      readPos, writePos := 0, 0;
    }

    /** `buf_consume`: drop from the front, and start over when nothing is left. */
    method Consume(n: nat)
      requires Valid() && n <= Readable()
      modifies this
      ensures Valid() && Contents() == old(Contents())[n..]
      ensures Contents() == "" ==> readPos == writePos == 0
    {
      readPos := readPos + n;
      if readPos == writePos {
        readPos, writePos := 0, 0;
      }
    }

    /** A `memcpy` to the write position followed by `buf_produce`. */
    method Append(b: string)
      requires Valid() && |b| <= Writable()
      modifies this, data
      ensures Valid() && Contents() == old(Contents()) + b && Writable() == old(Writable()) - |b|
    {
      forall i | 0 <= i < |b| { data[writePos + i] := b[i]; }
      writePos := writePos + |b|;
    }

    /** `buf_compact`: slide the contents to the front, overlapping or not. */
    method Compact()
      requires Valid()
      modifies this, data
      ensures Valid() && Contents() == old(Contents()) && readPos == 0
      ensures Writable() == data.Length - |Contents()|
    {
      var readable := Readable();
      if readable == 0 {
        Reset();
        return;
      }
      if readPos > 0 {
        forall i | 0 <= i < readable { data[i] := data[readPos + i]; }
        readPos, writePos := 0, readable;
      }
    }

    /** `buf_read_fd`: a read of zero bytes is the end of the stream, no room is not an error. */
    method ReadFd(fd: Socket) returns (r: Io, ghost got: string)
      requires Valid()
      modifies this, data, fd`toRead, fd`taken
      ensures Valid() && Input(r, got, fd.toRead) == ReadOnce(old(fd.toRead), data.Length - |old(Contents())|)
      ensures fd.taken == old(fd.taken) + got && Contents() == old(Contents()) + got
    {
      Compact();
      got := "";
      var space := Writable();
      if space == 0 { return Count(0), got; }
      var n, b := fd.Read(space);
      if n.Count? {
        if n.n == 0 { return Closed, got; }
        Append(b);
        got := b;
      }
      return n, got;
    }

    /** `buf_write_fd`: one write of everything readable, consuming what was accepted. */
    method WriteFd(fd: Socket) returns (r: Io, ghost gone: string)
      requires Valid()
      modifies this, fd`toWrite, fd`sent
      ensures Valid() && Output(r, gone, Contents(), fd.toWrite) == WriteOnce(old(fd.toWrite), old(Contents()))
      ensures fd.sent == old(fd.sent) + gone
    {
      var readable := Readable();
      gone := "";
      if readable == 0 { return Count(0), gone; }
      var n := fd.Write(data[readPos..writePos]);
      gone := Contents()[..Moved(n)];
      if n.Count? && n.n > 0 { Consume(n.n); }
      return n, gone;
    }

    /** The write loop: bytes leave from the front until the peer or the buffer is done. */
    method DrainTo(fd: Socket) returns (r: Io, ghost gone: string)
      requires Valid()
      modifies this, fd`toWrite, fd`sent
      ensures Valid() && Output(r, gone, Contents(), fd.toWrite) == WriteLoop(old(fd.toWrite), old(Contents()))
      ensures fd.sent == old(fd.sent) + gone
    {
      hide WriteOnce, WriteLoop;
      ghost var all := WriteLoop(fd.toWrite, Contents());
      WriteLoopStep(fd.toWrite, Contents(), "");
      r, gone := WriteFd(fd);
      while Moved(r) > 0
        invariant Valid() && fd.sent == old(fd.sent) + gone
        invariant if Moved(r) == 0 then Output(r, gone, Contents(), fd.toWrite) == all
                  else var p := WriteLoop(fd.toWrite, Contents()); all == Output(p.r, gone + p.gone, p.left, p.script)
        decreases |fd.toWrite| + if Moved(r) > 0 then 1 else 0
      {
        ghost var more;
        WriteLoopStep(fd.toWrite, Contents(), gone);
        r, more := WriteFd(fd);
        gone := gone + more;
      }
    }

    /** The read loop: bytes are appended until the peer or the room is done. */
    method FillFrom(fd: Socket) returns (r: Io, ghost got: string)
      requires Valid()
      modifies this, data, fd`toRead, fd`taken
      ensures Valid() && Input(r, got, fd.toRead) == ReadLoop(old(fd.toRead), data.Length - |old(Contents())|)
      ensures fd.taken == old(fd.taken) + got && Contents() == old(Contents()) + got
    {
      hide ReadOnce, ReadLoop, Buf.Contents;
      ContentsSize();
      ghost var was, room := Contents(), data.Length - Readable();
      ghost var all := ReadLoop(fd.toRead, room);
      ReadLoopStep(fd.toRead, room, "");
      r, got := ReadFd(fd);
      while Moved(r) > 0
        invariant Valid() && fd.taken == old(fd.taken) + got && Contents() == was + got && |got| <= room
        invariant if Moved(r) == 0 then Input(r, got, fd.toRead) == all
                  else var j := ReadLoop(fd.toRead, room - |got|); all == Input(j.r, got + j.bytes, j.script)
        decreases |fd.toRead| + if Moved(r) > 0 then 1 else 0
      {
        ghost var more;
        ReadLoopStep(fd.toRead, room - |got|, got);
        ContentsSize();
        r, more := ReadFd(fd);
        assert (was + got) + more == was + (got + more);
        got := got + more;
      }
    }
  }
}

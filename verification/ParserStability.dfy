/**
 What more bytes can do to a parse.  An error is final, and a finished parse is final
 exactly when the buffer holds a blank line; so the requests read off a byte stream do
 not depend on how the stream was cut into reads.
 */
module ParserStability {
  import opened HttpParser

  const CRLF := "\r\n"

  // ----- one more piece of input -----

  lemma FindCrlfAppend(s: string, x: string)
    requires FindCrlf(s) >= 0
    ensures FindCrlf(s + x) == FindCrlf(s)
  {
    hide FindCrlf;
    var i := FindCrlf(s);
    assert CrlfAt(s + x, i);
    var j := FindCrlf(s + x);
    assert CrlfAt(s, j);
  }

  lemma {:induction false} HeadersAppend(s: Parsed, rest: string, x: string)
    ensures var e, f := ParseHeaders(s, rest), ParseHeaders(s, rest + x);
            && (e.Bad? ==> f == e)
            && (e.Blank? ==> f == Blank(e.s, e.rest + x))
            && (e.AtEnd? ==> f == ParseHeaders(e.s, x))
    decreases |rest|
  {
    hide AddHeader, ReadHeader, FindCrlf;
    if rest == "" {
      assert rest + x == x;
    } else {
      var i := FindCrlf(rest);
      if i >= 0 {
        FindCrlfAppend(rest, x);
        assert (rest + x)[..i] == rest[..i];
        assert (rest + x)[i + 2..] == rest[i + 2..] + x;
        if i == 0 {
          assert (rest + x)[2..] == rest[2..] + x;
        } else if ReadHeader(rest[..i]).Some? && |s.headers| < MAX_HEADERS {
          HeadersAppend(AddHeader(s, ReadHeader(rest[..i]).value), rest[i + 2..], x);
        }
      }
    }
  }

  // ----- the blank line -----

  /** Two line ends in a row, which a caller can look for in the buffer. */
  predicate BlankAt(data: string, i: int) {
    CrlfAt(data, i) && CrlfAt(data, i + 2)
  }

  predicate HasBlankLine(data: string) {
    exists i | 0 <= i < |data| :: BlankAt(data, i)
  }

  /** Before the first line end there is no blank line, so the prefix can be dropped. */
  lemma BlankFromFirstCrlf(s: string)
    requires FindCrlf(s) >= 0
    ensures HasBlankLine(s) <==> HasBlankLine(s[FindCrlf(s)..])
  {
    hide FindCrlf;
    var k := FindCrlf(s);
    var t := s[k..];
    if HasBlankLine(s) {
      var i :| 0 <= i < |s| && BlankAt(s, i);
      assert BlankAt(t, i - k);
    }
    if HasBlankLine(t) {
      var i :| 0 <= i < |t| && BlankAt(t, i);
      assert BlankAt(s, i + k);
    }
  }

  /** A line end followed by `s`, where `s` starts with a nonempty line. */
  lemma BlankSkipsLine(s: string)
    requires FindCrlf(s) > 0
    ensures HasBlankLine(CRLF + s) <==> HasBlankLine(CRLF + s[FindCrlf(s) + 2..])
  {
    hide FindCrlf;
    var k := FindCrlf(s);
    var t := CRLF + s;
    assert !CrlfAt(s, 0) && s == t[2..];
    if HasBlankLine(t) {
      var i :| 0 <= i < |t| && BlankAt(t, i);
      assert BlankAt(s, i - 2);
    }
    if HasBlankLine(s) {
      var i :| 0 <= i < |s| && BlankAt(s, i);
      assert BlankAt(t, i + 2);
    }
    BlankFromFirstCrlf(s);
    assert s[k..] == CRLF + s[k + 2..];
  }

  /** The header loop leaves through the blank line or at the end of the buffer as there is one or not. */
  lemma {:induction false} HeadersBlank(s: Parsed, rest: string)
    ensures ParseHeaders(s, rest).Blank? ==> HasBlankLine(CRLF + rest)
    ensures ParseHeaders(s, rest).AtEnd? ==> !HasBlankLine(CRLF + rest)
    decreases |rest|
  {
    hide AddHeader, ReadHeader, FindCrlf;
    if rest != "" {
      var i := FindCrlf(rest);
      if i == 0 {
        assert BlankAt(CRLF + rest, 0);
      } else if i > 0 && ReadHeader(rest[..i]).Some? && |s.headers| < MAX_HEADERS {
        HeadersBlank(AddHeader(s, ReadHeader(rest[..i]).value), rest[i + 2..]);
        BlankSkipsLine(rest);
      }
    }
  }

  // ----- stability -----

  ghost function HeaderExit(s: Parsed, data: string): HeadersEnd
    requires FindCrlf(data) >= 0
  {
    var i := FindCrlf(data);
    ParseHeaders(RequestLine(s, data[..i]).1, data[i + 2..])
  }

  lemma ExitBlank(s: Parsed, data: string)
    requires FindCrlf(data) >= 0
    ensures HeaderExit(s, data).Blank? ==> HasBlankLine(data)
    ensures HeaderExit(s, data).AtEnd? ==> !HasBlankLine(data)
  {
    hide RequestLine, FindCrlf, ParseHeaders;
    var i := FindCrlf(data);
    HeadersBlank(RequestLine(s, data[..i]).1, data[i + 2..]);
    BlankFromFirstCrlf(data);
    assert data[i..] == CRLF + data[i + 2..];
  }

  lemma ExitAppend(s: Parsed, data: string, x: string)
    requires FindCrlf(data) >= 0
    ensures FindCrlf(data + x) == FindCrlf(data)
    ensures var i := FindCrlf(data);
            && (data + x)[..i] == data[..i]
            && (data + x)[i + 2..] == data[i + 2..] + x
    ensures var e, f := HeaderExit(s, data), HeaderExit(s, data + x);
            && (e.Bad? ==> f == e)
            && (e.Blank? ==> f == Blank(e.s, e.rest + x))
            && (e.AtEnd? ==> f == ParseHeaders(e.s, x))
  {
    hide RequestLine, FindCrlf, ParseHeaders;
    var i := FindCrlf(data);
    FindCrlfAppend(data, x);
    assert (data + x)[..i] == data[..i];
    assert (data + x)[i + 2..] == data[i + 2..] + x;
    HeadersAppend(RequestLine(s, data[..i]).1, data[i + 2..], x);
  }

  /** An error stays an error, and a parse that saw the blank line keeps its state and its length. */
  lemma ParseStable(s: Parsed, data: string, x: string)
    ensures ParseFrom(s, data).result == Error ==> ParseFrom(s, data + x) == ParseFrom(s, data)
    ensures ParseFrom(s, data).result == Done && HasBlankLine(data) ==>
              ParseFrom(s, data + x) == ParseFrom(s, data)
  {
    hide RequestLine, FindCrlf, ParseHeaders, HasBlankLine;
    if FindCrlf(data) >= 0 {
      var i := FindCrlf(data);
      ExitBlank(s, data);
      ExitAppend(s, data, x);
    }
  }

  /** Without the blank line a finished parse comes undone by a single letter. */
  lemma BoundaryDoneUnstable(s: Parsed, data: string)
    requires ParseFrom(s, data).result == Done && !HasBlankLine(data)
    ensures ParseFrom(s, data + "A").result == Incomplete
  {
    hide RequestLine, FindCrlf, HasBlankLine, AddHeader, ReadHeader;
    ExitBlank(s, data);
    ExitAppend(s, data, "A");
  }

  /** A finished parse is final for every continuation exactly when the buffer holds a blank line. */
  lemma DoneFinalIffBlankLine(s: Parsed, data: string)
    requires ParseFrom(s, data).result == Done
    ensures HasBlankLine(data) <==> forall x: string :: ParseFrom(s, data + x) == ParseFrom(s, data)
  {
    hide ParseFrom, HasBlankLine;
    if HasBlankLine(data) {
      forall x: string ensures ParseFrom(s, data + x) == ParseFrom(s, data) {
        ParseStable(s, data, x);
      }
    } else {
      BoundaryDoneUnstable(s, data);
      assert ParseFrom(s, data + "A") != ParseFrom(s, data);
    }
  }

  /** A finished parse takes at least one line and never more than there is. */
  lemma DoneLength(s: Parsed, data: string)
    requires ParseFrom(s, data).result == Done
    ensures var t := ParseFrom(s, data).state;
            0 < t.bodyOffset <= t.parsedBytes <= |data|
            && t.parsedBytes == t.bodyOffset + (if t.contentLength > 0 then t.contentLength else 0)
  {
    hide RequestLine, FindCrlf, ParseHeaders;
    var i := FindCrlf(data);
    ParseHeadersShrink(RequestLine(s, data[..i]).1, data[i + 2..]);
  }

  // ----- parse and consume over a stream -----

  /** A request as the worker takes it off the read buffer: the state and the consumed bytes. */
  datatype Taken = Taken(state: Parsed, raw: string)

  /** The requests taken, whether the last attempt was an error, and the bytes left in the buffer. */
  datatype Feeding = Feeding(taken: seq<Taken>, failed: bool, pending: string)

  function After(t: Taken, f: Feeding): Feeding {
    Feeding([t] + f.taken, f.failed, f.pending)
  }

  /** One read event per chunk, and one parse attempt per event when the buffer is not empty. */
  function Feed(pending: string, chunks: seq<string>): Feeding
    decreases |chunks|
  {
    if chunks == [] then Feeding([], false, pending)
    else
      var buf := pending + chunks[0];
      if buf == "" then Feed(buf, chunks[1..])
      else
        var o := Parse(buf);
        match o.result
        case Incomplete => Feed(buf, chunks[1..])
        case Error => Feeding([], true, buf)
        case Done =>
          DoneLength(FRESH, buf);
          After(Taken(o.state, buf[..o.state.parsedBytes]), Feed(buf[o.state.parsedBytes..], chunks[1..]))
  }

  /** Requests that come one a read are taken one by one, each with its own bytes. */
  lemma {:induction false} OneByOne(chunks: seq<string>)
    requires forall k | 0 <= k < |chunks| :: WholeRequest(chunks[k])
    ensures Feed("", chunks) ==
            Feeding(seq(|chunks|, k requires 0 <= k < |chunks| => Taken(Parse(chunks[k]).state, chunks[k])), false, "")
    decreases |chunks|
  {
    hide ParseFrom;
    if chunks != [] {
      var c := chunks[0];
      assert WholeRequest(c);
      assert "" + c == c && c[|c|..] == "" && c[..|c|] == c;
      DoneLength(FRESH, c);
      forall k | 0 <= k < |chunks| - 1 ensures WholeRequest(chunks[1..][k]) {
        assert chunks[1..][k] == chunks[k + 1];
      }
      OneByOne(chunks[1..]);
    }
  }

  predicate WholeRequest(s: string) {
    Parse(s).result == Done && Parse(s).state.parsedBytes == |s|
  }

  /** No attempt finishes on a buffer that ends exactly at a header line. */
  predicate NoBoundaryAttempt(pending: string, chunks: seq<string>)
    decreases |chunks|
  {
    chunks == [] ||
    var buf := pending + chunks[0];
    var o := Parse(buf);
    match o.result
    case Incomplete => NoBoundaryAttempt(buf, chunks[1..])
    case Error => true
    case Done =>
      DoneLength(FRESH, buf);
      HasBlankLine(buf) && NoBoundaryAttempt(buf[o.state.parsedBytes..], chunks[1..])
  }

  function Concat(chunks: seq<string>): string {
    if chunks == [] then "" else chunks[0] + Concat(chunks[1..])
  }

  /** The reading of a whole stream at once, a request being over only at its blank line. */
  function Drain(stream: string): Feeding
    decreases |stream|
  {
    var o := Parse(stream);
    if o.result == Error then Feeding([], true, stream)
    else if o.result == Done && HasBlankLine(stream) then
      DoneLength(FRESH, stream);
      After(Taken(o.state, stream[..o.state.parsedBytes]), Drain(stream[o.state.parsedBytes..]))
    else Feeding([], false, stream)
  }

  lemma DrainStep(buf: string, x: string)
    requires Parse(buf).result == Done && HasBlankLine(buf)
    ensures Parse(buf).state.parsedBytes <= |buf|
    ensures var p := Parse(buf).state.parsedBytes;
            Drain(buf + x) == After(Taken(Parse(buf).state, buf[..p]), Drain(buf[p..] + x))
  {
    hide ParseFrom;
    DoneLength(FRESH, buf);
    ParseStable(FRESH, buf, x);
    var p := Parse(buf).state.parsedBytes;
    assert (buf + x)[..p] == buf[..p] && (buf + x)[p..] == buf[p..] + x;
    var i :| 0 <= i < |buf| && BlankAt(buf, i);
    assert BlankAt(buf + x, i);
  }

  /** The requests a chunked run has taken are the head of the reading of the whole stream. */
  lemma {:induction false} FeedFollowsDrain(pending: string, chunks: seq<string>)
    requires NoBoundaryAttempt(pending, chunks)
    ensures var f, d := Feed(pending, chunks), Drain(pending + Concat(chunks));
            if f.failed then d.failed && d.taken == f.taken
            else var e := Drain(f.pending);
                 d.taken == f.taken + e.taken && d.failed == e.failed && d.pending == e.pending
    decreases |chunks|
  {
    hide ParseFrom, HasBlankLine, Drain;
    ParseEmpty();
    if chunks == [] {
      assert pending + Concat(chunks) == pending;
    } else {
      var buf, rest := pending + chunks[0], chunks[1..];
      assert pending + Concat(chunks) == buf + Concat(rest);
      var o := Parse(buf);
      match o.result
      case Incomplete => FeedFollowsDrain(buf, rest);
      case Error =>
        DrainError(buf, Concat(rest));
      case Done =>
        DrainStep(buf, Concat(rest));
        FeedFollowsDrain(buf[o.state.parsedBytes..], rest);
    }
  }

  lemma ParseEmpty()
    ensures Parse("").result == Incomplete
  {
  }

  lemma DrainError(buf: string, x: string)
    requires Parse(buf).result == Error
    ensures Drain(buf + x) == Feeding([], true, buf + x)
  {
    hide ParseFrom;
    ParseStable(FRESH, buf, x);
  }

  /** Nothing more to take: the run failed, or its buffer holds no further request. */
  predicate Settled(f: Feeding) {
    f.failed || (Drain(f.pending).taken == [] && !Drain(f.pending).failed)
  }

  /**
   Two ways of cutting one stream into reads give the same requests: one run is always
   a head of the other, and once both are settled they agree completely.
   */
  lemma ChunkingIrrelevant(a: seq<string>, b: seq<string>)
    requires Concat(a) == Concat(b)
    requires NoBoundaryAttempt("", a) && NoBoundaryAttempt("", b)
    ensures var f, g := Feed("", a), Feed("", b);
            && (f.taken <= g.taken || g.taken <= f.taken)
            && (Settled(f) && Settled(g) ==> f.taken == g.taken && f.failed == g.failed)
  {
    hide NoBoundaryAttempt, Feed, Drain;
    assert "" + Concat(a) == Concat(a) == Concat(b);
    FeedFollowsDrain("", a);
    FeedFollowsDrain("", b);
    var d := Drain(Concat(a));
    var f, g := Feed("", a), Feed("", b);
    assert f.taken <= d.taken && g.taken <= d.taken;
  }
}

/**
 The request parser of src/http/parser.c: a specification that reads the request
 as a line followed by header lines, and the cursor loop of `http_parse_request`
 proved to compute it.
 */
module HttpParser {
  import opened StringUtil

  const MAX_HEADERS := 64

  datatype Verb = GET | POST | PUT | DELETE | HEAD | OPTIONS | PATCH | UNKNOWN

  datatype Version = Http10 | Http11

  datatype Header = Header(name: string, value: string)

  datatype Result = Incomplete | Done | Error

  datatype Parsed = Parsed(
    verb: Verb,
    uri: string,
    version: Version,
    headers: seq<Header>,
    contentLength: int,
    chunked: bool,
    keepAlive: bool,
    hasConnection: bool,
    upgrade: bool,
    upgradeProtocol: string,
    bodyOffset: nat,
    parsedBytes: nat)

  /** The state `http_parse_state_init` leaves behind; the version is read only after it is set. */
  const FRESH := Parsed(GET, "", Http10, [], -1, false, false, false, false, "", 0, 0)

  // ----- lookups -----

  /** `parse_method`. */
  function ParseVerb(s: string): Verb {
    if s == "GET" then GET
    else if s == "POST" then POST
    else if s == "PUT" then PUT
    else if s == "DELETE" then DELETE
    else if s == "HEAD" then HEAD
    else if s == "OPTIONS" then OPTIONS
    else if s == "PATCH" then PATCH
    else UNKNOWN
  }

  /** `http_method_str`. */
  function VerbStr(v: Verb): string {
    match v
    case GET => "GET"
    case POST => "POST"
    case PUT => "PUT"
    case DELETE => "DELETE"
    case HEAD => "HEAD"
    case OPTIONS => "OPTIONS"
    case PATCH => "PATCH"
    case UNKNOWN => "UNKNOWN"
  }

  /** The version token; anything but the two eight-byte names is an error. */
  function ParseVersion(s: string): Option<Version> {
    if s == "HTTP/1.1" then Some(Http11) else if s == "HTTP/1.0" then Some(Http10) else None
  }

  // ----- lines -----

  predicate CrlfAt(s: string, i: int) {
    0 <= i && i + 1 < |s| && s[i] == '\r' && s[i + 1] == '\n'
  }

  predicate CrlfFree(s: string) {
    forall i | 0 <= i < |s| :: !CrlfAt(s, i)
  }

  /** The first CRLF of `s`, or -1. */
  function FindCrlf(s: string): (r: int)
    ensures r >= 0 ==> CrlfAt(s, r)
    ensures forall i | 0 <= i < |s| && CrlfAt(s, i) :: 0 <= r <= i
  {
    if |s| < 2 then -1
    else if CrlfAt(s, 0) then 0
    else
      var r := FindCrlf(s[1..]);
      assert forall i | 0 < i < |s| && CrlfAt(s, i) :: CrlfAt(s[1..], i - 1);
      if r < 0 then -1 else r + 1
  }

  /** `find_crlf` over the bytes from `from` on, as a position in the whole buffer. */
  method FindCrlfFrom(data: string, from: nat) returns (r: int)
    requires from <= |data|
    ensures FindCrlf(data[from..]) < 0 ==> r < 0
    ensures FindCrlf(data[from..]) >= 0 ==> r == from + FindCrlf(data[from..])
  {
    var i := from;
    while i + 1 < |data|
      invariant from <= i <= |data|
      invariant forall j | from <= j < i :: !CrlfAt(data, j)
    {
      if data[i] == '\r' && data[i + 1] == '\n' {
        assert CrlfAt(data[from..], i - from);
        CrlfShift(data, from, FindCrlf(data[from..]));
        return i;
      }
      i := i + 1;
    }
    CrlfShift(data, from, FindCrlf(data[from..]));
    return -1;
  }

  lemma CrlfShift(data: string, from: nat, k: int)
    requires from <= |data| && k >= 0 ==> CrlfAt(data[from..], k)
    ensures from <= |data| && k >= 0 ==> CrlfAt(data, from + k)
  {
  }

  // ----- the request line and the header lines -----

  /** The first line: verb, request target and version, with the fields set before each failure. */
  function RequestLine(s: Parsed, line: string): (r: (bool, Parsed)) {
    var sp1 := FindChar(line, ' ');
    if sp1 < 0 then (false, s)
    else
      var s1 := s.(verb := ParseVerb(line[..sp1]));
      var rest := line[sp1 + 1..];
      var sp2 := FindChar(rest, ' ');
      if sp2 < 0 then (false, s1)
      else
        var s2 := s1.(uri := rest[..sp2]);
        match ParseVersion(rest[sp2 + 1..])
        case None => (false, s2)
        case Some(v) => (true, s2.(version := v))
  }

  /** What a header name means to the parser. */
  datatype HeaderKind = Length | Encoding | Connection | Upgrade | Other

  function Kind(name: string): HeaderKind {
    if IEq(name, "Content-Length") then Length
    else if IEq(name, "Transfer-Encoding") then Encoding
    else if IEq(name, "Connection") then Connection
    else if IEq(name, "Upgrade") then Upgrade
    else Other
  }

  /** Record one header and let it act on the framing flags. */
  function AddHeader(s: Parsed, h: Header): Parsed {
    var k, n := Kind(h.name), StrToInt(h.value);
    s.(headers := s.headers + [h],
       contentLength := if k.Length? && n.Some? then n.value else s.contentLength,
       chunked := s.chunked || (k.Encoding? && IEq(h.value, "chunked")),
       hasConnection := s.hasConnection || k.Connection?,
       keepAlive := if k.Connection? then !IEq(h.value, "close") else s.keepAlive,
       upgrade := s.upgrade || (k.Connection? && ContainsI(h.value, "upgrade")),
       upgradeProtocol := if k.Upgrade? then h.value else s.upgradeProtocol)
  }

  /** The header written on a line, if there is a colon. */
  function ReadHeader(line: string): Option<Header> {
    var colon := FindChar(line, ':');
    if colon < 0 then None else Some(Header(Trim(line[..colon]), Trim(line[colon + 1..])))
  }

  /** How the header loop ends: the blank line and the end of the buffer are different exits. */
  datatype HeadersEnd =
    | NeedMore(s: Parsed)
    | Bad(s: Parsed)
    | Blank(s: Parsed, rest: string)
    | AtEnd(s: Parsed)

  function ParseHeaders(s: Parsed, rest: string): HeadersEnd
    decreases |rest|
  {
    if rest == "" then AtEnd(s)
    else
      var i := FindCrlf(rest);
      if i < 0 then NeedMore(s)
      else if i == 0 then Blank(s, rest[2..])
      else
        match ReadHeader(rest[..i])
        case None => Bad(s)
        case Some(h) =>
          if |s.headers| >= MAX_HEADERS then Bad(s)
          else ParseHeaders(AddHeader(s, h), rest[i + 2..])
  }

  // ----- the whole request -----

  datatype Outcome = Outcome(result: Result, state: Parsed)

  /** Everything after the header loop, with the head ending at `offset` of `len` bytes. */
  function Finish(s: Parsed, offset: nat, len: nat): Outcome
    requires offset <= len
  {
    var s1 := if s.hasConnection then s else s.(keepAlive := s.version == Http11);
    var s2 := if s.version == Http11 && !s.chunked && s.contentLength < 0 then s1.(contentLength := 0) else s1;
    var s3 := s2.(bodyOffset := offset, parsedBytes := offset);
    if s2.contentLength <= 0 then Outcome(Done, s3)
    else if len - offset < s2.contentLength then Outcome(Incomplete, s3)
    else Outcome(Done, s3.(parsedBytes := offset + s2.contentLength))
  }

  /** `http_parse_request` started on state `s`. */
  function ParseFrom(s: Parsed, data: string): Outcome {
    var i := FindCrlf(data);
    if i < 0 then Outcome(Incomplete, s)
    else
      var (ok, s1) := RequestLine(s, data[..i]);
      if !ok then Outcome(Error, s1)
      else
        ParseHeadersShrink(s1, data[i + 2..]);
        match ParseHeaders(s1, data[i + 2..])
        case NeedMore(t) => Outcome(Incomplete, t)
        case Bad(t) => Outcome(Error, t)
        case Blank(t, rest) => Finish(t, |data| - |rest|, |data|)
        case AtEnd(t) => Finish(t, |data|, |data|)
  }

  /** The worker initialises the state before every attempt. */
  function Parse(data: string): Outcome {
    ParseFrom(FRESH, data)
  }

  /** `t` is what follows some CRLF of `s`. */
  predicate AfterCrlf(t: string, s: string) {
    |t| + 2 <= |s| && t == s[|s| - |t|..] && CrlfAt(s, |s| - |t| - 2)
  }

  lemma AfterCrlfDrop(t: string, s: string, m: nat)
    requires m <= |s| && AfterCrlf(t, s[m..])
    ensures AfterCrlf(t, s)
  {
    var d := s[m..];
    assert d[|d| - |t|..] == s[|s| - |t|..];
  }

  lemma {:induction false} ParseHeadersShrink(s: Parsed, rest: string)
    ensures var e := ParseHeaders(s, rest); e.Blank? ==> AfterCrlf(e.rest, rest)
    decreases |rest|
  {
    hide AddHeader, ReadHeader, FindCrlf;
    if rest != "" {
      var i := FindCrlf(rest);
      if i > 0 && ReadHeader(rest[..i]).Some? && |s.headers| < MAX_HEADERS {
        var s' := AddHeader(s, ReadHeader(rest[..i]).value);
        ParseHeadersShrink(s', rest[i + 2..]);
        var e := ParseHeaders(s', rest[i + 2..]);
        if e.Blank? { AfterCrlfDrop(e.rest, rest, i + 2); }
      }
    }
  }

  // ----- the parser as the source runs it -----

  class ParseState {
    var verb: Verb
    var uri: string
    var version: Version
    const headers: array<Header>
    var headerCount: nat
    var contentLength: int
    var chunked: bool
    var keepAlive: bool
    var hasConnection: bool
    var upgrade: bool
    var upgradeProtocol: string
    var bodyOffset: nat
    var parsedBytes: nat

    ghost predicate Valid()
      reads this
    {
      headers.Length == MAX_HEADERS && headerCount <= MAX_HEADERS
    }

    ghost function View(): Parsed
      requires Valid()
      reads this, headers
    {
      Parsed(verb, uri, version, headers[..headerCount], contentLength, chunked, keepAlive,
             hasConnection, upgrade, upgradeProtocol, bodyOffset, parsedBytes)
    }

    /** `http_parse_state_init`. */
    constructor ()
      ensures Valid() && fresh(headers) && View() == FRESH
    {
      verb, uri, version := GET, "", Http10;
      headers := new Header[MAX_HEADERS](_ => Header("", ""));
      headerCount, contentLength := 0, -1;
      chunked, keepAlive, hasConnection, upgrade := false, false, false, false;
      upgradeProtocol, bodyOffset, parsedBytes := "", 0, 0;
    }

    /** The flag updates of one header line. */
    method Record(h: Header)
      requires Valid() && headerCount < MAX_HEADERS
      modifies this, headers
      ensures Valid() && View() == AddHeader(old(View()), h)
    {
      hide IEq, ContainsI, StrToInt;
      headers[headerCount] := h;
      headerCount := headerCount + 1;
      assert headers[..headerCount] == old(headers[..headerCount]) + [h];
      var same := StrIEq(h.name, "Content-Length");
      if same {
        var cl := StrToInt(h.value);
        if cl.Some? { contentLength := cl.value; }
        return;
      }
      same := StrIEq(h.name, "Transfer-Encoding");
      if same {
        var isChunked := StrIEq(h.value, "chunked");
        if isChunked { chunked := true; }
        return;
      }
      same := StrIEq(h.name, "Connection");
      if same {
        hasConnection := true;
        var isClose := StrIEq(h.value, "close");
        keepAlive := !isClose;
        var wantsUpgrade := StrContainsI(h.value, "upgrade");
        if wantsUpgrade { upgrade := true; }
        return;
      }
      same := StrIEq(h.name, "Upgrade");
      if same {
        upgradeProtocol := h.value;
      }
    }

    /** The code after the header loop. */
    method Conclude(offset: nat, len: nat) returns (r: Result)
      requires Valid() && offset <= len
      modifies this
      ensures Valid() && Outcome(r, View()) == Finish(old(View()), offset, len)
    {
      if !hasConnection {
        keepAlive := version == Http11;
      }
      if version == Http11 && !chunked && contentLength < 0 {
        contentLength := 0;
      }
      bodyOffset := offset;
      parsedBytes := bodyOffset;
      if contentLength > 0 {
        if len - bodyOffset < contentLength {
          return Incomplete;
        }
        parsedBytes := parsedBytes + contentLength;
      }
      return Done;
    }

    /** The first line. */
    method ReadRequestLine(line: string) returns (ok: bool)
      requires Valid()
      modifies this
      ensures Valid() && (ok, View()) == RequestLine(old(View()), line)
    {
      var sp1 := FindChar(line, ' ');
      if sp1 < 0 { return false; }
      verb := ParseVerb(line[..sp1]);
      var rest := line[sp1 + 1..];
      var sp2 := FindChar(rest, ' ');
      if sp2 < 0 { return false; }
      uri := rest[..sp2];
      var v := ParseVersion(rest[sp2 + 1..]);
      if v.None? { return false; }
      version := v.value;
      return true;
    }

    /** One header line: the colon, the room check, the two trimmed parts. */
    method ReadHeaderLine(line: string) returns (ok: bool)
      requires Valid()
      modifies this, headers
      ensures Valid() && ok == (ReadHeader(line).Some? && |old(View()).headers| < MAX_HEADERS)
      ensures View() == if ok then AddHeader(old(View()), ReadHeader(line).value) else old(View())
    {
      hide AddHeader, FindChar, Trim;
      var colon := FindChar(line, ':');
      if colon < 0 { return false; }
      if headerCount >= MAX_HEADERS { return false; }
      var name := StrTrim(line[..colon]);
      var value := StrTrim(line[colon + 1..]);
      Record(Header(name, value));
      return true;
    }

    /** `http_parse_request`: one cursor moving over the buffer, every field updated in place. */
    method ParseRequest(data: string) returns (r: Result)
      requires Valid()
      modifies this, headers
      ensures Valid() && Outcome(r, View()) == ParseFrom(old(View()), data)
    {
      hide RequestLine, ReadHeader, AddHeader, Finish, FindCrlf, ParseHeaders;
      var lineEnd := FindCrlfFrom(data, 0);
      assert data[0..] == data;
      if lineEnd < 0 { return Incomplete; }
      var ok := ReadRequestLine(data[..lineEnd]);
      if !ok { return Error; }
      var cur := lineEnd + 2;
      ghost var s1, start := View(), cur;
      while cur < |data|
        invariant Valid() && start <= cur <= |data|
        invariant ParseHeaders(s1, data[start..]) == ParseHeaders(View(), data[cur..])
      {
        lineEnd := FindCrlfFrom(data, cur);
        ParseHeadersStep(View(), data, cur, lineEnd);
        if lineEnd < 0 { return Incomplete; }
        if lineEnd == cur {
          cur := cur + 2;
          r := Conclude(cur, |data|);
          return;
        }
        ok := ReadHeaderLine(data[cur..lineEnd]);
        if !ok { return Error; }
        cur := lineEnd + 2;
      }
      ParseHeadersStep(View(), data, cur, -1);
      r := Conclude(cur, |data|);
    }
  }

  /** One turn of the header loop, in terms of positions in the buffer. */
  lemma ParseHeadersStep(s: Parsed, data: string, cur: nat, lineEnd: int)
    requires cur <= |data|
    requires var i := FindCrlf(data[cur..]); if i < 0 then lineEnd < 0 else lineEnd == cur + i
    ensures cur == |data| ==> ParseHeaders(s, data[cur..]) == AtEnd(s)
    ensures cur < |data| && lineEnd < 0 ==> ParseHeaders(s, data[cur..]) == NeedMore(s)
    ensures lineEnd >= 0 ==> cur <= lineEnd && lineEnd + 2 <= |data|
    ensures lineEnd == cur ==> ParseHeaders(s, data[cur..]) == Blank(s, data[cur + 2..])
    ensures lineEnd > cur ==>
              var h := ReadHeader(data[cur..lineEnd]);
              ParseHeaders(s, data[cur..]) ==
              if h.Some? && |s.headers| < MAX_HEADERS
              then ParseHeaders(AddHeader(s, h.value), data[lineEnd + 2..]) else Bad(s)
  {
    hide AddHeader, ReadHeader, FindCrlf;
    if lineEnd >= 0 {
      assert data[cur..][lineEnd - cur + 2..] == data[lineEnd + 2..];
      assert data[cur..][..lineEnd - cur] == data[cur..lineEnd];
    }
  }
}

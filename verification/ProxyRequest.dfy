/**
 The request handed to a backend: `request_populate` and `request_header` of
 src/http/request.c, and the printer `build_proxy_request` of src/proxy/proxy_conn.c.
 Reading back what the printer wrote gives the request again, up to the headers the
 proxy owns.
 */
module ProxyRequest {
  import opened StringUtil
  import opened HttpParser
  import ParserStability

  const CRLF := ParserStability.CRLF
  const MAX_HEADER_LEN := 8192
  const VERSION := "HTTP/1.1"

  // ----- request.c -----

  datatype Request = Request(
    verb: Verb,
    path: string,
    query: string,
    version: Version,
    headers: seq<Header>,
    contentLength: int,
    chunked: bool,
    keepAlive: bool,
    upgrade: bool,
    upgradeProtocol: string,
    body: string)

  /** `request_populate` on a zeroed request. */
  function Populate(p: Parsed, raw: string): Request {
    var q := FindChar(p.uri, '?');
    var path := if q < 0 then p.uri else p.uri[..q];
    var query := if q < 0 then "" else p.uri[q + 1..];
    var body := if p.contentLength > 0 && p.bodyOffset + p.contentLength <= |raw|
                then raw[p.bodyOffset..p.bodyOffset + p.contentLength] else "";
    Request(p.verb, path, query, p.version, p.headers, p.contentLength, p.chunked, p.keepAlive,
            p.upgrade, p.upgradeProtocol, body)
  }

  /** Path and query are the target cut at its first question mark. */
  lemma PopulateSplits(p: Parsed, raw: string)
    ensures var req := Populate(p, raw);
            && '?' !in req.path
            && p.uri == (if '?' in p.uri then req.path + "?" + req.query else req.path)
            && ('?' !in p.uri ==> req.query == "")
  {
    hide FindChar;
    var q := FindChar(p.uri, '?');
    if q >= 0 { assert p.uri == p.uri[..q] + [p.uri[q]] + p.uri[q + 1..]; }
  }

  /** The value of the first header of that name; absent reads as the empty slice. */
  function HeaderValue(hs: seq<Header>, name: string): string {
    if hs == [] then "" else if IEq(hs[0].name, name) then hs[0].value else HeaderValue(hs[1..], name)
  }

  /** `request_header`. */
  method RequestHeader(hs: seq<Header>, name: string) returns (r: Option<string>)
    ensures r.Some? <==> exists i | 0 <= i < |hs| :: IEq(hs[i].name, name)
    ensures HeaderValue(hs, name) == if r.Some? then r.value else ""
  {
    hide IEq;
    var i := 0;
    while i < |hs|
      invariant 0 <= i <= |hs|
      invariant forall j | 0 <= j < i :: !IEq(hs[j].name, name)
      invariant HeaderValue(hs, name) == HeaderValue(hs[i..], name)
    {
      var same := StrIEq(hs[i].name, name);
      if same { return Some(hs[i].value); }
      assert hs[i..][1..] == hs[i + 1..];
      i := i + 1;
    }
    return None;
  }

  // ----- what the printer writes -----

  /** Headers the proxy replaces with its own. */
  predicate Owned(h: Header) {
    IEq(h.name, "Host") || IEq(h.name, "Connection")
  }

  function Kept(hs: seq<Header>): seq<Header> {
    if hs == [] then []
    else if Owned(hs[0]) then Kept(hs[1..])
    else [hs[0]] + Kept(hs[1..])
  }

  function ProxyHeaders(req: Request, ip: string): seq<Header> {
    [Header("Host", HeaderValue(req.headers, "Host")),
     Header("X-Real-IP", ip),
     Header("X-Forwarded-For", ip),
     Header("Connection", if req.upgrade then "Upgrade" else "keep-alive")]
  }

  /** The headers a backend is to see. */
  function Forwarded(req: Request, ip: string): seq<Header> {
    ProxyHeaders(req, ip) + Kept(req.headers)
  }

  function Printed(name: string, value: string): string {
    name + ": " + value + CRLF
  }

  function Line(h: Header): string {
    Printed(CStr(h.name), CStr(h.value))
  }

  function Lines(hs: seq<Header>): string {
    if hs == [] then "" else Line(hs[0]) + Lines(hs[1..])
  }

  function FirstLine(req: Request): string {
    VerbStr(req.verb) + " " + CStr(req.path) + " " + VERSION
  }

  function Head(req: Request, ip: string): string {
    FirstLine(req) + CRLF + Lines(Forwarded(req, ip)) + CRLF
  }

  /** The first piece that is printed: the request line and the proxy's headers. */
  function Opening(req: Request, ip: string): string {
    FirstLine(req) + CRLF
    + Printed("Host", CStr(HeaderValue(req.headers, "Host")))
    + Printed("X-Real-IP", ip) + Printed("X-Forwarded-For", ip)
    + Printed("Connection", if req.upgrade then "Upgrade" else "keep-alive")
  }

  // ----- the running index -----

  function EachLine(hs: seq<Header>): seq<string> {
    if hs == [] then [] else [Line(hs[0])] + EachLine(hs[1..])
  }

  /** The pieces, one for each call of `snprintf`. */
  function Pieces(req: Request, ip: string): seq<string> {
    [Opening(req, ip)] + EachLine(Kept(req.headers)) + [CRLF]
  }

  /** The index before each call, and after the last. */
  function Indices(n: nat, pieces: seq<string>): (r: seq<nat>)
    ensures |r| == |pieces| + 1
    decreases |pieces|
  {
    [n] + if pieces == [] then [] else Indices(n + |pieces[0]|, pieces[1..])
  }

  /** No call starts behind the end of the buffer, and no more is copied out of it than it holds. */
  predicate StaysInside(req: Request, ip: string) {
    forall i | 0 <= i < |Indices(0, Pieces(req, ip))| :: Indices(0, Pieces(req, ip))[i] <= MAX_HEADER_LEN
  }

  function Total(pieces: seq<string>): nat {
    if pieces == [] then 0 else |pieces[0]| + Total(pieces[1..])
  }

  lemma {:induction false} IndicesEnd(n: nat, pieces: seq<string>)
    ensures var r := Indices(n, pieces);
            r[|pieces|] == n + Total(pieces) && forall i | 0 <= i < |r| :: r[i] <= r[|pieces|]
    decreases |pieces|
  {
    if pieces != [] {
      IndicesEnd(n + |pieces[0]|, pieces[1..]);
      var r, more := Indices(n, pieces), Indices(n + |pieces[0]|, pieces[1..]);
      assert r == [n] + more && more[0] >= n;
    }
  }

  lemma {:induction false} TotalConcat(a: seq<string>, b: seq<string>)
    ensures Total(a + b) == Total(a) + Total(b)
  {
    if a == [] {
      assert a + b == b;
    } else {
      assert (a + b)[1..] == a[1..] + b;
      TotalConcat(a[1..], b);
    }
  }

  lemma {:induction false} TotalLines(hs: seq<Header>)
    ensures Total(EachLine(hs)) == |Lines(hs)|
  {
    hide Line;
    if hs != [] {
      TotalLines(hs[1..]);
      assert EachLine(hs)[1..] == EachLine(hs[1..]);
    }
  }

  /** The printer stays inside its buffer exactly if the head is no longer than that. */
  lemma StaysInsideIff(req: Request, ip: string)
    requires NulFree(ip)
    ensures StaysInside(req, ip) <==> |Head(req, ip)| <= MAX_HEADER_LEN
  {
    hide Opening, Head, Lines, EachLine, Kept, Indices;
    var lines := EachLine(Kept(req.headers));
    HeadParts(req, ip);
    TotalLines(Kept(req.headers));
    TotalConcat([Opening(req, ip)] + lines, [CRLF]);
    TotalConcat([Opening(req, ip)], lines);
    IndicesEnd(0, Pieces(req, ip));
    assert [Opening(req, ip)][1..] == [] && [CRLF][1..] == [];
  }

  // ----- the printer as the source runs it -----

  /** `snprintf` into the rest of a buffer: at most the room less one, then a NUL. */
  method Snprintf(buf: array<char>, n: nat, text: string) returns (len: nat)
    requires n <= buf.Length
    modifies buf
    ensures len == |text| && buf[..n] == old(buf[..n])
    ensures n + |text| < buf.Length ==> buf[..n + |text|] == old(buf[..n]) + text
    ensures n < buf.Length <= n + |text| ==> buf[..] == old(buf[..n]) + text[..buf.Length - n - 1] + ['\0']
  {
    if n < buf.Length {
      var k := if |text| < buf.Length - n - 1 then |text| else buf.Length - n - 1;
      forall i | 0 <= i < k { buf[n + i] := text[i]; }
      buf[n + k] := '\0';
    }
    assert n + |text| < buf.Length ==> buf[..n + |text|] == old(buf[..n]) + text;
    assert n < buf.Length <= n + |text| ==> buf[..] == old(buf[..n]) + text[..buf.Length - n - 1] + ['\0'];
    len := |text|;
  }

  /** The loop that passes the remaining headers on. */
  method AppendKept(hs: seq<Header>, buf: array<char>, start: nat) returns (n: nat)
    requires start + |Lines(Kept(hs))| < buf.Length
    modifies buf
    ensures n == start + |Lines(Kept(hs))|
    ensures buf[..n] == old(buf[..start]) + Lines(Kept(hs))
  {
    hide Line, IEq, Kept, Lines;
    ghost var all := old(buf[..start]) + Lines(Kept(hs));
    n := start;
    var i := 0;
    while i < |hs|
      invariant 0 <= i <= |hs|
      invariant n <= n + |Lines(Kept(hs[i..]))| < buf.Length
      invariant buf[..n] + Lines(Kept(hs[i..])) == all
    {
      ghost var was, rest := buf[..n], hs[i + 1..];
      assert hs[i..] == [hs[i]] + rest;
      KeptFirst(hs[i], rest);
      var isHost := StrIEq(hs[i].name, "Host");
      var isConnection := StrIEq(hs[i].name, "Connection");
      if !isHost && !isConnection {
        assert was + (Line(hs[i]) + Lines(Kept(rest))) == (was + Line(hs[i])) + Lines(Kept(rest));
        var hn := Snprintf(buf, n, Line(hs[i]));
        n := n + hn;
      }
      i := i + 1;
    }
    assert Lines(Kept(hs[i..])) == "" by {
      assert hs[i..] == [];
      LinesEmpty();
    }
  }

  lemma LinesEmpty()
    ensures Lines(Kept([])) == ""
  {
  }

  /** What the buffer holds of a head: one that just fills it loses its last byte to the terminator. */
  function Terminated(head: string): (r: string)
    ensures |r| == |head|
  {
    if |head| == MAX_HEADER_LEN then head[..MAX_HEADER_LEN - 1] + ['\0'] else head
  }

  /** The blank line at the end. */
  method AppendEnd(buf: array<char>, start: nat) returns (n: nat)
    requires buf.Length == MAX_HEADER_LEN && start + 2 <= MAX_HEADER_LEN
    modifies buf
    ensures n == start + 2 && buf[..n] == Terminated(old(buf[..start]) + CRLF)
  {
    ghost var upto := buf[..start];
    var e := Snprintf(buf, start, CRLF);
    n := start + e;
    if n == MAX_HEADER_LEN {
      assert upto + CRLF[..1] == (upto + CRLF)[..n - 1];
      assert buf[..n] == buf[..];
    }
  }

  /** The head of the forwarded request, written piece by piece with a running index. */
  method BuildHead(req: Request, ip: string, buf: array<char>) returns (n: nat)
    requires buf.Length == MAX_HEADER_LEN
    requires NulFree(ip)
    requires |Head(req, ip)| <= MAX_HEADER_LEN
    modifies buf
    ensures n == |Head(req, ip)| && buf[..n] == Terminated(Head(req, ip))
  {
    hide CStr, HeaderValue, IEq, FirstLine, Lines, Kept, Printed, Head, Terminated;
    var host := RequestHeader(req.headers, "Host");
    var connection := if req.upgrade then "Upgrade" else "keep-alive";
    var first := FirstLine(req) + CRLF
      + Printed("Host", CStr(if host.Some? then host.value else ""))
      + Printed("X-Real-IP", ip) + Printed("X-Forwarded-For", ip) + Printed("Connection", connection);
    assert first == Opening(req, ip);
    HeadParts(req, ip);
    assert |Head(req, ip)| == |first| + |Lines(Kept(req.headers))| + 2;
    n := Snprintf(buf, 0, first);
    assert buf[..0] + first == first;
    n := AppendKept(req.headers, buf, n);
    n := AppendEnd(buf, n);
  }

  lemma HeadParts(req: Request, ip: string)
    requires NulFree(ip)
    ensures Head(req, ip) == Opening(req, ip) + Lines(Kept(req.headers)) + CRLF
  {
    hide CStr, HeaderValue, FirstLine, Lines, Kept, Printed;
    var own, kept := ProxyHeaders(req, ip), Kept(req.headers);
    LinesConcat(own, kept);
    LinesFour(own[0], own[1], own[2], own[3]);
    ProxyNames();
    CStrId(ip);
    CStrId(own[3].value);
    Regroup(FirstLine(req) + CRLF, Line(own[0]), Line(own[1]), Line(own[2]), Line(own[3]), Lines(kept), CRLF);
  }

  lemma Regroup(f: string, a: string, b: string, c: string, d: string, k: string, e: string)
    ensures f + ((a + b + c + d) + k) + e == f + a + b + c + d + k + e
  {
    assert f + ((a + b + c + d) + k) == f + (a + b + c + d) + k;
    assert f + (a + b + c + d) == f + (a + b + c) + d;
    assert f + (a + b + c) == f + (a + b) + c;
    assert f + (a + b) == f + a + b;
  }

  lemma ProxyNames()
    ensures CStr("Host") == "Host" && CStr("X-Real-IP") == "X-Real-IP"
    ensures CStr("X-Forwarded-For") == "X-Forwarded-For" && CStr("Connection") == "Connection"
  {
    hide CStr;
    CStrId("Host");
    CStrId("X-Real-IP");
    CStrId("X-Forwarded-For");
    CStrId("Connection");
  }

  lemma LinesFour(a: Header, b: Header, c: Header, d: Header)
    ensures Lines([a, b, c, d]) == Line(a) + Line(b) + Line(c) + Line(d)
  {
    hide Line;
    LinesOne(a);
    LinesOne(b);
    LinesOne(c);
    LinesOne(d);
    assert [a, b, c, d] == [a] + [b] + [c] + [d];
    LinesConcat([a] + [b] + [c], [d]);
    LinesConcat([a] + [b], [c]);
    LinesConcat([a], [b]);
  }

  lemma LinesOne(a: Header)
    ensures Lines([a]) == Line(a)
  {
    hide Line;
  }

  lemma KeptFirst(h: Header, rest: seq<Header>)
    ensures !Owned(h) ==> Lines(Kept([h] + rest)) == Line(h) + Lines(Kept(rest))
    ensures Owned(h) ==> Kept([h] + rest) == Kept(rest)
  {
    hide Owned, Line;
    assert ([h] + rest)[1..] == rest;
    assert ([h] + Kept(rest))[1..] == Kept(rest);
  }

  lemma {:induction false} LinesConcat(a: seq<Header>, b: seq<Header>)
    ensures Lines(a + b) == Lines(a) + Lines(b)
  {
    hide Line;
    if a == [] {
      assert a + b == b;
    } else {
      assert (a + b)[1..] == a[1..] + b;
      LinesConcat(a[1..], b);
    }
  }
}

/**
 Reading a forwarded request back.  The parser run over the bytes that
 `build_proxy_request` printed recovers the request: same verb, path, framing and
 body, and the header list with the proxy's own headers in front.
 */
module ProxyRoundTrip {
  import opened StringUtil
  import opened HttpParser
  import opened ParserMeaning
  import opened ProxyRequest

  // ----- one header line -----

  predicate HeaderNulFree(h: Header) {
    NulFree(h.name) && NulFree(h.value)
  }

  predicate AllWell(hs: seq<Header>) {
    forall h | h in hs :: WellFormed(h)
  }

  /** A header as a reader of the printed line sees it: cut at a NUL, and then trimmed. */
  function Cut(h: Header): Header {
    Header(Trim(CStr(h.name)), Trim(CStr(h.value)))
  }

  /** A header as it is printed. */
  function RawLine(h: Header): string {
    CStr(h.name) + ": " + CStr(h.value)
  }

  lemma CStrKeeps(s: string, c: char)
    requires CrlfFree(s)
    ensures CrlfFree(CStr(s)) && (c !in s ==> c !in CStr(s))
  {
    hide CStr;
    var r := CStr(s);
    CrlfFreeSlice(s, 0, |r|);
    assert s[0..|r|] == r;
  }

  lemma TrimSkipsSpace(v: string)
    ensures Trim(" " + v) == Trim(v)
  {
    assert (" " + v)[1..] == v;
  }

  lemma LineReadsBack(h: Header)
    requires WellFormed(h)
    ensures CrlfFree(RawLine(h)) && ReadHeader(RawLine(h)) == Some(Cut(h))
  {
    hide FindChar, Trim, CrlfFree, CStr;
    var name, value := CStr(h.name), CStr(h.value);
    CStrKeeps(h.name, ':');
    CStrKeeps(h.value, ':');
    var line := name + ": " + value;
    assert CrlfFree(": ") by { assert forall i | 0 <= i < 2 :: !CrlfAt(": ", i); AllFree(": "); }
    CrlfFreeJoin(name, ": ");
    CrlfFreeJoin(name + ": ", value);
    assert line == name + [':'] + (" " + value);
    FindCharAt(name, ':', " " + value);
    assert line[..|name|] == name && line[|name| + 1..] == " " + value;
    TrimSkipsSpace(value);
  }

  lemma AllFree(s: string)
    requires forall i | 0 <= i < |s| :: !CrlfAt(s, i)
    ensures CrlfFree(s)
  {
  }

  lemma TrimShorter(s: string)
    ensures |Trim(s)| <= |s| && (Trimmed(s) ==> Trim(s) == s)
  {
    hide LeftTrimmed, RightTrimmed;
    LeftTrimmedMeans(s);
    RightTrimmedMeans(LeftTrimmed(s));
    if Trimmed(s) {
      assert s == "" + s + "";
      TrimUnique("", s, "");
    }
  }

  /** A well-formed header survives printing exactly when there is no NUL in it. */
  lemma CutIff(h: Header)
    requires WellFormed(h)
    ensures Cut(h) == h <==> HeaderNulFree(h)
  {
    hide CStr, Trim, CrlfFree;
    TrimShorter(CStr(h.name));
    TrimShorter(CStr(h.value));
    TrimShorter(h.name);
    TrimShorter(h.value);
    if HeaderNulFree(h) {
      CStrId(h.name);
      CStrId(h.value);
    }
  }

  // ----- header lines -----

  function RawLines(hs: seq<Header>): seq<string> {
    if hs == [] then [] else [RawLine(hs[0])] + RawLines(hs[1..])
  }

  function CutAll(hs: seq<Header>): seq<Header> {
    if hs == [] then [] else [Cut(hs[0])] + CutAll(hs[1..])
  }

  lemma {:induction false} CutCount(hs: seq<Header>)
    ensures |CutAll(hs)| == |hs|
  {
    hide Cut;
    if hs != [] { CutCount(hs[1..]); }
  }

  lemma {:induction false} CutAt(hs: seq<Header>, i: nat)
    requires i < |hs|
    ensures |CutAll(hs)| == |hs| && CutAll(hs)[i] == Cut(hs[i])
  {
    hide Cut;
    CutCount(hs);
    if i > 0 { CutAt(hs[1..], i - 1); }
  }

  /** The printer's lines spell the header list, each header cut at its NULs. */
  lemma {:induction false} LinesSpell(hs: seq<Header>)
    requires AllWell(hs)
    ensures Lines(hs) == Joined(RawLines(hs)) && |RawLines(hs)| == |hs|
    ensures AllLines(RawLines(hs)) && Read(RawLines(hs)) == CutAll(hs)
  {
    hide ReadHeader, CStr, WellFormed, CrlfFree, Cut;
    if hs != [] {
      var h := hs[0];
      assert h in hs;
      LineReadsBack(h);
      LinesSpell(hs[1..]);
      var ls := RawLines(hs);
      assert ls[0] == RawLine(h) && ls[1..] == RawLines(hs[1..]);
      assert Line(h) == RawLine(h) + CRLF;
      assert RawLine(h)[|CStr(h.name)|] == ':';
    }
  }

  // ----- headers the proxy drops and adds -----

  /** The names the parser acts on have different lengths, so a header acts in one way only. */
  lemma OwnedActs(h: Header)
    ensures Owned(h) ==> Kind(h.name).Other? || Kind(h.name).Connection?
    ensures Kind(h.name).Connection? ==> Owned(h)
  {
    hide CaseCmp;
  }

  lemma OwnedStep(s: Parsed, h: Header)
    requires Owned(h)
    ensures SameFraming(AddHeader(s, h), s)
  {
    hide Kind, IEq, StrToInt, ContainsI, Owned;
    OwnedActs(h);
  }

  lemma KeptStep(s: Parsed, t: Parsed, h: Header)
    requires SameFraming(s, t) && !Owned(h)
    ensures SameFraming(AddHeader(s, h), AddHeader(t, h)) && SameConnection(AddHeader(t, h), t)
  {
    hide Kind, IEq, StrToInt, ContainsI, Owned;
    OwnedActs(h);
  }

  /** Dropping `Host` and `Connection` leaves the framing alone, and nothing else speaks of the connection. */
  lemma {:induction false} KeptFraming(s: Parsed, t: Parsed, hs: seq<Header>)
    requires SameFraming(s, t)
    ensures SameFraming(Absorb(s, hs), Absorb(t, Kept(hs)))
    ensures SameConnection(Absorb(t, Kept(hs)), t)
    decreases |hs|
  {
    hide AddHeader, Owned;
    if hs != [] {
      var h, rest := hs[0], hs[1..];
      if Owned(h) {
        OwnedStep(s, h);
        KeptFraming(AddHeader(s, h), t, rest);
      } else {
        KeptStep(s, t, h);
        assert Kept(hs)[1..] == Kept(rest);
        KeptFraming(AddHeader(s, h), AddHeader(t, h), rest);
      }
    }
  }

  /** A header whose name has none of the four lengths the parser looks for only gets recorded. */
  lemma PlainHeader(s: Parsed, h: Header)
    requires |h.name| != 14 && |h.name| != 17 && |h.name| != 10 && |h.name| != 7
    ensures AddHeader(s, h) == s.(headers := s.headers + [h])
  {
    hide CaseCmp, StrToInt, ContainsI;
    assert Kind(h.name) == Other;
  }

  lemma ConnectionHeader(s: Parsed, upgrade: bool)
    requires !s.upgrade
    ensures var h := Header("Connection", if upgrade then "Upgrade" else "keep-alive");
            AddHeader(s, h) ==
            s.(headers := s.headers + [h], hasConnection := true, keepAlive := true, upgrade := upgrade)
  {
    hide StrToInt, CaseCmp, ContainsI;
    var h := Header("Connection", if upgrade then "Upgrade" else "keep-alive");
    CaseCmpZero("Connection", "Connection");
    assert Kind(h.name) == HeaderKind.Connection;
    if upgrade {
      UpgradeContained();
    } else {
      KeepAliveContains();
    }
  }

  lemma UpgradeContained()
    ensures ContainsI("Upgrade", "upgrade")
  {
    hide CaseCmp;
    CaseCmpZero("Upgrade", "upgrade");
    assert "Upgrade"[0..7] == "Upgrade";
    assert MatchesAt("Upgrade", "upgrade", 0);
  }

  lemma KeepAliveContains()
    ensures !ContainsI("keep-alive", "upgrade")
  {
    forall i | 0 <= i <= 10 ensures !MatchesAt("keep-alive", "upgrade", i) {
      if i <= 3 {
        var w := "keep-alive"[i..i + 7];
        assert w[0] == "keep-alive"[i];
        assert Lower(w[0]) != Lower('u');
      }
    }
  }

  /** After the proxy's own headers nothing is known of the framing and the connection is as announced. */
  lemma ProxyHeadersAbsorbed(s: Parsed, req: Request, ip: string)
    requires !s.upgrade
    ensures var t := Absorb(s, ProxyHeaders(req, ip));
            SameFraming(t, s) && t.hasConnection && t.keepAlive && t.upgrade == req.upgrade
  {
    hide AddHeader, HeaderValue;
    var hs := ProxyHeaders(req, ip);
    PlainHeader(s, hs[0]);
    var s1 := AddHeader(s, hs[0]);
    PlainHeader(s1, hs[1]);
    var s2 := AddHeader(s1, hs[1]);
    PlainHeader(s2, hs[2]);
    var s3 := AddHeader(s2, hs[2]);
    ConnectionHeader(s3, req.upgrade);
    AbsorbFour(s, hs[0], hs[1], hs[2], hs[3]);
  }

  lemma AbsorbFour(s: Parsed, a: Header, b: Header, c: Header, d: Header)
    ensures Absorb(s, [a, b, c, d]) == AddHeader(AddHeader(AddHeader(AddHeader(s, a), b), c), d)
  {
    hide AddHeader;
    var hs := [a, b, c, d];
    assert hs[1..] == [b, c, d] && hs[1..][1..] == [c, d] && [c, d][1..] == [d] && [d][1..] == [];
    var s2 := AddHeader(AddHeader(s, a), b);
    assert Absorb(s2, [c, d]) == Absorb(AddHeader(s2, c), [d]);
    assert Absorb(AddHeader(s, a), [b, c, d]) == Absorb(s2, [c, d]);
  }

  lemma {:induction false} AbsorbConcat(s: Parsed, a: seq<Header>, b: seq<Header>)
    ensures Absorb(s, a + b) == Absorb(Absorb(s, a), b)
    decreases |a|
  {
    hide AddHeader;
    if a == [] {
      assert a + b == b;
    } else {
      assert (a + b)[1..] == a[1..] + b;
      AbsorbConcat(AddHeader(s, a[0]), a[1..], b);
    }
  }

  // ----- the first line -----

  lemma VerbReadsBack(v: Verb)
    ensures ParseVerb(VerbStr(v)) == v
    ensures ' ' !in VerbStr(v) && '\r' !in VerbStr(v)
  {
  }

  // ----- the round trip -----

  predicate CleanValue(v: string) {
    Trimmed(v) && CrlfFree(v) && NulFree(v)
  }

  predicate WellValue(v: string) {
    Trimmed(v) && CrlfFree(v)
  }

  lemma {:induction false} HeaderValueWell(hs: seq<Header>, name: string)
    requires AllWell(hs)
    ensures WellValue(HeaderValue(hs, name))
  {
    hide IEq;
    if hs != [] {
      assert hs[0] in hs;
      HeaderValueWell(hs[1..], name);
    }
  }

  lemma {:induction false} KeptWell(hs: seq<Header>)
    requires AllWell(hs)
    ensures AllWell(Kept(hs))
  {
    hide WellFormed, Owned;
    if hs != [] { KeptWell(hs[1..]); }
  }

  /** A name the proxy writes. */
  predicate PlainName(name: string) {
    Trimmed(name) && ':' !in name && '\r' !in name && '\0' !in name
  }

  lemma OwnNames()
    ensures PlainName("Host") && PlainName("X-Real-IP")
  {
  }

  lemma MoreOwnNames()
    ensures PlainName("X-Forwarded-For") && PlainName("Connection")
  {
  }

  lemma OwnNameWell(name: string, v: string)
    requires PlainName(name) && WellValue(v)
    ensures WellFormed(Header(name, v)) && (NulFree(v) <==> HeaderNulFree(Header(name, v)))
  {
    hide Trimmed;
    NoNul(name);
    AllFree(name);
  }

  lemma NoNul(s: string)
    requires '\0' !in s
    ensures NulFree(s)
  {
  }

  lemma ConnectionValueClean(upgrade: bool)
    ensures CleanValue(if upgrade then "Upgrade" else "keep-alive")
  {
    var v := if upgrade then "Upgrade" else "keep-alive";
    assert '\r' !in v && '\0' !in v;
  }

  /** Nothing that is printed is cut short: no NUL in the path, in the host or in a header that is passed on. */
  predicate Printable(req: Request) {
    && NulFree(req.path) && NulFree(HeaderValue(req.headers, "Host"))
    && forall h | h in Kept(req.headers) :: HeaderNulFree(h)
  }

  predicate AllNulFree(hs: seq<Header>) {
    forall h | h in hs :: HeaderNulFree(h)
  }

  lemma CleanIsWell(v: string)
    requires CleanValue(v)
    ensures WellValue(v) && NulFree(v)
  {
  }

  lemma OwnHeaders(req: Request, ip: string)
    requires CleanValue(ip) && AllWell(req.headers)
    ensures AllWell(ProxyHeaders(req, ip))
    ensures AllNulFree(ProxyHeaders(req, ip)) <==> NulFree(HeaderValue(req.headers, "Host"))
  {
    hide HeaderValue, WellFormed, HeaderNulFree, CleanValue, PlainName, WellValue, NulFree;
    var upgrade := if req.upgrade then "Upgrade" else "keep-alive";
    HeaderValueWell(req.headers, "Host");
    ConnectionValueClean(req.upgrade);
    OwnNames();
    MoreOwnNames();
    CleanIsWell(ip);
    CleanIsWell(upgrade);
    var host := HeaderValue(req.headers, "Host");
    OwnNameWell("Host", host);
    OwnNameWell("X-Real-IP", ip);
    OwnNameWell("X-Forwarded-For", ip);
    OwnNameWell("Connection", upgrade);
    assert ProxyHeaders(req, ip)[0] == Header("Host", host);
  }

  lemma ForwardedWell(req: Request, ip: string)
    requires CleanValue(ip) && AllWell(req.headers)
    ensures var hs := Forwarded(req, ip);
            && AllWell(hs)
            && (Printable(req) <==> NulFree(req.path) && AllNulFree(hs))
  {
    hide HeaderValue, Kept, WellFormed, HeaderNulFree, CleanValue, ProxyHeaders, NulFree;
    KeptWell(req.headers);
    OwnHeaders(req, ip);
    var own, kept, hs := ProxyHeaders(req, ip), Kept(req.headers), Forwarded(req, ip);
    assert forall h | h in own :: h in hs;
    assert forall h | h in kept :: h in hs;
  }

  /** Cutting changes nothing exactly when there is nothing to cut. */
  lemma CutAllIff(hs: seq<Header>)
    requires AllWell(hs)
    ensures CutAll(hs) == hs <==> AllNulFree(hs)
  {
    hide Cut, WellFormed, HeaderNulFree, CutAll;
    CutCount(hs);
    forall i | 0 <= i < |hs| ensures CutAll(hs)[i] == hs[i] <==> HeaderNulFree(hs[i]) {
      assert hs[i] in hs;
      CutAt(hs, i);
      CutIff(hs[i]);
    }
    if CutAll(hs) == hs {
      forall h | h in hs ensures HeaderNulFree(h) {
        var i :| 0 <= i < |hs| && hs[i] == h;
        assert CutAll(hs)[i] == hs[i];
      }
    }
    if AllNulFree(hs) {
      forall i | 0 <= i < |hs| ensures CutAll(hs)[i] == hs[i] { assert hs[i] in hs; }
    }
  }

  /** The printed head, as the parser's grammar spells it. */
  function HeadOf(req: Request, ip: string): Spelling {
    Spelling(VerbStr(req.verb), CStr(req.path), Http11, RawLines(Forwarded(req, ip)))
  }

  /** Where a parser starts on the printed request. */
  function Opened(req: Request): Parsed {
    FRESH.(verb := req.verb, uri := CStr(req.path), version := Http11)
  }

  predicate PathOk(path: string) {
    ' ' !in path && CrlfFree(path) && '?' !in path
  }

  /**
   The printed request is read back with every header and the path cut at its first NUL: the
   whole of it, or an error when the header table is too small.
   */
  lemma PrintedReadsBack(req: Request, ip: string)
    requires PathOk(req.path) && CleanValue(ip) && AllWell(req.headers)
    ensures var hs, fwd := CutAll(Forwarded(req, ip)), Head(req, ip) + req.body;
            if |hs| <= MAX_HEADERS then Parse(fwd) == Finish(Absorb(Opened(req), hs), |Head(req, ip)|, |fwd|)
            else Parse(fwd).result == Error
  {
    hide Forwarded, ParseFrom, Absorb, Finish, Lines, CStr, VerbStr, ParseVerb, Read, Joined, AllLines, AllWell;
    hide CutAll, RawLines, Printable, CrlfFree;
    var hs, h := Forwarded(req, ip), HeadOf(req, ip);
    VerbReadsBack(req.verb);
    VerbCrlfFree(req.verb);
    CStrKeeps(req.path, ' ');
    ForwardedWell(req, ip);
    LinesSpell(hs);
    assert FirstLineText(h) == FirstLine(req);
    assert Head(req, ip) == HeadText(h);
    HeadParses(h, req.body);
  }

  lemma VerbCrlfFree(v: Verb)
    ensures CrlfFree(VerbStr(v))
  {
    VerbReadsBack(v);
  }

  /** The framing flags of the forwarded request before and after the final adjustments. */
  lemma ForwardedFraming(s: Parsed, req: Request, ip: string)
    requires s.headers == [] && SameFraming(s, FRESH)
    ensures var t := Absorb(Opened(req), Forwarded(req, ip));
            && SameFraming(Absorb(s, req.headers), t)
            && t.hasConnection && t.keepAlive && t.upgrade == req.upgrade
  {
    hide Absorb, ProxyHeaders, Kept, CStr;
    ProxyHeadersAbsorbed(Opened(req), req, ip);
    AbsorbConcat(Opened(req), ProxyHeaders(req, ip), Kept(req.headers));
    KeptFraming(s, Absorb(Opened(req), ProxyHeaders(req, ip)), req.headers);
  }

  /** The request a finished parse yields can always be printed as a well-formed head. */
  lemma PopulatedWell(data: string)
    requires Parse(data).result == Done
    ensures PathOk(Populate(Parse(data).state, data).path) && AllWell(Parse(data).state.headers)
  {
    hide ParseFrom, FindChar, Absorb, Finish, WellFormed;
    var s, hs := DoneShape(data);
    var u := Parse(data).state.uri;
    var q := FindChar(u, '?');
    if q >= 0 {
      CrlfFreeSlice(u, 0, q);
      assert u[0..q] == u[..q];
    }
  }

  /** `back` is `req` as a backend is to see it. */
  predicate SameRequest(req: Request, back: Request, ip: string) {
    && back.verb == req.verb && back.path == req.path && back.query == ""
    && back.headers == ProxyHeaders(req, ip) + Kept(req.headers)
    && back.body == req.body
    && back.upgrade == req.upgrade && back.upgradeProtocol == req.upgradeProtocol
    && back.chunked == req.chunked && back.keepAlive
    && (req.contentLength > 0 ==> back.contentLength == req.contentLength)
    && (req.contentLength <= 0 ==> back.contentLength <= 0)
  }

  /** `fwd` is read back as a whole, as `req` with the proxy's headers in front. */
  predicate Recovers(fwd: string, req: Request, ip: string) {
    var o := Parse(fwd);
    o.result == Done && o.state.parsedBytes == |fwd| && SameRequest(req, Populate(o.state, fwd), ip)
  }

  /** With nothing to cut the request is recovered. */
  lemma PrintableRecovers(data: string, ip: string)
    requires Parse(data).result == Done && CleanValue(ip)
    requires var req := Populate(Parse(data).state, data); Printable(req) && 4 + |Kept(req.headers)| <= MAX_HEADERS
    ensures var req := Populate(Parse(data).state, data); Recovers(Head(req, ip) + req.body, req, ip)
  {
    hide ParseFrom, Absorb, CleanValue, CrlfFree, FindChar, ProxyHeaders, Kept, Head, Finish, CutAll;
    hide HeaderValue, CStr, AllNulFree, AllWell;
    var p := Parse(data).state;
    var req := Populate(p, data);
    PopulatedWell(data);
    ForwardedWell(req, ip);
    CutAllIff(Forwarded(req, ip));
    PrintedReadsBack(req, ip);
    var s, hs := DoneShape(data);
    ParserStability.DoneLength(FRESH, data);
    ForwardedFraming(s, req, ip);
    AbsorbRecords(Opened(req), Forwarded(req, ip));
    OwnCount(req, ip);
    CStrId(req.path);
    var fwd := Head(req, ip) + req.body;
    assert fwd[|Head(req, ip)|..] == req.body;
    assert FindChar(req.path, '?') < 0;
    FinishForwarded(Absorb(s, hs), Absorb(Opened(req), Forwarded(req, ip)), p.bodyOffset, |data|,
                    |Head(req, ip)|, req.body);
  }

  /** What is cut is not recovered. */
  lemma RecoversPrintable(req: Request, ip: string)
    requires PathOk(req.path) && CleanValue(ip) && AllWell(req.headers)
    requires Recovers(Head(req, ip) + req.body, req, ip)
    ensures Printable(req)
  {
    hide ParseFrom, Absorb, CleanValue, CrlfFree, FindChar, ProxyHeaders, Kept, Head, Finish, CutAll;
    hide HeaderValue, CStr, AllNulFree, AllWell;
    var hs, fwd := Forwarded(req, ip), Head(req, ip) + req.body;
    PrintedReadsBack(req, ip);
    AbsorbRecords(Opened(req), CutAll(hs));
    FinishSets(Absorb(Opened(req), CutAll(hs)), |Head(req, ip)|, |fwd|);
    ForwardedWell(req, ip);
    CutAllIff(hs);
    CStrKeeps(req.path, '?');
    assert FindChar(CStr(req.path), '?') < 0;
  }

  /**
   For every finished parse: if the header table holds the headers the proxy adds and
   passes on, reading the forwarded bytes back takes all of them and recovers the verb, the
   path, the framing, the body and the upgrade wish, with the proxy's four headers in
   front of the remaining ones in their order, exactly when there is no NUL in anything
   that is printed.  If the table is too small the reader reports an error.
   */
  lemma ForwardRoundTrip(data: string, ip: string)
    requires Parse(data).result == Done && CleanValue(ip)
    ensures var req := Populate(Parse(data).state, data);
            var fwd := Head(req, ip) + req.body;
            if 4 + |Kept(req.headers)| > MAX_HEADERS then Parse(fwd).result == Error
            else Recovers(fwd, req, ip) <==> Printable(req)
  {
    hide ParseFrom, CleanValue, Kept, ProxyHeaders, Head, CutAll, PathOk, AllWell, Recovers, Printable, Absorb, Finish;
    var req := Populate(Parse(data).state, data);
    PopulatedWell(data);
    OwnCount(req, ip);
    if 4 + |Kept(req.headers)| > MAX_HEADERS {
      PrintedReadsBack(req, ip);
      CutCount(Forwarded(req, ip));
    } else {
      if Printable(req) { PrintableRecovers(data, ip); }
      if Recovers(Head(req, ip) + req.body, req, ip) { RecoversPrintable(req, ip); }
    }
  }

  // ----- what the backend sees -----

  /** A header that is the proxy's own business. */
  predicate Replaced(h: Header) {
    SameLower(h.name, "Host") || SameLower(h.name, "Connection")
  }

  lemma OwnedMeans(h: Header)
    ensures Owned(h) <==> Replaced(h)
  {
    IEqMeans(h.name, "Host");
    IEqMeans(h.name, "Connection");
  }

  /** Every header passes as often as it came, except Host and Connection in any spelling, which do not. */
  lemma {:induction false} KeptCounts(hs: seq<Header>, h: Header)
    ensures multiset(Kept(hs))[h] == if Replaced(h) then 0 else multiset(hs)[h]
  {
    hide Owned, Replaced;
    OwnedMeans(h);
    if hs != [] {
      KeptCounts(hs[1..], h);
      assert hs == [hs[0]] + hs[1..];
    }
  }

  /** And in the order they came. */
  lemma {:induction false} KeptInOrder(a: seq<Header>, b: seq<Header>)
    ensures Kept(a + b) == Kept(a) + Kept(b)
    decreases |a|
  {
    if a == [] {
      assert a + b == b;
    } else {
      assert (a + b)[0] == a[0] && (a + b)[1..] == a[1..] + b;
      KeptInOrder(a[1..], b);
    }
  }

  /** The first header of a name is at `i`. */
  predicate FirstNamed(hs: seq<Header>, name: string, i: nat) {
    && i < |hs| && SameLower(hs[i].name, name)
    && forall j | 0 <= j < i :: !SameLower(hs[j].name, name)
  }

  /** The value of the first header of a name, empty if there is none. */
  predicate FirstValue(hs: seq<Header>, name: string, v: string) {
    || (exists i | 0 <= i < |hs| :: FirstNamed(hs, name, i) && hs[i].value == v)
    || (v == "" && forall i | 0 <= i < |hs| :: !SameLower(hs[i].name, name))
  }

  lemma FirstCounts(hs: seq<Header>, name: string, v: string)
    requires FirstValue(hs, name, v) && '\0' !in name
    ensures HeaderValue(hs, name) == v
  {
    hide SameLower, FirstNamed, HeaderValue;
    if i :| 0 <= i < |hs| && FirstNamed(hs, name, i) && hs[i].value == v {
      FirstAt(hs, name, i);
    } else {
      NoneNamed(hs, name);
    }
  }

  lemma {:induction false} FirstAt(hs: seq<Header>, name: string, i: nat)
    requires FirstNamed(hs, name, i) && '\0' !in name
    ensures HeaderValue(hs, name) == hs[i].value
    decreases i
  {
    hide SameLower, IEq;
    IEqMeans(hs[0].name, name);
    if i > 0 {
      assert hs[1..][i - 1] == hs[i];
      FirstAt(hs[1..], name, i - 1);
    }
  }

  lemma {:induction false} NoneNamed(hs: seq<Header>, name: string)
    requires '\0' !in name && forall i | 0 <= i < |hs| :: !SameLower(hs[i].name, name)
    ensures HeaderValue(hs, name) == ""
    decreases |hs|
  {
    hide SameLower, IEq;
    if hs != [] {
      IEqMeans(hs[0].name, name);
      NoneNamed(hs[1..], name);
    }
  }

  /**
   The headers of a request that is recovered, as the backend reads them: the first Host of the
   client, its address twice, the connection option, and the kept headers.
   */
  lemma BackendSees(data: string, ip: string, host: string)
    requires Parse(data).result == Done && CleanValue(ip) && FirstValue(Parse(data).state.headers, "Host", host)
    requires var req := Populate(Parse(data).state, data); Printable(req) && 4 + |Kept(req.headers)| <= MAX_HEADERS
    ensures var p := Parse(data).state;
            var req := Populate(p, data);
            Parse(Head(req, ip) + req.body).state.headers ==
            [Header("Host", host), Header("X-Real-IP", ip), Header("X-Forwarded-For", ip),
             Header("Connection", if p.upgrade then "Upgrade" else "keep-alive")] + Kept(p.headers)
  {
    hide ParseFrom, Kept, Head, HeaderValue, CleanValue, Printable, FirstValue;
    PrintableRecovers(data, ip);
    FirstCounts(Parse(data).state.headers, "Host", host);
  }

  /** The request as the rest of the program sees it: every field is what the bytes spell. */
  lemma RequestMeans(data: string, h: Spelling, tail: string)
    requires Spells(data, h, tail)
    ensures Parse(data).result == Done
    ensures var req, hs := Populate(Parse(data).state, data), Read(h.lines);
            var c, u, n := LastValue(hs, "Connection"), LastValue(hs, "Upgrade"), Announced(hs, h.version);
            && req.verb == ParseVerb(h.token) && req.version == h.version && req.headers == hs
            && req.contentLength == n && req.body == (if n > 0 then tail[..n] else "")
            && req.keepAlive == (if c.Some? then !SameLower(c.value, "close") else h.version == Http11)
            && (req.chunked <==> exists x | x in hs :: SaysChunked(x))
            && (req.upgrade <==> exists x | x in hs :: SaysUpgrade(x))
            && req.upgradeProtocol == (if u.Some? then u.value else "")
  {
    hide ParseFrom, HeadText, Read, FindChar, SameLower, SaysChunked, SaysUpgrade, LastValue, LastLength, ParseVerb;
    hide TokensOk, AllLines, Announced;
    AcceptsSpelled(data, h, tail);
    var p, n := Parse(data).state, Announced(Read(h.lines), h.version);
    MeansLength(p, Read(h.lines));
    if n > 0 { assert data[|HeadText(h)|..|HeadText(h)| + n] == tail[..n]; }
  }

  /** A request without headers for any path. */
  lemma PlainGet(path: string)
    requires PathOk(path)
    ensures var data := "GET " + path + " HTTP/1.1" + CRLF + CRLF;
            && Parse(data).result == Done && Parse(data).state.headers == []
            && Populate(Parse(data).state, data).path == path
  {
    hide ParseFrom, Finish, CrlfFree, FindChar, Absorb;
    var h := Spelling("GET", path, Http11, []);
    var data := "GET " + path + " HTTP/1.1" + CRLF + CRLF;
    VerbCrlfFree(GET);
    assert VerbStr(GET) == "GET" && VersionStr(Http11) == "HTTP/1.1";
    assert FirstLineText(h) == "GET " + path + " HTTP/1.1";
    assert Joined(h.lines) == "";
    assert data == HeadText(h) + "";
    assert Read(h.lines) == [] && Announced([], Http11) == 0 by { NothingAnnounced(); }
    AcceptsSpelled(data, h, "");
    assert FindChar(path, '?') < 0;
  }

  lemma NothingAnnounced()
    ensures Announced([], Http11) == 0
  {
  }

  /** A finished parse of a few thousand bytes whose head does not fit the printer's buffer. */
  lemma HeadTooLong(ip: string)
    requires NulFree(ip)
    ensures var path := seq(MAX_HEADER_LEN, _ => 'a');
            var data := "GET " + path + " HTTP/1.1" + CRLF + CRLF;
            |data| < 9000 && Parse(data).result == Done && !StaysInside(Populate(Parse(data).state, data), ip)
  {
    hide ParseFrom, Populate, StaysInside, CStr;
    var path := seq(MAX_HEADER_LEN, _ => 'a');
    var data := "GET " + path + " HTTP/1.1" + CRLF + CRLF;
    assert PathOk(path);
    PlainGet(path);
    var req := Populate(Parse(data).state, data);
    CStrId(path);
    HeadLonger(req, ip);
    StaysInsideIff(req, ip);
  }

  lemma HeadLonger(req: Request, ip: string)
    ensures |Head(req, ip)| > |CStr(req.path)|
  {
    hide CStr, Lines, Forwarded, VerbStr;
  }

  /** An ordinary request is forwarded and recovered; a NUL in its path is where the round trip ends. */
  lemma RoundTripExamples(ip: string)
    requires CleanValue(ip)
    ensures var data := "GET " + "/" + " HTTP/1.1" + CRLF + CRLF;
            && Parse(data).result == Done
            && var req := Populate(Parse(data).state, data); Recovers(Head(req, ip) + req.body, req, ip)
    ensures var data := "GET " + "/\0" + " HTTP/1.1" + CRLF + CRLF;
            && Parse(data).result == Done
            && var req := Populate(Parse(data).state, data); !Recovers(Head(req, ip) + req.body, req, ip)
  {
    hide ParseFrom, Head, Recovers, CleanValue;
    PlainGet("/");
    PlainGet("/\0");
    var good, bad := "GET " + "/" + " HTTP/1.1" + CRLF + CRLF, "GET " + "/\0" + " HTTP/1.1" + CRLF + CRLF;
    ForwardRoundTrip(good, ip);
    ForwardRoundTrip(bad, ip);
    assert !NulFree("/\0") by { assert "/\0"[1] == '\0'; }
  }

  /** Two states with equal framing finish alike when the second is followed by just the body. */
  lemma FinishForwarded(s: Parsed, t: Parsed, offset: nat, len: nat, head: nat, body: string)
    requires offset <= len && Finish(s, offset, len).result == Done
    requires SameFraming(s, t) && t.hasConnection && t.version == Http11
    requires var cl := Finish(s, offset, len).state.contentLength; |body| == if cl > 0 then cl else 0
    ensures var p, o := Finish(s, offset, len).state, Finish(t, head, head + |body|);
            && p.verb == s.verb && p.upgrade == s.upgrade && p.headers == s.headers
            && p.chunked == s.chunked && p.upgradeProtocol == s.upgradeProtocol
            && o.result == Done && o.state.parsedBytes == head + |body| && o.state.bodyOffset == head
            && o.state.verb == t.verb && o.state.uri == t.uri && o.state.upgrade == t.upgrade
            && o.state.headers == t.headers && o.state.chunked == t.chunked && o.state.keepAlive == t.keepAlive
            && o.state.upgradeProtocol == t.upgradeProtocol
            && (p.contentLength > 0 ==> o.state.contentLength == p.contentLength)
            && (p.contentLength <= 0 ==> o.state.contentLength <= 0)
  {
  }

  lemma OwnCount(req: Request, ip: string)
    ensures |ProxyHeaders(req, ip)| == 4
  {
  }
}

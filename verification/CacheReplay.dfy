/**
 From a backend's response to its replay: what module Relay gathered is inserted under
 the connection's key (src/proxy/proxy_conn.c) and served by a later request that hits
 the cache (src/http/handler.c).
 */
module CacheReplay {
  import opened StringUtil
  import opened HttpParser
  import opened ParserMeaning
  import opened ProxyRequest
  import opened ProxyRoundTrip
  import opened CacheFormat
  import opened Cache
  import Buffer
  import RelayStream
  import Relay

  const KEY_MAX := 1023
  const CONN_KEY_MAX := 255
  const TTL := 10

  /** The host a request is cached under; a request without one goes under an underscore. */
  function KeyHost(req: Request): string {
    if exists i | 0 <= i < |req.headers| :: IEq(req.headers[i].name, "Host")
    then CStr(HeaderValue(req.headers, "Host")) else "_"
  }

  function FullKey(req: Request): string {
    VerbStr(req.verb) + ":" + KeyHost(req) + ":" + CStr(req.path)
  }

  /** `cache_key_from_request`. */
  function RequestKey(req: Request): string {
    Clip(FullKey(req), KEY_MAX)
  }

  /** A host without slash and an absolute path, short enough for the key buffer. */
  predicate Ordinary(req: Request) {
    var path := CStr(req.path);
    '/' !in KeyHost(req) && path != "" && path[0] == '/' && |FullKey(req)| <= KEY_MAX
  }

  /** The parts a key is made of; the query is none of them. */
  predicate SameTarget(a: Request, b: Request) {
    a.verb == b.verb && KeyHost(a) == KeyHost(b) && CStr(a.path) == CStr(b.path)
  }

  /** Requests for the same target share a key; ordinary requests share one only then. */
  lemma KeyIdentifies(a: Request, b: Request)
    ensures SameTarget(a, b) ==> RequestKey(a) == RequestKey(b)
    ensures Ordinary(a) && Ordinary(b) && RequestKey(a) == RequestKey(b) ==> SameTarget(a, b)
  {
    hide KeyHost, CStr, VerbStr, FindChar, Ordinary, FullKey, ParseVerb;
    if SameTarget(a, b) { SameFullKey(a, b); }
    if Ordinary(a) && Ordinary(b) && RequestKey(a) == RequestKey(b) {
      KeyParts(a);
      KeyParts(b);
      VerbReadsBack(a.verb);
      VerbReadsBack(b.verb);
    }
  }

  lemma SameFullKey(a: Request, b: Request)
    requires SameTarget(a, b)
    ensures FullKey(a) == FullKey(b)
  {
    hide KeyHost, CStr, VerbStr;
  }

  // ----- keys of requests as they are parsed -----

  /** The request a finished parse yields. */
  function Asked(data: string): Request {
    Populate(Parse(data).state, data)
  }

  /** A request with one header. */
  function Hosted(verb: Verb, host: string, uri: string): string {
    VerbStr(verb) + " " + uri + " HTTP/1.1" + CRLF + ("Host: " + host + CRLF) + CRLF
  }

  lemma HostLine(host: string)
    requires WellValue(host)
    ensures LineOk("Host: " + host) && ReadHeader("Host: " + host) == Some(Header("Host", host))
  {
    hide FindChar, Trim, CrlfFree;
    var line := "Host: " + host;
    AllFree("Host: ");
    CrlfFreeJoin("Host: ", host);
    assert line == "Host" + [':'] + (" " + host);
    FindCharAt("Host", ':', " " + host);
    assert line[..4] == "Host" && line[5..] == " " + host && line[4] == ':';
    TrimSkipsSpace(host);
    TrimShorter(host);
    TrimShorter("Host");
  }

  lemma HostSaysNothing(host: string)
    ensures Announced([Header("Host", host)], Http11) == 0
  {
    hide StrToInt;
    var hs := [Header("Host", host)];
    assert hs[1..] == [];
    assert LastLength([]) == None && LastLength(hs) == None;
    assert forall h | h in hs :: !SaysChunked(h);
  }

  /** Every such request is accepted, with the parts it was made of. */
  lemma HostedParses(verb: Verb, host: string, uri: string)
    requires WellValue(host) && ' ' !in uri && CrlfFree(uri)
    ensures var data := Hosted(verb, host, uri);
            && Parse(data).result == Done && Parse(data).state.uri == uri
            && Asked(data).verb == verb && Asked(data).headers == [Header("Host", host)]
  {
    hide ParseFrom, CrlfFree, ReadHeader, VerbStr, ParseVerb, Announced, WellValue, LineOk, FindChar;
    var line := "Host: " + host;
    var h := Spelling(VerbStr(verb), uri, Http11, [line]);
    VerbReadsBack(verb);
    VerbCrlfFree(verb);
    HostLine(host);
    HostSaysNothing(host);
    JoinedOne(line);
    assert Read(h.lines) == [Header("Host", host)];
    assert VersionStr(Http11) == "HTTP/1.1";
    assert FirstLineText(h) == VerbStr(verb) + " " + uri + " HTTP/1.1" by {
      Rejoin(VerbStr(verb) + " " + uri, " ", "HTTP/1.1");
    }
    assert Hosted(verb, host, uri) == HeadText(h) + "";
    AcceptsSpelled(Hosted(verb, host, uri), h, "");
  }

  lemma JoinedOne(line: string)
    ensures Joined([line]) == line + CRLF
  {
    assert [line][1..] == [];
    assert Joined([]) == "" && line + CRLF + "" == line + CRLF;
  }

  /** A host and a path some parsed request has in its key. */
  predicate HostOk(h: string) {
    NulFree(h) && CrlfFree(h) && (h == "" || !IsSpace(h[0]))
  }

  predicate KeyPathOk(p: string) {
    NulFree(p) && PathOk(p)
  }

  /** A header value whose part before the first NUL is `h`; white space at its end needs something behind it. */
  function HostValue(h: string): string {
    if Trimmed(h) then h else h + "\0x"
  }

  lemma {:induction false} CStrCut(h: string, rest: string)
    requires NulFree(h)
    ensures CStr(h + "\0" + rest) == h
  {
    if h != "" {
      assert (h + "\0" + rest)[1..] == h[1..] + "\0" + rest;
      CStrCut(h[1..], rest);
    }
  }

  lemma HostValueWell(h: string)
    requires HostOk(h)
    ensures WellValue(HostValue(h)) && CStr(HostValue(h)) == h
  {
    hide CStr, CrlfFree;
    if Trimmed(h) {
      CStrId(h);
    } else {
      AllFree("\0x");
      CrlfFreeJoin(h, "\0x");
      CStrCut(h, "x");
      assert h + "\0" + "x" == h + "\0x";
    }
  }

  /** The request for a host and a path. */
  function For(verb: Verb, host: string, path: string): string {
    Hosted(verb, HostValue(host), path)
  }

  lemma ForAsks(verb: Verb, host: string, path: string)
    requires HostOk(host) && KeyPathOk(path)
    ensures var data := For(verb, host, path);
            && Parse(data).result == Done && Asked(data).verb == verb
            && KeyHost(Asked(data)) == host && CStr(Asked(data).path) == path
            && FullKey(Asked(data)) == VerbStr(verb) + ":" + host + ":" + path
  {
    hide ParseFrom, CStr, CrlfFree, VerbStr, FindChar, HostValue, Hosted;
    HostValueWell(host);
    HostedParses(verb, HostValue(host), path);
    assert FindChar(path, '?') < 0;
    CStrId(path);
    OnlyHost(Asked(For(verb, host, path)), HostValue(host));
  }

  lemma OnlyHost(req: Request, value: string)
    requires req.headers == [Header("Host", value)]
    ensures KeyHost(req) == CStr(value)
  {
    hide CaseCmp, CStr;
    CaseCmpZero("Host", "Host");
    assert IEq(req.headers[0].name, "Host");
  }

  /** What a parsed request puts into its key. */
  lemma AskedParts(data: string)
    requires Parse(data).result == Done
    ensures HostOk(KeyHost(Asked(data))) && KeyPathOk(CStr(Asked(data).path))
  {
    hide ParseFrom, CrlfFree, CStr, IEq, HeaderValue, Populate;
    var req := Asked(data);
    PopulatedWell(data);
    PopulateHeaders(Parse(data).state, data);
    HeaderValueWell(req.headers, "Host");
    var v := HeaderValue(req.headers, "Host");
    CStrKeeps(v, ' ');
    AllFree("_");
    CStrKeeps(req.path, ' ');
    CStrKeeps(req.path, '?');
  }

  lemma PopulateHeaders(p: Parsed, raw: string)
    ensures Populate(p, raw).headers == p.headers
  {
    hide FindChar;
  }

  /** A colon of the host behind which it could go on as a path. */
  predicate Splits(h: string, i: int) {
    0 <= i < |h| && h[i] == ':' && ' ' !in h[i + 1..] && '?' !in h[i + 1..]
  }

  /** One reading only, and nothing cut off. */
  predicate Unambiguous(req: Request) {
    && ':' !in CStr(req.path) && |FullKey(req)| < KEY_MAX
    && forall i | 0 <= i < |KeyHost(req)| :: !Splits(KeyHost(req), i)
  }

  /** Where else the colon between host and path could be. */
  lemma OtherColon(h: string, p: string, g: string, q: string)
    requires ':' !in p && g + ":" + q == h + ":" + p
    ensures (g == h && q == p) || (|g| < |h| && h[|g|] == ':' && q == h[|g| + 1..] + ":" + p)
  {
    var all := h + ":" + p;
    assert all == g + ":" + q && all[|g|] == ':' && all[|h|] == ':';
    assert all[|g| + 1..] == q && all[..|g|] == g;
    assert forall i | |h| < i < |all| :: all[i] == p[i - |h| - 1];
    assert |g| <= |h|;
    if |g| == |h| {
      assert all[..|h|] == h && all[|h| + 1..] == p;
    } else {
      assert all[|g| + 1..] == h[|g| + 1..] + ":" + p;
    }
  }

  lemma UnambiguousIdentifies(a: Request, b: Request)
    requires Unambiguous(a) && RequestKey(a) == RequestKey(b) && KeyPathOk(CStr(b.path))
    ensures SameTarget(a, b)
  {
    hide KeyHost, CStr, VerbStr, FindChar, ParseVerb, CrlfFree, NulFree;
    var ha, pa, hb, pb := KeyHost(a), CStr(a.path), KeyHost(b), CStr(b.path);
    NoColon(a.verb);
    NoColon(b.verb);
    assert FullKey(a) == VerbStr(a.verb) + ":" + (ha + ":" + pa);
    assert FullKey(b) == VerbStr(b.verb) + ":" + (hb + ":" + pb);
    SplitAtColon(VerbStr(a.verb), ha + ":" + pa);
    SplitAtColon(VerbStr(b.verb), hb + ":" + pb);
    VerbReadsBack(a.verb);
    VerbReadsBack(b.verb);
    OtherColon(ha, pa, hb, pb);
    assert |hb| < |ha| ==> !Splits(ha, |hb|);
  }

  lemma NulFreeParts(s: string, i: nat)
    requires NulFree(s) && i < |s|
    ensures NulFree(s[..i]) && NulFree(s[i + 1..]) && s == s[..i] + [s[i]] + s[i + 1..]
  {
  }

  /** The parts of a host cut at a colon that splits it. */
  lemma SplitHost(h: string, p: string, i: nat)
    requires HostOk(h) && KeyPathOk(p) && Splits(h, i)
    ensures HostOk(h[..i]) && KeyPathOk(h[i + 1..] + ":" + p) && h == h[..i] + ":" + h[i + 1..]
  {
    hide CrlfFree;
    NulFreeParts(h, i);
    CrlfFreeSlice(h, 0, i);
    CrlfFreeSlice(h, i + 1, |h|);
    assert h[0..i] == h[..i] && h[i + 1..|h|] == h[i + 1..];
    AllFree(":");
    CrlfFreeJoin(h[i + 1..], ":");
    CrlfFreeJoin(h[i + 1..] + ":", p);
  }

  /** The parts of a path cut at a colon. */
  lemma SplitPath(h: string, p: string, i: nat)
    requires HostOk(h) && KeyPathOk(p) && i < |p| && p[i] == ':'
    ensures HostOk(h + ":" + p[..i]) && KeyPathOk(p[i + 1..]) && p == p[..i] + ":" + p[i + 1..]
  {
    hide CrlfFree;
    NulFreeParts(p, i);
    CrlfFreeSlice(p, 0, i);
    CrlfFreeSlice(p, i + 1, |p|);
    assert p[0..i] == p[..i] && p[i + 1..|p|] == p[i + 1..];
    AllFree(":");
    CrlfFreeJoin(h, ":");
    CrlfFreeJoin(h + ":", p[..i]);
  }

  lemma LongerPath(p: string)
    requires KeyPathOk(p)
    ensures KeyPathOk(p + "x") && p + "x" != p
  {
    hide CrlfFree;
    AllFree("x");
    CrlfFreeJoin(p, "x");
    assert |p + "x"| != |p|;
  }

  /** With a second reading, or a key that fills the buffer, some parsed request for another target has the same key. */
  lemma AmbiguousShares(a: Request) returns (other: string)
    requires !Unambiguous(a) && HostOk(KeyHost(a)) && KeyPathOk(CStr(a.path))
    ensures Parse(other).result == Done
    ensures RequestKey(a) == RequestKey(Asked(other)) && !SameTarget(a, Asked(other))
  {
    hide KeyHost, CStr, VerbStr, FindChar, ParseFrom, For, Asked, HostOk, KeyPathOk, Splits;
    var v, h, p := VerbStr(a.verb), KeyHost(a), CStr(a.path);
    if ':' in p {
      var i :| 0 <= i < |p| && p[i] == ':';
      SplitPath(h, p, i);
      other := For(a.verb, h + ":" + p[..i], p[i + 1..]);
      ForAsks(a.verb, h + ":" + p[..i], p[i + 1..]);
      Shift(v, h, p[..i], p[i + 1..]);
      assert |h + ":" + p[..i]| > |h|;
    } else if exists i | 0 <= i < |h| :: Splits(h, i) {
      var i: nat :| i < |h| && Splits(h, i);
      SplitHost(h, p, i);
      other := For(a.verb, h[..i], h[i + 1..] + ":" + p);
      ForAsks(a.verb, h[..i], h[i + 1..] + ":" + p);
      Shift(v, h[..i], h[i + 1..], p);
      assert |h[..i]| < |h|;
    } else {
      LongerPath(p);
      other := For(a.verb, h, p + "x");
      ForAsks(a.verb, h, p + "x");
      var k := FullKey(Asked(other));
      assert k == FullKey(a) + "x";
      assert k[..KEY_MAX] == FullKey(a)[..KEY_MAX];
    }
  }

  lemma Shift(v: string, a: string, b: string, c: string)
    ensures v + ":" + (a + ":" + b) + ":" + c == v + ":" + a + ":" + (b + ":" + c)
  {
  }

  /** Every parsed request with that key is for that target. */
  ghost predicate KeyUnique(data: string) {
    forall other: string | Parse(other).result == Done && RequestKey(Asked(other)) == RequestKey(Asked(data)) ::
      SameTarget(Asked(data), Asked(other))
  }

  /**
   The key of a parsed request stands for one target among all parsed requests exactly if
   its path has no colon, no colon of its host could end the host, and the key does not
   fill its buffer.
   */
  lemma KeyUniqueIff(data: string)
    requires Parse(data).result == Done
    ensures KeyUnique(data) <==> Unambiguous(Asked(data))
  {
    hide ParseFrom, RequestKey, SameTarget, Unambiguous, Asked, HostOk, KeyPathOk;
    AskedParts(data);
    if Unambiguous(Asked(data)) {
      forall other: string | Parse(other).result == Done && RequestKey(Asked(other)) == RequestKey(Asked(data))
        ensures SameTarget(Asked(data), Asked(other))
      {
        AskedParts(other);
        UnambiguousIdentifies(Asked(data), Asked(other));
      }
    } else {
      var other := AmbiguousShares(Asked(data));
    }
  }

  /** The colons of a key can be read in two ways: host "a" with path ":b", or host "a:" with path "b". */
  lemma ColonsCollide()
    ensures var a, b := Hosted(GET, "a", ":b"), Hosted(GET, "a:", "b");
            && Parse(a).result == Done && Parse(b).result == Done
            && RequestKey(Asked(a)) == RequestKey(Asked(b)) && !SameTarget(Asked(a), Asked(b))
  {
    hide ParseFrom, FullKey, KeyHost, CStr, Asked, Hosted;
    AllFree("a");
    AllFree("a:");
    AllFree("b");
    AllFree(":b");
    ForAsks(GET, "a", ":b");
    ForAsks(GET, "a:", "b");
    assert "GET:" + "a" + ":" + ":b" == "GET:" + "a:" + ":" + "b";
  }

  /** Two requests that differ only in the query share a key. */
  lemma QueryShared()
    ensures var a, b := Hosted(GET, "h", "/p?a=1"), Hosted(GET, "h", "/p?a=2");
            && Parse(a).result == Done && Parse(b).result == Done
            && Asked(a).query != Asked(b).query && RequestKey(Asked(a)) == RequestKey(Asked(b))
  {
    hide ParseFrom, RequestKey, KeyHost, CStr, Hosted, Asked, CrlfFree;
    AllFree("h");
    AllFree("/p");
    AllFree("?a=1");
    AllFree("?a=2");
    assert "?" + "a=1" == "?a=1" && "?" + "a=2" == "?a=2";
    QueryAsked("h", "/p", "a=1");
    QueryAsked("h", "/p", "a=2");
    assert "/p" + "?" + "a=1" == "/p?a=1" && "/p" + "?" + "a=2" == "/p?a=2";
    KeyIdentifies(Asked(Hosted(GET, "h", "/p?a=1")), Asked(Hosted(GET, "h", "/p?a=2")));
  }

  lemma QueryAsked(host: string, path: string, query: string)
    requires WellValue(host) && PathOk(path) && ' ' !in query && CrlfFree("?" + query)
    ensures var data := Hosted(GET, host, path + "?" + query);
            && Parse(data).result == Done && Asked(data).verb == GET && Asked(data).path == path
            && Asked(data).query == query && KeyHost(Asked(data)) == CStr(host)
  {
    hide ParseFrom, KeyHost, CStr, Hosted, CrlfFree, FindChar;
    var uri := path + "?" + query;
    CrlfFreeJoin(path, "?" + query);
    assert path + ("?" + query) == uri && path + ['?'] + query == uri;
    HostedParses(GET, host, uri);
    CutQuery(path, query);
    OnlyHost(Asked(Hosted(GET, host, uri)), host);
  }

  lemma CutQuery(path: string, query: string)
    requires '?' !in path
    ensures var uri := path + ['?'] + query;
            FindChar(uri, '?') == |path| && uri[..|path|] == path && uri[|path| + 1..] == query
  {
    FindCharAt(path, '?', query);
  }

  /** A request without a host goes under an underscore. */
  lemma KeyWithoutHost(req: Request)
    requires forall i | 0 <= i < |req.headers| :: !SameLower(req.headers[i].name, "Host")
    ensures FullKey(req) == VerbStr(req.verb) + ":_:" + CStr(req.path)
  {
    hide CStr, VerbStr, IEq;
    forall i | 0 <= i < |req.headers| ensures !IEq(req.headers[i].name, "Host") {
      IEqMeans(req.headers[i].name, "Host");
    }
    assert KeyHost(req) == "_";
    assert VerbStr(req.verb) + ":" + "_" + ":" == VerbStr(req.verb) + ":_:";
  }

  /** Where the parts of an ordinary key are. */
  lemma KeyParts(req: Request)
    requires Ordinary(req)
    ensures RequestKey(req) == FullKey(req)
    ensures var k := FullKey(req);
            var v := FindChar(k, ':');
            && 0 <= v && k[..v] == VerbStr(req.verb)
            && var p := FindChar(k[v + 1..], '/');
               0 < p && k[v + 1..][..p - 1] == KeyHost(req) && k[v + 1..][p..] == CStr(req.path)
  {
    hide KeyHost, CStr, VerbStr, FindChar;
    var verb, host, path := VerbStr(req.verb), KeyHost(req), CStr(req.path);
    NoColon(req.verb);
    assert FullKey(req) == verb + ":" + (host + ":" + path);
    SplitAtColon(verb, host + ":" + path);
    SplitAtSlash(host, path);
  }

  lemma SplitAtColon(verb: string, rest: string)
    requires ':' !in verb
    ensures var k := verb + ":" + rest;
            FindChar(k, ':') == |verb| && k[..|verb|] == verb && k[|verb| + 1..] == rest
  {
    hide FindChar;
    assert verb + ":" + rest == verb + [':'] + rest;
    FindCharAt(verb, ':', rest);
  }

  lemma SplitAtSlash(host: string, path: string)
    requires '/' !in host && path != "" && path[0] == '/'
    ensures var k := host + ":" + path;
            FindChar(k, '/') == |host| + 1 && k[..|host|] == host && k[|host| + 1..] == path
  {
    hide FindChar;
    assert path == ['/'] + path[1..];
    assert host + ":" + path == (host + ":") + ['/'] + path[1..];
    FindCharAt(host + ":", '/', path[1..]);
  }

  lemma NoColon(v: Verb)
    ensures ':' !in VerbStr(v)
  {
  }

  /** The key kept in the connection for the insert. */
  function ConnKey(key: string): string {
    Clip(key, CONN_KEY_MAX)
  }

  // ----- other traffic -----

  /** Calls on the store. */
  datatype Call =
    | Look(key: string, now: int, memory: bool)
    | Ins(key: string, status: int, headers: string, body: string, ttl: int, now: int, fate: Fate)
    | Rem(key: string)

  predicate CallOk(c: Call) {
    c.Ins? ==> EntryOk(NewEntry(c.status, c.headers, c.body, c.ttl, c.now))
  }

  function Effect(m: Entries, c: Call): Entries {
    match c
    case Look(key, now, memory) => MapLookup(m, Hash(key), now, memory).1
    case Ins(key, status, headers, body, ttl, now, fate) =>
      if Succeeds(fate, headers, body) then m[Hash(key) := NewEntry(status, headers, body, ttl, now)] else m
    case Rem(key) => m - {Hash(key)}
  }

  function Effects(m: Entries, cs: seq<Call>): Entries
    decreases |cs|
  {
    if cs == [] then m else Effects(Effect(m, cs[0]), cs[1..])
  }

  /** What a call reports. */
  datatype Answer = Looked(found: Found) | Flag(ok: bool)

  function Reply(m: Entries, c: Call): Answer {
    match c
    case Look(key, now, memory) => Looked(MapLookup(m, Hash(key), now, memory).0)
    case Ins(_, _, headers, body, _, _, fate) => Flag(Succeeds(fate, headers, body))
    case Rem(key) => Flag(Hash(key) in m)
  }

  function Replies(m: Entries, cs: seq<Call>): seq<Answer>
    decreases |cs|
  {
    if cs == [] then [] else [Reply(m, cs[0])] + Replies(Effect(m, cs[0]), cs[1..])
  }

  /** One call on the store is one call on the map. */
  method RunCall(store: Store, c: Call) returns (a: Answer)
    requires store.Valid() && CallOk(c)
    modifies store, store.disk
    ensures store.Valid() && store.entries == Effect(old(store.entries), c) && a == Reply(old(store.entries), c)
  {
    hide Hash, MapLookup, Succeeds, EntryOk, InsertSteps, Represents;
    var ok;
    match c
    case Look(key, now, memory) =>
      var r := store.Lookup(key, now, memory);
      return Looked(r);
    case Ins(key, status, headers, body, ttl, now, fate) =>
      ok := store.Insert(key, status, headers, body, ttl, now, fate);
      return Flag(ok);
    case Rem(key) =>
      ok := store.Remove(key);
      return Flag(ok);
  }

  /** Any run of calls on the store is the same run on the map, answer by answer. */
  method RunCalls(store: Store, cs: seq<Call>) returns (answers: seq<Answer>)
    requires store.Valid() && forall i | 0 <= i < |cs| :: CallOk(cs[i])
    modifies store, store.disk
    ensures store.Valid() && store.entries == Effects(old(store.entries), cs)
    ensures answers == Replies(old(store.entries), cs)
  {
    hide Effect, Reply, CallOk, Store.Valid;
    answers := [];
    var i := 0;
    while i < |cs|
      invariant 0 <= i <= |cs| && store.Valid()
      invariant Effects(old(store.entries), cs) == Effects(store.entries, cs[i..])
      invariant Replies(old(store.entries), cs) == answers + Replies(store.entries, cs[i..])
    {
      assert cs[i..][1..] == cs[i + 1..];
      var a := RunCall(store, cs[i]);
      answers := answers + [a];
      i := i + 1;
    }
  }

  /** Calls that neither insert nor remove at hash `h` and do not look it up after time `t`. */
  predicate Harmless(c: Call, h: nat, t: int) {
    match c
    case Look(_, now, _) => now <= t
    case _ => Hash(c.key) != h
  }

  lemma {:induction false} EntryStays(m: Entries, cs: seq<Call>, h: nat, t: int)
    requires h in m && !Expired(m[h].hdr, t) && forall i | 0 <= i < |cs| :: Harmless(cs[i], h, t)
    ensures h in Effects(m, cs) && Effects(m, cs)[h] == m[h]
    decreases |cs|
  {
    hide Hash, Succeeds;
    if cs != [] {
      assert Harmless(cs[0], h, t);
      var m1 := Effect(m, cs[0]);
      assert h in m1 && m1[h] == m[h];
      EntryStays(m1, cs[1..], h, t);
    }
  }

  // ----- the life of an entry -----

  lemma {:induction false} UntouchedStays(m: Entries, cs: seq<Call>, h: nat)
    requires h in m && forall i | 0 <= i < |cs| :: Hash(cs[i].key) != h
    ensures h in Effects(m, cs) && Effects(m, cs)[h] == m[h]
    decreases |cs|
  {
    hide Hash, Succeeds;
    if cs != [] {
      var m1 := Effect(m, cs[0]);
      assert h in m1 && m1[h] == m[h];
      UntouchedStays(m1, cs[1..], h);
    }
  }

  /**
   An entry inserted at `now0`, looked up at `now1` after any calls that leave its hash alone.
   With a time to live it is there up to and including second `now0 + ttl`; after that the
   lookup misses and the entry is gone.  Without one it is always there.
   */
  method InsertAndLookup(store: Store, key: string, status: int, headers: string, body: string, ttl: int, now0: int,
                         fate: Fate, calls: seq<Call>, now1: int)
    returns (r: Found)
    requires store.Valid() && EntryOk(NewEntry(status, headers, body, ttl, now0)) && Succeeds(fate, headers, body)
    requires forall i | 0 <= i < |calls| :: CallOk(calls[i]) && Hash(calls[i].key) != Hash(key)
    modifies store, store.disk
    ensures store.Valid()
    ensures r.Hit? <==> ttl <= 0 || now0 + ttl <= 0 || now1 <= now0 + ttl
    ensures r.Hit? ==>
              && Hash(key) in store.entries && r.entry.hdr.status == status && r.entry.data == headers + body
              && r.entry.hdr.headersLen == |headers| && r.entry.hdr.bodyLen == |body|
    ensures !r.Hit? ==> r == Miss && Hash(key) !in store.entries
  {
    hide Hash, Succeeds, EntryOk, InsertSteps, Represents, Effects, Replies, CallOk;
    var ok := store.Insert(key, status, headers, body, ttl, now0, fate);
    ghost var h, m := Hash(key), store.entries;
    var answers := RunCalls(store, calls);
    UntouchedStays(m, calls, h);
    r := store.Lookup(key, now1, true);
  }

  // ----- the replay -----

  /** The cache-hit branch of `handler_dispatch`: an entry too large for the buffer answers nothing. */
  method ServeHit(e: Entry, wbuf: Buffer.Buf) returns (handled: bool)
    requires wbuf.Valid()
    modifies wbuf, wbuf.data
    ensures wbuf.Valid() && (handled <==> |e.data| > 0)
    ensures wbuf.Contents() ==
            if |e.data| <= old(wbuf.Writable()) then old(wbuf.Contents()) + e.data else old(wbuf.Contents())
  {
    if |e.data| > 0 {
      if wbuf.Writable() >= |e.data| {
        wbuf.Append(e.data);
      }
      return true;
    }
    return false;
  }

  /**
   A response gathered by a finished connection, inserted at `now0`, looked up by the same
   key at `now1` after any calls that leave its hash alone: before it expires the client
   gets the gathered bytes, and these are the backend's stream exactly when every read
   had found the previous one passed on and the connection had come with nothing gathered.
   */
  method StoreAndReplay(conn: Relay.Conn, store: Store, req: Request, now0: int, fate: Fate,
                        calls: seq<Call>, now1: int, wbuf: Buffer.Buf)
    returns (handled: bool)
    requires conn.Invariant() && conn.inserted.Some? && conn.memoryOk && conn.inserted.value != ""
    requires store.Valid() && wbuf.Valid() && |RequestKey(req)| <= CONN_KEY_MAX
    requires EntryOk(NewEntry(200, conn.inserted.value, "", TTL, now0))
    requires Succeeds(fate, conn.inserted.value, "") && now1 <= now0 + TTL
    requires forall i | 0 <= i < |calls| :: CallOk(calls[i]) && Harmless(calls[i], Hash(RequestKey(req)), now1)
    requires wbuf != conn.upIn && wbuf != conn.upOut && wbuf != conn.wbuf
    requires wbuf.data != conn.upIn.data && wbuf.data != conn.upOut.data && wbuf.data != conn.wbuf.data
    requires |conn.inserted.value| <= wbuf.Writable()
    modifies store, store.disk, wbuf, wbuf.data
    ensures handled && wbuf.Valid() && store.Valid()
    ensures var e := NewEntry(200, conn.inserted.value, "", TTL, now0);
            store.entries == Effects(old(store.entries)[Hash(RequestKey(req)) := e], calls)
    ensures wbuf.Contents() == old(wbuf.Contents()) + conn.inserted.value
    ensures wbuf.Contents() == old(wbuf.Contents()) + conn.up.taken <==> conn.drained && conn.stale == ""
  {
    hide RequestKey, Hash, Succeeds, EntryOk, InsertSteps, Represents, Effects, Replies, CallOk, Harmless;
    GatheredIff(conn);
    ghost var got, text := conn.up.taken, conn.inserted.value;
    var key := RequestKey(req);
    var ok := store.Insert(ConnKey(key), 200, conn.inserted.value, "", TTL, now0, fate);
    ghost var h, m := Hash(key), store.entries;
    var answers := RunCalls(store, calls);
    EntryStays(m, calls, h, now1);
    var r := store.Lookup(key, now1, true);
    assert r == Hit(m[h]);
    handled := ServeHit(r.entry, wbuf);
    SamePrefix(old(wbuf.Contents()), text, got);
  }

  /** What the cache was given, against what the backend sent. */
  lemma GatheredIff(conn: Relay.Conn)
    requires conn.Invariant() && conn.inserted.Some? && conn.memoryOk
    ensures conn.inserted.value == conn.up.taken <==> conn.drained && conn.stale == ""
  {
    var s := conn.View();
    assert RelayStream.Gathers(conn.Cfg(), s, s.inserted.value);
    RelayStream.OnlyEmptyPrefix(conn.stale, s.taken);
  }

  lemma SamePrefix(p: string, a: string, b: string)
    ensures p + a == p + b <==> a == b
  {
    assert (p + a)[|p|..] == a && (p + b)[|p|..] == b;
  }
}

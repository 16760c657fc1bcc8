/**
 What a finished parse means.  The request line and the header list are what the bytes
 spell, and every framing flag is a property of the header list alone.
 */
module ParserMeaning {
  import opened StringUtil
  import opened HttpParser
  import opened ParserStability

  // ----- pieces of lines -----

  lemma CrlfFreeJoin(a: string, b: string)
    requires CrlfFree(a) && CrlfFree(b)
    requires a == "" || b == "" || a[|a| - 1] != '\r' || b[0] != '\n'
    ensures CrlfFree(a + b)
  {
    forall i | 0 <= i < |a + b| ensures !CrlfAt(a + b, i) {
      if i < |a| { assert !CrlfAt(a, i); } else { assert !CrlfAt(b, i - |a|); }
    }
  }

  lemma FirstCrlfAfter(line: string, rest: string)
    requires CrlfFree(line)
    ensures FindCrlf(line + CRLF + rest) == |line|
  {
    hide FindCrlf;
    var s := line + CRLF + rest;
    assert CrlfAt(s, |line|);
    var i := FindCrlf(s);
    assert !CrlfAt(line, i);
  }

  lemma {:induction false} FindCharAt(a: string, c: char, b: string)
    requires c !in a
    ensures FindChar(a + [c] + b, c) == |a|
  {
    if a == "" {
      assert a + [c] + b == [c] + b;
    } else {
      assert (a + [c] + b)[1..] == a[1..] + [c] + b;
      FindCharAt(a[1..], c, b);
    }
  }

  lemma CrlfFreeSlice(s: string, i: nat, j: nat)
    requires CrlfFree(s) && i <= j <= |s|
    ensures CrlfFree(s[i..j])
  {
    forall k | 0 <= k < j - i ensures !CrlfAt(s[i..j], k) { assert !CrlfAt(s, i + k); }
  }

  lemma CrlfFreePrefix(s: string)
    requires FindCrlf(s) >= 0
    ensures CrlfFree(s[..FindCrlf(s)])
  {
    hide FindCrlf;
    var k := FindCrlf(s);
    forall i | 0 <= i < k ensures !CrlfAt(s[..k], i) { assert CrlfAt(s[..k], i) ==> CrlfAt(s, i); }
  }

  // ----- header lines -----

  /** What the parser establishes about every header it records. */
  predicate WellFormed(h: Header) {
    Trimmed(h.name) && ':' !in h.name && CrlfFree(h.name) && Trimmed(h.value) && CrlfFree(h.value)
  }

  lemma TrimSlice(s: string)
    ensures exists i, j :: 0 <= i <= j <= |s| && Trim(s) == s[i..j]
  {
    hide LeftTrimmed, RightTrimmed;
    LeftTrimmedMeans(s);
    RightTrimmedMeans(LeftTrimmed(s));
    var l := LeftTrimmed(s);
    var i := |s| - |l|;
    var r := RightTrimmed(l);
    assert r == s[i..i + |r|];
  }

  lemma TrimKeeps(s: string, c: char)
    requires CrlfFree(s)
    ensures CrlfFree(Trim(s)) && (c !in s ==> c !in Trim(s))
  {
    hide Trim;
    TrimSlice(s);
    var i, j :| 0 <= i <= j <= |s| && Trim(s) == s[i..j];
    CrlfFreeSlice(s, i, j);
  }

  lemma ReadHeaderWellFormed(line: string)
    requires CrlfFree(line)
    ensures ReadHeader(line).Some? ==> WellFormed(ReadHeader(line).value)
  {
    hide FindChar, Trim, CrlfFree;
    var colon := FindChar(line, ':');
    if colon >= 0 {
      CrlfFreeSlice(line, 0, colon);
      CrlfFreeSlice(line, colon + 1, |line|);
      assert line[0..colon] == line[..colon] && line[colon + 1..|line|] == line[colon + 1..];
      TrimKeeps(line[..colon], ':');
      TrimKeeps(line[colon + 1..], ':');
    }
  }

  function Absorb(s: Parsed, hs: seq<Header>): Parsed
    decreases |hs|
  {
    if hs == [] then s else Absorb(AddHeader(s, hs[0]), hs[1..])
  }

  lemma AddHeaderRecords(s: Parsed, h: Header)
    ensures var t := AddHeader(s, h);
            && t.headers == s.headers + [h] && t.verb == s.verb && t.uri == s.uri && t.version == s.version
  {
    hide Kind, IEq, StrToInt, ContainsI;
  }

  lemma {:induction false} AbsorbRecords(s: Parsed, hs: seq<Header>)
    ensures var t := Absorb(s, hs);
            && t.headers == s.headers + hs && t.verb == s.verb && t.uri == s.uri && t.version == s.version
    decreases |hs|
  {
    hide AddHeader;
    if hs != [] {
      AddHeaderRecords(s, hs[0]);
      AbsorbRecords(AddHeader(s, hs[0]), hs[1..]);
    }
  }

  /** The header loop does nothing but absorb the well-formed headers it met. */
  lemma {:induction false} HeadersAbsorbed(s: Parsed, rest: string) returns (hs: seq<Header>)
    ensures ParseHeaders(s, rest).s == Absorb(s, hs)
    ensures forall i | 0 <= i < |hs| :: WellFormed(hs[i])
    decreases |rest|
  {
    hide AddHeader, ReadHeader, FindCrlf, WellFormed;
    hs := [];
    if rest != "" {
      var i := FindCrlf(rest);
      if i > 0 && ReadHeader(rest[..i]).Some? && |s.headers| < MAX_HEADERS {
        var h := ReadHeader(rest[..i]).value;
        CrlfFreePrefix(rest);
        ReadHeaderWellFormed(rest[..i]);
        var tail := HeadersAbsorbed(AddHeader(s, h), rest[i + 2..]);
        hs := [h] + tail;
        assert hs[1..] == tail;
      }
    }
  }

  // ----- the request line -----

  function VersionStr(v: Version): string {
    if v == Http11 then "HTTP/1.1" else "HTTP/1.0"
  }

  lemma VersionReadsBack(v: Version)
    ensures ParseVersion(VersionStr(v)) == Some(v) && ' ' !in VersionStr(v) && '\r' !in VersionStr(v)
  {
  }

  /** A request head: the three tokens of the first line, and the header lines. */
  datatype Spelling = Spelling(token: string, uri: string, version: Version, lines: seq<string>)

  function FirstLineText(h: Spelling): string {
    h.token + " " + h.uri + " " + VersionStr(h.version)
  }

  function Started(h: Spelling): Parsed {
    FRESH.(verb := ParseVerb(h.token), uri := h.uri, version := h.version)
  }

  predicate TokensOk(h: Spelling) {
    ' ' !in h.token && ' ' !in h.uri && CrlfFree(h.token) && CrlfFree(h.uri)
  }

  lemma FirstLineParses(h: Spelling)
    requires TokensOk(h)
    ensures CrlfFree(FirstLineText(h)) && RequestLine(FRESH, FirstLineText(h)) == (true, Started(h))
  {
    hide FindChar, ParseVerb, ParseVersion, VersionStr;
    VersionReadsBack(h.version);
    var v, p, w := h.token, h.uri, VersionStr(h.version);
    var rest := p + " " + w;
    var line := v + " " + rest;
    assert line == FirstLineText(h);
    assert CrlfFree(" " + w) && CrlfFree(" ");
    CrlfFreeJoin(p, " " + w);
    assert p + (" " + w) == rest;
    CrlfFreeJoin(v, " ");
    CrlfFreeJoin(v + " ", rest);
    assert line == v + [' '] + rest;
    FindCharAt(v, ' ', rest);
    assert line[..|v|] == v && line[|v| + 1..] == rest;
    assert rest == p + [' '] + w;
    FindCharAt(p, ' ', w);
    assert rest[..|p|] == p && rest[|p| + 1..] == w;
  }

  lemma VersionSpelled(w: string)
    requires ParseVersion(w).Some?
    ensures w == VersionStr(ParseVersion(w).value)
  {
  }

  lemma FirstLineSpelled(line: string) returns (h: Spelling)
    requires CrlfFree(line) && RequestLine(FRESH, line).0
    ensures TokensOk(h) && h.lines == [] && line == FirstLineText(h) && RequestLine(FRESH, line).1 == Started(h)
  {
    hide FindChar, ParseVerb, ParseVersion, VersionStr, CrlfFree;
    var sp1 := FindChar(line, ' ');
    var rest := line[sp1 + 1..];
    var sp2 := FindChar(rest, ' ');
    var version := ParseVersion(rest[sp2 + 1..]).value;
    VersionSpelled(rest[sp2 + 1..]);
    h := Spelling(line[..sp1], rest[..sp2], version, []);
    CrlfFreeSlice(line, 0, sp1);
    CrlfFreeSlice(line, sp1 + 1, sp1 + 1 + sp2);
    assert line[0..sp1] == h.token && line[sp1 + 1..sp1 + 1 + sp2] == h.uri;
    assert rest == h.uri + " " + VersionStr(version);
    assert line == h.token + " " + rest;
  }

  // ----- the header lines -----

  predicate LineOk(l: string) {
    l != "" && CrlfFree(l) && ':' in l
  }

  predicate AllLines(ls: seq<string>) {
    forall l | l in ls :: LineOk(l)
  }

  function Joined(ls: seq<string>): string {
    if ls == [] then "" else ls[0] + CRLF + Joined(ls[1..])
  }

  lemma LineHasHeader(l: string)
    requires ':' in l
    ensures ReadHeader(l).Some?
  {
  }

  function Read(ls: seq<string>): (hs: seq<Header>)
    requires AllLines(ls)
    ensures |hs| == |ls|
  {
    if ls == [] then [] else
      assert ls[0] in ls;
      LineHasHeader(ls[0]);
      [ReadHeader(ls[0]).value] + Read(ls[1..])
  }

  lemma BlankReadBack(s: Parsed, body: string)
    ensures ParseHeaders(s, CRLF + body) == Blank(s, body)
  {
    hide FindCrlf;
    assert CrlfAt(CRLF + body, 0);
    assert (CRLF + body)[2..] == body;
  }

  /** Lines followed by a blank line are read one by one, up to the size of the header table. */
  lemma {:induction false} LinesParse(s: Parsed, ls: seq<string>, tail: string)
    requires AllLines(ls) && |s.headers| <= MAX_HEADERS
    ensures var e := ParseHeaders(s, Joined(ls) + CRLF + tail);
            if |s.headers| + |ls| <= MAX_HEADERS then e == Blank(Absorb(s, Read(ls)), tail) else e.Bad?
    decreases |ls|
  {
    hide AddHeader, ReadHeader, FindCrlf, CrlfFree;
    if ls == [] {
      BlankReadBack(s, tail);
      assert Joined(ls) + CRLF + tail == CRLF + tail;
    } else {
      var l, more := ls[0], Joined(ls[1..]) + CRLF + tail;
      assert l in ls;
      LineHasHeader(l);
      FirstCrlfAfter(l, more);
      var all := Joined(ls) + CRLF + tail;
      assert all == l + CRLF + more;
      assert all[..|l|] == l && all[|l| + 2..] == more;
      if |s.headers| < MAX_HEADERS {
        var h := ReadHeader(l).value;
        AddHeaderRecords(s, h);
        LinesParse(AddHeader(s, h), ls[1..], tail);
        assert Read(ls)[1..] == Read(ls[1..]);
      }
    }
  }

  /** Conversely a header loop that met the blank line has read such lines. */
  lemma {:induction false} LinesSpelled(s: Parsed, rest: string) returns (ls: seq<string>)
    requires ParseHeaders(s, rest).Blank? && |s.headers| <= MAX_HEADERS
    ensures AllLines(ls) && |s.headers| + |ls| <= MAX_HEADERS
    ensures var e := ParseHeaders(s, rest); rest == Joined(ls) + CRLF + e.rest && e.s == Absorb(s, Read(ls))
    decreases |rest|
  {
    hide AddHeader, ReadHeader, FindCrlf, CrlfFree;
    ls := [];
    var i := FindCrlf(rest);
    if i == 0 {
      assert rest == CRLF + rest[2..];
    } else {
      var l := rest[..i];
      var h := ReadHeader(l).value;
      CrlfFreePrefix(rest);
      HeaderHasColon(l);
      AddHeaderRecords(s, h);
      var more := LinesSpelled(AddHeader(s, h), rest[i + 2..]);
      ls := [l] + more;
      assert ls[1..] == more && ls[0] == l;
      assert rest == l + CRLF + rest[i + 2..];
      OneMoreLine(l, Joined(more), ParseHeaders(AddHeader(s, h), rest[i + 2..]).rest);
      assert Read(ls)[1..] == Read(more);
    }
  }

  lemma OneMoreLine(l: string, j: string, tail: string)
    ensures l + CRLF + (j + CRLF + tail) == (l + CRLF + j) + CRLF + tail
  {
  }

  lemma HeaderHasColon(l: string)
    requires ReadHeader(l).Some?
    ensures ':' in l
  {
    hide FindChar, Trim;
    assert l[FindChar(l, ':')] == ':';
  }

  // ----- the language the parser accepts -----

  function HeadText(h: Spelling): string {
    FirstLineText(h) + CRLF + Joined(h.lines) + CRLF
  }

  predicate HeadOk(h: Spelling) {
    TokensOk(h) && AllLines(h.lines)
  }

  /** Every well-formed head is parsed as what it spells, whatever follows; too many headers are an error. */
  lemma HeadParses(h: Spelling, tail: string)
    requires HeadOk(h)
    ensures var data := HeadText(h) + tail;
            if |h.lines| <= MAX_HEADERS
            then Parse(data) == Finish(Absorb(Started(h), Read(h.lines)), |HeadText(h)|, |data|)
            else Parse(data).result == Error
  {
    hide FindCrlf, RequestLine, ParseHeaders, Absorb, Finish, Joined, AllLines, Read, CrlfFree, FirstLineText;
    var line, more := FirstLineText(h), Joined(h.lines) + CRLF + tail;
    var data := HeadText(h) + tail;
    FirstLineParses(h);
    LinesParse(Started(h), h.lines, tail);
    assert data == line + CRLF + more;
    FirstCrlfAfter(line, more);
    assert data[..|line|] == line && data[|line| + 2..] == more;
  }

  /** A parse that finished at a blank line has read a well-formed head. */
  lemma DoneSpelled(data: string) returns (h: Spelling, tail: string)
    requires Parse(data).result == Done && HasBlankLine(data)
    ensures HeadOk(h) && |h.lines| <= MAX_HEADERS && data == HeadText(h) + tail
  {
    hide FindCrlf, RequestLine, ParseHeaders, Absorb, Finish, Joined, AllLines, Read, CrlfFree;
    hide FirstLineText, HasBlankLine;
    var i := FindCrlf(data);
    CrlfFreePrefix(data);
    ExitBlank(FRESH, data);
    var g := FirstLineSpelled(data[..i]);
    var ls := LinesSpelled(Started(g), data[i + 2..]);
    tail := ParseHeaders(Started(g), data[i + 2..]).rest;
    h := g.(lines := ls);
    SameFirstLine(g, ls);
    assert data == data[..i] + CRLF + data[i + 2..];
    assert data == HeadText(h) + tail;
  }

  lemma SameFirstLine(g: Spelling, ls: seq<string>)
    ensures FirstLineText(g.(lines := ls)) == FirstLineText(g)
    ensures TokensOk(g.(lines := ls)) == TokensOk(g)
  {
  }

  /** A request line and nothing else is a finished parse without a blank line. */
  lemma LineAloneIsDone(h: Spelling)
    requires TokensOk(h) && h.lines == [] && h.version == Http11
    ensures Parse(FirstLineText(h) + CRLF).result == Done && !HasBlankLine(FirstLineText(h) + CRLF)
  {
    hide FindCrlf, RequestLine, CrlfFree, FirstLineText, HasBlankLine;
    var line := FirstLineText(h);
    var data := line + CRLF;
    FirstLineParses(h);
    FirstCrlfAfter(line, "");
    assert data == line + CRLF + "" && data[..|line|] == line && data[|line| + 2..] == "";
    ExitBlank(FRESH, data);
  }

  /** For instance "GET / HTTP/1.1" with its line end: finished, and undone by one more letter. */
  lemma BoundaryExample()
    ensures var data := "GET / HTTP/1.1\r\n";
            Parse(data).result == Done && !HasBlankLine(data) && Parse(data + "A").result == Incomplete
  {
    hide ParseFrom, HasBlankLine;
    var h := Spelling("GET", "/", Http11, []);
    assert FirstLineText(h) + CRLF == "GET / HTTP/1.1\r\n";
    LineAloneIsDone(h);
    BoundaryDoneUnstable(FRESH, "GET / HTTP/1.1\r\n");
  }

  // ----- the flags, as properties of the header list -----

  /** The last readable `Content-Length`, in any spelling. */
  function LastLength(hs: seq<Header>): Option<int> {
    if hs == [] then None
    else
      var r := LastLength(hs[1..]);
      if r.Some? then r else if SameLower(hs[0].name, "Content-Length") then StrToInt(hs[0].value) else None
  }

  /** The value of the last header of a name, in any spelling. */
  function LastValue(hs: seq<Header>, name: string): Option<string> {
    if hs == [] then None
    else
      var r := LastValue(hs[1..], name);
      if r.Some? then r else if SameLower(hs[0].name, name) then Some(hs[0].value) else None
  }

  predicate SaysChunked(h: Header) {
    SameLower(h.name, "Transfer-Encoding") && SameLower(h.value, "chunked")
  }

  predicate WordAt(s: string, word: string, i: int) {
    0 <= i <= |s| - |word| && SameLower(s[i..i + |word|], word)
  }

  /** The word occurs somewhere in the text, in any spelling. */
  predicate Mentions(s: string, word: string) {
    exists i | 0 <= i <= |s| :: WordAt(s, word, i)
  }

  predicate SaysUpgrade(h: Header) {
    SameLower(h.name, "Connection") && Mentions(h.value, "upgrade")
  }

  lemma IEqMeans(a: string, b: string)
    requires '\0' !in b
    ensures IEq(a, b) <==> SameLower(a, b)
  {
    hide CaseCmp;
    if |a| == |b| { CaseCmpZero(a, b); }
  }

  lemma ContainsMeans(s: string, word: string)
    requires '\0' !in word
    ensures ContainsI(s, word) <==> Mentions(s, word)
  {
    hide CaseCmp, SameLower;
    forall i ensures MatchesAt(s, word, i) <==> WordAt(s, word, i) {
      if 0 <= i <= |s| - |word| { CaseCmpZero(s[i..i + |word|], word); }
    }
  }

  /** The names the parser acts on. */
  lemma KindMeans(name: string)
    ensures Kind(name).Length? <==> SameLower(name, "Content-Length")
    ensures Kind(name).Encoding? <==> SameLower(name, "Transfer-Encoding")
    ensures Kind(name).Connection? <==> SameLower(name, "Connection")
    ensures Kind(name).Upgrade? <==> SameLower(name, "Upgrade")
  {
    hide IEq;
    IEqMeans(name, "Content-Length");
    IEqMeans(name, "Transfer-Encoding");
    IEqMeans(name, "Connection");
    IEqMeans(name, "Upgrade");
  }

  /** What one header does to the state, by its name and value. */
  lemma HeaderMeans(s: Parsed, h: Header)
    ensures var t, n := AddHeader(s, h), StrToInt(h.value);
            && t.contentLength == (if SameLower(h.name, "Content-Length") && n.Some? then n.value else s.contentLength)
            && t.chunked == (s.chunked || SaysChunked(h))
            && t.hasConnection == (s.hasConnection || SameLower(h.name, "Connection"))
            && t.keepAlive ==
               (if SameLower(h.name, "Connection") then !SameLower(h.value, "close") else s.keepAlive)
            && t.upgrade == (s.upgrade || SaysUpgrade(h))
            && t.upgradeProtocol == (if SameLower(h.name, "Upgrade") then h.value else s.upgradeProtocol)
  {
    hide Kind, IEq, StrToInt, ContainsI, SameLower, Mentions;
    KindMeans(h.name);
    IEqMeans(h.value, "chunked");
    IEqMeans(h.value, "close");
    ContainsMeans(h.value, "upgrade");
  }

  lemma {:induction false} AbsorbMeans(s: Parsed, hs: seq<Header>)
    ensures var t, n := Absorb(s, hs), LastLength(hs);
            var c, u := LastValue(hs, "Connection"), LastValue(hs, "Upgrade");
            && t.contentLength == (if n.Some? then n.value else s.contentLength)
            && t.hasConnection == (s.hasConnection || c.Some?)
            && t.keepAlive == (if c.Some? then !SameLower(c.value, "close") else s.keepAlive)
            && t.upgradeProtocol == (if u.Some? then u.value else s.upgradeProtocol)
            && t.chunked == (s.chunked || exists h | h in hs :: SaysChunked(h))
            && t.upgrade == (s.upgrade || exists h | h in hs :: SaysUpgrade(h))
    decreases |hs|
  {
    hide AddHeader, SameLower, StrToInt, SaysChunked, SaysUpgrade;
    if hs != [] {
      HeaderMeans(s, hs[0]);
      AbsorbMeans(AddHeader(s, hs[0]), hs[1..]);
      assert hs == [hs[0]] + hs[1..];
      assert hs[0] in hs;
      assert forall h | h in hs :: h == hs[0] || h in hs[1..];
    }
  }

  /** The body length a header list announces for a version, as the parser leaves it in the state. */
  function Announced(hs: seq<Header>, version: Version): int {
    var n := if LastLength(hs).Some? then LastLength(hs).value else -1;
    if version == Http11 && n < 0 && !(exists h | h in hs :: SaysChunked(h)) then 0 else n
  }

  predicate Means(p: Parsed, hs: seq<Header>) {
    var c, u := LastValue(hs, "Connection"), LastValue(hs, "Upgrade");
    && p.headers == hs
    && p.contentLength == Announced(hs, p.version)
    && (p.chunked <==> exists h | h in hs :: SaysChunked(h))
    && (p.upgrade <==> exists h | h in hs :: SaysUpgrade(h))
    && p.upgradeProtocol == (if u.Some? then u.value else "")
    && p.keepAlive == (if c.Some? then !SameLower(c.value, "close") else p.version == Http11)
  }

  lemma FinishMeans(h: Spelling, hs: seq<Header>, offset: nat, len: nat)
    requires offset <= len
    ensures var o := Finish(Absorb(Started(h), hs), offset, len);
            var n := Announced(hs, h.version);
            && Means(o.state, hs) && o.state.verb == ParseVerb(h.token) && o.state.uri == h.uri
            && o.state.version == h.version && o.state.bodyOffset == offset
            && (o.result == Done <==> n <= len - offset) && o.result != Error
            && (o.result == Done ==> o.state.parsedBytes == offset + if n > 0 then n else 0)
  {
    hide SameLower, Absorb, Finish, LastLength, LastValue, SaysChunked, SaysUpgrade, ParseVerb;
    AbsorbMeans(Started(h), hs);
    AbsorbRecords(Started(h), hs);
    FinishSets(Absorb(Started(h), hs), offset, len);
  }

  lemma FinishSets(s: Parsed, offset: nat, len: nat)
    requires offset <= len
    ensures var o := Finish(s, offset, len);
            var n := if s.version == Http11 && !s.chunked && s.contentLength < 0 then 0 else s.contentLength;
            && o.state == s.(keepAlive := if s.hasConnection then s.keepAlive else s.version == Http11,
                             contentLength := n, bodyOffset := offset, parsedBytes := o.state.parsedBytes)
            && (o.result == Done <==> n <= len - offset) && o.result != Error
            && (o.result == Done ==> o.state.parsedBytes == offset + if n > 0 then n else 0)
  {
  }

  /** The last header of a name is at `i`. */
  predicate LastNamed(hs: seq<Header>, name: string, i: nat) {
    && i < |hs| && SameLower(hs[i].name, name)
    && forall j | i < j < |hs| :: !SameLower(hs[j].name, name)
  }

  lemma {:induction false} LengthRead(hs: seq<Header>, i: nat, n: nat)
    requires LastNamed(hs, "Content-Length", i) && hs[i].value == Decimal(n) && n <= I64_MAX
    ensures LastLength(hs) == Some(n)
  {
    hide SameLower, StrToInt, Decimal;
    StrToIntReadsDecimal(n);
    if i > 0 {
      LengthRead(hs[1..], i - 1, n);
    } else {
      NoLength(hs[1..]);
    }
  }

  lemma {:induction false} NoLength(hs: seq<Header>)
    requires forall j | 0 <= j < |hs| :: !SameLower(hs[j].name, "Content-Length")
    ensures LastLength(hs) == None
  {
    hide SameLower, StrToInt;
    if hs != [] { NoLength(hs[1..]); }
  }

  /**
   A head whose last Content-Length, however it is spelled, says `n`, followed by `n` bytes:
   finished, with that length, and all of it consumed.  With a byte less it is incomplete.
   */
  lemma LengthFrames(h: Spelling, i: nat, n: nat, body: string)
    requires HeadOk(h) && |h.lines| <= MAX_HEADERS && n <= I64_MAX && |body| <= n
    requires LastNamed(Read(h.lines), "Content-Length", i) && Read(h.lines)[i].value == Decimal(n)
    ensures var data := HeadText(h) + body;
            var o := Parse(data);
            && o.state.contentLength == n
            && (o.result == if |body| == n then Done else Incomplete)
            && o.state.bodyOffset == |HeadText(h)|
            && (o.result == Done ==> o.state.parsedBytes == |data|)
  {
    hide ParseFrom, Absorb, Finish, HeadText, Read, AllLines, TokensOk, Decimal, LastNamed, LastLength, SaysChunked;
    LengthRead(Read(h.lines), i, n);
    HeadParses(h, body);
    FinishMeans(h, Read(h.lines), |HeadText(h)|, |HeadText(h) + body|);
  }

  /** A head without a Content-Length is a request without a body, and what follows it is not touched. */
  lemma NoLengthFrames(h: Spelling, tail: string)
    requires HeadOk(h) && |h.lines| <= MAX_HEADERS
    requires forall x | x in Read(h.lines) :: !SameLower(x.name, "Content-Length")
    ensures var o := Parse(HeadText(h) + tail);
            o.result == Done && o.state.parsedBytes == |HeadText(h)| && o.state.contentLength <= 0
  {
    hide ParseFrom, Absorb, Finish, HeadText, Read, AllLines, TokensOk, LastLength, SaysChunked;
    NoLength(Read(h.lines));
    HeadParses(h, tail);
    FinishMeans(h, Read(h.lines), |HeadText(h)|, |HeadText(h) + tail|);
  }

  /** For instance with the name in mixed case: the three bytes of the body belong to the request. */
  lemma PostExample()
    ensures var data := "POST / HTTP/1.1" + CRLF + ("content-LENGTH: 3" + CRLF) + CRLF + "abc";
            var o := Parse(data);
            o.result == Done && o.state.verb == POST && o.state.contentLength == 3 && o.state.parsedBytes == |data|
  {
    hide ParseFrom, Decimal, HeadText, HeadOk, Read;
    var h := Spelling("POST", "/", Http11, ["content-LENGTH: 3"]);
    ExampleHead(h);
    ThreeIsThree();
    LengthFrames(h, 0, 3, "abc");
    ExampleVerb(h);
  }

  lemma ExampleHead(h: Spelling)
    requires h == Spelling("POST", "/", Http11, ["content-LENGTH: 3"])
    ensures HeadOk(h) && Read(h.lines) == [Header("content-LENGTH", "3")]
    ensures HeadText(h) == "POST / HTTP/1.1" + CRLF + ("content-LENGTH: 3" + CRLF) + CRLF
  {
    hide ReadHeader, LineOk;
    var line := "content-LENGTH: 3";
    ExampleHeader();
    assert forall l | l in h.lines :: l == line;
    assert h.lines[1..] == [] && Joined([]) == "" && Read([]) == [];
    assert Joined(h.lines) == line + CRLF;
    assert FirstLineText(h) == "POST / HTTP/1.1";
  }

  lemma ThreeIsThree()
    ensures Decimal(3) == "3"
  {
  }

  lemma ExampleVerb(h: Spelling)
    requires HeadOk(h) && |h.lines| <= MAX_HEADERS
    ensures Parse(HeadText(h) + "abc").state.verb == ParseVerb(h.token)
  {
    hide ParseFrom, Absorb, Finish, HeadText, Read, AllLines, TokensOk, ParseVerb, Means, Announced;
    HeadParses(h, "abc");
    FinishMeans(h, Read(h.lines), |HeadText(h)|, |HeadText(h) + "abc"|);
  }

  lemma ExampleHeader()
    ensures LineOk("content-LENGTH: 3") && ReadHeader("content-LENGTH: 3") == Some(Header("content-LENGTH", "3"))
  {
    hide FindChar, Trim;
    var line := "content-LENGTH: 3";
    assert line == "content-LENGTH" + [':'] + " 3";
    FindCharAt("content-LENGTH", ':', " 3");
    assert line[..14] == "content-LENGTH" && line[15..] == " 3" && line[14] == ':';
    assert "" + "content-LENGTH" + "" == "content-LENGTH" && " " + "3" + "" == " 3";
    TrimUnique("", "content-LENGTH", "");
    TrimUnique(" ", "3", "");
  }

  /** Whatever follows a head, the flags are what its header list says. */
  lemma HeadMeans(h: Spelling, tail: string)
    requires HeadOk(h) && |h.lines| <= MAX_HEADERS
    ensures Means(Parse(HeadText(h) + tail).state, Read(h.lines))
  {
    hide ParseFrom, Absorb, Finish, HeadText, Read, AllLines, TokensOk, Means, Announced;
    HeadParses(h, tail);
    FinishMeans(h, Read(h.lines), |HeadText(h)|, |HeadText(h) + tail|);
  }

  /** `data` is a head, and at least the announced body. */
  predicate Spells(data: string, h: Spelling, tail: string) {
    && HeadOk(h) && |h.lines| <= MAX_HEADERS && data == HeadText(h) + tail
    && Announced(Read(h.lines), h.version) <= |tail|
  }

  /** The state the parser must reach for a head. */
  predicate Reads(p: Parsed, h: Spelling)
    requires HeadOk(h)
  {
    && p.verb == ParseVerb(h.token) && p.uri == h.uri && p.version == h.version && Means(p, Read(h.lines))
    && p.bodyOffset == |HeadText(h)|
    && p.parsedBytes == p.bodyOffset + (if p.contentLength > 0 then p.contentLength else 0)
  }

  /** Everything that spells a request is accepted, with exactly the state it spells. */
  lemma AcceptsSpelled(data: string, h: Spelling, tail: string)
    requires Spells(data, h, tail)
    ensures Parse(data).result == Done && Reads(Parse(data).state, h)
  {
    hide ParseFrom, Absorb, Finish, HeadText, Means, Announced, Read, AllLines, TokensOk;
    HeadParses(h, tail);
    FinishMeans(h, Read(h.lines), |HeadText(h)|, |data|);
    MeansLength(Parse(data).state, Read(h.lines));
  }

  lemma MeansLength(p: Parsed, hs: seq<Header>)
    requires Means(p, hs)
    ensures p.contentLength == Announced(hs, p.version)
  {
  }

  /** The parser finishes at a blank line on exactly the byte strings that spell a request and its body. */
  lemma AcceptsExactly(data: string)
    ensures Parse(data).result == Done && HasBlankLine(data) <==> exists h, tail :: Spells(data, h, tail)
  {
    hide ParseFrom, HasBlankLine, Spells;
    if Parse(data).result == Done && HasBlankLine(data) {
      var h, tail := SpelledBy(data);
    }
    forall h, tail | Spells(data, h, tail) ensures Parse(data).result == Done && HasBlankLine(data) {
      AcceptsSpelled(data, h, tail);
      SpelledHasBlank(data, h, tail);
    }
  }

  lemma SpelledBy(data: string) returns (h: Spelling, tail: string)
    requires Parse(data).result == Done && HasBlankLine(data)
    ensures Spells(data, h, tail)
  {
    hide ParseFrom, HasBlankLine, Absorb, Finish, HeadText, Means, Announced, Read, AllLines, TokensOk;
    h, tail := DoneSpelled(data);
    HeadParses(h, tail);
    FinishMeans(h, Read(h.lines), |HeadText(h)|, |data|);
  }

  lemma SpelledHasBlank(data: string, h: Spelling, tail: string)
    requires Spells(data, h, tail)
    ensures HasBlankLine(data)
  {
    hide Announced, Read, AllLines, TokensOk, FirstLineText;
    var a, j := FirstLineText(h) + CRLF, Joined(h.lines);
    assert data == a + j + CRLF + tail;
    JoinedEnds(h.lines);
    var k := |a + j| - 2;
    assert CrlfAt(a + j, k) by { if h.lines == [] { assert a + j == a; } else { assert CrlfAt(j, |j| - 2); } }
    assert BlankAt(data, k);
  }

  lemma {:induction false} JoinedEnds(ls: seq<string>)
    ensures ls != [] ==> |Joined(ls)| >= 2 && CrlfAt(Joined(ls), |Joined(ls)| - 2)
  {
    if ls != [] {
      JoinedEnds(ls[1..]);
      var m := Joined(ls[1..]);
      assert Joined(ls) == ls[0] + CRLF + m;
      if ls[1..] == [] { assert m == ""; } else { assert CrlfAt(m, |m| - 2); }
    }
  }

  // ----- a finished parse -----

  /** Equal framing: what decides where the body is and how it is coded. */
  predicate SameFraming(s: Parsed, t: Parsed) {
    s.contentLength == t.contentLength && s.chunked == t.chunked && s.upgradeProtocol == t.upgradeProtocol
  }

  predicate SameConnection(s: Parsed, t: Parsed) {
    s.hasConnection == t.hasConnection && s.keepAlive == t.keepAlive && s.upgrade == t.upgrade
  }

  /** What a finished parse says about the request it yields. */
  lemma DoneShape(data: string) returns (s: Parsed, hs: seq<Header>)
    requires Parse(data).result == Done
    ensures var p := Parse(data).state;
            && p.headers == hs && (forall i | 0 <= i < |hs| :: WellFormed(hs[i]))
            && ' ' !in p.uri && CrlfFree(p.uri)
            && s.headers == [] && SameFraming(s, FRESH)
            && p.bodyOffset <= |data|
            && Finish(Absorb(s, hs), p.bodyOffset, |data|) == Parse(data)
  {
    hide FindCrlf, RequestLine, ParseHeaders, Absorb, WellFormed, CrlfFree, FirstLineText, ParseVerb;
    var i := FindCrlf(data);
    CrlfFreePrefix(data);
    var g := FirstLineSpelled(data[..i]);
    s := Started(g);
    ParserStability.DoneLength(FRESH, data);
    hs := HeadersAbsorbed(s, data[i + 2..]);
    AbsorbRecords(s, hs);
  }
}

# A verified model of NproxY

NproxY is an event-driven HTTP/1.1 reverse proxy written in C. This project models
the parts of it whose correctness rests on more than one function at a time, and
proves what they promise over all inputs and whole runs.

`dafny verify dfyconfig.toml` checks everything.

| files | part of the proxy |
|---|---|
| `StringUtil`, `HttpParser`, `ParserStability`, `ParserMeaning` | slices, the request parser, what more bytes can do to a parse, and the language it accepts |
| `ProxyRequest`, `ProxyRoundTrip`, `Worker` | the request printed for a backend, reading it back, and the worker's use of both |
| `Buffer`, `RelayStream`, `Relay` | the compacting byte queues, and the two-way relay with response capture |
| `TimingWheel`, `TimerCalls`, `TimeoutHeap` | when a timer fires, what a caller may do with it, and the linked lists behind it |
| `RateLimiter` | the lossy token-bucket table against an ideal limiter |
| `Arena`, `ArenaHeap` | the bump allocator: values and linked blocks |
| `RoundRobin`, `Upstream`, `UpstreamPool` | selection, health and idle descriptors of backends |
| `CacheFormat`, `Cache`, `CacheReplay` | cache files, the map they implement, and byte-exact replay |
| `Rewrite` | `$N` expansion of rewrite rules |
| `WorkerTable`, `Supervisor` | the master process and its workers |
| `Arithmetic` | division with remainder |

## How the code is modelled

Code that updates structures in place is a class with a `Valid()` predicate (or an
`Invariant()`) and methods with the source's loops. Each method is tied by its
`ensures` to a function on values, and the theorems are about those functions. Where a
structure is interesting both as a value and as memory updated in place there are two
modules: `TimingWheel`/`TimeoutHeap`, `RelayStream`/`Relay`, `WorkerTable`/`Supervisor`,
`Arena`/`ArenaHeap`, `Upstream`/`UpstreamPool`.  A method that goes through a run of events
or calls is equal to a run function of those events or calls, so the theorems about all
runs are theorems about it.

- An octet is a `char`. Nothing depends on codes below 256 except where the C code
  casts to `u8`, and there the cast is written out, so every statement covers all
  octet strings.
- `%.*s` and other C string functions stop at a NUL. `StringUtil.CStr` says so, and the
  printer uses it.
- `read` and `write` follow finite scripts attached to a `Buffer.Socket`. Every partial
  read, partial write, end of stream and error is some script, so a statement about all
  scripts is a statement about all kernel behaviour. `fork`, `malloc`, `open`, `rename`,
  `connect`, `regexec`, `realloc` and the clock are inputs of the same kind, bounded by
  what they promise.
- Sizes and counters are unbounded. The places where the width matters are explicit:
  `strtoll` saturation, 32- and 64-bit FNV hashes, the 64-bit sum of lengths in
  `cache_lookup`, `INT_MAX` in the least-connections balancer, two's complement in the
  cache header.
- The timer modules are about the wheel of src/net/timeout.c and a caller that ticks it.
  Nothing under src/ calls `timeout_tick`: the worker creates the wheel, adds a timer for
  each connection and destroys it (src/proc/worker.c:284, 303, 365), so that in the program
  as it is no timer fires and no connection times out.

## What turned out not to hold as such

Each of these has an exact condition, and a lemma or method at an input where it fails.

- A finished parse is not always final. The header loop also ends when the buffer ends
  exactly behind a header line, and then one more letter turns the result into
  "incomplete"; `GET / HTTP/1.1` with its line end is such a buffer
  (`ParserMeaning.BoundaryExample`). It is final for every continuation if and only if the
  buffer contains a blank line (`ParserStability.DoneFinalIffBlankLine`).
- A forwarded request is not always the request that was parsed: `%.*s` cuts a slice at a
  NUL, as for the path `/` followed by a NUL (`ProxyRoundTrip.RoundTripExamples`). It is
  recovered if and only if there is no NUL in the path, the host or a header that is passed
  on (`ProxyRoundTrip.ForwardRoundTrip`).
- A head can be too long for the printer: a path of 8192 letters is parsed, but its head
  does not fit the 8192-byte buffer (`ProxyRoundTrip.HeadTooLong`). The running index stays
  inside the buffer if and only if the head has at most 8192 bytes
  (`ProxyRequest.StaysInsideIff`).
- A captured response is not always what the backend sent. A read that finds bytes still
  waiting for the client records these bytes again, so that "aab" is cached for "ab"
  (`RelayStream.GatheredTwice`). And the capture of a pooled connection is cleared only when
  a response goes to the cache, so what a client that hung up had been sent is stored in
  front of the next response, "ab" for "b" (`RelayStream.HangUpLeaves`,
  `RelayStream.StaleCaptured`). As long as no reallocation fails, the capture equals the
  stream if and only if every read found the buffer empty, which a client that keeps up
  guarantees (`RelayStream.SmoothRun`), and the connection came with nothing gathered
  (`RelayStream.RunConserves`); that is, if and only if no earlier use of the connection
  that was to be cached has read anything since a response last went to the cache
  (`RelayStream.PooledCapture`).
- A rewritten path can lose a group that would just fill the buffer: `$0` for a path of
  1023 characters gives nothing (`Rewrite.GroupLost`). It equals the full substitution if
  and only if that is at most 1022 characters, or 1023 with a literal at the end
  (`Rewrite.ExpansionExact`).
- An allocation is not always aligned: for 32 and a new block at 16 it is not
  (`Arena.NewBlockMisaligned`). Whatever `malloc` answers, it is if and only if the request
  fits the current block or asks for an alignment that divides 16 (`Arena.AlignedIff`).
- A timer for less than one resolution waits for a full turn of the wheel
  (`TimingWheel.RegularTimer`), so on a wheel of two buckets it misses the first tick
  (`TimerCalls.ShortTimerWaits`).
- Cancelling a timer twice is not harmless. `timeout_remove` frees the entry and so does
  firing, and the check of `entry->active` in a second call looks at freed memory: set,
  cancel, cancel (`TimeoutHeap.CancelledOnce`). A handle may be cancelled if and only if it
  has neither fired nor been cancelled (`TimeoutHeap.Drive`).
- A cache key does not always stand for one target. The query is not part of it
  (`CacheReplay.QueryShared`; it is not forwarded either, src/proxy/proxy_conn.c:33), and
  its colons can be read in two ways (`CacheReplay.ColonsCollide`). It identifies verb,
  host and path among all parsed requests if and only if the path has no colon, every colon
  of the host is followed in it by a space or a question mark, which no path can have, and
  the key is shorter than 1023 characters (`CacheReplay.KeyUniqueIff`). Among requests with
  a slash-free host and an absolute path, rewritten or not, it does so whatever the colons
  (`CacheReplay.KeyIdentifies`).
- `kill_workers` can signal a process that is no child any more: after a failed respawn the
  slot still names the dead worker (`WorkerTable.StaleAfterFailedRespawn`). It signals
  exactly the children if and only if every worker that died since the last successful
  reload was replaced (`WorkerTable.RunSignals`).
- docs/proxy.md says that least connections picks the backend with the fewest active ones.
  A count goes down only when a connect fails, so it is the number of requests the backend
  ever got a descriptor for (`Upstream.ActiveCountsServed`), also after the descriptor came
  back (`Upstream.ReturnedStillCounted`). It is the number in use if and only if none has
  come back (`Upstream.InUseIff`).
- docs/proxy.md says that a backend recovers after a success. The code never resets the
  error count, so a backend is out for good after its sixth error, consecutive or not
  (`Upstream.HealthIsErrorCount`, `Upstream.NoRecovery`). The model follows the code.

## Model

| member | source | states |
|---|---|---|
| `StringUtil.TrimUnique` | src/core/string_util.c:25-42 | trimming white space around any trimmed middle gives back exactly that middle |
| `StringUtil.CaseCmpZero` | src/core/string_util.c:7-23 | against a NUL-free string, comparing equal is agreeing letter by letter up to case |
| `StringUtil.StrContainsI` | src/core/string_util.c:97-108 | true exactly when the needle occurs somewhere, ignoring case |
| `StringUtil.StrToIntReadsDecimal` | src/core/string_util.c:66-80 | every length up to 2^63-1 is read back from its decimal form |
| `HttpParser.FindCrlfFrom` | src/http/parser.c:31-37 | the position of the first CRLF at or after a position, negative when there is none |
| `HttpParser.ParseState.Record` | src/http/parser.c:91-110 | one header's effect on the header table and on all framing flags |
| `HttpParser.ParseState.Conclude` | src/http/parser.c:115-132 | keep-alive default, content-length default, body availability and the consumed length |
| `HttpParser.ParseState.ParseRequest` | src/http/parser.c:39-133 | the cursor loop computes the line-by-line reading of the request, result and whole state, on success and on every failure |
| `ParserStability.HeadersAppend` | src/http/parser.c:71-113 | appending bytes keeps an error and a blank-line exit, and an end-of-buffer exit resumes at the new bytes |
| `ParserStability.HeadersBlank` | src/http/parser.c:71-79 | the header loop leaves through the blank line or at the end of the buffer as there is a blank line or not |
| `ParserStability.ParseStable` | src/http/parser.c:39-133 | errors, and finished parses that saw the blank line, are unchanged by any further bytes: same state, same consumed length |
| `ParserStability.BoundaryDoneUnstable` | src/http/parser.c:71-79 | every finished parse without a blank line becomes incomplete by one more letter |
| `ParserStability.DoneFinalIffBlankLine` | src/http/parser.c:39-133 | a finished parse is the same for every continuation if and only if the buffer holds a blank line |
| `ParserStability.FeedFollowsDrain` | src/proc/worker.c:182-201 | parse-and-consume over any chunks takes a prefix of the requests of the whole stream, and its rest is read as the stream's rest |
| `ParserStability.OneByOne` | src/proc/worker.c:182-201 | requests that come one a read are all taken, one by one, each with exactly its bytes |
| `ParserStability.ChunkingIrrelevant` | src/proc/worker.c:165-201 | two ways of cutting one stream into reads, no attempt ending on a header boundary, take the same requests once settled, and one is always a prefix of the other |
| `ParserMeaning.LinesParse` | src/http/parser.c:71-113 | lines with a colon followed by a blank line are read one by one into headers, or it is an error exactly when there are more than 64 |
| `ParserMeaning.AbsorbMeans` | src/http/parser.c:95-110 | content length, chunked, keep-alive, upgrade and upgrade protocol as properties of the header list, its names in any spelling: the last readable length, the last Connection and Upgrade, some chunked coding, some mention of an upgrade |
| `ParserMeaning.HeaderMeans` | src/http/parser.c:95-110 | what one header does to each flag, by its name and value in any spelling |
| `ParserMeaning.HeadParses` | src/http/parser.c:39-133 | every well-formed head is parsed as what it spells, whatever follows it |
| `ParserMeaning.HeadMeans` | src/http/parser.c:95-120 | whatever follows a well-formed head, every flag of the state is what its header list says |
| `ParserMeaning.LengthFrames` | src/http/parser.c:122-132 | a head whose last Content-Length, in any spelling, says n takes exactly n bytes of body, and is incomplete with fewer |
| `ParserMeaning.NoLengthFrames` | src/http/parser.c:119-132 | a head without a Content-Length has no body, and what follows it is not consumed |
| `ParserMeaning.PostExample` | src/http/parser.c:39-133 | a POST with the length spelled in mixed case is read with its three bytes of body |
| `ParserMeaning.AcceptsSpelled` | src/http/parser.c:39-133 | everything that spells a request and its announced body is accepted with exactly the state it spells |
| `ParserMeaning.AcceptsExactly` | src/http/parser.c:39-133 | the parser finishes at a blank line on exactly the byte strings that spell a request and its body |
| `ParserMeaning.BoundaryExample` | src/http/parser.c:71-79 | a request line alone is a finished parse without a blank line, and one more letter makes it incomplete |
| `Worker.ParseAndConsume` | src/proc/worker.c:178-201 | exactly the parsed bytes leave the buffer, the request is that of the parse, and otherwise the buffer is untouched |
| `Worker.HandleRead` | src/proc/worker.c:165-201 | what one read event reads, and that the connection is gone exactly when the last read found the end or an error; otherwise one parse attempt over old and new bytes |
| `Worker.ServeReads` | src/proc/worker.c:165-201 | a sequence of read events is served as the serving function says: requests, failure, end, pieces read and bytes left, with every event used unless it failed or ended |
| `Worker.ServeIsFeed` | src/proc/worker.c:165-201 | the requests served are those of parse-and-consume over the pieces the kernel delivered |
| `Worker.ServingsAgree` | src/proc/worker.c:165-201 | two connections that sent the same bytes, read in any pieces into any buffers and not on a header boundary, are served the same requests once settled, and one always a prefix of the other |
| `ProxyRequest.PopulateSplits` | src/http/request.c:33-41 | path and query are the target cut at its first question mark |
| `ProxyRoundTrip.RequestMeans` | src/http/request.c:22-55 | verb, version, headers, body, keep-alive, coding and upgrade of the request are what the bytes spell |
| `ProxyRequest.RequestHeader` | src/http/request.c:57-64 | the value of the first header of that name, and nothing exactly when there is none |
| `ProxyRequest.AppendKept` | src/proxy/proxy_conn.c:37-45 | the loop appends the lines of all headers except Host and Connection, in order |
| `ProxyRequest.BuildHead` | src/proxy/proxy_conn.c:23-47 | the pieces printed with a running index are the head: request line, the proxy's four headers, the kept headers, blank line; a head that just fills the buffer loses its last byte to the terminator |
| `ProxyRequest.StaysInsideIff` | src/proxy/proxy_conn.c:41-52 | the running index is inside the buffer before every print and at the copy if and only if the head has at most 8192 bytes |
| `ProxyRoundTrip.CutIff` | src/proxy/proxy_conn.c:41-42 | a header survives printing and reading exactly when there is no NUL in it |
| `ProxyRoundTrip.LinesSpell` | src/proxy/proxy_conn.c:37-45 | the printed lines of any parsed headers spell these headers, cut at NULs, in the parser's grammar |
| `ProxyRoundTrip.KeptFraming` | src/proxy/proxy_conn.c:37-45 | dropping Host and Connection changes neither body length nor coding nor upgrade protocol |
| `ProxyRoundTrip.KeptCounts` | src/proxy/proxy_conn.c:37-45 | every header passes as often as it came, except those named Host or Connection in any spelling, which never do |
| `ProxyRoundTrip.KeptInOrder` | src/proxy/proxy_conn.c:37-45 | the headers that pass keep their order |
| `ProxyRoundTrip.PrintedReadsBack` | src/proxy/proxy_conn.c:23-58 | whatever was parsed, the forwarded bytes are read as the printed head with everything cut at its NULs; with more than 64 headers it is an error |
| `ProxyRoundTrip.ForwardRoundTrip` | src/proxy/proxy_conn.c:23-58 | for every finished parse whose headers fit the table, parsing the forwarded bytes takes all of them and recovers verb, path, header list, positive length, body and upgrade wish exactly when nothing printed holds a NUL |
| `ProxyRoundTrip.BackendSees` | src/proxy/proxy_conn.c:23-45 | the backend reads the first Host of the client (empty if there was none), its address twice, the connection option and then the kept headers |
| `ProxyRoundTrip.RoundTripExamples` | src/proxy/proxy_conn.c:23-58 | a plain request is recovered, the same with a NUL behind its path is not |
| `ProxyRoundTrip.HeadTooLong` | src/proxy/proxy_conn.c:41-52 | a parsed request of less than 9000 bytes whose head does not fit |
| `Worker.BuildProxyRequest` | src/proxy/proxy_conn.c:49-58 | head and body are queued behind what is there, each as a whole or not at all |
| `Worker.ForwardRequest` | src/proxy/proxy_conn.c:23-58 | from the client's buffer to the backend's queue: the queue gets head and body, each whole or not at all, and if both fit an empty queue the round trip holds of its actual contents |
| `Buffer.Buf.Consume` | src/net/buffer.c:47-53 | the first n bytes leave, the rest stays, and an emptied buffer starts over |
| `Buffer.Buf.Compact` | src/net/buffer.c:59-70 | contents unchanged, all free room behind them |
| `Buffer.Buf.ReadFd` | src/net/buffer.c:72-89 | result, bytes appended and script left are those of one read; no room reads nothing, zero bytes is the end of the stream |
| `Buffer.Buf.WriteFd` | src/net/buffer.c:91-105 | bytes sent plus contents are conserved, and exactly what the descriptor took has left |
| `Buffer.Buf.DrainTo` | src/proc/worker.c:99-101 | the write loop is the write-loop function: bytes leave from the front, none is lost |
| `Buffer.Buf.FillFrom` | src/proc/worker.c:165-167 | the read loop is the read-loop function: bytes are appended until the peer or the room is done |
| `Buffer.WriteLoopEmpties` | src/proc/worker.c:99-101 | a peer that keeps taking gets everything |
| `Buffer.ReadLoopTalking` | src/proc/worker.c:165-167 | a peer that keeps sending is read until it or the room is exhausted |
| `RelayStream.HandledKeeps` | src/proxy/proxy_conn.c:60-156 | every event, whatever the kernel and the allocator do in it, keeps the bytes of both directions conserved and the capture accounted for |
| `RelayStream.RunConserves` | src/proxy/proxy_conn.c:60-156 | over any events and partial I/O: client bytes plus buffer are the backend's bytes, backend bytes plus buffer are request plus client bytes, both prefixes after closing, and without a failed reallocation the capture is the stream if and only if every read found the buffer drained and the connection came with nothing gathered |
| `RelayStream.EventPushes` | src/proxy/proxy_conn.c:63-75 | a write event in which the backend takes n bytes sends it exactly the first n queued bytes; no other event of a connection without a tunnel sends it anything |
| `RelayStream.RunPushes` | src/proxy/proxy_conn.c:60-156 | over any run without a tunnel the backend has the first bytes of the queue, as many as it was ready to take |
| `RelayStream.RequestPushed` | src/proxy/proxy_conn.c:60-156 | the backend gets the whole request if and only if it is ready to take that much before the connection ends |
| `RelayStream.PooledCapture` | src/net/conn.c:40-60 | over any uses of one pooled connection the capture of the last is its stream if and only if each of its reads found the buffer drained and no earlier cached use has read anything since a response last went to the cache |
| `RelayStream.HangUpLeaves` | src/proc/worker.c:239-241 | after "a" and a hang-up the capture "a" stays in the connection |
| `RelayStream.StaleCaptured` | src/proxy/proxy_conn.c:91-136 | the next response "b", read with nothing waiting, is stored as "ab" |
| `RelayStream.SmoothRun` | src/proxy/proxy_conn.c:76-114 | with a client that keeps up, after every event of any run it has exactly what the backend sent, and no byte is gathered twice |
| `RelayStream.UpstreamDelivers` | src/proxy/proxy_conn.c:76-114 | a talking backend is read to the end of what it has and a client that keeps up gets all of it in the same event |
| `RelayStream.EndCloses` | src/proxy/proxy_conn.c:122-154 | the end of the stream closes the connection and hands over the capture, exactly for a cached response that is no tunnel |
| `RelayStream.FailedWriteRefuses` | src/proxy/proxy_conn.c:63-70 | a failed write to the backend closes the connection, and a client that takes n bytes gets the first n of the 502 answer |
| `RelayStream.FailedReadCloses` | src/proxy/proxy_conn.c:122-154 | a failed read from the backend closes the connection and stores nothing |
| `RelayStream.ClientCloses` | src/proc/worker.c:133-163 | a client that hangs up, or ends or breaks its side of a tunnel, closes the connection |
| `RelayStream.ClientTakesAll` | src/proc/worker.c:98-110 | a willing client gets everything that waited for it |
| `RelayStream.TunnelDelivers` | src/proc/worker.c:133-163 | a willing backend then has the request and all a talking client said |
| `RelayStream.GatheredTwice` | src/proxy/proxy_conn.c:91-113 | a blocked client makes the cache get "aab" for the stream "ab" |
| `Relay.Conn.Capture` | src/proxy/proxy_conn.c:91-108 | growth, failed reallocation and append are those of the capture on values |
| `Relay.Conn.Refuse` | src/proxy/proxy_conn.c:64-70 | one write of the 502 answer if it fits, then closed with empty buffers |
| `Relay.Conn.RelayAll` | src/proxy/proxy_conn.c:77-114 | the nested read and write loops are the relay loop on values, including what the kernel has left |
| `Relay.Conn.OnUpstream` | src/proxy/proxy_conn.c:60-156 | the whole new state of the connection is that of the event on values |
| `Relay.Conn.OnClientReadable` | src/proc/worker.c:133-163 | the whole new state is that of the tunnel read on values |
| `Relay.Conn.Handle` | src/proc/worker.c:98-163 | any event on the buffers is that event on values; a closed connection stays as it is |
| `Relay.Conn.Run` | src/proxy/proxy_conn.c:60-156 | any run of events on the buffers is that run on values, state for state |
| `TimingWheel.FiringTick` | src/net/timeout.c:79-104 | over any run of other adds, removes and ticks with any clock, an entry fires at the first tick, not before the hand reaches its bucket, whose time has reached the deadline |
| `TimingWheel.NeverEarlyNeverSkipped` | src/net/timeout.c:85-98 | no entry fires before its deadline, and once visited none is passed over |
| `TimingWheel.RegularTimer` | src/net/timeout.c:44-61 | with ticks one resolution apart a timer of at least one resolution fires on tick ceil((seconds + phase) / resolution), however many turns that takes; a shorter one after a full turn |
| `TimingWheel.FiresOnce` | src/net/timeout.c:79-104 | over a run that leaves an entry alone, the tick it fires at fires it and no other tick does |
| `TimingWheel.TickConserves` | src/net/timeout.c:79-104 | the multiset of linked entries after a tick plus the fired ones is the multiset before |
| `TimerCalls.HandlesKnown` | src/net/timeout.c:44-104 | after any calls on a new wheel a timer is linked, in one bucket, exactly if it has been set, has not fired and is not cancelled |
| `TimerCalls.TimerFires` | src/net/timeout.c:44-104 | whatever else is set, cancelled or fired before and after, a timer nobody cancels on a regularly ticking wheel is fired by the tick it is due at, and by no other |
| `TimerCalls.ShortTimerWaits` | src/net/timeout.c:53 | a timer for no time at all, on two buckets, is fired by the second tick only |
| `TimeoutHeap.Wheel.Add` | src/net/timeout.c:44-61 | the new entry is in front of its bucket, every list stays well linked, nothing changes without memory |
| `TimeoutHeap.Wheel.Remove` | src/net/timeout.c:63-77 | exactly that live entry leaves its list, which stays well linked, and is freed; no entry changes nothing |
| `TimeoutHeap.Wheel.Tick` | src/net/timeout.c:79-104 | due entries are returned in order and freed, the others are linked into the next bucket, every list stays acyclic and consistent both ways, and no freed entry is touched |
| `TimeoutHeap.Drive` | src/net/timeout.c:44-104 | any run of sets, cancels and ticks keeps every list sound and is the run on bucket lists those calls stand for, with the same timers fired tick by tick; a handle is freed exactly if it has fired or been cancelled |
| `TimeoutHeap.DriveTimer` | src/net/timeout.c:44-104 | on the linked wheel, too, a timer in the middle of any calls is fired by the tick it is due at and by no other |
| `TimeoutHeap.CancelledOnce` | src/net/timeout.c:63-77 | after set and cancel the entry is freed |
| `RateLimiter.IpHash` | src/features/rate_limit.c:22-29 | the loop computes the 32-bit FNV-1a hash that picks the slot |
| `RateLimiter.MixTells` | src/features/rate_limit.c:22-29 | a step of the hash loses neither the state nor the octet |
| `RateLimiter.OneOctetTells` | src/features/rate_limit.c:22-29 | addresses that differ in one octet have different 32-bit hashes |
| `RateLimiter.HashOfA` | src/features/rate_limit.c:22-29 | the published FNV-1a value of "a" |
| `RateLimiter.Limiter.Check` | src/features/rate_limit.c:44-66 | decision and new slot, and no other slot changes |
| `RateLimiter.Limiter.Serve` | src/features/rate_limit.c:44-66 | a run of requests on a new limiter goes through the states and decisions of the run functions |
| `RateLimiter.WaitFills` | src/features/rate_limit.c:56-60 | filling every bucket once a second is one capped refill over the elapsed time |
| `RateLimiter.NeverStricter` | src/features/rate_limit.c:44-66 | in every run, whatever collides, a request the ideal limiter admits is admitted |
| `RateLimiter.SameDecisions` | src/features/rate_limit.c:44-66 | for an address alone in its slot the table decides as the ideal limiter does, request by request |
| `RateLimiter.BurstPasses` | src/features/rate_limit.c:44-66 | in every run the first burst requests of an address pass, and within one second, alone in its slot, only these |
| `RateLimiter.RunBounded` | src/features/rate_limit.c:49-65 | in every run the tokens of a used slot stay between 0 and burst |
| `RateLimiter.RateBound` | src/features/rate_limit.c:49-65 | in any window a slot admits at most burst * (1 + takeovers) + rate * seconds requests |
| `Arena.AlignedIff` | src/core/memory.c:30-49 | the alignment is met whatever `malloc` answers if and only if the request fits the current block or the alignment divides 16 |
| `Arena.NewBlockMisaligned` | src/core/memory.c:30-49 | alignment 32 with a new block at 16 gives 16 |
| `Arena.AllocSafe` | src/core/memory.c:30-49 | one allocation keeps all regions inside their blocks, apart and aligned |
| `Arena.AllocationsSafe` | src/core/memory.c:30-49 | after any history all allocations since the reset are inside their blocks, pairwise apart, and aligned for alignments dividing 16 |
| `Arena.AllocRecords` | src/core/memory.c:30-49 | a request that is met adds one region of the size asked for at the pointer returned, a refused one changes nothing |
| `Arena.GrantsSafe` | src/core/memory.c:30-64 | after any history the requests met since the reset, taken from what the calls returned, own the bytes they asked for inside one block, pairwise apart, aligned for alignments that divide 16 |
| `Arena.RefusedIff` | src/core/memory.c:30-49 | a request is refused exactly if the newest block has no room for it and `malloc` fails |
| `Arena.SpaceBound` | src/core/memory.c:30-64 | after any history the capacity held is at most twice the bytes used plus one block size |
| `Arena.ResetRestores` | src/core/memory.c:55-64 | after any history a reset gives exactly the state the arena was created in |
| `ArenaHeap.Pool.AllocAligned` | src/core/memory.c:30-49 | the linked blocks, the pointer returned and the regions are those of the allocation on values |
| `ArenaHeap.Pool.Clear` | src/core/memory.c:55-64 | the loop frees down to the oldest block and empties it |
| `RoundRobin.PickNone` | src/proxy/balancer.c:5-16 | nothing is picked exactly when no backend is healthy |
| `RoundRobin.RoundIsRotation` | src/proxy/balancer.c:5-16 | one round of picks is the list of healthy backends, rotated |
| `RoundRobin.RoundFair` | src/proxy/balancer.c:5-16 | as many picks in a row as there are healthy backends take each of them exactly once |
| `RoundRobin.WindowFair` | src/proxy/balancer.c:5-16 | over any window two healthy backends are picked equally often, give or take one |
| `Upstream.Least` | src/proxy/balancer.c:18-31 | the first of the healthy backends with the fewest connections, none exactly when no healthy one is below INT_MAX |
| `Upstream.RotationFair` | src/proxy/upstream.c:39-51 | in a run of pool operations with an unchanged healthy set, selections are fair to within one, whatever else happens in between |
| `Upstream.LeastConnBalanced` | src/proxy/proxy_conn.c:158-190 | between any requests of a least-connections pool, connection counts of healthy backends differ by at most one |
| `Upstream.CountersCount` | src/proxy/upstream.c:39-70 | over any run the connection count is selections less releases, never below zero at a release, and the total is the successes reported |
| `Upstream.ActiveCountsServed` | src/proxy/proxy_conn.c:158-190 | between requests the connection count is the number of requests the backend ever gave a descriptor to |
| `Upstream.InUseIff` | src/proxy/proxy_conn.c:140-190 | that is the number of its descriptors in use if and only if none has come back |
| `Upstream.ReturnedStillCounted` | src/proxy/proxy_conn.c:140-150 | after one request whose descriptor was put back one connection is still counted |
| `Upstream.FailedConnectUncounted` | src/proxy/proxy_conn.c:172-176 | a failed connect leaves every count at zero |
| `Upstream.HealthIsErrorCount` | src/proxy/upstream.c:53-70 | the error count is the number of errors ever reported, and a backend is healthy exactly when it is at most 5 |
| `Upstream.NoRecovery` | src/proxy/upstream.c:53-70 | after six errors a success does not make a backend healthy again |
| `Upstream.SelectedNeverSick` | src/proxy/upstream.c:39-70 | in no run is a backend selected after its sixth reported error |
| `Upstream.DescriptorsOwned` | src/proxy/upstream.c:72-99 | over any run, with connections closing the descriptors they hold, every open descriptor is checked out or in exactly one idle stack, and no stack exceeds min(keepalive_conns, 64) |
| `Upstream.CloseOwned` | src/net/conn.c:139-143 | closing a checked-out descriptor keeps that so |
| `Upstream.PoolRunOwned` | src/proxy/upstream.c:11-33 | in particular over every run from the creation of the pool |
| `Upstream.LastPutFirstGot` | src/proxy/upstream.c:72-99 | a descriptor that is kept is the next one its backend gives out, and the pool is then as before |
| `Upstream.PutsKept` | src/proxy/upstream.c:87-99 | of descriptors put back for one backend the first are kept, up to keepalive and 64 |
| `Upstream.IdleWerePut` | src/proxy/upstream.c:87-99 | over any run the idle descriptors of a backend were put back for that backend |
| `Upstream.GivenOutFor` | src/proxy/upstream.c:72-85 | after any run a backend gives out one put back for it or what connecting to it gave |
| `UpstreamPool.BackendPool.RotatePick` | src/proxy/balancer.c:5-16 | the modular scan finds the next healthy backend and leaves the index behind it |
| `UpstreamPool.BackendPool.LeastPick` | src/proxy/balancer.c:18-31 | the minimum loop computes the least-loaded choice |
| `UpstreamPool.BackendPool.Select` | src/proxy/upstream.c:39-51 | the choice of the mode in force, one more connection on it, nothing else changed |
| `UpstreamPool.BackendPool.ReleaseConn` | src/proxy/upstream.c:53-70 | the counters and the health of that backend, nothing else |
| `UpstreamPool.BackendPool.GetConnection` | src/proxy/upstream.c:72-85 | the most recent idle descriptor, else what connecting gave |
| `UpstreamPool.BackendPool.PutConnection` | src/proxy/upstream.c:87-99 | the descriptor is kept within the limit and closed otherwise |
| `UpstreamPool.BackendPool.Handle` | src/proxy/proxy_conn.c:158-190 | select, connect, give back with an error when connecting failed |
| `CacheFormat.Fnv1a` | src/cache/cache.c:14-21 | the loop computes the 64-bit FNV-1a hash of the key |
| `CacheFormat.MixTells` | src/cache/cache.c:14-21 | a step of the hash loses neither the state nor the octet |
| `CacheFormat.HashTells` | src/cache/cache.c:14-21 | keys that differ in one octet have different hashes |
| `CacheFormat.HashOfA` | src/cache/cache.c:14-21 | the published FNV-1a values of "a" and of the empty string |
| `CacheFormat.HexInjective` | src/cache/cache.c:23-26 | k hexadecimal digits tell all numbers below 16^k apart |
| `CacheFormat.PathsApart` | src/cache/cache.c:23-26 | different hashes have different files, and no temporary file is a cache file |
| `CacheFormat.HeaderRoundTrip` | src/cache/cache.h:7-12 | the 32 bytes written for an entry header read back as that header |
| `Cache.LookupRefines` | src/cache/cache.c:45-84 | a lookup in the directory, with expiry and its unlink, is a lookup in the map it stands for |
| `Cache.RenameRefines` | src/cache/cache.c:123-128 | renaming a complete temporary file installs its entry and nothing else |
| `Cache.InsertAtomic` | src/cache/cache.c:86-129 | whatever the system calls do, every directory an insert passes through stands for the old map, except the last of a successful insert, which stands for the new one |
| `Cache.ReaderDuringInsert` | src/cache/cache.c:45-129 | a lookup of any key at any moment of an insert finds what the old or the new map holds |
| `Cache.Store.Lookup` | src/cache/cache.c:45-84 | result and new map are those of a map with expiry |
| `Cache.Store.Insert` | src/cache/cache.c:86-129 | the directory after each system call is exactly that of the insert on values; succeeds exactly when every call does, then the map has the new entry, else it is unchanged |
| `Cache.Store.Remove` | src/cache/cache.c:131-137 | the key's hash leaves the map, with success exactly when it was there |
| `CacheReplay.KeyIdentifies` | src/cache/cache.c:139-148 | requests that agree on verb, host and path share a cache key, whatever their queries, and among slash-free hosts and absolute paths only those do |
| `CacheReplay.KeyUniqueIff` | src/cache/cache.c:139-148 | the key of a parsed request stands for one target among all parsed requests if and only if its path has no colon, no colon of its host could end the host, and the key does not fill its buffer |
| `CacheReplay.QueryShared` | src/cache/cache.c:139-148 | two parsed requests that differ in the query share a key |
| `CacheReplay.ColonsCollide` | src/cache/cache.c:139-148 | two parsed requests for different hosts and paths share a key |
| `CacheReplay.KeyWithoutHost` | src/cache/cache.c:139-148 | without a Host header, in any spelling, the key has an underscore in its place |
| `CacheReplay.RunCalls` | src/cache/cache.c:45-137 | any run of lookups, inserts and removes is the same run on the map: every result, every flag and the final map |
| `CacheReplay.InsertAndLookup` | src/cache/cache.c:45-129 | an inserted entry is found after any calls that leave its hash alone if and only if it has no time to live or that is not over yet; otherwise it is a miss and the entry is gone |
| `CacheReplay.ServeHit` | src/http/handler.c:129-139 | a hit is appended to the write buffer as a whole if it fits |
| `CacheReplay.StoreAndReplay` | src/http/handler.c:125-151 | a captured response is stored and replayed byte for byte by an unexpired hit after any calls that leave it alone, and it is the backend's stream if and only if the capture found the buffer drained at each read and started empty |
| `Rewrite.ExpansionExact` | src/http/handler.c:70-88 | at most 1023 characters, and equal to the full substitution exactly when that has at most 1022, or 1023 ending in a literal |
| `Rewrite.GroupExpands` | src/http/handler.c:70-88 | `$n` becomes the n-th group for every digit n, nothing if it is unset |
| `Rewrite.LiteralExpands` | src/http/handler.c:70-88 | any other character becomes itself |
| `Rewrite.GroupLost` | src/http/handler.c:70-88 | a group of 1023 characters put for `$0` is lost |
| `Rewrite.ExpandLoop` | src/http/handler.c:70-88 | the two-pointer loop computes the bounded substitution |
| `Rewrite.ApplyRules` | src/http/handler.c:61-98 | the rule loop computes the rewritten path |
| `Rewrite.FirstMatchDecides` | src/http/handler.c:61-98 | only the first matching rule has a say |
| `WorkerTable.BuriedReplaces` | src/proc/master.c:87-97 | a dead worker is reaped and replaced in its own slot, unless shutting down or the fork fails, and no other slot changes |
| `WorkerTable.WaitedAll` | src/proc/master.c:62-69 | waiting reaps every child, does nothing else, and clears the table |
| `WorkerTable.ReloadReplaces` | src/proc/master.c:99-148 | nothing changes if the configuration does not load; otherwise all old workers are reaped before the first fork, none of them survives, and the table is full if the forks succeed |
| `WorkerTable.ReloadListens` | src/proc/master.c:108-134 | ports left listening are distinct, asked for and bound, and none that could be bound is missing |
| `WorkerTable.RunSound` | src/proc/master.c:71-160 | at every test of the loop condition of any run each child is recorded in exactly one slot below the count, and after the shutdown everything ever forked has been reaped |
| `WorkerTable.StartsWorkers` | src/proc/master.c:75-81 | asked for n workers the master starts n, none for a negative n and 64 for more |
| `WorkerTable.RunStops` | src/proc/master.c:85-148 | the loop runs up to and including the first turn in which it is asked to stop |
| `WorkerTable.RunFull` | src/proc/master.c:71-147 | in a run whose forks succeed every slot has a living worker at every test of the loop condition |
| `WorkerTable.TurnedStale` | src/proc/master.c:85-148 | a turn of the loop leaves no slot naming a dead worker if and only if it reloads, or there was none before and a worker that died in it was replaced |
| `WorkerTable.RunSignals` | src/proc/master.c:55-160 | at every test of the loop condition of any run every child would be signalled, and nobody else if and only if every worker that died since the last successful reload was replaced |
| `WorkerTable.StaleAfterFailedRespawn` | src/proc/master.c:19-31 | after a failed respawn the dead worker is signalled |
| `Supervisor.Master.Spawn` | src/proc/master.c:19-31 | a fork is recorded in its slot, a failed fork changes nothing |
| `Supervisor.Master.SpawnAll` | src/proc/master.c:75-81 | the loop is the start of all workers on the table |
| `Supervisor.Master.KillWorkers` | src/proc/master.c:55-60 | the loop signals the recorded processes below the count, in order |
| `Supervisor.Master.WaitWorkers` | src/proc/master.c:62-69 | the loop is the waiting on the table |
| `Supervisor.Master.Bury` | src/proc/master.c:87-97 | the search loop finds the slot, and the new table is that of the burial |
| `Supervisor.Master.Rebind` | src/proc/master.c:115-134 | the nested loops bind each port once |
| `Supervisor.Master.Reload` | src/proc/master.c:99-148 | the new table is that of the reload, and the old recorded processes were signalled |
| `Supervisor.Master.RunAll` | src/proc/master.c:71-160 | the tables at each test of the loop condition are those of the run on values, all sound; at the end no child is left and everything forked has been reaped |

## Left out

- Sockets, epoll, signals, `sendfile` and the file system themselves: their results are inputs.
- The connection pool and the order of callbacks within one event (src/net/conn.c, src/proc/worker.c outside the relay and the parse step).
- Client reads while a response is being proxied without a tunnel, and a second request dispatched by them on the same connection.
- Static files, MIME types, compression, TLS, modules, access log, metrics, health endpoint, response formatting: formatting, tables and foreign libraries, or easy members.
- Configuration parsing: its limits (16 servers, 64 backends) appear where they are needed.
- The status code sniffed from a response in `proxy_on_upstream_event`: it is only logged.
- Two workers sharing one cache directory: they use the same temporary names, so the cache claims are per worker.
- `max_entries` of the cache store, which the source stores and never uses.
- Virtual host selection and the order of handlers in `handler_dispatch` apart from rewriting and the cache hit.
- `request_populate` fills a freshly zeroed struct once; it is modelled as a value (`ProxyRequest.Populate`), so aliasing of the request's slices with the read buffer is not captured.
- ProxyRequest.AppendKept: takes header lists whose lines fit the buffer, because past its end the C code has no defined result.
- ProxyRequest.BuildHead: takes heads of at most 8192 bytes, for the same reason; `ProxyRequest.StaysInsideIff` says that this is the limit.
- Worker.BuildProxyRequest: takes heads of at most 8192 bytes, for the same reason.
- Worker.ForwardRequest: takes heads of at most 8192 bytes, for the same reason, and says nothing of the round trip at exactly 8192.
- ProxyRoundTrip.ForwardRoundTrip: takes the client address as `inet_ntop` prints it, without white space at its ends, line ends or NULs.
- CacheReplay.StoreAndReplay: takes keys of at most 255 characters, because a longer one is stored under its first 255 and looked up under all of them.
- RateLimiter.SameDecisions: rates, bursts and clock readings are whole numbers, as the configuration and `time` give them; rounding of doubles is not modelled.
- TimeoutHeap.Wheel.Add: takes a wait of at least 0 seconds, because a negative one can index outside the bucket array.
- TimeoutHeap.Wheel.Remove: takes no entry or a live one, because the C code frees an entry when it fires or is removed.
- TimeoutHeap.Wheel.Tick: callbacks are returned as a list and do not re-enter the wheel.
- Supervisor.Master.RunAll: assumes process numbers are never reused and waits are not interrupted.
- Cache.Store.Lookup: a `read` of a regular file returns all bytes there are.

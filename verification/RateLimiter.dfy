/**
 The token-bucket limiter of src/features/rate_limit.c: a lossy table of 4096 slots,
 refilled lazily, against an ideal limiter that keeps one bucket per client and fills
 all of them every second.  Rates, bursts and times are whole numbers.
 */
module RateLimiter {
  import opened StringUtil

  const TABLE_SIZE := 4096
  const IP_MAX := 15

  datatype Slot = Slot(used: bool, ip: string, tokens: int, lastRefill: int)

  datatype Config = Config(rate: nat, burst: nat)

  // ----- hashing -----

  function With(x: bv32, c: bv8): bv32 {
    x ^ (c as bv32)
  }

  function TimesPrime(x: bv32): bv32 {
    x * 16777619
  }

  function Mix(h: bv32, c: char): bv32 {
    TimesPrime(With(h, Octet(c)))
  }

  function HashFrom(h: bv32, ip: string): bv32
    decreases |ip|
  {
    if ip == "" then h else HashFrom(Mix(h, ip[0]), ip[1..])
  }

  /** `ip_hash(ip) % RL_TABLE_SIZE`. */
  function SlotOf(ip: string): (r: nat)
    ensures r < TABLE_SIZE
  {
    HashFrom(2166136261, ip) as int % TABLE_SIZE
  }

  /** `ip_hash`. */
  method IpHash(ip: string) returns (h: bv32)
    ensures h as int % TABLE_SIZE == SlotOf(ip)
  {
    h := 2166136261;
    var i := 0;
    while i < |ip|
      invariant 0 <= i <= |ip|
      invariant HashFrom(2166136261, ip) == HashFrom(h, ip[i..])
    {
      assert ip[i..][1..] == ip[i + 1..];
      h := Mix(h, ip[i]);
      i := i + 1;
    }
  }

  // ----- what the hash tells apart -----

  /** Multiplication by the inverse of the prime. */
  function Back(x: bv32): bv32 {
    x * 899433627
  }

  lemma BackUndoes(x: bv32)
    ensures Back(TimesPrime(x)) == x
  {
    hide Back;
    InverseOfPrime(x);
  }

  lemma InverseOfPrime(x: bv32)
    ensures Back(x * 16777619) == x
  {
  }

  lemma WithTellsState(x: bv32, y: bv32, c: bv8)
    ensures x != y ==> With(x, c) != With(y, c)
  {
  }

  lemma WithTellsOctet(x: bv32, c: bv8, d: bv8)
    ensures c != d ==> With(x, c) != With(x, d)
  {
  }

  /** A step loses neither the state nor the octet. */
  lemma MixTells(h: bv32, g: bv32, c: char, d: char)
    ensures h != g ==> Mix(h, c) != Mix(g, c)
    ensures Octet(c) != Octet(d) ==> Mix(h, c) != Mix(h, d)
  {
    hide Octet, With, TimesPrime, Back;
    WithTellsState(h, g, Octet(c));
    WithTellsOctet(h, Octet(c), Octet(d));
    BackUndoes(With(h, Octet(c)));
    BackUndoes(With(g, Octet(c)));
    BackUndoes(With(h, Octet(d)));
  }

  lemma {:induction false} TailTells(h: bv32, g: bv32, s: string)
    requires h != g
    ensures HashFrom(h, s) != HashFrom(g, s)
    decreases |s|
  {
    hide Mix;
    if s != "" {
      MixTells(h, g, s[0], s[0]);
      TailTells(Mix(h, s[0]), Mix(g, s[0]), s[1..]);
    }
  }

  lemma {:induction false} OneOctetTells(h: bv32, a: string, c: char, d: char, b: string)
    requires c as int % 256 != d as int % 256
    ensures HashFrom(h, a + [c] + b) != HashFrom(h, a + [d] + b)
    decreases |a|
  {
    hide Mix;
    var s, t := a + [c] + b, a + [d] + b;
    if a == "" {
      assert s[0] == c && t[0] == d && s[1..] == b && t[1..] == b;
      OctetTells(c, d);
      MixTells(h, h, c, d);
      TailTells(Mix(h, c), Mix(h, d), b);
    } else {
      assert s[0] == a[0] == t[0] && s[1..] == a[1..] + [c] + b && t[1..] == a[1..] + [d] + b;
      OneOctetTells(Mix(h, a[0]), a[1..], c, d, b);
    }
  }

  /** The published value of 32-bit FNV-1a for "a". */
  lemma HashOfA()
    ensures HashFrom(2166136261, "a") == 0xe40c292c
  {
    assert "a"[1..] == "";
    OctetOfA();
  }

  // ----- one request against one slot -----

  function Min(a: int, b: int): int {
    if a < b then a else b
  }

  /** The tokens that `secs` seconds bring. */
  function Gain(cfg: Config, secs: int): int {
    secs * cfg.rate
  }

  lemma GainAdds(cfg: Config, a: int, b: int)
    ensures Gain(cfg, a + b) == Gain(cfg, a) + Gain(cfg, b) && Gain(cfg, 0) == 0 && Gain(cfg, 1) == cfg.rate
    ensures (a >= 0 ==> Gain(cfg, a) >= 0) && (b >= 0 ==> Gain(cfg, b) >= 0)
  {
  }

  /** What `strncpy` into a 16-byte field keeps of an address. */
  function Stored(ip: string): string {
    if |ip| <= IP_MAX then ip else ip[..IP_MAX]
  }

  /** The slot is about to be taken over by `ip`. */
  predicate Fresh(s: Slot, ip: string) {
    !s.used || s.ip != ip
  }

  function Claimed(cfg: Config, s: Slot, ip: string, now: int): Slot {
    if Fresh(s, ip) then Slot(true, Stored(ip), cfg.burst, now) else s
  }

  function Refilled(cfg: Config, s: Slot, now: int): Slot {
    s.(tokens := Min(cfg.burst, s.tokens + Gain(cfg, now - s.lastRefill)), lastRefill := now)
  }

  /** The state of the slot when the decision is made, the decision, and the state after it. */
  function Ready(cfg: Config, s: Slot, ip: string, now: int): Slot {
    Refilled(cfg, Claimed(cfg, s, ip, now), now)
  }

  predicate Admits(cfg: Config, s: Slot, ip: string, now: int) {
    Ready(cfg, s, ip, now).tokens >= 1
  }

  function Checked(cfg: Config, s: Slot, ip: string, now: int): Slot {
    var r := Ready(cfg, s, ip, now);
    if r.tokens >= 1 then r.(tokens := r.tokens - 1) else r
  }

  class Limiter {
    const cfg: Config
    const table: array<Slot>

    ghost predicate Valid()
    {
      table.Length == TABLE_SIZE
    }

    /** `rate_limiter_create`: `calloc` leaves every slot unused. */
    constructor (cfg: Config)
      ensures Valid() && fresh(table) && this.cfg == cfg
      ensures table[..] == EmptyTable()
    {
      this.cfg := cfg;
      table := new Slot[TABLE_SIZE](_ => Slot(false, "", 0, 0));
    }

    /** `rate_limit_check` for a C string `ip` at time `now`. */
    method Check(ip: string, now: int) returns (ok: bool)
      requires Valid() && NulFree(ip)
      modifies table
      ensures ok == Admits(cfg, old(table[SlotOf(ip)]), ip, now)
      ensures table[..] == old(table[..])[SlotOf(ip) := Checked(cfg, old(table[SlotOf(ip)]), ip, now)]
    {
      var h := IpHash(ip);
      var idx := h as int % TABLE_SIZE;
      if !table[idx].used || table[idx].ip != ip {
        table[idx] := Slot(true, Stored(ip), cfg.burst, now);
      }
      var elapsed := now - table[idx].lastRefill;
      table[idx] := table[idx].(tokens := table[idx].tokens + elapsed * cfg.rate);
      if table[idx].tokens > cfg.burst {
        table[idx] := table[idx].(tokens := cfg.burst);
      }
      table[idx] := table[idx].(lastRefill := now);
      if table[idx].tokens < 1 {
        ok := false;
      } else {
        table[idx] := table[idx].(tokens := table[idx].tokens - 1);
        ok := true;
      }
    }

    /** A run of requests on a fresh limiter goes through the states and decisions of the run functions. */
    method Serve(run: seq<Req>) returns (ok: seq<bool>)
      requires Valid() && table[..] == EmptyTable() && forall k | 0 <= k < |run| :: NulFree(run[k].ip)
      modifies table
      ensures table[..] == After(cfg, run)
      ensures |ok| == |run| && forall k | 0 <= k < |run| :: ok[k] == Passes(cfg, run, k)
    {
      hide SlotOf, Checked, Admits, NulFree;
      ok := [];
      for n := 0 to |run|
        invariant table[..] == After(cfg, run[..n]) && |ok| == n
        invariant forall k | 0 <= k < n :: ok[k] == Passes(cfg, run, k)
      {
        assert run[..n + 1][..n] == run[..n];
        assert table[SlotOf(run[n].ip)] == table[..][SlotOf(run[n].ip)];
        var admitted := Check(run[n].ip, run[n].now);
        ok := ok + [admitted];
      }
      assert run[..|run|] == run;
    }
  }

  // ----- runs -----

  datatype Req = Req(ip: string, now: int)

  function EmptyTable(): seq<Slot> {
    seq(TABLE_SIZE, _ => Slot(false, "", 0, 0))
  }

  /** The table after a run of requests. */
  function After(cfg: Config, run: seq<Req>): (t: seq<Slot>)
    ensures |t| == TABLE_SIZE
  {
    if run == [] then EmptyTable()
    else
      var r, t := run[|run| - 1], After(cfg, run[..|run| - 1]);
      t[SlotOf(r.ip) := Checked(cfg, t[SlotOf(r.ip)], r.ip, r.now)]
  }

  /** Request `k` of a run is let through. */
  predicate Passes(cfg: Config, run: seq<Req>, k: nat)
    requires k < |run|
  {
    Admits(cfg, After(cfg, run[..k])[SlotOf(run[k].ip)], run[k].ip, run[k].now)
  }

  /** A run as the server sees it: addresses that fit the field, and a clock that does not go back. */
  predicate Plausible(start: int, run: seq<Req>) {
    && (forall i | 0 <= i < |run| :: start <= run[i].now && |run[i].ip| <= IP_MAX)
    && (forall i, j | 0 <= i < j < |run| :: run[i].now <= run[j].now)
  }

  function Clock(start: int, run: seq<Req>): int {
    if run == [] then start else run[|run| - 1].now
  }

  // ----- the ideal limiter -----

  /** One bucket per client seen, all on one clock. */
  datatype Ideal = Ideal(now: int, tokens: map<string, int>)

  /** One second passes. */
  function SecondPasses(cfg: Config, m: Ideal): Ideal {
    Ideal(m.now + 1, map ip | ip in m.tokens :: Min(cfg.burst, m.tokens[ip] + cfg.rate))
  }

  function WaitUntil(cfg: Config, m: Ideal, t: int): (r: Ideal)
    decreases t - m.now
  {
    if t <= m.now then m else WaitUntil(cfg, SecondPasses(cfg, m), t)
  }

  /** A client seen for the first time starts with a full bucket. */
  function Balance(cfg: Config, m: Ideal, ip: string): int {
    if ip in m.tokens then m.tokens[ip] else cfg.burst
  }

  predicate IdealAdmits(cfg: Config, m: Ideal, r: Req) {
    Balance(cfg, WaitUntil(cfg, m, r.now), r.ip) >= 1
  }

  function IdealStep(cfg: Config, m: Ideal, r: Req): Ideal {
    var w := WaitUntil(cfg, m, r.now);
    var b := Balance(cfg, w, r.ip);
    w.(tokens := w.tokens[r.ip := if b >= 1 then b - 1 else b])
  }

  /** Waiting fills each bucket by the rate for every second, up to the burst. */
  lemma {:induction false} WaitFills(cfg: Config, m: Ideal, t: int, ip: string)
    requires m.now <= t && (ip in m.tokens ==> m.tokens[ip] <= cfg.burst)
    ensures var w := WaitUntil(cfg, m, t);
            && w.now == t && (ip in w.tokens <==> ip in m.tokens)
            && (ip in m.tokens ==> w.tokens[ip] == Min(cfg.burst, m.tokens[ip] + Gain(cfg, t - m.now)))
    decreases t - m.now
  {
    hide Gain;
    GainAdds(cfg, 1, t - m.now - 1);
    if m.now < t { WaitFills(cfg, SecondPasses(cfg, m), t, ip); }
  }

  // ----- simulation -----

  /** What the slot of `ip` would hold at the ideal clock, if it belongs to `ip`. */
  ghost predicate Covers(cfg: Config, s: Slot, m: Ideal, ip: string) {
    && (ip in m.tokens ==> 0 <= m.tokens[ip] <= cfg.burst)
    && (s.used && s.ip == ip ==>
          && ip in m.tokens && s.lastRefill <= m.now && 0 <= s.tokens <= cfg.burst
          && Min(cfg.burst, s.tokens + Gain(cfg, m.now - s.lastRefill)) >= m.tokens[ip])
  }

  /** The slot belongs to `ip` as soon as `ip` was seen, and holds exactly the ideal balance. */
  ghost predicate Mirrors(cfg: Config, s: Slot, m: Ideal, ip: string) {
    && (ip in m.tokens ==> 0 <= m.tokens[ip] <= cfg.burst)
    && (s.used && s.ip == ip <==> ip in m.tokens)
    && (ip in m.tokens ==>
          && s.lastRefill <= m.now && 0 <= s.tokens <= cfg.burst
          && Min(cfg.burst, s.tokens + Gain(cfg, m.now - s.lastRefill)) == m.tokens[ip])
  }

  /** Refilling twice is refilling once: the lazy table may skip any number of seconds. */
  lemma RefillTwice(cfg: Config, tokens: int, a: int, b: nat)
    ensures Min(cfg.burst, Min(cfg.burst, tokens + Gain(cfg, a)) + Gain(cfg, b))
            == Min(cfg.burst, tokens + Gain(cfg, a + b))
  {
    hide Gain;
    GainAdds(cfg, a, b);
  }

  lemma OwnRequest(cfg: Config, s: Slot, m: Ideal, ip: string, now: int)
    requires m.now <= now && |ip| <= IP_MAX && Covers(cfg, s, m, ip)
    ensures IdealAdmits(cfg, m, Req(ip, now)) ==> Admits(cfg, s, ip, now)
    ensures Covers(cfg, Checked(cfg, s, ip, now), IdealStep(cfg, m, Req(ip, now)), ip)
    ensures Mirrors(cfg, s, m, ip) ==>
              && (IdealAdmits(cfg, m, Req(ip, now)) <==> Admits(cfg, s, ip, now))
              && Mirrors(cfg, Checked(cfg, s, ip, now), IdealStep(cfg, m, Req(ip, now)), ip)
  {
    hide WaitUntil, Gain;
    WaitFills(cfg, m, now, ip);
    GainAdds(cfg, now - m.now, 0);
    if s.used && s.ip == ip {
      RefillTwice(cfg, s.tokens, m.now - s.lastRefill, now - m.now);
      GainAdds(cfg, now - s.lastRefill, 0);
    }
  }

  lemma OtherRequest(cfg: Config, s: Slot, m: Ideal, ip: string, r: Req)
    requires m.now <= r.now && r.ip != ip && |r.ip| <= IP_MAX && Covers(cfg, s, m, ip)
    ensures Covers(cfg, s, IdealStep(cfg, m, r), ip)
    ensures Covers(cfg, Checked(cfg, s, r.ip, r.now), IdealStep(cfg, m, r), ip)
    ensures Mirrors(cfg, s, m, ip) ==> Mirrors(cfg, s, IdealStep(cfg, m, r), ip)
  {
    hide WaitUntil, Gain;
    WaitFills(cfg, m, r.now, ip);
    GainAdds(cfg, r.now - m.now, 0);
    if s.used && s.ip == ip {
      RefillTwice(cfg, s.tokens, m.now - s.lastRefill, r.now - m.now);
    }
  }

  function IdealAfter(cfg: Config, start: int, run: seq<Req>): Ideal {
    if run == [] then Ideal(start, map[])
    else IdealStep(cfg, IdealAfter(cfg, start, run[..|run| - 1]), run[|run| - 1])
  }

  predicate IdealPasses(cfg: Config, start: int, run: seq<Req>, k: nat)
    requires k < |run|
  {
    IdealAdmits(cfg, IdealAfter(cfg, start, run[..k]), run[k])
  }

  /** No other address of the run falls into the slot of `ip`. */
  predicate Alone(run: seq<Req>, ip: string) {
    forall i | 0 <= i < |run| && SlotOf(run[i].ip) == SlotOf(ip) :: run[i].ip == ip
  }

  lemma IdealClock(cfg: Config, m: Ideal, r: Req)
    requires m.now <= r.now
    ensures IdealStep(cfg, m, r).now == r.now
  {
    WaitClock(cfg, m, r.now);
  }

  lemma {:induction false} WaitClock(cfg: Config, m: Ideal, t: int)
    requires m.now <= t
    ensures WaitUntil(cfg, m, t).now == t
    decreases t - m.now
  {
    if m.now < t { WaitClock(cfg, SecondPasses(cfg, m), t); }
  }

  /** The relation between the two limiters, kept by every request of every run. */
  lemma {:induction false} RunCovers(cfg: Config, start: int, run: seq<Req>, ip: string)
    requires Plausible(start, run) && |ip| <= IP_MAX
    ensures IdealAfter(cfg, start, run).now == Clock(start, run)
    ensures Covers(cfg, After(cfg, run)[SlotOf(ip)], IdealAfter(cfg, start, run), ip)
    ensures Alone(run, ip) ==> Mirrors(cfg, After(cfg, run)[SlotOf(ip)], IdealAfter(cfg, start, run), ip)
  {
    hide SlotOf, Covers, Mirrors, IdealStep, Checked;
    if run == [] {
      NothingSeen(cfg, start, ip);
    } else {
      var before, r := run[..|run| - 1], run[|run| - 1];
      RunCovers(cfg, start, before, ip);
      var m, t := IdealAfter(cfg, start, before), After(cfg, before);
      IdealClock(cfg, m, r);
      assert Alone(run, ip) ==> Alone(before, ip);
      if r.ip == ip {
        OwnRequest(cfg, t[SlotOf(ip)], m, ip, r.now);
      } else {
        OtherRequest(cfg, t[SlotOf(ip)], m, ip, r);
      }
    }
  }

  lemma NothingSeen(cfg: Config, start: int, ip: string)
    ensures Mirrors(cfg, EmptyTable()[SlotOf(ip)], Ideal(start, map[]), ip)
    ensures Covers(cfg, EmptyTable()[SlotOf(ip)], Ideal(start, map[]), ip)
  {
  }

  /** The lossy table never refuses what the ideal limiter lets through, whatever collides with what. */
  lemma NeverStricter(cfg: Config, start: int, run: seq<Req>, k: nat)
    requires Plausible(start, run) && k < |run|
    ensures IdealPasses(cfg, start, run, k) ==> Passes(cfg, run, k)
  {
    hide SlotOf, Covers, Mirrors, Admits, IdealAdmits;
    RunCovers(cfg, start, run[..k], run[k].ip);
    OwnRequest(cfg, After(cfg, run[..k])[SlotOf(run[k].ip)], IdealAfter(cfg, start, run[..k]), run[k].ip, run[k].now);
  }

  /** For an address alone in its slot the two limiters decide alike, request by request. */
  lemma SameDecisions(cfg: Config, start: int, run: seq<Req>, k: nat)
    requires Plausible(start, run) && k < |run| && Alone(run[..k], run[k].ip)
    ensures IdealPasses(cfg, start, run, k) <==> Passes(cfg, run, k)
  {
    hide SlotOf, Covers, Mirrors, Admits, IdealAdmits;
    RunCovers(cfg, start, run[..k], run[k].ip);
    OwnRequest(cfg, After(cfg, run[..k])[SlotOf(run[k].ip)], IdealAfter(cfg, start, run[..k]), run[k].ip, run[k].now);
  }

  // ----- how many come through at once -----

  /** Requests an address has made. */
  function Asked(run: seq<Req>, ip: string): nat {
    if run == [] then 0 else Asked(run[..|run| - 1], ip) + if run[|run| - 1].ip == ip then 1 else 0
  }

  /** An ideal bucket lacks no more than was asked of it, and within one second just that. */
  lemma {:induction false} IdealLacks(cfg: Config, start: int, run: seq<Req>, ip: string)
    requires Plausible(start, run)
    ensures var m := IdealAfter(cfg, start, run);
            && m.now == Clock(start, run) && (ip in m.tokens <==> Asked(run, ip) > 0)
            && (ip in m.tokens ==> m.tokens[ip] <= cfg.burst && m.tokens[ip] >= cfg.burst - Asked(run, ip))
            && (ip in m.tokens && Clock(start, run) == start ==>
                  m.tokens[ip] == if Asked(run, ip) <= cfg.burst then cfg.burst - Asked(run, ip) else 0)
  {
    hide WaitUntil, Gain;
    if run != [] {
      var before, r := run[..|run| - 1], run[|run| - 1];
      IdealLacks(cfg, start, before, ip);
      var m := IdealAfter(cfg, start, before);
      WaitFills(cfg, m, r.now, ip);
      GainAdds(cfg, r.now - m.now, 0);
      IdealClock(cfg, m, r);
    }
  }

  /**
   In every run, whatever collides, the first `burst` requests of an address are let through;
   and of those an address alone in its slot makes within one second, only these.
   */
  lemma BurstPasses(cfg: Config, start: int, run: seq<Req>, k: nat)
    requires Plausible(start, run) && k < |run|
    ensures Asked(run[..k], run[k].ip) < cfg.burst ==> Passes(cfg, run, k)
    ensures Alone(run[..k], run[k].ip) && run[k].now == start ==>
              (Passes(cfg, run, k) <==> Asked(run[..k], run[k].ip) < cfg.burst)
  {
    hide SlotOf, Passes, WaitUntil, Gain;
    var m, ip, now := IdealAfter(cfg, start, run[..k]), run[k].ip, run[k].now;
    IdealLacks(cfg, start, run[..k], ip);
    WaitFills(cfg, m, now, ip);
    GainAdds(cfg, now - m.now, 0);
    NeverStricter(cfg, start, run, k);
    if Alone(run[..k], ip) { SameDecisions(cfg, start, run, k); }
  }

  // ----- the rate a slot lets through -----

  /** A slot in use holds between nothing and a full bucket, and was last filled in the past. */
  predicate Bounded(cfg: Config, s: Slot, now: int) {
    s.used ==> 0 <= s.tokens <= cfg.burst && s.lastRefill <= now
  }

  lemma CheckedBounded(cfg: Config, s: Slot, r: Req, t: int)
    requires Bounded(cfg, s, t) && t <= r.now
    ensures Bounded(cfg, Checked(cfg, s, r.ip, r.now), r.now) && Bounded(cfg, s, r.now)
    ensures 0 <= Ready(cfg, s, r.ip, r.now).tokens <= cfg.burst
  {
    hide Gain;
    GainAdds(cfg, r.now - s.lastRefill, 0);
    GainAdds(cfg, 0, 0);
  }

  /** Tokens stay within the bucket over every run. */
  lemma {:induction false} RunBounded(cfg: Config, start: int, run: seq<Req>, i: nat)
    requires Plausible(start, run) && i < TABLE_SIZE
    ensures Bounded(cfg, After(cfg, run)[i], Clock(start, run))
  {
    hide SlotOf, Checked;
    if run != [] {
      var before, r := run[..|run| - 1], run[|run| - 1];
      RunBounded(cfg, start, before, i);
      CheckedBounded(cfg, After(cfg, before)[i], r, Clock(start, before));
    }
  }

  /** Requests a slot lets through, and times it changes hands, in the window `[a, b)` of a run. */
  function Admitted(cfg: Config, run: seq<Req>, i: nat, a: nat, b: nat): nat
    requires a <= b <= |run|
    decreases b
  {
    if a == b then 0
    else Admitted(cfg, run, i, a, b - 1) + if SlotOf(run[b - 1].ip) == i && Passes(cfg, run, b - 1) then 1 else 0
  }

  predicate TakesOver(cfg: Config, run: seq<Req>, k: nat)
    requires k < |run|
  {
    Fresh(After(cfg, run[..k])[SlotOf(run[k].ip)], run[k].ip)
  }

  function Takeovers(cfg: Config, run: seq<Req>, i: nat, a: nat, b: nat): nat
    requires a <= b <= |run|
    decreases b
  {
    if a == b then 0
    else Takeovers(cfg, run, i, a, b - 1) + if SlotOf(run[b - 1].ip) == i && TakesOver(cfg, run, b - 1) then 1 else 0
  }

  function Bursts(cfg: Config, k: nat): nat {
    (1 + k) * cfg.burst
  }

  lemma BurstsGrow(cfg: Config, k: nat)
    ensures Bursts(cfg, k) >= cfg.burst && Bursts(cfg, k + 1) == Bursts(cfg, k) + cfg.burst
  {
  }

  /** What a slot let through since time `t0`, plus what it still holds, is paid for by bursts and the rate. */
  ghost predicate Paid(cfg: Config, s: Slot, t0: int, admitted: nat, takeovers: nat) {
    s.used && t0 <= s.lastRefill && admitted + s.tokens <= Bursts(cfg, takeovers) + Gain(cfg, s.lastRefill - t0)
  }

  lemma CheckPays(cfg: Config, s: Slot, r: Req, t: int, t0: int, admitted: nat, takeovers: nat)
    requires Bounded(cfg, s, t) && t0 <= r.now && t <= r.now
    requires (admitted == 0 && takeovers == 0) || Paid(cfg, s, t0, admitted, takeovers)
    ensures Paid(cfg, Checked(cfg, s, r.ip, r.now), t0,
                 admitted + (if Admits(cfg, s, r.ip, r.now) then 1 else 0),
                 takeovers + (if Fresh(s, r.ip) then 1 else 0))
  {
    hide Gain, Bursts;
    CheckedBounded(cfg, s, r, t);
    BurstsGrow(cfg, takeovers);
    GainAdds(cfg, 0, 0);
    GainAdds(cfg, r.now - t0, 0);
    GainAdds(cfg, s.lastRefill - t0, r.now - s.lastRefill);
  }

  lemma AfterStep(cfg: Config, run: seq<Req>, b: nat, i: nat)
    requires 0 < b <= |run| && i < TABLE_SIZE
    ensures var r, s := run[b - 1], After(cfg, run[..b - 1])[i];
            After(cfg, run[..b])[i] == if SlotOf(r.ip) == i then Checked(cfg, s, r.ip, r.now) else s
  {
    hide SlotOf, Checked;
    assert run[..b][..b - 1] == run[..b - 1];
  }

  lemma {:induction false} WindowPaid(cfg: Config, start: int, run: seq<Req>, i: nat, a: nat, b: nat)
    requires Plausible(start, run) && i < TABLE_SIZE && a < b <= |run|
    ensures var n, k := Admitted(cfg, run, i, a, b), Takeovers(cfg, run, i, a, b);
            (n == 0 && k == 0) || Paid(cfg, After(cfg, run[..b])[i], run[a].now, n, k)
    decreases b
  {
    hide SlotOf, Checked, Paid, Fresh, Admits, After;
    var before, r := run[..b - 1], run[b - 1];
    AfterStep(cfg, run, b, i);
    if a < b - 1 { WindowPaid(cfg, start, run, i, a, b - 1); }
    RunBounded(cfg, start, before, i);
    var n, k := Admitted(cfg, run, i, a, b - 1), Takeovers(cfg, run, i, a, b - 1);
    if SlotOf(r.ip) == i {
      CheckPays(cfg, After(cfg, before)[i], r, Clock(start, before), run[a].now, n, k);
    }
  }

  /**
   Over any window of any run, what one slot lets through is at most a burst, one more
   burst for every change of hands, and the rate times the seconds the window spans.
   */
  lemma RateBound(cfg: Config, start: int, run: seq<Req>, i: nat, a: nat, b: nat)
    requires Plausible(start, run) && i < TABLE_SIZE && a < b <= |run|
    ensures Admitted(cfg, run, i, a, b)
            <= cfg.burst * (1 + Takeovers(cfg, run, i, a, b)) + cfg.rate * (run[b - 1].now - run[a].now)
  {
    hide Admitted, Takeovers, After, Paid, Bounded, Plausible;
    var n, k := Admitted(cfg, run, i, a, b), Takeovers(cfg, run, i, a, b);
    WindowPaid(cfg, start, run, i, a, b);
    PlausiblePrefix(start, run, a, b);
    RunBounded(cfg, start, run[..b], i);
    Spend(cfg, After(cfg, run[..b])[i], run[a].now, run[b - 1].now, n, k);
  }

  lemma PlausiblePrefix(start: int, run: seq<Req>, a: nat, b: nat)
    requires Plausible(start, run) && a < b <= |run|
    ensures Plausible(start, run[..b]) && run[a].now <= run[b - 1].now == Clock(start, run[..b])
  {
  }

  lemma Spend(cfg: Config, s: Slot, t0: int, t: int, n: nat, k: nat)
    requires Bounded(cfg, s, t) && t0 <= t
    requires (n == 0 && k == 0) || Paid(cfg, s, t0, n, k)
    ensures n <= cfg.burst * (1 + k) + cfg.rate * (t - t0)
  {
    assert cfg.rate * (t - t0) == Gain(cfg, t - t0) && cfg.burst * (1 + k) == Bursts(cfg, k);
    hide Gain, Bursts;
    BurstsGrow(cfg, k);
    GainAdds(cfg, t - t0, 0);
    GainAdds(cfg, s.lastRefill - t0, t - s.lastRefill);
  }
}

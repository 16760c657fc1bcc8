/**
 The bump allocator of src/core/memory.c.  Addresses are numbers; `malloc` hands out
 blocks that start at a multiple of 16 and do not overlap a live block.
 */
module Arena {
  import opened Arithmetic
  import opened StringUtil

  const MALLOC_ALIGN := 16

  /** A block, by its address range and how much of it is used. */
  datatype Span = Span(start: nat, cap: nat, used: nat)

  /** An allocation: where it is, and which block, counted from the oldest, it came from. */
  datatype Region = Region(addr: nat, size: nat, align: nat, block: nat)

  /** Blocks from the oldest to the newest, and the allocations since the last reset. */
  datatype State = State(blockSize: nat, spans: seq<Span>, regions: seq<Region>)

  // ----- allocation -----

  function Pad(addr: nat, align: nat): (r: nat)
    requires align > 0
    ensures r < align
  {
    (align - addr % align) % align
  }

  function Head(s: State): Span
    requires s.spans != []
  {
    s.spans[|s.spans| - 1]
  }

  function Need(s: State, size: nat, align: nat): nat
    requires s.spans != [] && align > 0
  {
    size + Pad(Head(s).start + Head(s).used, align)
  }

  predicate Fits(s: State, size: nat, align: nat)
    requires s.spans != [] && align > 0
  {
    Head(s).used + Need(s, size, align) <= Head(s).cap
  }

  /** The capacity of the block opened when the newest one is too full. */
  function NewCap(s: State, size: nat, align: nat): nat
    requires s.spans != [] && align > 0
  {
    if Need(s, size, align) > s.blockSize then Need(s, size, align) else s.blockSize
  }

  /** The state after taking `need` more bytes of the newest block for a region at `addr`. */
  function Take(s: State, need: nat, r: Region): State
    requires s.spans != []
  {
    var h := Head(s);
    s.(spans := s.spans[|s.spans| - 1 := h.(used := h.used + need)], regions := s.regions + [r])
  }

  /** `arena_alloc_aligned`; `block` is what `malloc` answers if it is asked. */
  function Alloc(s: State, size: nat, align: nat, block: Option<nat>): (r: (Option<nat>, State))
    requires s.spans != [] && align > 0
    ensures r.1.spans != [] && r.1.blockSize == s.blockSize
  {
    var need, n := Need(s, size, align), |s.spans|;
    if Fits(s, size, align) then
      var addr := Head(s).start + Head(s).used + (need - size);
      (Some(addr), Take(s, need, Region(addr, size, align, n - 1)))
    else if block.None? then (None, s)
    else
      var grown := s.(spans := s.spans + [Span(block.value, NewCap(s, size, align), 0)]);
      (Some(block.value), Take(grown, need, Region(block.value, size, align, n)))
  }

  /** `arena_reset`: back to the oldest block, empty. */
  function Reset(s: State): (r: State)
    requires s.spans != []
    ensures r.spans != [] && r.blockSize == s.blockSize
  {
    State(s.blockSize, [s.spans[0].(used := 0)], [])
  }

  // ----- the invariant -----

  predicate Apart(a: nat, aSize: nat, b: nat, bSize: nat) {
    a + aSize <= b || b + bSize <= a
  }

  predicate SpanOk(p: Span) {
    p.used <= p.cap && p.start % MALLOC_ALIGN == 0
  }

  predicate Inside(r: Region, p: Span) {
    p.start <= r.addr && r.addr + r.size <= p.start + p.used
  }

  /** An alignment every block start has. */
  predicate Natural(align: nat) {
    align == 1 || align == 2 || align == 4 || align == 8 || align == 16
  }

  predicate RegionOk(s: State, r: Region) {
    && r.block < |s.spans| && Inside(r, s.spans[r.block])
    && (Natural(r.align) ==> r.addr % r.align == 0)
  }

  /** Blocks are sound and apart; allocations lie in the used part of their block and are apart. */
  predicate Safe(s: State) {
    && (forall i | 0 <= i < |s.spans| :: SpanOk(s.spans[i]))
    && (forall i, j | 0 <= i < j < |s.spans| ::
          Apart(s.spans[i].start, s.spans[i].cap, s.spans[j].start, s.spans[j].cap))
    && (forall i | 0 <= i < |s.regions| :: RegionOk(s, s.regions[i]))
    && (forall i, j | 0 <= i < j < |s.regions| ::
          Apart(s.regions[i].addr, s.regions[i].size, s.regions[j].addr, s.regions[j].size))
  }

  /** A block is left behind only when its rest is smaller than what the next block starts with. */
  predicate Backed(s: State, i: nat)
    requires i < |s.spans|
  {
    if i + 1 < |s.spans| then s.spans[i].cap <= s.spans[i].used + s.spans[i + 1].used
    else s.spans[i].cap <= s.blockSize || s.spans[i].cap <= s.spans[i].used
  }

  predicate Thrifty(s: State) {
    && s.spans != [] && s.spans[0].cap == s.blockSize
    && forall i | 0 <= i < |s.spans| :: Backed(s, i)
  }

  predicate Invariant(s: State) {
    Thrifty(s) && Safe(s)
  }

  /** What `malloc` promises about a block of `cap` bytes. */
  predicate MallocOk(s: State, start: nat, cap: nat) {
    && start % MALLOC_ALIGN == 0
    && forall i | 0 <= i < |s.spans| :: Apart(s.spans[i].start, s.spans[i].cap, start, cap)
  }

  // ----- alignment -----

  lemma PadAligns(addr: nat, align: nat)
    requires align > 0
    ensures (addr + Pad(addr, align)) % align == 0
  {
    var q, m := addr / align, addr % align;
    assert addr == q * align + m;
    if m == 0 {
      ModUnique(align, align, 1, 0);
    } else {
      ModUnique(align - m, align, 0, align - m);
      assert addr + Pad(addr, align) == (q + 1) * align;
      ModUnique(addr + Pad(addr, align), align, q + 1, 0);
    }
  }

  /** A result out of the current block is aligned; one out of a new block is where the new block starts. */
  lemma AllocAddress(s: State, size: nat, align: nat, block: nat)
    requires s.spans != [] && align > 0
    ensures var addr := Alloc(s, size, align, Some(block)).0;
            addr.Some? && if Fits(s, size, align) then addr.value % align == 0 else addr.value == block
  {
    hide Pad;
    PadAligns(Head(s).start + Head(s).used, align);
  }

  /** An alignment of 32 on a full arena whose new block starts at 16: the result is not aligned. */
  lemma NewBlockMisaligned()
    ensures var s := State(8, [Span(64, 8, 8)], []);
            Alloc(s, 1, 32, Some(16)).0 == Some(16) && 16 % 32 != 0 && MallocOk(s, 16, NewCap(s, 1, 32))
  {
    var s := State(8, [Span(64, 8, 8)], []);
    ModUnique(72, 32, 2, 8);
    ModUnique(24, 32, 0, 24);
    assert Pad(72, 32) == 24;
  }

  lemma NaturalStart(start: nat, align: nat)
    requires start % MALLOC_ALIGN == 0 && Natural(align)
    ensures start % align == 0
  {
    var q, k := start / MALLOC_ALIGN, MALLOC_ALIGN / align;
    assert start == (q * k) * align;
    ModUnique(start, align, q * k, 0);
  }

  /** An address above all blocks, and a multiple of what `malloc` aligns to. */
  function Above(p: seq<Span>): (r: nat)
    ensures r % MALLOC_ALIGN == 0 && forall i | 0 <= i < |p| :: p[i].start + p[i].cap <= r
  {
    if p == [] then 0
    else
      var n := |p| - 1;
      var a, b := Above(p[..n]), p[n].start + p[n].cap;
      var r := if a >= b then a else b + Pad(b, MALLOC_ALIGN);
      PadAligns(b, MALLOC_ALIGN);
      assert forall i | 0 <= i < n :: p[i] == p[..n][i];
      r
  }

  /** Only the alignments every block start has divide 16. */
  lemma DividesSixteen(a: nat, align: nat)
    requires align > 0 && a % align == 0 && (a + 16) % align == 0
    ensures Natural(align)
  {
    var p, q := a / align, (a + 16) / align;
    assert 16 == (q - p) * align;
    ModUnique(16, align, q - p, 0);
    if align > 16 {
      ModUnique(16, align, 0, 16);
      assert false;
    }
    assert 16 % 3 == 1 && 16 % 5 == 1 && 16 % 6 == 4 && 16 % 7 == 2 && 16 % 9 == 7 && 16 % 10 == 6;
    assert 16 % 11 == 5 && 16 % 12 == 4 && 16 % 13 == 3 && 16 % 14 == 2 && 16 % 15 == 1;
  }

  predicate Aligned(addr: Option<nat>, align: nat)
    requires align > 0
  {
    addr.Some? && addr.value % align == 0
  }

  /** Whatever block `malloc` answers with, the result has the alignment. */
  ghost predicate AlwaysAligned(s: State, size: nat, align: nat)
    requires s.spans != [] && align > 0
  {
    forall b: nat | MallocOk(s, b, NewCap(s, size, align)) :: Aligned(Alloc(s, size, align, Some(b)).0, align)
  }

  /**
   What a caller can count on: the alignment is met whatever `malloc` answers exactly when
   the request fits the current block or asks for an alignment that divides 16.
   */
  lemma AlignedIff(s: State, size: nat, align: nat)
    requires s.spans != [] && align > 0
    ensures AlwaysAligned(s, size, align) <==> Fits(s, size, align) || Natural(align)
  {
    hide Alloc, Fits, Natural, Above;
    var cap := NewCap(s, size, align);
    if Fits(s, size, align) || Natural(align) {
      forall b: nat | MallocOk(s, b, cap) ensures Aligned(Alloc(s, size, align, Some(b)).0, align) {
        AllocAddress(s, size, align, b);
        if Natural(align) { NaturalStart(b, align); }
      }
    } else {
      var a := Above(s.spans);
      NextStart(a);
      AllocAddress(s, size, align, a);
      AllocAddress(s, size, align, a + 16);
      assert MallocOk(s, a, cap) && MallocOk(s, a + 16, cap);
      if a % align == 0 && (a + 16) % align == 0 { DividesSixteen(a, align); }
    }
  }

  lemma NextStart(a: nat)
    requires a % MALLOC_ALIGN == 0
    ensures (a + 16) % MALLOC_ALIGN == 0
  {
  }

  // ----- allocations stay apart -----

  lemma TakeSafe(s: State, need: nat, r: Region)
    requires s.spans != [] && Safe(s)
    requires Head(s).used + need <= Head(s).cap && r.block == |s.spans| - 1
    requires Head(s).start + Head(s).used <= r.addr && r.addr + r.size <= Head(s).start + Head(s).used + need
    requires Natural(r.align) ==> r.addr % r.align == 0
    ensures Safe(Take(s, need, r))
  {
    var t, n := Take(s, need, r), |s.spans|;
    forall i | 0 <= i < |t.regions| ensures RegionOk(t, t.regions[i]) {
      if i < |s.regions| { assert RegionOk(s, s.regions[i]); }
    }
    forall i | 0 <= i < |s.regions|
      ensures Apart(s.regions[i].addr, s.regions[i].size, r.addr, r.size)
    {
      var q := s.regions[i];
      assert RegionOk(s, q) && SpanOk(s.spans[q.block]);
    }
  }

  lemma OpenSafe(s: State, start: nat, cap: nat)
    requires Safe(s) && MallocOk(s, start, cap)
    ensures Safe(s.(spans := s.spans + [Span(start, cap, 0)]))
  {
    var t := s.(spans := s.spans + [Span(start, cap, 0)]);
    forall i | 0 <= i < |t.regions| ensures RegionOk(t, t.regions[i]) { assert RegionOk(s, s.regions[i]); }
  }

  lemma AllocSafe(s: State, size: nat, align: nat, block: Option<nat>)
    requires s.spans != [] && align > 0 && Safe(s)
    requires !Fits(s, size, align) && block.Some? ==> MallocOk(s, block.value, NewCap(s, size, align))
    ensures Safe(Alloc(s, size, align, block).1)
  {
    hide Safe;
    var need, n := Need(s, size, align), |s.spans|;
    if Fits(s, size, align) {
      var addr := Head(s).start + Head(s).used + (need - size);
      PadAligns(Head(s).start + Head(s).used, align);
      TakeSafe(s, need, Region(addr, size, align, n - 1));
    } else if block.Some? {
      var grown := s.(spans := s.spans + [Span(block.value, NewCap(s, size, align), 0)]);
      OpenSafe(s, block.value, NewCap(s, size, align));
      if Natural(align) { NaturalStart(block.value, align); }
      TakeSafe(grown, need, Region(block.value, size, align, n));
    }
  }

  lemma AllocThrifty(s: State, size: nat, align: nat, block: Option<nat>)
    requires align > 0 && Thrifty(s)
    ensures Thrifty(Alloc(s, size, align, block).1)
  {
    hide Pad;
    var t := Alloc(s, size, align, block).1;
    forall i | 0 <= i < |t.spans| ensures Backed(t, i) {
      if i < |s.spans| { assert Backed(s, i); }
    }
  }

  // ----- histories -----

  datatype Op = Allocate(size: nat, align: nat, block: Option<nat>) | Clear

  predicate OpOk(s: State, op: Op)
    requires s.spans != []
  {
    op.Allocate? ==>
      && op.align > 0
      && (!Fits(s, op.size, op.align) && op.block.Some? ==> MallocOk(s, op.block.value, NewCap(s, op.size, op.align)))
  }

  function Apply(s: State, op: Op): (r: State)
    requires s.spans != [] && OpOk(s, op)
    ensures r.spans != [] && r.blockSize == s.blockSize
  {
    match op
    case Allocate(size, align, block) => Alloc(s, size, align, block).1
    case Clear => Reset(s)
  }

  /** Every `malloc` along a history keeps its promise. */
  predicate HistoryOk(s: State, ops: seq<Op>)
    requires s.spans != []
    decreases |ops|
  {
    ops == [] || (OpOk(s, ops[0]) && HistoryOk(Apply(s, ops[0]), ops[1..]))
  }

  function After(s: State, ops: seq<Op>): (r: State)
    requires s.spans != [] && HistoryOk(s, ops)
    ensures r.spans != [] && r.blockSize == s.blockSize
    decreases |ops|
  {
    if ops == [] then s else After(Apply(s, ops[0]), ops[1..])
  }

  function Created(blockSize: nat, start: nat): State {
    State(blockSize, [Span(start, blockSize, 0)], [])
  }

  lemma ResetKeeps(s: State)
    requires Invariant(s)
    ensures Invariant(Reset(s))
  {
    assert SpanOk(s.spans[0]);
  }

  lemma {:induction false} HistoryKeeps(s: State, ops: seq<Op>)
    requires s.spans != [] && HistoryOk(s, ops) && Invariant(s)
    ensures Invariant(After(s, ops))
    decreases |ops|
  {
    hide Safe, Thrifty, Alloc, Reset;
    if ops != [] {
      match ops[0] {
        case Allocate(size, align, block) =>
          AllocSafe(s, size, align, block);
          AllocThrifty(s, size, align, block);
        case Clear =>
          ResetKeeps(s);
      }
      HistoryKeeps(Apply(s, ops[0]), ops[1..]);
    }
  }

  /**
   After any history on a new arena: every allocation since the last reset lies inside
   the used part of its block, any two are apart, and each has the alignment it asked
   for if that is one `malloc` guarantees.
   */
  lemma AllocationsSafe(blockSize: nat, start: nat, ops: seq<Op>)
    requires start % MALLOC_ALIGN == 0 && HistoryOk(Created(blockSize, start), ops)
    ensures var s := After(Created(blockSize, start), ops);
            && (forall i | 0 <= i < |s.regions| :: RegionOk(s, s.regions[i]))
            && (forall i, j | 0 <= i < j < |s.regions| ::
                  Apart(s.regions[i].addr, s.regions[i].size, s.regions[j].addr, s.regions[j].size))
            && (forall i | 0 <= i < |s.spans| :: s.spans[i].used <= s.spans[i].cap)
  {
    hide After, HistoryOk, RegionOk, Apart;
    var s := After(Created(blockSize, start), ops);
    HistoryKeeps(Created(blockSize, start), ops);
    assert forall i | 0 <= i < |s.spans| :: SpanOk(s.spans[i]);
  }

  // ----- what callers were given -----

  /** A request that was met: how much was asked for, how aligned, and the pointer returned. */
  datatype Grant = Grant(size: nat, align: nat, addr: nat)

  /** The requests met since the last reset, from what the calls of a history returned. */
  function Granted(s: State, ops: seq<Op>, so: seq<Grant>): seq<Grant>
    requires s.spans != [] && HistoryOk(s, ops)
    decreases |ops|
  {
    if ops == [] then so
    else
      var more :=
        match ops[0]
        case Allocate(size, align, block) =>
          var addr := Alloc(s, size, align, block).0;
          if addr.Some? then so + [Grant(size, align, addr.value)] else so
        case Clear => [];
      Granted(Apply(s, ops[0]), ops[1..], more)
  }

  predicate Matches(r: Region, g: Grant) {
    r.addr == g.addr && r.size == g.size && r.align == g.align
  }

  /** The regions of a state are the requests that were met. */
  predicate Records(s: State, gs: seq<Grant>) {
    |s.regions| == |gs| && forall i | 0 <= i < |gs| :: Matches(s.regions[i], gs[i])
  }

  /** A request that is met adds a region of the size asked for at the pointer returned; any other changes nothing. */
  lemma AllocRecords(s: State, size: nat, align: nat, block: Option<nat>)
    requires s.spans != [] && align > 0
    ensures var (addr, t) := Alloc(s, size, align, block);
            if addr.None? then t == s
            else
              && |t.regions| == |s.regions| + 1 && t.regions[..|s.regions|] == s.regions
              && Matches(t.regions[|s.regions|], Grant(size, align, addr.value))
  {
    hide Pad;
  }

  lemma {:induction false} GrantsRecorded(s: State, ops: seq<Op>, so: seq<Grant>)
    requires s.spans != [] && HistoryOk(s, ops) && Records(s, so)
    ensures Records(After(s, ops), Granted(s, ops, so))
    decreases |ops|
  {
    hide Alloc, Matches;
    if ops != [] {
      match ops[0]
      case Allocate(size, align, block) =>
        var (addr, t) := Alloc(s, size, align, block);
        AllocRecords(s, size, align, block);
        var more := if addr.Some? then so + [Grant(size, align, addr.value)] else so;
        if addr.Some? {
          forall i | 0 <= i < |more| ensures Matches(t.regions[i], more[i]) {
            if i < |so| { assert t.regions[i] == t.regions[..|s.regions|][i]; }
          }
        }
        GrantsRecorded(t, ops[1..], more);
      case Clear =>
        GrantsRecorded(Reset(s), ops[1..], []);
    }
  }

  /** The bytes given out lie inside one of the blocks. */
  predicate InsideABlock(s: State, g: Grant) {
    exists k | 0 <= k < |s.spans| :: s.spans[k].start <= g.addr && g.addr + g.size <= s.spans[k].start + s.spans[k].cap
  }

  /**
   After any history on a new arena: every request met since the last reset owns as many
   bytes as it asked for from the pointer it got, inside one block, no two of them share a
   byte, and each has the alignment it asked for if that is one `malloc` guarantees.
   */
  lemma GrantsSafe(blockSize: nat, start: nat, ops: seq<Op>)
    requires start % MALLOC_ALIGN == 0 && HistoryOk(Created(blockSize, start), ops)
    ensures var s, gs := After(Created(blockSize, start), ops), Granted(Created(blockSize, start), ops, []);
            && (forall i | 0 <= i < |gs| :: InsideABlock(s, gs[i]))
            && (forall i, j | 0 <= i < j < |gs| :: Apart(gs[i].addr, gs[i].size, gs[j].addr, gs[j].size))
            && (forall i | 0 <= i < |gs| && Natural(gs[i].align) :: gs[i].addr % gs[i].align == 0)
  {
    hide After, HistoryOk, Granted;
    var s, gs := After(Created(blockSize, start), ops), Granted(Created(blockSize, start), ops, []);
    HistoryKeeps(Created(blockSize, start), ops);
    GrantsRecorded(Created(blockSize, start), ops, []);
    forall i | 0 <= i < |gs|
      ensures InsideABlock(s, gs[i]) && (Natural(gs[i].align) ==> gs[i].addr % gs[i].align == 0)
    {
      var r := s.regions[i];
      assert RegionOk(s, r) && Matches(r, gs[i]) && SpanOk(s.spans[r.block]);
    }
    forall i, j | 0 <= i < j < |gs| ensures Apart(gs[i].addr, gs[i].size, gs[j].addr, gs[j].size) {
      assert Matches(s.regions[i], gs[i]) && Matches(s.regions[j], gs[j]);
    }
  }

  /** No multiple of the alignment from the cursor on leaves room for `size` bytes in the newest block. */
  ghost predicate NoRoom(s: State, size: nat, align: nat)
    requires s.spans != [] && align > 0
  {
    forall a: nat | Head(s).start + Head(s).used <= a && a % align == 0 :: a + size > Head(s).start + Head(s).cap
  }

  lemma MulOrder(a: nat, b: nat, n: nat)
    requires a <= b
    ensures a * n <= b * n
  {
  }

  lemma MultiplesApart(a: nat, b: nat, align: nat)
    requires align > 0 && a % align == 0 && b % align == 0 && a < b
    ensures a + align <= b
  {
    var p, q := a / align, b / align;
    assert a == p * align && b == q * align;
    if q <= p {
      MulOrder(q, p, align);
      assert false;
    }
    MulAtLeast(q - p, align);
    assert (q - p) * align == b - a;
  }

  lemma PadLeast(addr: nat, align: nat, a: nat)
    requires align > 0 && addr <= a && a % align == 0
    ensures addr + Pad(addr, align) <= a
  {
    hide Pad;
    PadAligns(addr, align);
    if a < addr + Pad(addr, align) {
      MultiplesApart(a, addr + Pad(addr, align), align);
      assert false;
    }
  }

  /** A request is refused exactly if the newest block has no room for it and `malloc` fails. */
  lemma RefusedIff(s: State, size: nat, align: nat, block: Option<nat>)
    requires s.spans != [] && align > 0
    ensures Alloc(s, size, align, block).0.None? <==> NoRoom(s, size, align) && block.None?
  {
    hide Pad;
    var c := Head(s).start + Head(s).used;
    PadAligns(c, align);
    forall a: nat | c <= a && a % align == 0 ensures c + Pad(c, align) <= a { PadLeast(c, align, a); }
  }

  // ----- space -----

  function Capacity(p: seq<Span>): nat {
    if p == [] then 0 else p[0].cap + Capacity(p[1..])
  }

  function Used(p: seq<Span>): nat {
    if p == [] then 0 else p[0].used + Used(p[1..])
  }

  /** From block `i` on, capacity is at most twice the use less the first block's share, plus one block size. */
  lemma {:induction false} TailBound(s: State, i: nat)
    requires Thrifty(s) && i < |s.spans|
    ensures Capacity(s.spans[i..]) + s.spans[i].used <= 2 * Used(s.spans[i..]) + s.blockSize
    decreases |s.spans| - i
  {
    assert Backed(s, i);
    assert s.spans[i..][1..] == s.spans[i + 1..];
    if i + 1 < |s.spans| {
      TailBound(s, i + 1);
    } else {
      assert s.spans[i + 1..] == [];
    }
  }

  /** However a history goes, the blocks held are at most twice the bytes taken plus one block. */
  lemma SpaceBound(blockSize: nat, start: nat, ops: seq<Op>)
    requires start % MALLOC_ALIGN == 0 && HistoryOk(Created(blockSize, start), ops)
    ensures var s := After(Created(blockSize, start), ops);
            Capacity(s.spans) <= 2 * Used(s.spans) + blockSize
  {
    hide After, HistoryOk;
    var s := After(Created(blockSize, start), ops);
    HistoryKeeps(Created(blockSize, start), ops);
    TailBound(s, 0);
    assert s.spans[0..] == s.spans;
  }

  /** Whatever happened before, a reset leaves exactly the block the arena was created with, empty. */
  lemma ResetRestores(blockSize: nat, start: nat, ops: seq<Op>)
    requires start % MALLOC_ALIGN == 0 && HistoryOk(Created(blockSize, start), ops)
    ensures Reset(After(Created(blockSize, start), ops)) == Created(blockSize, start)
  {
    FirstBlockStays(Created(blockSize, start), ops);
  }

  lemma {:induction false} FirstBlockStays(s: State, ops: seq<Op>)
    requires s.spans != [] && HistoryOk(s, ops)
    ensures var t := After(s, ops); t.spans[0].start == s.spans[0].start && t.spans[0].cap == s.spans[0].cap
    decreases |ops|
  {
    hide Pad;
    if ops != [] { FirstBlockStays(Apply(s, ops[0]), ops[1..]); }
  }
}

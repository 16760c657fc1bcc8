/**
 The arena of src/core/memory.c as it is linked: each block points to the one opened
 before it, and the arena to the newest.
 */
module ArenaHeap {
  import opened StringUtil
  import opened Arena

  class Block {
    const start: nat
    const cap: nat
    var used: nat
    var next: Block?

    /** `block_create`, with the address `malloc` gave. */
    constructor (start: nat, size: nat)
      ensures this.start == start && cap == size && used == 0 && next == null
    {
      this.start, cap, used, next := start, size, 0, null;
    }
  }

  /** The blocks, oldest first, each pointing to the one opened before it. */
  ghost predicate Stacked(bs: seq<Block>)
    reads set b | b in bs
  {
    bs == [] ||
    var n := |bs| - 1;
    bs[n].next == (if n > 0 then bs[n - 1] else null) && bs[n] !in bs[..n] && Stacked(bs[..n])
  }

  ghost function Spans(bs: seq<Block>): (r: seq<Span>)
    reads set b | b in bs
    ensures |r| == |bs|
  {
    if bs == [] then []
    else
      var b := bs[|bs| - 1];
      Spans(bs[..|bs| - 1]) + [Span(b.start, b.cap, b.used)]
  }

  lemma {:induction false} FirstSpan(bs: seq<Block>)
    requires bs != []
    ensures Spans(bs)[0] == Span(bs[0].start, bs[0].cap, bs[0].used)
  {
    if |bs| > 1 {
      FirstSpan(bs[..|bs| - 1]);
    } else {
      assert bs[..0] == [];
    }
  }

  class Pool {
    const blockSize: nat
    var head: Block
    ghost var blocks: seq<Block>      // oldest first
    ghost var regions: seq<Region>

    ghost predicate Valid()
      reads this, set b | b in blocks
    {
      blocks != [] && head == blocks[|blocks| - 1] && Stacked(blocks)
    }

    ghost function View(): State
      reads this, set b | b in blocks
    {
      State(blockSize, Spans(blocks), regions)
    }

    /** `arena_create`. */
    constructor (blockSize: nat, start: nat)
      ensures Valid() && View() == Created(blockSize, start) && fresh(head) && blocks == [head]
    {
      this.blockSize := blockSize;
      var b := new Block(start, blockSize);
      head := b;
      blocks, regions := [b], [];
      new;
      assert [b][..0] == [];
      assert Spans([b]) == [Span(start, blockSize, 0)];
    }

    /** Open a block on top of the current one. */
    method Open(start: nat, size: nat)
      requires Valid()
      modifies this
      ensures Valid() && fresh(head) && blocks == old(blocks) + [head]
      ensures View() == old(View()).(spans := old(View()).spans + [Span(start, size, 0)])
    {
      var nb := new Block(start, size);
      nb.next := head;
      assert (blocks + [nb])[..|blocks|] == blocks;
      head := nb;
      blocks := blocks + [nb];
    }

    /** Take bytes of the current block. */
    method Bump(need: nat, ghost r: Region)
      requires Valid()
      modifies this`regions, head`used
      ensures Valid() && View() == Take(old(View()), need, r)
    {
      ghost var n := |blocks| - 1;
      assert head !in blocks[..n];
      head.used := head.used + need;
      regions := regions + [r];
    }

    /** `arena_alloc_aligned`; `block` is what `malloc` answers if it is asked. */
    method AllocAligned(size: nat, align: nat, block: Option<nat>) returns (ptr: Option<nat>)
      requires Valid() && align > 0
      modifies this, head`used
      ensures Valid() && (ptr, View()) == Alloc(old(View()), size, align, block)
      ensures old(blocks) <= blocks && forall b | b in blocks :: b in old(blocks) || fresh(b)
    {
      hide Pad, Take;
      var pad := Pad(head.start + head.used, align);
      var need := size + pad;
      ghost var s := View();
      assert Arena.Head(s) == Span(head.start, head.cap, head.used) && need == Need(s, size, align);
      if head.used + need > head.cap {
        var bsize := if need > blockSize then need else blockSize;
        if block.None? { return None; }
        Open(block.value, bsize);
        pad := 0;
      }
      ptr := Some(head.start + head.used + pad);
      assert Arena.Head(View()) == Span(head.start, head.cap, head.used);
      assert Fits(s, size, align) ==> ptr.value == Arena.Head(s).start + Arena.Head(s).used + (need - size);
      Bump(need, Region(ptr.value, size, align, |blocks| - 1));
    }

    /** `arena_reset`: free everything above the oldest block. */
    method Clear()
      requires Valid()
      modifies this, set b | b in blocks
      ensures Valid() && View() == Reset(old(View())) && blocks == [old(blocks)[0]]
    {
      FirstSpan(blocks);
      var b := head;
      ghost var rest := blocks;
      while b.next != null
        invariant rest != [] && Stacked(rest) && rest[0] == blocks[0] && b == rest[|rest| - 1]
        decreases |rest|
      {
        b := b.next;
        rest := rest[..|rest| - 1];
      }
      head := b;
      blocks := [b];
      regions := [];
      head.used := 0;
      assert [b][..0] == [];
      assert Spans([b]) == [Span(b.start, b.cap, 0)];
    }
  }
}

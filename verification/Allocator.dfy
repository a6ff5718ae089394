/**
 * The guest memory allocator (src/loader/managers.rs:6-72): first fit, splitting, and
 * reclaiming free blocks at the top.  Its blocks tile the used range at all times.
 */
module Allocator {
  import opened Bytes
  import opened Wrappers

  const PAGE := 4096

  datatype Block = Block(addr: nat, size: nat) {
    function End(): nat { addr + size }

    /** A positive number of whole pages. */
    predicate Whole() { size > 0 && size % PAGE == 0 && addr % PAGE == 0 }

    predicate Contains(x: int) { addr <= x < addr + size }
  }

  /** The mutable part of a `MemoryManager`. */
  datatype Heap = Heap(live: seq<Block>, free: seq<Block>, next: nat) {
    /** All blocks, live and free. */
    ghost function Blocks(): multiset<Block> {
      multiset(live) + multiset(free)
    }
  }

  function EmptyHeap(base: nat): Heap {
    Heap([], [], base)
  }

  // ----- the operations -----

  /** Size in whole pages, unless adding 4095 overflows 32 bits. */
  function RoundUp(size: u32): Option<nat> {
    if size + (PAGE - 1) >= TWO32 then None else Some((size + (PAGE - 1)) / PAGE * PAGE)
  }

  /** Index of the first block of at least `size` bytes, or the length. */
  function FirstFit(free: seq<Block>, size: nat): (i: nat)
    ensures i <= |free|
    ensures forall k :: 0 <= k < i ==> free[k].size < size
    ensures i < |free| ==> free[i].size >= size
  {
    if free == [] then 0
    else
      var i := FirstFit(free[..|free| - 1], size);
      if i < |free| - 1 || free[|free| - 1].size >= size then i else |free|
  }

  /** Index of the first block at `addr`, or the length. */
  function IndexAt(blocks: seq<Block>, addr: nat): (i: nat)
    ensures i <= |blocks|
    ensures forall k :: 0 <= k < i ==> blocks[k].addr != addr
    ensures i < |blocks| ==> blocks[i].addr == addr
  {
    if blocks == [] then 0
    else
      var i := IndexAt(blocks[..|blocks| - 1], addr);
      if i < |blocks| - 1 || blocks[|blocks| - 1].addr == addr then i else |blocks|
  }

  function Without<T>(s: seq<T>, i: nat): seq<T>
    requires i < |s|
  {
    s[..i] + s[i + 1..]
  }

  /** What is left of a block after `size` bytes are taken from its start. */
  function Remainder(b: Block, size: nat): seq<Block>
    requires size <= b.size
  {
    if b.size > size then [Block(b.addr + size, b.size - size)] else []
  }

  function Allocated(h: Heap, limit: nat, request: u32): (Heap, Option<nat>) {
    match RoundUp(request)
    case None => (h, None)
    case Some(size) =>
      var i := FirstFit(h.free, size);
      if i < |h.free| then
        var block := h.free[i];
        (Heap(h.live + [Block(block.addr, size)], Without(h.free, i) + Remainder(block, size), h.next), Some(block.addr))
      else if h.next + size >= TWO32 || h.next + size > limit then (h, None)
      else (Heap(h.live + [Block(h.next, size)], h.free, h.next + size), Some(h.next))
  }

  /** Insertion into a list sorted by address, behind equal addresses. */
  function Inserted(s: seq<Block>, b: Block): seq<Block> {
    if s == [] || s[|s| - 1].addr <= b.addr then s + [b] else Inserted(s[..|s| - 1], b) + [s[|s| - 1]]
  }

  /** The list stably sorted by address. */
  function Sorted(s: seq<Block>): seq<Block> {
    if s == [] then [] else Inserted(Sorted(s[..|s| - 1]), s[|s| - 1])
  }

  /** Drop blocks from the end of a sorted list while the last one ends at `next`. */
  function Coalesced(free: seq<Block>, next: nat): (seq<Block>, nat)
    decreases |free|
  {
    if free != [] && free[|free| - 1].End() == next
    then Coalesced(free[..|free| - 1], free[|free| - 1].addr)
    else (free, next)
  }

  function Freed(h: Heap, addr: nat): (Heap, bool) {
    var i := IndexAt(h.live, addr);
    if i < |h.live| then
      var (free, next) := Coalesced(Sorted(h.free + [h.live[i]]), h.next);
      (Heap(Without(h.live, i), free, next), true)
    else (h, false)
  }

  class MemoryManager {
    var live: seq<Block>
    var freeList: seq<Block>
    var nextFree: nat
    const limit: nat

    constructor (base: nat, limit: nat)
      ensures State() == EmptyHeap(base) && this.limit == limit
    {
      live, freeList, nextFree := [], [], base;
      this.limit := limit;
    }

    function State(): Heap
      reads this
    {
      Heap(live, freeList, nextFree)
    }

    method Alloc(request: u32) returns (r: Option<nat>)
      modifies this
      ensures (State(), r) == Allocated(old(State()), limit, request)
    {
      if request + (PAGE - 1) >= TWO32 {
        return None;
      }
      var size := (request + (PAGE - 1)) / PAGE * PAGE;
      var i := 0;
      while i < |freeList| && freeList[i].size < size
        invariant i <= |freeList| && forall k :: 0 <= k < i ==> freeList[k].size < size
      {
        i := i + 1;
      }
      FirstFitUnique(freeList, size, i);
      hide FirstFit;
      if i < |freeList| {
        var block := freeList[i];
        freeList := Without(freeList, i);
        if block.size > size {
          freeList := freeList + [Block(block.addr + size, block.size - size)];
        } else {
          assert freeList + [] == freeList;
        }
        live := live + [Block(block.addr, size)];
        return Some(block.addr);
      }
      var end := nextFree + size;
      if end >= TWO32 || end > limit {
        return None;
      }
      var addr := nextFree;
      live := live + [Block(addr, size)];
      nextFree := end;
      return Some(addr);
    }

    method Free(addr: nat) returns (found: bool)
      modifies this
      ensures (State(), found) == Freed(old(State()), addr)
    {
      var i := 0;
      while i < |live| && live[i].addr != addr
        invariant i <= |live| && forall k :: 0 <= k < i ==> live[k].addr != addr
      {
        i := i + 1;
      }
      IndexAtUnique(live, addr, i);
      if i == |live| {
        return false;
      }
      var block := live[i];
      live := Without(live, i);
      freeList := Sorted(freeList + [block]);
      ghost var done := Coalesced(freeList, nextFree);
      while freeList != [] && freeList[|freeList| - 1].End() == nextFree
        invariant Coalesced(freeList, nextFree) == done
        invariant live == Without(old(live), i)
        decreases |freeList|
      {
        nextFree := freeList[|freeList| - 1].addr;
        freeList := freeList[..|freeList| - 1];
      }
      return true;
    }
  }

  lemma FirstFitUnique(free: seq<Block>, size: nat, i: nat)
    requires i <= |free| && (forall k :: 0 <= k < i ==> free[k].size < size) && (i < |free| ==> free[i].size >= size)
    ensures FirstFit(free, size) == i
  {
  }

  lemma IndexAtUnique(blocks: seq<Block>, addr: nat, i: nat)
    requires i <= |blocks| && (forall k :: 0 <= k < i ==> blocks[k].addr != addr) && (i < |blocks| ==> blocks[i].addr == addr)
    ensures IndexAt(blocks, addr) == i
  {
  }

  // ----- tiling -----

  predicate Disjoint(b: Block, c: Block) {
    b.End() <= c.addr || c.End() <= b.addr
  }

  ghost predicate SomeContains(blocks: multiset<Block>, x: int) {
    exists b :: b in blocks && b.Contains(x)
  }

  /** The blocks are disjoint whole pages that exactly tile [base, next). */
  ghost predicate Tiles(blocks: multiset<Block>, base: nat, next: nat) {
    && base <= next
    && (forall b :: b in blocks ==> blocks[b] == 1 && b.Whole() && base <= b.addr && b.End() <= next)
    && (forall b, c :: b in blocks && c in blocks && b != c ==> Disjoint(b, c))
    && (forall x :: base <= x < next ==> SomeContains(blocks, x))
  }

  predicate NoneEndsAt(free: seq<Block>, next: nat) {
    forall i :: 0 <= i < |free| ==> free[i].End() != next
  }

  ghost predicate Valid(h: Heap, base: nat, limit: nat) {
    && base % PAGE == 0 && h.next <= limit < TWO32
    && Tiles(h.Blocks(), base, h.next)
    && NoneEndsAt(h.free, h.next)
  }

  lemma TilesSplit(blocks: multiset<Block>, base: nat, next: nat, b: Block, size: nat)
    requires Tiles(blocks, base, next) && b in blocks && 0 < size < b.size && size % PAGE == 0
    ensures Tiles(blocks - multiset{b} + multiset{Block(b.addr, size), Block(b.addr + size, b.size - size)}, base, next)
  {
    var low, high := Block(b.addr, size), Block(b.addr + size, b.size - size);
    var after := blocks - multiset{b} + multiset{low, high};
    forall c | c in blocks && c != b
      ensures Disjoint(c, low) && Disjoint(c, high) && c != low && c != high
    {
      assert Disjoint(b, c);
    }
    forall c
      ensures after[c] == if c == low || c == high then 1 else if c == b then 0 else blocks[c]
    {
    }
    forall x | base <= x < next
      ensures SomeContains(after, x)
    {
      SplitContains(blocks, b, size, x);
    }
    PiecesTile(blocks, after, base, next, b, size);
  }

  lemma PiecesWhole(b: Block, size: nat)
    requires b.Whole() && 0 < size < b.size && size % PAGE == 0
    ensures Block(b.addr, size).Whole() && Block(b.addr + size, b.size - size).Whole()
  {
  }

  lemma PiecesTile(blocks: multiset<Block>, after: multiset<Block>, base: nat, next: nat, b: Block, size: nat)
    requires Tiles(blocks, base, next) && b in blocks && 0 < size < b.size && size % PAGE == 0
    requires forall c :: after[c] == if c == Block(b.addr, size) || c == Block(b.addr + size, b.size - size) then 1
                                     else if c == b then 0 else blocks[c]
    requires forall x :: base <= x < next ==> SomeContains(after, x)
    ensures Tiles(after, base, next)
  {
    hide Block.Whole;
    var low, high := Block(b.addr, size), Block(b.addr + size, b.size - size);
    PiecesWhole(b, size);
    forall c, d | c in after && d in after && c != d
      ensures Disjoint(c, d)
    {
      assert c in blocks && c != low && c != high ==> c != b && Disjoint(b, c);
      assert d in blocks && d != low && d != high ==> d != b && Disjoint(b, d);
    }
  }

  /** Splitting a block leaves every address covered. */
  lemma SplitContains(blocks: multiset<Block>, b: Block, size: nat, x: int)
    requires SomeContains(blocks, x) && b in blocks && blocks[b] == 1 && 0 < size < b.size
    ensures SomeContains(blocks - multiset{b} + multiset{Block(b.addr, size), Block(b.addr + size, b.size - size)}, x)
  {
    var low, high := Block(b.addr, size), Block(b.addr + size, b.size - size);
    var after := blocks - multiset{b} + multiset{low, high};
    var c :| c in blocks && c.Contains(x);
    if c == b {
      assert low.Contains(x) || high.Contains(x);
      assert low in after && high in after;
    } else {
      assert c in after;
    }
  }

  lemma TilesGrow(blocks: multiset<Block>, base: nat, next: nat, size: nat)
    requires Tiles(blocks, base, next) && base % PAGE == 0 && next % PAGE == 0 && size > 0 && size % PAGE == 0
    ensures Tiles(blocks + multiset{Block(next, size)}, base, next + size)
  {
    var top := Block(next, size);
    var after := blocks + multiset{top};
    assert top !in blocks;
    forall x | base <= x < next + size
      ensures SomeContains(after, x)
    {
      if x < next {
        assert SomeContains(blocks, x);
        var c :| c in blocks && c.Contains(x);
        assert c in after;
      } else {
        assert top in after && top.Contains(x);
      }
    }
  }

  lemma TilesPop(blocks: multiset<Block>, base: nat, next: nat, b: Block)
    requires Tiles(blocks, base, next) && b in blocks && b.End() == next
    ensures Tiles(blocks - multiset{b}, base, b.addr)
  {
    var after := blocks - multiset{b};
    assert b !in after;
    forall c | c in after
      ensures c.End() <= b.addr
    {
      assert Disjoint(b, c);
    }
    forall x | base <= x < b.addr
      ensures SomeContains(after, x)
    {
      assert SomeContains(blocks, x);
      var c :| c in blocks && c.Contains(x);
      assert c in after;
    }
  }

  /** The top of a tiled range is page-aligned: it is the base or the end of a block. */
  lemma TopAligned(blocks: multiset<Block>, base: nat, next: nat)
    requires Tiles(blocks, base, next) && base % PAGE == 0
    ensures next % PAGE == 0
  {
    if base < next {
      assert SomeContains(blocks, next - 1);
      var b :| b in blocks && b.Contains(next - 1);
      assert b.Whole() && b.End() <= next;
      hide Tiles, SomeContains;
      TopOfBlock(b, next);
    }
  }

  lemma TopOfBlock(b: Block, next: nat)
    requires b.Whole() && b.End() <= next && b.Contains(next - 1)
    ensures next % PAGE == 0
  {
    assert b.End() == next;
  }

  lemma WithoutCount<T>(s: seq<T>, i: nat)
    requires i < |s|
    ensures multiset(Without(s, i)) == multiset(s) - multiset{s[i]}
  {
    assert s == s[..i] + [s[i]] + s[i + 1..];
  }

  lemma SplitCount(h: Heap, i: nat, size: nat)
    requires i < |h.free| && size <= h.free[i].size
    ensures var b := h.free[i];
            var after := Heap(h.live + [Block(b.addr, size)], Without(h.free, i) + Remainder(b, size), h.next);
            after.Blocks() == h.Blocks() - multiset{b} + multiset{Block(b.addr, size)} + multiset(Remainder(b, size))
  {
    WithoutCount(h.free, i);
  }

  lemma SplitFree(h: Heap, base: nat, limit: nat, i: nat, size: nat)
    requires Valid(h, base, limit) && i < |h.free| && 0 < size <= h.free[i].size && size % PAGE == 0
    ensures var b := h.free[i];
            Valid(Heap(h.live + [Block(b.addr, size)], Without(h.free, i) + Remainder(b, size), h.next), base, limit)
  {
    hide Tiles;
    var b := h.free[i];
    var rest := Remainder(b, size);
    var after := Heap(h.live + [Block(b.addr, size)], Without(h.free, i) + rest, h.next);
    SplitCount(h, i, size);
    assert b in h.Blocks();
    if b.size > size {
      TilesSplit(h.Blocks(), base, h.next, b, size);
      assert multiset{Block(b.addr, size)} + multiset(rest) == multiset{Block(b.addr, size), Block(b.addr + size, b.size - size)};
      assert after.Blocks() == h.Blocks() - multiset{b} + multiset{Block(b.addr, size), Block(b.addr + size, b.size - size)};
    } else {
      assert Block(b.addr, size) == b;
      assert after.Blocks() == h.Blocks();
    }
    NoneEndsStays(h.free, i, rest, h.next);
  }

  lemma NoneEndsStays(free: seq<Block>, i: nat, rest: seq<Block>, next: nat)
    requires i < |free| && NoneEndsAt(free, next) && forall k :: 0 <= k < |rest| ==> rest[k].End() == free[i].End()
    ensures NoneEndsAt(Without(free, i) + rest, next)
  {
    var after := Without(free, i) + rest;
    forall k | 0 <= k < |after|
      ensures after[k].End() != next
    {
      if k < |free| - 1 {
        assert after[k] == free[if k < i then k else k + 1];
      } else {
        assert after[k] == rest[k - (|free| - 1)];
      }
    }
  }

  lemma GrowTop(h: Heap, base: nat, limit: nat, size: nat)
    requires Valid(h, base, limit) && size > 0 && size % PAGE == 0 && h.next + size <= limit
    ensures Valid(Heap(h.live + [Block(h.next, size)], h.free, h.next + size), base, limit)
  {
    var after := Heap(h.live + [Block(h.next, size)], h.free, h.next + size);
    TopAligned(h.Blocks(), base, h.next);
    TilesGrow(h.Blocks(), base, h.next, size);
    assert after.Blocks() == h.Blocks() + multiset{Block(h.next, size)};
    forall k | 0 <= k < |h.free|
      ensures h.free[k].End() != after.next
    {
      assert h.free[k] in h.Blocks();
    }
  }

  /** An allocation of at least one byte keeps the tiling. */
  lemma AllocKeepsValid(h: Heap, base: nat, limit: nat, request: u32)
    requires Valid(h, base, limit) && request >= 1
    ensures Valid(Allocated(h, limit, request).0, base, limit)
  {
    hide Valid;
    if RoundUp(request).Some? {
      var size := RoundUp(request).value;
      var i := FirstFit(h.free, size);
      if i < |h.free| {
        SplitFree(h, base, limit, i, size);
      } else if h.next + size < TWO32 && h.next + size <= limit {
        GrowTop(h, base, limit, size);
      }
    }
  }

  // ----- freeing -----

  predicate Ascending(s: seq<Block>) {
    forall i, j :: 0 <= i < j < |s| ==> s[i].addr <= s[j].addr
  }

  lemma {:induction false} InsertedCount(s: seq<Block>, b: Block)
    ensures multiset(Inserted(s, b)) == multiset(s) + multiset{b}
  {
    if s != [] && s[|s| - 1].addr > b.addr {
      InsertedCount(s[..|s| - 1], b);
      assert s == s[..|s| - 1] + [s[|s| - 1]];
    }
  }

  lemma {:induction false} InsertedAscends(s: seq<Block>, b: Block)
    requires Ascending(s)
    ensures Ascending(Inserted(s, b))
  {
    if s != [] && s[|s| - 1].addr > b.addr {
      var init, last := s[..|s| - 1], s[|s| - 1];
      InsertedAscends(init, b);
      InsertedCount(init, b);
      var r := Inserted(init, b);
      forall i | 0 <= i < |r|
        ensures r[i].addr <= last.addr
      {
        assert r[i] in multiset(r);
        assert r[i] in init || r[i] == b;
      }
    }
  }

  lemma {:induction false} SortedIs(s: seq<Block>)
    ensures Ascending(Sorted(s)) && multiset(Sorted(s)) == multiset(s)
  {
    hide Inserted;
    if s != [] {
      SortedIs(s[..|s| - 1]);
      InsertedAscends(Sorted(s[..|s| - 1]), s[|s| - 1]);
      InsertedCount(Sorted(s[..|s| - 1]), s[|s| - 1]);
      assert s == s[..|s| - 1] + [s[|s| - 1]];
    }
  }

  lemma {:induction false} CoalesceKeepsTiles(live: multiset<Block>, free: seq<Block>, base: nat, next: nat)
    requires Tiles(live + multiset(free), base, next) && Ascending(free)
    ensures var (free', next') := Coalesced(free, next);
            Tiles(live + multiset(free'), base, next') && NoneEndsAt(free', next') && next' <= next
    decreases |free|
  {
    hide Tiles;
    if free != [] {
      var init, last := free[..|free| - 1], free[|free| - 1];
      assert free == init + [last];
      if last.End() == next {
        TilesPop(live + multiset(free), base, next, last);
        assert live + multiset(free) - multiset{last} == live + multiset(init);
        CoalesceKeepsTiles(live, init, base, last.addr);
      } else {
        NoneEndsAtTop(live + multiset(free), free, base, next);
      }
    }
  }

  /** Unless the last block of a sorted list ends at the top, none does. */
  lemma NoneEndsAtTop(blocks: multiset<Block>, free: seq<Block>, base: nat, next: nat)
    requires Tiles(blocks, base, next) && Ascending(free) && (forall b :: b in free ==> b in blocks)
    requires free != [] && free[|free| - 1].End() != next
    ensures NoneEndsAt(free, next)
  {
    var last := free[|free| - 1];
    forall i | 0 <= i < |free|
      ensures free[i].End() != next
    {
      assert free[i] in free && last in free;
      assert free[i] != last ==> Disjoint(free[i], last);
    }
  }

  /** Freeing keeps the tiling, and leaves no free block at the top. */
  lemma FreeKeepsValid(h: Heap, base: nat, limit: nat, addr: nat)
    requires Valid(h, base, limit)
    ensures Valid(Freed(h, addr).0, base, limit)
  {
    hide Tiles, Sorted, Coalesced;
    var i := IndexAt(h.live, addr);
    if i < |h.live| {
      var block := h.live[i];
      var rest := multiset(Without(h.live, i));
      WithoutCount(h.live, i);
      SortedIs(h.free + [block]);
      assert rest + multiset(Sorted(h.free + [block])) == h.Blocks();
      CoalesceKeepsTiles(rest, Sorted(h.free + [block]), base, h.next);
    }
  }

  // ----- whole runs -----

  datatype Op = Alloc(request: u32) | Free(addr: nat)

  function Do(h: Heap, limit: nat, op: Op): Heap {
    match op
    case Alloc(request) => Allocated(h, limit, request).0
    case Free(addr) => Freed(h, addr).0
  }

  function Run(base: nat, limit: nat, ops: seq<Op>): Heap {
    if ops == [] then EmptyHeap(base) else Do(Run(base, limit, ops[..|ops| - 1]), limit, ops[|ops| - 1])
  }

  predicate NoZeroSizes(ops: seq<Op>) {
    forall i :: 0 <= i < |ops| && ops[i].Alloc? ==> ops[i].request >= 1
  }

  /** Over any run, the blocks tile [base, next) and no free block is left at the top. */
  lemma {:induction false} RunKeepsValid(base: nat, limit: nat, ops: seq<Op>)
    requires base % PAGE == 0 && base <= limit < TWO32 && NoZeroSizes(ops)
    ensures Valid(Run(base, limit, ops), base, limit)
  {
    if ops != [] {
      RunKeepsValid(base, limit, ops[..|ops| - 1]);
      var h := Run(base, limit, ops[..|ops| - 1]);
      match ops[|ops| - 1] {
        case Alloc(request) => AllocKeepsValid(h, base, limit, request);
        case Free(addr) => FreeKeepsValid(h, base, limit, addr);
      }
    }
  }

  /** When nothing is live, the allocator is back in its initial state. */
  lemma NothingLiveIsInitial(base: nat, limit: nat, ops: seq<Op>)
    requires base % PAGE == 0 && base <= limit < TWO32 && NoZeroSizes(ops)
    ensures Run(base, limit, ops).live == [] ==> Run(base, limit, ops) == EmptyHeap(base)
  {
    RunKeepsValid(base, limit, ops);
    NothingLive(Run(base, limit, ops), base, limit);
  }

  lemma NothingLive(h: Heap, base: nat, limit: nat)
    requires Valid(h, base, limit)
    ensures h.live == [] ==> h == EmptyHeap(base)
  {
    TopBlock(h.Blocks(), base, h.next);
    assert h.live == [] ==> h.Blocks() == multiset(h.free);
    assert forall k :: 0 <= k < |h.free| ==> h.free[k] in h.Blocks();
  }

  /** A non-empty tiled range has a block at its top. */
  lemma TopBlock(blocks: multiset<Block>, base: nat, next: nat)
    requires Tiles(blocks, base, next)
    ensures base < next ==> exists b :: b in blocks && b.End() == next
  {
    if base < next {
      assert SomeContains(blocks, next - 1);
    }
  }

  /** No two live blocks of a run overlap, and each lies inside the managed range. */
  lemma LiveBlocksAreDisjoint(base: nat, limit: nat, ops: seq<Op>, i: nat, j: nat)
    requires base % PAGE == 0 && base <= limit < TWO32 && NoZeroSizes(ops)
    requires i < j < |Run(base, limit, ops).live|
    ensures var live := Run(base, limit, ops).live;
            Disjoint(live[i], live[j]) && live[i].addr != live[j].addr && base <= live[i].addr && live[i].End() <= limit
  {
    RunKeepsValid(base, limit, ops);
    var h := Run(base, limit, ops);
    var b, c := h.live[i], h.live[j];
    assert b in h.Blocks() && c in h.Blocks();
    LiveTwice(h.live, i, j);
  }

  lemma LiveTwice(s: seq<Block>, i: nat, j: nat)
    requires i < j < |s|
    ensures s[i] == s[j] ==> multiset(s)[s[i]] >= 2
  {
    assert s == s[..j] + s[j..];
    assert s[..j][i] == s[i] && s[j..][0] == s[j];
    assert s[i] in s[..j] && s[j] in s[j..];
    assert multiset(s[..j])[s[i]] >= 1 && multiset(s[j..])[s[j]] >= 1;
  }

  // ----- the one request the tiling does not survive -----

  /** From a valid state, an allocation keeps the tiling exactly when it fails or asks for at least one byte. */
  lemma ValidAfterAllocIff(h: Heap, base: nat, limit: nat, request: u32)
    requires Valid(h, base, limit)
    ensures Valid(Allocated(h, limit, request).0, base, limit) <==> request >= 1 || Allocated(h, limit, request).1 == None
  {
    hide Valid;
    var (after, r) := Allocated(h, limit, request);
    if request >= 1 {
      AllocKeepsValid(h, base, limit, request);
    } else if r.Some? {
      EmptyBlockIsInvalid(after, base, limit, |after.live| - 1);
    }
  }

  lemma EmptyBlockIsInvalid(h: Heap, base: nat, limit: nat, i: nat)
    requires i < |h.live| && h.live[i].size == 0
    ensures !Valid(h, base, limit)
  {
    assert h.live[i] in h.Blocks() && !h.live[i].Whole();
  }

  /** A zero-byte allocation gets an address that the next allocation gets again. */
  lemma ZeroSizeAliases(base: nat, limit: nat)
    requires base % PAGE == 0 && base + PAGE <= limit < TWO32
    ensures var (h1, first) := Allocated(EmptyHeap(base), limit, 0);
            var (h2, second) := Allocated(h1, limit, 1);
            first == second == Some(base)
  {
  }

  // ----- where an allocation is placed -----

  /** The smallest number of whole pages for a request. */
  predicate IsRounded(request: u32, size: nat) {
    size % PAGE == 0 && request <= size && (request == 0 || size < request + PAGE) && (request == 0 ==> size == 0)
  }

  /** The first block that is large enough, or the end of the list. */
  predicate FirstThatFits(free: seq<Block>, size: nat, i: nat) {
    i <= |free| && (forall k :: 0 <= k < i ==> free[k].size < size) && (i < |free| ==> free[i].size >= size)
  }

  /** What is given back of the block at `i`. */
  function Rest(free: seq<Block>, size: nat, i: nat): multiset<Block>
    requires i < |free| && size <= free[i].size
  {
    if free[i].size > size then multiset{Block(free[i].addr + size, free[i].size - size)} else multiset{}
  }

  /**
   * An allocation takes the first free block that is large enough, from its start, and gives
   * the rest of it back; only if there is none does the heap grow, and only if it may not
   * grow so far does the allocation fail, changing nothing.
   */
  lemma AllocationIsFirstFit(h: Heap, limit: nat, request: u32, size: nat, i: nat)
    requires IsRounded(request, size) && limit < TWO32 && FirstThatFits(h.free, size, i)
    ensures var (after, r) := Allocated(h, limit, request);
            if request + (PAGE - 1) >= TWO32 then r == None && after == h
            else if i < |h.free| then
              && r == Some(h.free[i].addr) && after.next == h.next
              && after.live == h.live + [Block(h.free[i].addr, size)]
              && multiset(after.free) == multiset(h.free) - multiset{h.free[i]} + Rest(h.free, size, i)
            else if h.next + size <= limit then
              r == Some(h.next) && after == Heap(h.live + [Block(h.next, size)], h.free, h.next + size)
            else r == None && after == h
  {
    if request + (PAGE - 1) < TWO32 {
      RoundingIs(request, size);
      FirstFitUnique(h.free, size, i);
      hide FirstFit, RoundUp;
      if i < |h.free| {
        TakenFrom(h.free, size, i);
      }
    }
  }

  lemma TakenFrom(free: seq<Block>, size: nat, i: nat)
    requires i < |free| && size <= free[i].size
    ensures multiset(Without(free, i) + Remainder(free[i], size)) == multiset(free) - multiset{free[i]} + Rest(free, size, i)
  {
    WithoutCount(free, i);
  }

  lemma RoundingIs(request: u32, size: nat)
    requires IsRounded(request, size) && request + (PAGE - 1) < TWO32
    ensures RoundUp(request) == Some(size)
  {
    assert size == size / PAGE * PAGE;
  }

  /** A free gives the block back whole; what stays free is in the order of addresses. */
  lemma FreeGivesBack(h: Heap, base: nat, limit: nat, addr: nat)
    requires Valid(h, base, limit) && addr in LiveAddrs(h)
    ensures var after := Freed(h, addr).0;
            exists i ::
              && 0 <= i < |h.live| && h.live[i].addr == addr && after.live == Without(h.live, i)
              && Ascending(after.free) && multiset(after.free) <= multiset(h.free) + multiset{h.live[i]}
              && (forall b :: b in h.free || b == h.live[i] ==> b in after.free || after.next <= b.addr)
  {
    hide Tiles, Coalesced;
    var i := IndexAt(h.live, addr);
    assert i < |h.live|;
    SortedIs(h.free + [h.live[i]]);
    CoalescedIs(Sorted(h.free + [h.live[i]]), h.next);
    assert forall b :: b in h.free || b == h.live[i] ==> b in multiset(h.free + [h.live[i]]);
  }

  /** Reclaiming drops blocks from the end only, and those lie at or above the new top. */
  lemma {:induction false} CoalescedIs(free: seq<Block>, next: nat)
    requires Ascending(free)
    ensures var (free', next') := Coalesced(free, next);
            && Ascending(free') && multiset(free') <= multiset(free)
            && forall b :: b in multiset(free) ==> b in free' || next' <= b.addr
    decreases |free|
  {
    if free != [] && free[|free| - 1].End() == next {
      var init, last := free[..|free| - 1], free[|free| - 1];
      assert free == init + [last];
      CoalescedIs(init, last.addr);
      TopFalls(init, last.addr);
    }
  }

  lemma {:induction false} TopFalls(free: seq<Block>, next: nat)
    ensures Coalesced(free, next).1 <= next
    decreases |free|
  {
    if free != [] && free[|free| - 1].End() == next {
      TopFalls(free[..|free| - 1], free[|free| - 1].addr);
    }
  }

  // ----- addresses of live blocks -----

  function LiveAddrs(h: Heap): set<nat> {
    set b | b in h.live :: b.addr
  }

  lemma LiveAt(h: Heap, i: nat)
    requires i < |h.live|
    ensures h.live[i].addr in LiveAddrs(h)
  {
    assert h.live[i] in h.live;
  }

  /** A successful allocation adds exactly its result, which was not live before. */
  lemma AllocAddsAddr(h: Heap, base: nat, limit: nat, request: u32)
    requires Valid(h, base, limit) && request >= 1
    ensures var (after, r) := Allocated(h, limit, request);
            match r
            case Some(addr) => addr !in LiveAddrs(h) && LiveAddrs(after) == LiveAddrs(h) + {addr}
            case None => after == h
  {
    var (after, r) := Allocated(h, limit, request);
    if r.Some? {
      var last := after.live[|h.live|];
      assert after.live == h.live + [last] && last.addr == r.value;
      AllocKeepsValid(h, base, limit, request);
      forall b | b in h.live
        ensures b.addr != last.addr
      {
        var i :| 0 <= i < |h.live| && h.live[i] == b;
        LiveApart(after, base, limit, i, |h.live|);
      }
      assert forall b :: b in after.live <==> b in h.live || b == last;
      forall a
        ensures a in LiveAddrs(after) <==> a in LiveAddrs(h) + {last.addr}
      {
        if a in LiveAddrs(h) {
          var b :| b in h.live && b.addr == a;
          assert b in after.live;
        }
        assert last in after.live;
      }
    }
  }

  lemma LiveApart(h: Heap, base: nat, limit: nat, i: nat, j: nat)
    requires Valid(h, base, limit) && i < j < |h.live|
    ensures h.live[i].addr != h.live[j].addr && Disjoint(h.live[i], h.live[j])
  {
    LiveTwice(h.live, i, j);
    assert h.live[i] in h.Blocks() && h.live[j] in h.Blocks();
  }

  /** Freeing a live address removes exactly it; freeing any other changes nothing. */
  lemma FreeDropsAddr(h: Heap, base: nat, limit: nat, addr: nat)
    requires Valid(h, base, limit)
    ensures LiveAddrs(Freed(h, addr).0) == LiveAddrs(h) - {addr}
    ensures Freed(h, addr).1 == (addr in LiveAddrs(h)) && (addr !in LiveAddrs(h) ==> Freed(h, addr).0 == h)
  {
    hide Valid, Coalesced, Sorted;
    var i := IndexAt(h.live, addr);
    if i < |h.live| {
      LiveAt(h, i);
      var after := Freed(h, addr).0;
      assert after.live == Without(h.live, i);
      forall k | 0 <= k < |h.live| && k != i
        ensures h.live[k].addr != addr
      {
        LiveApart(h, base, limit, if k < i then k else i, if k < i then i else k);
      }
      forall a
        ensures a in LiveAddrs(after) <==> a in LiveAddrs(h) && a != addr
      {
        AddrsWithout(h, after, i, a);
      }
    } else {
      assert forall b :: b in h.live ==> b.addr != addr;
    }
  }

  /** Dropping the only block at its address drops that address. */
  lemma AddrsWithout(h: Heap, after: Heap, i: nat, a: nat)
    requires i < |h.live| && after.live == Without(h.live, i)
    requires forall k :: 0 <= k < |h.live| && k != i ==> h.live[k].addr != h.live[i].addr
    ensures a in LiveAddrs(after) <==> a in LiveAddrs(h) && a != h.live[i].addr
  {
    if a in LiveAddrs(h) && a != h.live[i].addr {
      var b :| b in h.live && b.addr == a;
      var k :| 0 <= k < |h.live| && h.live[k] == b;
      assert after.live[if k < i then k else k - 1] == b;
    }
    if a in LiveAddrs(after) {
      var b :| b in after.live && b.addr == a;
      var k :| 0 <= k < |after.live| && after.live[k] == b;
      assert h.live[if k < i then k else k + 1] == b;
    }
  }

  /** The live blocks at two different live addresses are disjoint. */
  lemma AddrsDisjoint(h: Heap, base: nat, limit: nat, b: Block, c: Block)
    requires Valid(h, base, limit) && b in h.live && c in h.live && b.addr != c.addr
    ensures Disjoint(b, c)
  {
    assert b in h.Blocks() && c in h.Blocks();
  }
}

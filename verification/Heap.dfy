/** The block heap as an object: its table is scanned and marked in place. */
module Heap {
  import opened Bits
  import opened Status
  import opened HeapTable

  /** Rounds a size up to whole blocks, in 32 bits. */
  function AlignUp(size: Uint32): Uint32 {
    if size % BLOCK_SIZE == 0 then size else (size - size % BLOCK_SIZE + BLOCK_SIZE) % 0x1_0000_0000
  }

  function BlocksFor(size: Uint32): nat {
    AlignUp(size) / BLOCK_SIZE
  }

  /** The blocks of an allocation cover the bytes asked for, exactly unless rounding up wraps around;
      then there are no blocks at all. */
  lemma BlocksCoverSize(size: Uint32)
    ensures BlocksFor(size) * BLOCK_SIZE >= size <==> size <= 0x1_0000_0000 - BLOCK_SIZE
    ensures size > 0x1_0000_0000 - BLOCK_SIZE ==> BlocksFor(size) == 0
    ensures size <= 0x1_0000_0000 - BLOCK_SIZE ==> BlocksFor(size) * BLOCK_SIZE < size + BLOCK_SIZE
  {
  }

  lemma FirstFitIsLeast(t: Table, n: nat, start: nat)
    requires n > 0 && start < |t| && FreeRun(t, start, n) && forall k :: 0 <= k < start ==> !FreeRun(t, k, n)
    ensures Fits(t, n) && FirstFit(t, n, 0) == start
  {
  }

  lemma TrailingStartIsUnique(t: Table, start: nat)
    requires start < |t| && (forall i :: start <= i < |t| ==> IsFree(t[i])) && (start > 0 ==> !IsFree(t[start - 1]))
    ensures TrailingStart(t, |t|) == start
  {
    var s := TrailingStart(t, |t|);
    assert !(s < start);
    assert !(start < s);
  }

  lemma FlagsJoined()
    ensures Or8(TAKEN, IS_FIRST) == 0x41 && Or8(0x41, HAS_NEXT) == 0xC1 && Or8(TAKEN, HAS_NEXT) == 0x81
  {
  }

  class Heap {
    var entries: array<Byte>
    var saddr: nat

    constructor ()
      ensures fresh(entries) && entries.Length == 0
    {
      entries := new Byte[0];
      saddr := 0;
    }

    /** Sets the heap up over [ptr, end) with a table that is cleared, or reports why it cannot be. */
    method Create(ptr: Uint32, end: Uint32, table: array<Byte>) returns (res: int)
      modifies this, table
      ensures ptr % BLOCK_SIZE != 0 || end % BLOCK_SIZE != 0 ==> res == -EINVARG && unchanged(this) && unchanged(table)
      ensures ptr % BLOCK_SIZE == 0 && end % BLOCK_SIZE == 0 ==> saddr == ptr && entries == table
      ensures res == 0 <==> ptr % BLOCK_SIZE == 0 && end % BLOCK_SIZE == 0
                            && table.Length == (end - ptr) % 0x1_0000_0000 / BLOCK_SIZE
      ensures res == 0 ==> Represents(entries[..], map[])
      ensures res != 0 ==> res == -EINVARG && table[..] == old(table[..])
    {
      if ptr % BLOCK_SIZE != 0 || end % BLOCK_SIZE != 0 {
        return -EINVARG;
      }
      saddr := ptr;
      entries := table;
      if table.Length != (end - ptr) % 0x1_0000_0000 / BLOCK_SIZE {
        return -EINVARG;
      }
      for i := 0 to table.Length
        invariant saddr == ptr && entries == table
        invariant forall k :: 0 <= k < i ==> table[k] == FREE
      {
        table[i] := FREE;
      }
      res := 0;
    }

    /** heap_get_start_block: one pass that counts the current free run. */
    method GetStartBlock(totalBlocks: nat) returns (start: int)
      ensures start == StartBlock(entries[..], totalBlocks)
    {
      hide IsFree;
      ghost var t := entries[..];
      var bc := 0;
      var bs := -1;
      var i := 0;
      while i < entries.Length
        invariant 0 <= i <= |t|
        invariant bs == -1 ==> bc == 0 && (i > 0 ==> !IsFree(t[i - 1]))
        invariant bs != -1 ==> 0 <= bs < i && bc == i - bs && (bs > 0 ==> !IsFree(t[bs - 1]))
        invariant bs != -1 ==> forall k :: bs <= k < i ==> IsFree(t[k])
        invariant forall k :: 0 <= k && k + totalBlocks <= i && totalBlocks > 0 ==> !FreeRun(t, k, totalBlocks)
        invariant totalBlocks > 0 ==> bc < totalBlocks
      {
        if !IsFree(entries[i]) {
          bc := 0;
          bs := -1;
        } else {
          if bs == -1 {
            bs := i;
          }
          bc := bc + 1;
          if bc == totalBlocks {
            FirstFitIsLeast(t, totalBlocks, bs);
            break;
          }
        }
        i := i + 1;
      }
      if bs == -1 {
        return -ENOMEM;
      }
      if i == |t| {
        TrailingStartIsUnique(t, bs);
      }
      return bs;
    }

    function BlockToAddress(block: nat): nat
      reads this
    {
      saddr + block * BLOCK_SIZE
    }

    function AddressToBlock(address: nat): nat
      requires saddr <= address
      reads this
    {
      (address - saddr) / BLOCK_SIZE
    }

    method MarkBlocksTaken(startBlock: nat, totalBlocks: nat)
      requires startBlock + totalBlocks <= entries.Length
      modifies entries
      ensures entries[..] == Take(old(entries[..]), startBlock, totalBlocks)
    {
      hide Or8;
      FlagsJoined();
      var endBlock := startBlock + totalBlocks - 1;
      var entry := Or8(TAKEN, IS_FIRST);
      if totalBlocks > 1 {
        entry := Or8(entry, HAS_NEXT);
      }
      var i := startBlock;
      while i <= endBlock
        invariant startBlock <= i <= endBlock + 1
        invariant i <= endBlock ==> entry == RunEntry(totalBlocks, i - startBlock)
        invariant forall k :: startBlock <= k < i ==> entries[k] == RunEntry(totalBlocks, k - startBlock)
        invariant forall k :: 0 <= k < entries.Length && !(startBlock <= k < i) ==> entries[k] == old(entries[k])
      {
        entries[i] := entry;
        entry := TAKEN;
        if i != endBlock - 1 {
          entry := Or8(entry, HAS_NEXT);
        }
        i := i + 1;
      }
    }

    method MarkBlocksFree(startingBlock: nat)
      modifies entries
      ensures entries[..] == FreeFrom(old(entries[..]), startingBlock)
    {
      hide HasNext;
      var i := startingBlock;
      while i < entries.Length
        invariant FreeFrom(entries[..], i) == FreeFrom(old(entries[..]), startingBlock)
        invariant i >= startingBlock
      {
        var entry := entries[i];
        ghost var before := entries[..];
        entries[i] := FREE;
        assert entries[..] == before[i := FREE];
        if !HasNext(entry) {
          return;
        }
        i := i + 1;
      }
    }

    /** A request that the heap answers without touching memory beyond its table: none at all, one
        that fits, or one that is refused. */
    ghost predicate CanServe(totalBlocks: nat)
      reads this, entries
    {
      totalBlocks == 0 || Fits(entries[..], totalBlocks) || !EndsFree(entries[..])
    }

    method MallocBlocks(totalBlocks: nat) returns (address: nat)
      requires CanServe(totalBlocks)
      modifies entries
      ensures var t := old(entries[..]); var start := StartBlock(t, totalBlocks);
        if start < 0 then address == 0 && entries[..] == t
        else address == BlockToAddress(start) && start + totalBlocks <= |t| && entries[..] == Take(t, start, totalBlocks)
    {
      var startBlock := GetStartBlock(totalBlocks);
      if startBlock < 0 {
        return 0;
      }
      address := BlockToAddress(startBlock);
      MarkBlocksTaken(startBlock, totalBlocks);
    }

    method Malloc(size: Uint32) returns (address: nat)
      requires CanServe(BlocksFor(size))
      modifies entries
      ensures var t := old(entries[..]); var n := BlocksFor(size); var start := StartBlock(t, n);
        if start < 0 then address == 0 && entries[..] == t
        else address == BlockToAddress(start) && start + n <= |t| && entries[..] == Take(t, start, n)
    {
      var alignedSize := AlignUp(size);
      var totalBlocks := alignedSize / BLOCK_SIZE;
      address := MallocBlocks(totalBlocks);
    }

    method Free(ptr: nat)
      requires saddr <= ptr
      modifies entries
      ensures entries[..] == FreeFrom(old(entries[..]), AddressToBlock(ptr))
    {
      MarkBlocksFree(AddressToBlock(ptr));
    }
  }

  /** Malloc and then free of the pointer, for any size that needs a block and fits. */
  method MallocThenFree(heap: Heap, size: Uint32, ghost live: Live)
    requires Represents(heap.entries[..], live) && BlocksFor(size) > 0 && Fits(heap.entries[..], BlocksFor(size))
    modifies heap.entries
    ensures heap.entries[..] == old(heap.entries[..])
  {
    ghost var t := heap.entries[..];
    var p := heap.Malloc(size);
    TakeThenFree(t, live, StartBlock(t, BlocksFor(size)), BlocksFor(size));
    heap.Free(p);
  }

  /** The bytes of two allocations have nothing in common. */
  predicate Apart(p: nat, n: nat, q: nat, m: nat) {
    p + n <= q || q + m <= p
  }

  /** Malloc of a size that fits, among any live allocations: the address is that of a block of the heap, the bytes asked
      for lie in the heap, and they are no bytes of another live allocation. */
  method MallocAmongLive(heap: Heap, size: Uint32, ghost live: Live) returns (p: nat, ghost start: nat)
    requires Represents(heap.entries[..], live) && BlocksFor(size) > 0 && Fits(heap.entries[..], BlocksFor(size))
    modifies heap.entries
    ensures start !in live && Represents(heap.entries[..], live[start := BlocksFor(size)])
    ensures p == heap.saddr + 4096 * start && p + size <= heap.saddr + 4096 * heap.entries.Length
    ensures forall s :: s in live ==> Apart(p, size, heap.saddr + 4096 * s, 4096 * live[s])
  {
    ghost var t, n := heap.entries[..], BlocksFor(size);
    start := StartBlock(t, n);
    TakeRepresents(t, live, start, n);
    BlocksCoverSize(size);
    hide Represents, StartBlock, Fits, BlocksFor, Take;
    p := heap.Malloc(size);
    forall s | s in live
      ensures Apart(p, size, heap.saddr + 4096 * s, 4096 * live[s])
    {
      LiveIsApart(heap.entries[..], live, start, n, s);
    }
  }

  lemma LiveIsApart(u: Table, live: Live, start: nat, n: nat, s: nat)
    requires Represents(u, live[start := n]) && start !in live && s in live
    ensures s + live[s] <= start || start + n <= s
  {
    var all := live[start := n];
    assert s in all && start in all && all[s] == live[s] && all[start] == n;
  }

  /** Free of the address of a live allocation: the others stay. */
  method FreeOfLive(heap: Heap, p: nat, ghost live: Live, ghost start: nat)
    requires Represents(heap.entries[..], live) && start in live && p == heap.saddr + 4096 * start
    modifies heap.entries
    ensures Represents(heap.entries[..], live - {start})
  {
    hide Represents, FreeFrom, Clear;
    FreeRepresents(heap.entries[..], live, start);
    heap.Free(p);
  }
}

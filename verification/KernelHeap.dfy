/** Small objects of the kernel: one block of the heap each. */
module KernelHeap {
  import opened Bits
  import opened HeapTable
  import opened SingleBlocks
  import Heap

  function AddressOf(saddr: nat, block: nat): nat {
    saddr + block * BLOCK_SIZE
  }

  predicate HasFree(t: Table) {
    exists i :: 0 <= i < |t| && IsFree(t[i])
  }

  lemma SomeFree(t: Table)
    requires CountFree(t, 0) > 0
    ensures HasFree(t)
  {
    var i := SomeBlockIsFree(t, 0);
  }

  /** The least free block of a table. */
  ghost predicate IsLeastFree(t: Table, block: nat) {
    block < |t| && t[block] == FREE && forall i :: 0 <= i < block ==> !IsFree(t[i])
  }

  lemma FirstFitOfOne(t: Table)
    requires HasFree(t) && Clean(t)
    ensures Fits(t, 1) && StartBlock(t, 1) >= 0 && IsLeastFree(t, StartBlock(t, 1))
  {
    var i :| 0 <= i < |t| && IsFree(t[i]);
    assert FreeRun(t, i, 1);
    var s := StartBlock(t, 1);
    hide IsFree, FirstFit;
    assert forall k :: 0 <= k < s ==> !FreeRun(t, k, 1);
    forall k | 0 <= k < s
      ensures !IsFree(t[k])
    {
      assert !FreeRun(t, k, 1);
    }
  }

  /** kzalloc of a small object while a block is free: it gets the least free one. */
  method AllocateBlock(heap: Heap.Heap, size: Uint32) returns (address: nat, ghost block: nat)
    requires 0 < size <= BLOCK_SIZE && Clean(heap.entries[..]) && HasFree(heap.entries[..])
    modifies heap.entries
    ensures block < heap.entries.Length && IsLeastFree(old(heap.entries[..]), block)
    ensures address == AddressOf(heap.saddr, block)
    ensures heap.entries[..] == old(heap.entries[..])[block := ONE_BLOCK] && Clean(heap.entries[..])
    ensures CountFree(heap.entries[..], 0) == CountFree(old(heap.entries[..]), 0) - 1
  {
    hide CountFree, Clean, Take, StartBlock, HasFree;
    ghost var t := heap.entries[..];
    FirstFitOfOne(t);
    OneBlockIsTaken(t);
    block := StartBlock(t, 1);
    assert Heap.BlocksFor(size) == 1;
    address := heap.Malloc(size);
  }

  /** kfree of a small object. */
  method FreeBlock(heap: Heap.Heap, address: nat, ghost block: nat)
    requires block < heap.entries.Length && heap.entries[block] == ONE_BLOCK && address == AddressOf(heap.saddr, block)
    modifies heap.entries
    ensures heap.entries[..] == old(heap.entries[..])[block := FREE]
  {
    FreeOne(heap.entries[..], block);
    heap.Free(address);
  }

  /** A block that has been freed is the next one to be handed out exactly if no block below it is free. */
  lemma FreedIsNext(t: Table, block: nat, next: nat)
    requires block < |t| && IsLeastFree(t[block := FREE], next)
    ensures next == block <==> forall i :: 0 <= i < block ==> !IsFree(t[i])
  {
    EntryFlags();
    hide IsFree;
    var u := t[block := FREE];
    assert IsFree(u[block]) && IsFree(u[next]);
    assert forall i :: 0 <= i < block ==> u[i] == t[i];
  }
}

/** The trace log: a doubly linked list of at most 257 entries in the kernel's heap, with a cursor for scrolling. The
    cursor is an address, and a block that an evicted entry has left can be handed out again at once. */
module TraceLog {
  import opened Bits
  import opened HeapTable
  import opened SingleBlocks
  import opened KernelHeap
  import Heap

  const MAX_LENGTH := 256
  const NUM_PRINT_ENTRIES := 24
  const ENTRY_BYTES: Uint32 := 40

  /** What an entry keeps of the processor: its registers and its cycles. */
  datatype Snapshot = Snapshot(a: Byte, x: Byte, y: Byte, flags: Byte, sp: Byte, pc: Word, cycles: int)

  const NO_SNAPSHOT := Snapshot(0, 0, 0, 0, 0, 0, 0)

  /** What an entry says: the state in which an instruction started, and the bytes of the instruction. */
  datatype Record = Record(snapshot: Snapshot, opcode: Byte, operands: seq<Byte>)

  /** An entry, in its block of the heap. */
  class Entry {
    const block: nat
    var next: Entry?
    var prev: Entry?
    var opcode: Byte
    var operands: seq<Byte>
    var snapshot: Snapshot

    constructor (block: nat)
      ensures this.block == block
    {
      this.block := block;
      next, prev, opcode, operands, snapshot := null, null, 0, [0, 0], NO_SNAPSHOT;
    }

    function Said(): Record
      reads `snapshot, `opcode, `operands
    {
      Record(snapshot, opcode, operands)
    }
  }

  function Min(a: int, b: int): int {
    if a < b then a else b
  }

  function Max(a: int, b: int): int {
    if a > b then a else b
  }

  /** The last n elements. */
  function Last(rs: seq<Record>, n: int): seq<Record>
    requires 0 <= n <= |rs|
  {
    rs[|rs| - n..]
  }

  /** Every block has its entry. */
  ghost predicate Placed(memory: seq<Entry>) {
    forall b :: 0 <= b < |memory| ==> memory[b].block == b
  }

  class TraceLog {
    const heap: Heap.Heap
    /** The entry that lies in each block of the heap, for as long as it holds one. */
    const memory: seq<Entry>
    var head: Entry?
    var tail: Entry?
    var currentLength: int
    var currentOperand: nat
    var curSelectedEntry: Entry?
    var curSelectedIndex: int
    /** The entries that have ever been added, in order, and how many of them are no longer in the list. An entry that
        has been evicted and one that has been added later can be the same, in the same block. */
    ghost var all: seq<Entry>
    ghost var evicted: nat
    /** What the entries said that are behind the tail. */
    ghost var past: seq<Record>

    // ---------- invariants ----------

    /** The entries of the list are different entries in the blocks of the heap. */
    ghost predicate InMemory()
      reads `all, `evicted
    {
      && evicted <= |all|
      && (forall i :: evicted <= i < |all| ==> all[i].block < |memory| && memory[all[i].block] == all[i])
      && forall i, j :: evicted <= i < j < |all| ==> all[i] != all[j]
    }

    /** The list is the entries that have been added and not evicted, linked both ways. */
    ghost predicate Linked()
      reads `head, `tail, `all, `evicted, memory`next, memory`prev
    {
      && InMemory()
      && (evicted == |all| ==> head == null && tail == null)
      && (evicted < |all| ==> head == all[evicted] && tail == all[|all| - 1] && head.prev == null && tail.next == null)
      && forall i :: evicted <= i < |all| - 1 ==> all[i].next == all[i + 1] && all[i + 1].prev == all[i]
    }

    /** The blocks of the list are taken. */
    ghost predicate Owns()
      reads `all, `evicted, heap, heap.entries
    {
      && evicted <= |all| && |memory| == heap.entries.Length
      && forall i :: evicted <= i < |all| ==> all[i].block < heap.entries.Length && heap.entries[all[i].block] == ONE_BLOCK
    }

    /** The entries before the tail say what they said when they were the tail. */
    ghost predicate Kept()
      reads `all, `evicted, `past, memory`opcode, memory`operands, memory`snapshot
    {
      && InMemory() && |past| == Max(0, |all| - 1)
      && forall i :: evicted <= i < |past| ==> all[i].Said() == past[i]
    }

    ghost predicate Counted()
      reads `all, `evicted, `currentLength, `curSelectedIndex
    {
      && evicted <= |all| && currentLength <= MAX_LENGTH && (evicted > 0 ==> currentLength == MAX_LENGTH)
      && (all == [] ==> currentLength == 0 && curSelectedIndex == 0)
      && (all != [] ==> currentLength == |all| - evicted - 1 >= 0)
    }

    /** Before the first eviction the cursor is on the entry at its index. */
    ghost predicate Selected()
      reads `all, `evicted, `currentLength, `curSelectedEntry, `curSelectedIndex
    {
      all != [] ==>
        && curSelectedIndex <= Max(0, currentLength - NUM_PRINT_ENTRIES)
        && (evicted == 0 ==> 0 <= curSelectedIndex < |all| && curSelectedEntry == all[curSelectedIndex])
    }

    ghost predicate Valid()
      reads this, memory, heap, heap.entries
    {
      Placed(memory) && Linked() && Owns() && Kept() && Counted() && Selected()
    }

    // ---------- what the log says ----------

    /** What all entries said that have ever been added. */
    ghost function History(): seq<Record>
      reads `past, `tail, tail
    {
      if tail == null then past else past + [tail.Said()]
    }

    /** What the entries of the list say, in its order. */
    ghost function Contents(): seq<Record>
      requires InMemory()
      reads `all, `evicted, memory`opcode, memory`operands, memory`snapshot
    {
      ContentsFrom(evicted)
    }

    ghost function ContentsFrom(i: nat): (rs: seq<Record>)
      requires InMemory() && evicted <= i <= |all|
      reads `all, `evicted, memory`opcode, memory`operands, memory`snapshot
      ensures |rs| == |all| - i && forall k :: i <= k < |all| ==> rs[k - i] == all[k].Said()
      decreases |all| - i
    {
      if i == |all| then [] else [all[i].Said()] + ContentsFrom(i + 1)
    }

    constructor (heap: Heap.Heap, memory: seq<Entry>)
      requires |memory| == heap.entries.Length && Placed(memory)
      ensures Valid() && this.heap == heap && this.memory == memory && all == [] && History() == []
    {
      this.heap := heap;
      this.memory := memory;
      head, tail, curSelectedEntry := null, null, null;
      currentLength, currentOperand, curSelectedIndex := 0, 0, 0;
      all, evicted, past := [], 0, [];
    }

    // ---------- adding ----------

    /** Takes the first entry out of the list. */
    method Unlink() returns (oldHead: Entry)
      requires Linked() && evicted < |all|
      modifies `head, `tail, `evicted, memory`prev
      ensures Linked() && oldHead == all[old(evicted)] && evicted == old(evicted) + 1
    {
      oldHead := head;
      if head == tail {
        assert evicted == |all| - 1;
        head, tail := null, null;
      } else {
        assert head.next == all[evicted + 1];
        head := oldHead.next;
        head.prev := null;
      }
      evicted := evicted + 1;
    }

    /** remove_first_entry: the first entry's block is freed; the cursor stays where it is. */
    method RemoveFirst()
      requires Linked() && Owns()
      modifies `head, `tail, `currentLength, `evicted, memory`prev, heap.entries
      ensures Linked() && Owns()
      ensures old(head) == null ==> evicted == old(evicted) && currentLength == old(currentLength) && unchanged(heap.entries)
      ensures old(head) != null ==>
        && evicted == old(evicted) + 1 <= |all| && currentLength == old(currentLength) - 1
        && all[old(evicted)].block < heap.entries.Length
        && heap.entries[..] == old(heap.entries[..])[all[old(evicted)].block := FREE]
    {
      if head == null {
        return;
      }
      ghost var t := heap.entries[..];
      assert forall i :: evicted < i < |all| ==> all[i].block != all[evicted].block;
      var oldHead := Unlink();
      hide Linked, InMemory;
      FreeBlock(heap, AddressOf(heap.saddr, oldHead.block), oldHead.block);
      currentLength := currentLength - 1;
      forall i | evicted <= i < |all|
        ensures all[i].block < heap.entries.Length && heap.entries[all[i].block] == ONE_BLOCK
      {
        assert heap.entries[all[i].block] == heap.entries[..][all[i].block] == t[all[i].block];
      }
    }

    /** Links an entry behind the tail. */
    method Append(entry: Entry)
      requires Linked() && Kept() && evicted < |all| && entry.block < |memory| && memory[entry.block] == entry
      requires (forall i :: evicted <= i < |all| ==> all[i] != entry) && entry.next == null
      modifies `tail, `all, `past, memory`next, memory`prev
      ensures Linked() && Kept() && all == old(all) + [entry] && tail == entry && past == old(History())
    {
      assert tail == all[|all| - 1] && tail in memory;
      past := History();
      tail.next := entry;
      entry.prev := tail;
      tail := entry;
      all := all + [entry];
    }

    ghost predicate IsFull()
      reads `currentLength
    {
      currentLength == MAX_LENGTH
    }

    /** The table from which the next entry gets its block: the first entry's block is given back if the log is full. */
    ghost function TableForNext(): Table
      requires Linked() && Owns() && (IsFull() ==> evicted < |all|)
      reads `head, `tail, `all, `evicted, `currentLength, memory`next, memory`prev, heap, heap.entries
    {
      if IsFull() then heap.entries[..][all[evicted].block := FREE] else heap.entries[..]
    }

    ghost predicate CanAdd()
      requires Linked() && Owns() && (IsFull() ==> evicted < |all|)
      reads `head, `tail, `all, `evicted, `currentLength, memory`next, memory`prev, heap, heap.entries
    {
      Clean(heap.entries[..]) && (IsFull() || HasFree(heap.entries[..]))
    }

    /** There are blocks for all entries that the log can still get. */
    ghost predicate Supplied()
      reads `all, `evicted, heap, heap.entries
    {
      SuppliedIn(heap.entries[..], |all| - evicted)
    }

    lemma SuppliedCanAdd()
      requires Valid() && Supplied()
      ensures CanAdd()
    {
      ListBounds();
      if !IsFull() {
        SomeFree(heap.entries[..]);
      }
    }

    /** The log in the middle of an addition. */
    ghost predicate Steady()
      reads this, memory, heap, heap.entries
    {
      && Placed(memory) && Linked() && Owns() && Kept()
      && (all == [] ==> evicted == 0 && currentLength == 0 && curSelectedIndex == 0)
      && (all != [] ==> evicted < |all| && currentLength == |all| - evicted - 1 < MAX_LENGTH)
      && (all != [] ==> curSelectedIndex <= Max(0, currentLength + 1 - NUM_PRINT_ENTRIES))
      && (all != [] && evicted == 0 ==> 0 <= curSelectedIndex < |all| && curSelectedEntry == all[curSelectedIndex])
      && (evicted > 0 ==> currentLength == MAX_LENGTH - 1)
    }

    /** The first entry goes if the log is full. */
    method MakeRoom()
      requires Valid() && CanAdd()
      modifies this, memory, heap.entries
      ensures Steady() && Clean(heap.entries[..]) && HasFree(heap.entries[..])
      ensures heap.entries[..] == old(TableForNext())
      ensures all == old(all) && evicted == old(evicted) + (if old(IsFull()) then 1 else 0)
      ensures tail == old(tail) && History() == old(History())
      ensures curSelectedIndex == old(curSelectedIndex) && curSelectedEntry == old(curSelectedEntry)
    {
      hide Clean, HasFree;
      if currentLength + 1 > MAX_LENGTH {
        ghost var u, first := TableForNext(), all[evicted].block;
        assert tail in memory;
        FreedTable(heap.entries[..], first);
        RemoveFirst();
      }
    }

    /** A block for an entry, which no entry of the list is in. */
    method TakeBlock() returns (entry: Entry)
      requires Placed(memory) && Linked() && Owns() && Clean(heap.entries[..]) && HasFree(heap.entries[..])
      modifies heap.entries
      ensures Owns() && Clean(heap.entries[..])
      ensures entry.block < |memory| && entry == memory[entry.block] && (forall i :: evicted <= i < |all| ==> all[i] != entry)
      ensures entry.block < heap.entries.Length && IsLeastFree(old(heap.entries[..]), entry.block)
      ensures heap.entries[..] == old(heap.entries[..])[entry.block := ONE_BLOCK]
    {
      ghost var t := heap.entries[..];
      var address, block := AllocateBlock(heap, ENTRY_BYTES);
      entry := memory[heap.AddressToBlock(address)];
      assert entry.block == block;
      hide Clean, HasFree, Linked;
      forall i | evicted <= i < |all|
        ensures all[i] != entry && heap.entries[all[i].block] == ONE_BLOCK
      {
        assert t[all[i].block] == ONE_BLOCK && heap.entries[all[i].block] == heap.entries[..][all[i].block];
      }
    }

    method ClearLinks(entry: Entry)
      requires Linked() && forall i :: evicted <= i < |all| ==> all[i] != entry
      modifies entry`next, entry`prev
      ensures Linked() && entry.next == null && entry.prev == null
    {
      entry.next, entry.prev := null, null;
    }

    method ClearBytes(entry: Entry)
      requires Linked() && Kept() && forall i :: evicted <= i < |all| ==> all[i] != entry
      modifies entry`opcode, entry`operands, entry`snapshot
      ensures Kept() && History() == old(History()) && entry.Said() == Record(NO_SNAPSHOT, 0, [0, 0])
    {
      entry.opcode, entry.operands, entry.snapshot := 0, [0, 0], NO_SNAPSHOT;
    }

    /** The room for an entry, cleared. It is none of the list's. */
    method NewEntry() returns (entry: Entry)
      requires Steady() && Clean(heap.entries[..]) && HasFree(heap.entries[..])
      modifies memory, heap.entries
      ensures Steady() && Clean(heap.entries[..]) && History() == old(History())
      ensures entry.block < |memory| && entry == memory[entry.block] && (forall i :: evicted <= i < |all| ==> all[i] != entry)
      ensures entry.next == null && entry.prev == null && entry.Said() == Record(NO_SNAPSHOT, 0, [0, 0])
      ensures entry.block < heap.entries.Length && IsLeastFree(old(heap.entries[..]), entry.block)
      ensures heap.entries[..] == old(heap.entries[..])[entry.block := ONE_BLOCK]
    {
      hide IsLeastFree, Clean, HasFree, Linked, Kept, Owns;
      entry := TakeBlock();
      ClearLinks(entry);
      ClearBytes(entry);
    }

    /** An entry and its snapshot, as the first of the log. */
    method PutFirst(entry: Entry, snapshot: Snapshot)
      requires Steady() && all == [] && entry.block < |memory| && memory[entry.block] == entry
      requires heap.entries[entry.block] == ONE_BLOCK
      requires entry.next == null && entry.prev == null && entry.Said() == Record(NO_SNAPSHOT, 0, [0, 0])
      modifies this, entry
      ensures Valid() && all == [entry] && evicted == old(evicted) && tail == entry && currentOperand == 0
      ensures entry.Said() == Record(snapshot, 0, [0, 0]) && History() == old(History()) + [entry.Said()]
      ensures curSelectedIndex == old(curSelectedIndex) && curSelectedEntry == entry
    {
      head := entry;
      curSelectedEntry := head;
      tail := entry;
      all := [entry];
      entry.snapshot := snapshot;
      currentOperand := 0;
    }

    /** Fills the tail: this changes nothing that the log keeps of the other entries. */
    method Fill(snapshot: Snapshot)
      requires Valid() && evicted < |all|
      modifies `currentOperand, tail`snapshot
      ensures Valid() && currentOperand == 0 && tail.snapshot == snapshot
    {
      hide Placed, Owns, Counted, Selected;
      tail.snapshot := snapshot;
      currentOperand := 0;
    }

    /** An entry behind the tail. */
    method Lengthen(entry: Entry)
      requires Steady() && all != [] && entry.block < |memory| && memory[entry.block] == entry
      requires (forall i :: evicted <= i < |all| ==> all[i] != entry) && heap.entries[entry.block] == ONE_BLOCK
      requires entry.next == null && entry.prev == null
      modifies `tail, `all, `past, `currentLength, memory`next, memory`prev
      ensures Valid() && all == old(all) + [entry] && tail == entry && past == old(History())
    {
      hide Linked, Kept, Owns, Placed, InMemory;
      OwnedBlocks();
      FitsMemory();
      Append(entry);
      OwnsOneMore();
      currentLength := currentLength + 1;
    }

    /** An entry and its snapshot, behind the tail. */
    method PutBehind(entry: Entry, snapshot: Snapshot)
      requires Steady() && all != [] && entry.block < |memory| && memory[entry.block] == entry
      requires (forall i :: evicted <= i < |all| ==> all[i] != entry) && heap.entries[entry.block] == ONE_BLOCK
      requires entry.next == null && entry.prev == null && entry.Said() == Record(NO_SNAPSHOT, 0, [0, 0])
      modifies this, memory
      ensures Valid() && all == old(all) + [entry] && evicted == old(evicted) && tail == entry && currentOperand == 0
      ensures entry.Said() == Record(snapshot, 0, [0, 0]) && History() == old(History()) + [entry.Said()]
      ensures curSelectedIndex == old(curSelectedIndex) && curSelectedEntry == old(curSelectedEntry)
    {
      assert evicted < |all|;
      hide Valid, Steady;
      Lengthen(entry);
      Fill(snapshot);
    }

    lemma OwnedBlocks()
      requires Owns()
      ensures forall i :: evicted <= i < |all| ==> all[i].block < heap.entries.Length && heap.entries[all[i].block] == ONE_BLOCK
    {
    }

    lemma FitsMemory()
      requires Linked() && Owns()
      ensures |memory| == heap.entries.Length && evicted <= |all|
      ensures (head == null <==> evicted == |all|) && (tail == null <==> evicted == |all|)
    {
    }

    /** The list owns its blocks if it did without its tail, and the tail's block is taken too. */
    lemma OwnsOneMore()
      requires |memory| == heap.entries.Length && evicted < |all|
      requires forall i :: evicted <= i < |all| ==> all[i].block < heap.entries.Length && heap.entries[all[i].block] == ONE_BLOCK
      ensures Owns()
    {
    }

    // ---------- the cursor ----------

    /** The address that the cursor holds is that of the m-th entry that was added, and this entry is in the list. */
    ghost predicate CursorAt(m: int)
      reads `all, `evicted, `curSelectedEntry
    {
      evicted <= m < |all| && curSelectedEntry == all[m]
    }

    /** Nothing but the log has freed blocks since it was new: entries take the blocks of evicted ones in turn, and the
        cursor's address always holds an entry of the list. */
    ghost predicate Quiet()
      reads `all, `evicted, `curSelectedEntry, `curSelectedIndex, heap, heap.entries
    {
      QuietIn(heap.entries[..], all, evicted, curSelectedEntry, curSelectedIndex)
    }

    lemma NewIsQuiet()
      requires Valid() && all == []
      ensures Quiet() && History() == [] && TailOpcode() == 0 && TailOperands() == []
    {
    }

    /** The first entry goes if the log is full; then there is a cleared entry in the least free block. */
    method RoomForEntry() returns (entry: Entry)
      requires Valid() && CanAdd()
      modifies this, memory, heap.entries
      ensures Steady() && Clean(heap.entries[..]) && History() == old(History())
      ensures entry.block < |memory| && entry == memory[entry.block] && (forall i :: evicted <= i < |all| ==> all[i] != entry)
      ensures entry.next == null && entry.prev == null && entry.Said() == Record(NO_SNAPSHOT, 0, [0, 0])
      ensures entry.block < heap.entries.Length && heap.entries[entry.block] == ONE_BLOCK
      ensures all == old(all) && evicted == old(evicted) + (if old(IsFull()) then 1 else 0)
      ensures curSelectedIndex == old(curSelectedIndex) && curSelectedEntry == old(curSelectedEntry)
      ensures Grows(old(heap.entries[..]), heap.entries[..], old(all), old(evicted), entry)
    {
      ghost var t, next, entries, first := heap.entries[..], TableForNext(), all, evicted;
      ListBounds();
      assert next == if |all| == evicted + CYCLE then t[all[evicted].block := FREE] else t;
      hide Valid, Steady, Clean, HasFree, IsLeastFree, Linked, Owns, Kept, Placed, TableForNext, CanAdd, Grows;
      MakeRoom();
      entry := NewEntry();
      assert heap.entries[entry.block] == heap.entries[..][entry.block];
      GrowsFrom(t, next, heap.entries[..], entries, first, entry);
    }

    /** The parts of add_tracelog_entry. */
    method AddEntry(snapshot: Snapshot) returns (entry: Entry)
      requires Valid() && CanAdd()
      modifies this, memory, heap.entries
      ensures Valid() && Clean(heap.entries[..])
      ensures all == old(all) + [entry] && evicted == old(evicted) + (if old(IsFull()) then 1 else 0)
      ensures tail == entry && currentOperand == 0 && entry.Said() == Record(snapshot, 0, [0, 0])
      ensures History() == old(History()) + [entry.Said()]
      ensures curSelectedIndex == old(curSelectedIndex)
      ensures curSelectedEntry == if old(all) == [] then entry else old(curSelectedEntry)
      ensures Grows(old(heap.entries[..]), heap.entries[..], old(all), old(evicted), entry)
    {
      hide Valid, Steady, Clean, CanAdd, Grows, Linked, Owns;
      entry := RoomForEntry();
      EmptyIfNoHead();
      if head == null {
        PutFirst(entry, snapshot);
      } else {
        PutBehind(entry, snapshot);
      }
    }

    /** add_tracelog_entry, when there is a block for the entry: it gets the least free one. */
    method Add(snapshot: Snapshot) returns (entry: Entry)
      requires Valid() && CanAdd()
      modifies this, memory, heap.entries
      ensures Valid() && Clean(heap.entries[..])
      ensures all == old(all) + [entry] && evicted == old(evicted) + (if old(IsFull()) then 1 else 0)
      ensures tail == entry && currentOperand == 0 && entry.Said() == Record(snapshot, 0, [0, 0])
      ensures History() == old(History()) + [entry.Said()]
      ensures curSelectedIndex == old(curSelectedIndex)
      ensures curSelectedEntry == if old(all) == [] then entry else old(curSelectedEntry)
      ensures Grows(old(heap.entries[..]), heap.entries[..], old(all), old(evicted), entry)
      ensures old(Supplied()) ==> Supplied()
      ensures old(Quiet()) ==> Quiet()
    {
      ghost var t, entries, first, cursor, index := heap.entries[..], all, evicted, curSelectedEntry, curSelectedIndex;
      ListBounds();
      hide Valid, Clean, Linked, Owns, CanAdd, QuietIn, SuppliedIn, Grows, History, Entry.Said;
      entry := AddEntry(snapshot);
      SuppliedStays(t, heap.entries[..], entries, first, entry);
      QuietStays(t, heap.entries[..], entries, first, entry, cursor, index);
    }

    /** The sizes that a valid log has, and the block of its first entry. */
    lemma ListBounds()
      requires Valid()
      ensures evicted <= |all| <= evicted + CYCLE && (IsFull() <==> |all| == evicted + CYCLE) && (evicted > 0 ==> IsFull())
      ensures all == [] ==> curSelectedIndex == 0
      ensures IsFull() ==>
        && all[evicted].block < heap.entries.Length && heap.entries[all[evicted].block] == ONE_BLOCK
        && all[evicted].block < |memory| && memory[all[evicted].block] == all[evicted]
    {
    }

    lemma EmptyIfNoHead()
      requires Steady()
      ensures head == null <==> all == []
    {
    }

    // ---------- the tail's bytes ----------

    /** The opcode byte that the tail has been given, 0 before there is one. */
    ghost function TailOpcode(): Byte
      reads `tail, tail
    {
      if tail == null then 0 else tail.opcode
    }

    /** The operand bytes that the tail has been given. */
    ghost function TailOperands(): seq<Byte>
      reads `tail, `currentOperand, tail
    {
      if tail == null || |tail.operands| < currentOperand then [] else tail.operands[..currentOperand]
    }

    /** The tail has room for n more operand bytes, and holds 0 where none has been put yet. */
    ghost predicate HasRoom(n: nat)
      reads `tail, `currentOperand, tail
    {
      && tail != null && |tail.operands| == 2 && currentOperand + n <= 2
      && forall i :: currentOperand <= i < 2 ==> tail.operands[i] == 0
    }

    /** tail_log_set_operand: the first byte that is not 0 is the opcode, those after it are operands. The buffer
        of two operand bytes is not overrun. */
    method TailSetOperand(b: Byte)
      requires HasRoom(if TailOpcode() == 0 then 0 else 1)
      modifies `currentOperand, tail`opcode, tail`operands
      ensures HasRoom(0) && (old(HasRoom(2)) ==> HasRoom(if old(TailOpcode()) == 0 then 2 else 1))
      ensures TailOpcode() == (if old(TailOpcode()) == 0 then b else old(TailOpcode()))
      ensures TailOperands() == (if old(TailOpcode()) == 0 then old(TailOperands()) else old(TailOperands()) + [b])
    {
      if tail.opcode == 0 {
        tail.opcode := b;
      } else {
        tail.operands := tail.operands[currentOperand := b];
        currentOperand := currentOperand + 1;
        assert tail.operands[..currentOperand] == old(tail.operands[..currentOperand]) + [b];
      }
    }

    // ---------- scrolling ----------

    /** How many entries are printed. */
    ghost function WindowSize(): int
      reads `currentLength
    {
      Min(NUM_PRINT_ENTRIES + 1, currentLength + 1)
    }

    /** The walk of tracelog_print_entries from the m-th entry: the entries that follow it, and the tail again and
        again once it has been reached. */
    method PrintEntries(ghost m: nat) returns (printed: seq<Entry>)
      requires Valid() && CursorAt(m)
      ensures |printed| == WindowSize() == Min(25, currentLength + 1)
      ensures forall i :: 0 <= i < |printed| ==> printed[i] == all[Min(m + i, |all| - 1)]
    {
      hide Owns, Kept, Selected, Placed;
      printed := [];
      var entry := curSelectedEntry;
      var i := 0;
      while i <= NUM_PRINT_ENTRIES && i <= currentLength
        invariant 0 <= i <= WindowSize() && |printed| == i
        invariant forall k :: 0 <= k < i ==> printed[k] == all[Min(m + k, |all| - 1)]
        invariant entry == all[Min(m + i, |all| - 1)]
      {
        ghost var at := Min(m + i, |all| - 1);
        assert entry == all[at];
        printed := printed + [entry];
        if entry != tail {
          assert at < |all| - 1 && all[at].next == all[at + 1];
          entry := entry.next;
        }
        i := i + 1;
      }
    }

    /** The two assignments of a scroll. */
    method PutCursor(entry: Entry, index: int)
      requires Placed(memory) && Linked() && Owns() && Kept()
      modifies `curSelectedEntry, `curSelectedIndex
      ensures Placed(memory) && Linked() && Owns() && Kept() && curSelectedEntry == entry && curSelectedIndex == index
    {
      hide Placed, Linked, Owns, Kept;
      curSelectedEntry := entry;
      curSelectedIndex := index;
    }

    /** The cursor moves to the entry before or behind it, and its index with it. */
    method MoveCursor(ghost m: nat, step: int, entry: Entry)
      requires Valid() && CursorAt(m) && (step == 1 || step == -1) && evicted <= m + step < |all| && entry == all[m + step]
      requires curSelectedIndex + step <= Max(0, currentLength - NUM_PRINT_ENTRIES)
      modifies `curSelectedEntry, `curSelectedIndex
      ensures Valid() && CursorAt(m + step) && curSelectedIndex == old(curSelectedIndex) + step
      ensures old(Quiet()) ==> Quiet()
    {
      AfterMove(m, step);
      hide Placed, Linked, Owns, Kept, InMemory, QuietIn;
      PutCursor(entry, curSelectedIndex + step);
    }

    /** scroll_down: the cursor moves on if its index says that the window is not at the end. Then there must be a next
        entry. */
    method ScrollDown(ghost m: nat) returns (printed: seq<Entry>)
      requires Valid() && CursorAt(m) && (curSelectedIndex + NUM_PRINT_ENTRIES < currentLength ==> m + 1 < |all|)
      modifies `curSelectedEntry, `curSelectedIndex
      ensures var step := if old(curSelectedIndex) + NUM_PRINT_ENTRIES < currentLength then 1 else 0;
        && Valid() && CursorAt(m + step) && curSelectedIndex == old(curSelectedIndex) + step && |printed| == WindowSize()
        && forall i :: 0 <= i < |printed| ==> printed[i] == all[Min(m + step + i, |all| - 1)]
      ensures old(Quiet()) ==> Quiet()
    {
      hide Valid, Quiet, CursorAt;
      Neighbours(m);
      ghost var at := m;
      if curSelectedIndex + NUM_PRINT_ENTRIES < currentLength {
        at := m + 1;
        MoveCursor(m, 1, curSelectedEntry.next);
      }
      printed := PrintEntries(at);
    }

    /** scroll_up: the cursor moves back unless it is on the first entry of the list. */
    method ScrollUp(ghost m: nat) returns (printed: seq<Entry>)
      requires Valid() && CursorAt(m)
      modifies `curSelectedEntry, `curSelectedIndex
      ensures var step := if m > evicted then 1 else 0;
        && Valid() && CursorAt(m - step) && curSelectedIndex == old(curSelectedIndex) - step && |printed| == WindowSize()
        && forall i :: 0 <= i < |printed| ==> printed[i] == all[Min(m - step + i, |all| - 1)]
      ensures old(Quiet()) ==> Quiet()
    {
      hide Valid, Quiet, CursorAt;
      Neighbours(m);
      ghost var at := m;
      if curSelectedEntry != head {
        at := m - 1;
        MoveCursor(m, -1, curSelectedEntry.prev);
      }
      printed := PrintEntries(at);
    }

    /** What is before and behind the cursor's entry. */
    lemma Neighbours(m: nat)
      requires Valid() && CursorAt(m)
      ensures evicted <= m < |all| && curSelectedEntry != null && (curSelectedEntry == head <==> m == evicted)
      ensures m + 1 < |all| ==> curSelectedEntry.next == all[m + 1]
      ensures m > evicted ==> curSelectedEntry.prev == all[m - 1]
      ensures curSelectedIndex <= Max(0, currentLength - NUM_PRINT_ENTRIES)
    {
      if m > evicted {
        NextInList(m - 1);
      }
      if m + 1 < |all| {
        NextInList(m);
      }
    }

    /** The cursor's entry is listed once; before the first eviction it is the one at the index. */
    lemma CursorIsOnce(m: nat)
      requires Valid() && CursorAt(m)
      ensures (forall k :: evicted <= k < |all| && all[k] == curSelectedEntry ==> k == m) && (evicted == 0 ==> m == curSelectedIndex)
    {
    }

    lemma AfterMove(m: nat, step: int)
      requires Valid() && CursorAt(m) && evicted <= m + step < |all|
      ensures Quiet() ==> QuietIn(heap.entries[..], all, evicted, all[m + step], curSelectedIndex + step)
      ensures evicted == 0 ==> m == curSelectedIndex
    {
      CursorIsOnce(m);
      hide QuietIn, Valid;
      if Quiet() {
        QuietMoves(heap.entries[..], all, evicted, curSelectedEntry, curSelectedIndex, m, step);
      }
    }

    /** In a quiet log the cursor's index says, modulo 257, which entry it is on. While the cursor is not moved this is
        the first entry, and after its eviction always the last one that was added 257, 514, ... entries later. */
    lemma CursorFollowsIndex(m: int)
      requires Valid() && Quiet() && evicted <= m < |all| && (m - curSelectedIndex) % CYCLE == 0
      ensures CursorAt(m)
    {
      ListBounds();
      hide Valid, PackedIn, Cyclic;
      FollowedEntry(all, evicted, curSelectedEntry, curSelectedIndex, m);
    }

    lemma UnmovedCursor()
      requires Valid() && Quiet() && all != [] && curSelectedIndex == 0
      ensures CursorAt(LastOfCycle(|all|))
      ensures curSelectedEntry == tail <==> |all| % 257 == 1
    {
      ListBounds();
      TailIsLast();
      var m := LastOfCycle(|all|);
      hide Valid, Quiet;
      CursorFollowsIndex(m);
      CursorIsOnce(m);
    }

    lemma CursorBehind(d: nat)
      requires Valid() && Quiet() && all != [] && d == (|all| - 1 - curSelectedIndex) % CYCLE
      ensures CursorAt(|all| - 1 - d)
    {
      hide Valid, Quiet, IsFull, InMemory, Linked, Owns, Kept;
      ListBounds();
      if evicted == 0 {
        IndexBeforeEviction();
      }
      ResidueOfDifference(|all| - 1, curSelectedIndex);
      CursorFollowsIndex(|all| - 1 - d);
    }

    /** How far the cursor of a quiet log is in front of the newest entry. Only at distance 0 is there no next entry, and
        the newest entry is printed exactly if it is nearer than the window is long. */
    lemma CursorDistance()
      requires Valid() && Quiet() && all != []
      ensures var d := (|all| - 1 - curSelectedIndex) % 257; var m := |all| - 1 - d;
        && CursorAt(m) && (d == 0 <==> curSelectedEntry == tail) && (m + 1 < |all| <==> d > 0)
        && (m + WindowSize() >= |all| <==> d < WindowSize())
    {
      hide Valid, Quiet, WindowSize;
      var d := (|all| - 1 - curSelectedIndex) % CYCLE;
      CursorBehind(d);
      TailIsLast();
      CursorIsOnce(|all| - 1 - d);
    }

    lemma IndexBeforeEviction()
      requires Valid() && all != [] && evicted == 0
      ensures 0 <= curSelectedIndex < |all|
    {
    }

    lemma TailIsLast()
      requires Valid() && all != []
      ensures evicted < |all| && tail == all[|all| - 1] && tail in memory
    {
    }

    /** The neighbours in the list. */
    lemma NextInList(m: int)
      requires Valid() && evicted <= m < |all| - 1
      ensures all[m].next == all[m + 1] && all[m + 1].prev == all[m]
    {
    }

    // ---------- what the invariants mean ----------

    /** The list says what the last entries said: all of them, or 257. */
    lemma ContentsAreLast()
      requires Valid()
      ensures InMemory() && |History()| == |all| && |Contents()| == Min(|all|, 257)
      ensures Contents() == Last(History(), |Contents()|) && (all != [] ==> currentLength == |Contents()| - 1)
    {
      ListBounds();
      HistoryLength();
      hide Valid, InMemory, History, Entry.Said;
      forall i | evicted <= i < |all|
        ensures Contents()[i - evicted] == History()[i]
      {
        HistoryAt(i);
      }
    }

    lemma HistoryLength()
      requires Valid()
      ensures InMemory() && |History()| == |all| && (evicted > 0 ==> currentLength == MAX_LENGTH)
      ensures all != [] ==> currentLength == |all| - evicted - 1
    {
      hide Owns, Selected, Entry.Said;
    }

    /** What an entry of the list says is what the history says of it. */
    lemma HistoryAt(i: nat)
      requires Valid() && evicted <= i < |all|
      ensures InMemory() && i < |History()| && all[i].Said() == History()[i]
    {
      HistoryLength();
      hide Owns, Counted, Selected, Entry.Said;
      assert tail == all[|all| - 1];
      if i < |past| {
        assert all[i].Said() == past[i];
      }
    }

    /** Before the first eviction the cursor is on the entry at its index, there is a next entry whenever scrolling
        down goes on, and the window ends before or at the tail. */
    lemma BeforeEviction()
      requires Valid() && all != [] && evicted == 0
      ensures 0 <= curSelectedIndex <= Max(0, currentLength - NUM_PRINT_ENTRIES) && CursorAt(curSelectedIndex)
      ensures curSelectedIndex + NUM_PRINT_ENTRIES < currentLength ==> curSelectedIndex + 1 < |all|
      ensures curSelectedIndex + WindowSize() <= |all|
    {
      hide Linked, Owns, Kept;
    }

    /** The entries that are printed are all different exactly if the window does not go behind the tail, and the
        newest one is among them exactly if the window reaches the tail. */
    lemma WindowIsDistinct(m: nat, printed: seq<Entry>)
      requires Valid() && CursorAt(m) && |printed| == WindowSize()
      requires forall i :: 0 <= i < |printed| ==> printed[i] == all[Min(m + i, |all| - 1)]
      ensures (forall i, j :: 0 <= i < j < |printed| ==> printed[i] != printed[j]) <==> m + |printed| <= |all|
      ensures tail in printed <==> m + |printed| >= |all|
    {
      hide Owns, Kept, Selected;
      var n := |printed|;
      if m + n > |all| {
        var i := |all| - 1 - m;
        assert printed[i] == all[|all| - 1] && printed[i + 1] == all[|all| - 1];
      }
      if m + n >= |all| {
        assert printed[|all| - 1 - m] == tail;
      }
    }
  }

  /** No block below an entry of the list is free. */
  predicate PackedIn(t: Table, listed: seq<Entry>) {
    forall i :: 0 <= i < |listed| ==> listed[i].block < |t| && NoneFreeBelow(t, listed[i].block)
  }

  predicate NoneFreeBelow(t: Table, block: nat)
    requires block <= |t|
  {
    forall b :: 0 <= b < block ==> !IsFree(t[b])
  }

  const CYCLE := MAX_LENGTH + 1

  /** Every entry is in the block of the one that was added 257 earlier. */
  predicate Cyclic(all: seq<Entry>) {
    forall i :: CYCLE <= i < |all| ==> all[i] == all[i - CYCLE]
  }

  /** The cursor is on an entry of the list, and its index counts the entries from the first one modulo 257. */
  ghost predicate Follows(all: seq<Entry>, evicted: nat, cursor: Entry?, index: int) {
    all == [] || exists m :: evicted <= m < |all| && cursor == all[m] && (m - index) % CYCLE == 0
  }

  /** What a table and a list become when an entry is added. */
  ghost predicate Grows(t: Table, after: Table, all: seq<Entry>, evicted: nat, entry: Entry) {
    && evicted <= |all| <= evicted + CYCLE
    && if |all| < evicted + CYCLE then IsLeastFree(t, entry.block) && after == t[entry.block := ONE_BLOCK]
       else
         && all[evicted].block < |t| && t[all[evicted].block] == ONE_BLOCK
         && IsLeastFree(t[all[evicted].block := FREE], entry.block)
         && after == t[all[evicted].block := FREE][entry.block := ONE_BLOCK]
         && (entry.block == all[evicted].block ==> entry == all[evicted])
  }

  lemma GrowsFrom(t: Table, next: Table, after: Table, all: seq<Entry>, evicted: nat, entry: Entry)
    requires evicted <= |all| <= evicted + CYCLE
    requires |all| == evicted + CYCLE ==>
      all[evicted].block < |t| && t[all[evicted].block] == ONE_BLOCK && (entry.block == all[evicted].block ==> entry == all[evicted])
    requires next == if |all| == evicted + CYCLE then t[all[evicted].block := FREE] else t
    requires IsLeastFree(next, entry.block) && after == next[entry.block := ONE_BLOCK]
    ensures Grows(t, after, all, evicted, entry)
  {
  }

  /** There are blocks for the rest of 257 entries. */
  predicate SuppliedIn(t: Table, length: int) {
    Clean(t) && CountFree(t, 0) + length >= CYCLE
  }

  lemma SuppliedStays(t: Table, after: Table, all: seq<Entry>, evicted: nat, entry: Entry)
    requires Grows(t, after, all, evicted, entry) && Clean(after)
    ensures SuppliedIn(t, |all| - evicted) ==>
      SuppliedIn(after, |all + [entry]| - if |all| == evicted + CYCLE then evicted + 1 else evicted)
  {
    hide SuppliedIn, Grows;
    if SuppliedIn(t, |all| - evicted) {
      SuppliedAfter(t, after, all, evicted, entry);
    }
  }

  lemma SuppliedAfter(t: Table, after: Table, all: seq<Entry>, evicted: nat, entry: Entry)
    requires Grows(t, after, all, evicted, entry) && Clean(after) && SuppliedIn(t, |all| - evicted)
    ensures SuppliedIn(after, |all| + 1 - if |all| == evicted + CYCLE then evicted + 1 else evicted)
  {
    hide IsFree, CountFree;
    EntryFlags();
    if |all| < evicted + CYCLE {
      TakingOneCounts(t, entry.block, 0);
    } else {
      var u := t[all[evicted].block := FREE];
      TakingOneCounts(u, all[evicted].block, 0);
      assert u[all[evicted].block := ONE_BLOCK] == t;
      TakingOneCounts(u, entry.block, 0);
    }
  }

  /** The next entry gets the block that the first one has left, exactly if no block below it is free. */
  lemma TakesEvictedBlock(t: Table, after: Table, all: seq<Entry>, evicted: nat, entry: Entry)
    requires Grows(t, after, all, evicted, entry) && |all| == evicted + CYCLE
    ensures entry == all[evicted] <==> NoneFreeBelow(t, all[evicted].block)
    ensures entry == all[evicted] ==> after == t
  {
    hide IsLeastFree;
    FreedIsNext(t, all[evicted].block, entry.block);
  }

  lemma PackedStays(t: Table, after: Table, all: seq<Entry>, evicted: nat, entry: Entry)
    requires Grows(t, after, all, evicted, entry) && PackedIn(t, all[evicted..])
    ensures PackedIn(after, (all + [entry])[if |all| == evicted + CYCLE then evicted + 1 else evicted..])
    ensures |all| == evicted + CYCLE ==> entry == all[evicted]
  {
    var listed := all[evicted..];
    if |all| == evicted + CYCLE {
      assert listed[0] == all[evicted];
      TakesEvictedBlock(t, after, all, evicted, entry);
      assert (all + [entry])[evicted + 1..] == listed[1..] + [listed[0]];
    } else {
      hide IsFree;
      TakenIsNotFree();
      assert (all + [entry])[evicted..] == listed + [entry];
    }
  }

  lemma FollowsStays(all: seq<Entry>, evicted: nat, entry: Entry, cursor: Entry?, index: int)
    requires evicted <= |all| <= evicted + CYCLE && Follows(all, evicted, cursor, index) && (all == [] ==> index == 0)
    requires |all| == evicted + CYCLE ==> entry == all[evicted]
    ensures var first := if |all| == evicted + CYCLE then evicted + 1 else evicted;
      Follows(all + [entry], first, if all == [] then entry else cursor, index)
  {
    var longer := all + [entry];
    if all == [] {
      assert longer[0] == entry && (0 - index) % CYCLE == 0;
    } else {
      var m :| evicted <= m < |all| && cursor == all[m] && (m - index) % CYCLE == 0;
      if |all| == evicted + CYCLE && m == evicted {
        assert longer[|all|] == cursor && (|all| - index) % CYCLE == 0;
      } else {
        assert longer[m] == cursor;
      }
    }
  }

  /** The last multiple of 257 below n. */
  function LastOfCycle(n: nat): (m: nat)
    requires n > 0
    ensures n - CYCLE <= m < n && m % CYCLE == 0 && (m == n - 1 <==> n % CYCLE == 1)
  {
    (n - 1) - (n - 1) % CYCLE
  }

  lemma SameResidue(a: int, b: int)
    requires -CYCLE < a - b < CYCLE && a % CYCLE == 0 && b % CYCLE == 0
    ensures a == b
  {
    assert a == CYCLE * (a / CYCLE) && b == CYCLE * (b / CYCLE);
  }

  lemma ResidueOfDifference(a: int, b: int)
    ensures var d := (a - b) % CYCLE; (a - d - b) % CYCLE == 0 && (0 <= a - b < CYCLE ==> d == a - b)
  {
    var q := (a - b) / CYCLE;
    assert a - (a - b) % CYCLE - b == CYCLE * q;
  }

  lemma FollowedEntry(all: seq<Entry>, evicted: nat, cursor: Entry?, index: int, m: int)
    requires Follows(all, evicted, cursor, index) && evicted <= m < |all| <= evicted + CYCLE && (m - index) % CYCLE == 0
    ensures cursor == all[m]
  {
    var k :| evicted <= k < |all| && cursor == all[k] && (k - index) % CYCLE == 0;
    SameResidue(m - index, k - index);
  }

  ghost predicate QuietIn(t: Table, all: seq<Entry>, evicted: nat, cursor: Entry?, index: int) {
    && evicted <= |all| && (all == [] ==> index == 0)
    && PackedIn(t, all[evicted..]) && Cyclic(all) && Follows(all, evicted, cursor, index)
  }

  /** An entry that is added when nothing else has freed blocks keeps it so. */
  lemma QuietStays(t: Table, after: Table, all: seq<Entry>, evicted: nat, entry: Entry, cursor: Entry?, index: int)
    requires Grows(t, after, all, evicted, entry) && (evicted > 0 ==> |all| == evicted + CYCLE)
    ensures QuietIn(t, all, evicted, cursor, index) ==>
      QuietIn(after, all + [entry], if |all| == evicted + CYCLE then evicted + 1 else evicted,
              if all == [] then entry else cursor, index)
  {
    if QuietIn(t, all, evicted, cursor, index) {
      PackedStays(t, after, all, evicted, entry);
      FollowsStays(all, evicted, entry, cursor, index);
    }
  }

  /** A step of the cursor along the list keeps its index in step. */
  lemma QuietMoves(t: Table, all: seq<Entry>, evicted: nat, cursor: Entry?, index: int, m: nat, step: int)
    requires QuietIn(t, all, evicted, cursor, index) && evicted <= m < |all| && evicted <= m + step < |all|
    requires forall k :: evicted <= k < |all| && all[k] == cursor ==> k == m
    ensures QuietIn(t, all, evicted, all[m + step], index + step)
  {
    hide PackedIn, Cyclic;
    var k :| evicted <= k < |all| && cursor == all[k] && (k - index) % CYCLE == 0;
    assert (m + step - (index + step)) % CYCLE == 0;
  }

  lemma FreedTable(t: Table, block: nat)
    requires block < |t| && Clean(t)
    ensures HasFree(t[block := FREE]) && Clean(t[block := FREE])
  {
    EntryFlags();
    hide IsFree;
    assert IsFree(t[block := FREE][block]);
  }
}

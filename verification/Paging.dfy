/** The kernel heap with its memory, and the page tables that are built in it and freed again. */
module Paging {
  import opened Bits
  import opened Status
  import opened HeapTable
  import Heap
  import opened SingleBlocks
  import opened PageTables

  // ---------- tables as values ----------

  /** The first n entries of the i-th fresh table. */
  function IdentityEntries(i: nat, n: nat, flags: Byte): (entries: seq<Uint32>)
    requires i < ENTRIES && n <= ENTRIES
    ensures |entries| == n && forall b :: 0 <= b < n ==> entries[b] == IdentityEntry(ENTRIES * i + b, flags)
  {
    if n == 0 then [] else IdentityEntries(i, n - 1, flags) + [IdentityEntry(ENTRIES * i + n - 1, flags)]
  }

  function IdentityTable(i: nat, flags: Byte): Page
    requires i < ENTRIES
  {
    IdentityEntries(i, ENTRIES, flags)
  }

  function DirectoryEntry(table: Uint32, flags: Byte): Uint32 {
    Or32(Or32(table, flags), IS_WRITEABLE)
  }

  /** A directory entry is its table's address, all of the flags, and the bit for writing. */
  lemma DirectoryEntryIs(table: Uint32, flags: Byte)
    requires table % PAGE_SIZE == 0
    ensures DirectoryEntry(table, flags) == table + WriteableFlags(flags)
  {
    hide Or, WriteableFlags;
    OrFlags(table, flags);
    OrMoreFlags(table, flags, IS_WRITEABLE);
    OrWriteable(flags);
  }

  /** The entry of a page in a fresh table is the address of the page itself, and the flags. */
  lemma IdentityIs(page: nat, flags: Byte)
    requires page < ENTRIES * ENTRIES
    ensures IdentityEntry(page, flags) == page * 4096 + flags
  {
    hide Or32;
    OrFlags(page * PAGE_SIZE, flags);
  }

  /** The first n tables have been filled and entered in the directory. */
  ghost predicate TablesBuilt(m: Memory, directory: nat, tables: seq<nat>, flags: Byte)
    requires m.Valid() && directory < |m.pages| && |tables| <= ENTRIES
  {
    forall i :: 0 <= i < |tables| ==>
      tables[i] < |m.pages| && tables[i] != directory
      && m.pages[tables[i]] == IdentityTable(i, flags)
      && m.pages[directory][i] == DirectoryEntry(m.Address(tables[i]), flags)
  }

  lemma BuildOneMore(m: Memory, directory: nat, tables: seq<nat>, flags: Byte, table: nat, u: Memory)
    requires m.Valid() && directory < |m.pages| && |tables| < ENTRIES && TablesBuilt(m, directory, tables, flags)
    requires table < |m.pages| && table != directory && table !in tables
    requires u == m.(pages := m.pages[table := IdentityTable(|tables|, flags)])
                  .Store(directory, |tables|, DirectoryEntry(m.Address(table), flags))
    ensures TablesBuilt(u, directory, tables + [table], flags)
  {
    hide IdentityTable, DirectoryEntry;
  }

  /** Tables that have been built make a chunk, and every page has its identity entry. */
  lemma BuiltIsChunk(m: Memory, l: Layout, flags: Byte)
    requires m.Valid() && l.Fits(|m.pages|) && TablesBuilt(m, l.directory, l.tables, flags)
    requires m.pages[l.chunk][0] == m.Address(l.directory)
    ensures HasChunk(m, l) && DirectoryHas(m, l, flags)
    ensures forall page: nat :: page < ENTRIES * ENTRIES ==> Lookup(m, l, page) == page * 4096 + flags
  {
    hide IdentityEntry, And32, Or32;
    forall i | 0 <= i < ENTRIES
      ensures And32(m.pages[l.directory][i], ADDRESS_MASK) == m.Address(l.tables[i])
      ensures m.pages[l.directory][i] == m.Address(l.tables[i]) + WriteableFlags(flags)
    {
      MaskRecoversTable(m.Address(l.tables[i]), flags);
      DirectoryEntryIs(m.Address(l.tables[i]), flags);
    }
    forall page: nat | page < ENTRIES * ENTRIES
      ensures Lookup(m, l, page) == page * 4096 + flags
    {
      IdentityIs(page, flags);
      assert page == ENTRIES * (page / ENTRIES) + page % ENTRIES;
      assert m.pages[l.tables[page / ENTRIES]] == IdentityTable(page / ENTRIES, flags);
    }
  }

  /** What has been built stays, if only another block changes. */
  lemma BuiltApart(m: Memory, u: Memory, l: Layout, flags: Byte)
    requires m.Valid() && u.Valid() && |u.pages| == |m.pages| && u.saddr == m.saddr && l.directory < |m.pages|
    requires |l.tables| <= ENTRIES && TablesBuilt(m, l.directory, l.tables, flags)
    requires l.chunk !in {l.directory} + SetOf(l.tables)
    requires forall b :: 0 <= b < |m.pages| && b != l.chunk ==> u.pages[b] == m.pages[b]
    ensures TablesBuilt(u, l.directory, l.tables, flags)
  {
    hide IdentityTable, DirectoryEntry;
    assert forall i :: 0 <= i < |l.tables| ==> l.tables[i] in SetOf(l.tables);
  }

  lemma ChunkNamesDirectory(m: Memory, l: Layout)
    requires HasChunk(m, l)
    ensures m.Valid() && l.Fits(|m.pages|) && m.pages[l.chunk][0] == m.Address(l.directory)
  {
  }

  class Kernel {
    const heap: Heap.Heap
    var memory: Memory

    ghost predicate Valid()
      reads this, heap, heap.entries
    {
      memory.Valid() && heap.saddr == memory.saddr && heap.entries.Length == |memory.pages|
    }

    constructor (heap: Heap.Heap, memory: Memory)
      requires memory.Valid() && heap.saddr == memory.saddr && heap.entries.Length == |memory.pages|
      ensures this.heap == heap && this.memory == memory && Valid()
    {
      this.heap := heap;
      this.memory := memory;
    }

    /** kzalloc of at most a block: the first free block, with its first bytes set to 0. */
    method Kzalloc(size: Uint32) returns (ptr: nat, ghost block: nat)
      requires Valid() && Clean(heap.entries[..]) && 0 < size <= BLOCK_SIZE && size % 4 == 0
      modifies this`memory, heap.entries
      ensures Valid() && Clean(heap.entries[..]) && memory.saddr == old(memory.saddr)
      ensures |memory.pages| == |old(memory.pages)|
      ensures ptr == 0 ==> heap.entries[..] == old(heap.entries[..]) && memory == old(memory) && CountFree(old(heap.entries[..]), 0) == 0
      ensures ptr != 0 ==>
        && block < |memory.pages| && ptr == memory.Address(block)
        && old(heap.entries[..])[block] == FREE && heap.entries[..] == old(heap.entries[..])[block := ONE_BLOCK]
        && CountFree(heap.entries[..], 0) == CountFree(old(heap.entries[..]), 0) - 1
        && (forall b :: 0 <= b < |memory.pages| && b != block ==> memory.pages[b] == old(memory.pages)[b])
        && forall w :: 0 <= w < size / 4 ==> memory.pages[block][w] == 0
    {
      hide CountFree;
      ghost var t := heap.entries[..];
      OneBlockFits(t);
      if Fits(t, 1) { OneBlockIsTaken(t); }
      block := 0;
      assert Heap.BlocksFor(size) == 1;
      ptr := heap.Malloc(size);
      if ptr == 0 {
        return;
      }
      block := StartBlock(t, 1);
      var index := BlockOf(memory, ptr);
      assert index == block;
      for w := 0 to size / 4
        invariant Valid() && memory.saddr == old(memory.saddr) && |memory.pages| == |old(memory.pages)|
        invariant heap.entries[..] == t[block := ONE_BLOCK]
        invariant forall b :: 0 <= b < |memory.pages| && b != block ==> memory.pages[b] == old(memory.pages)[b]
        invariant forall k :: 0 <= k < w ==> memory.pages[block][k] == 0
      {
        memory := memory.Store(index, w, 0);
      }
    }

    method Kfree(ptr: nat)
      requires Valid() && memory.saddr <= ptr
      modifies heap.entries
      ensures Valid() && heap.entries[..] == FreeFrom(old(heap.entries[..]), BlockOf(memory, ptr))
    {
      heap.Free(ptr);
    }

    /** The inner loop of paging_new_4gb: a table of identity entries. */
    method FillTable(block: nat, ghost i: nat, offset: Uint32, flags: Byte)
      requires Valid() && block < |memory.pages| && i < ENTRIES && offset == i * ENTRIES * PAGE_SIZE
      modifies this`memory
      ensures Valid() && memory == old(memory).(pages := old(memory).pages[block := IdentityTable(i, flags)])
    {
      hide Or32;
      ghost var m := memory;
      for b := 0 to ENTRIES
        invariant Valid() && |memory.pages| == |m.pages|
        invariant memory == m.(pages := m.pages[block := memory.pages[block]])
        invariant memory.pages[block][..b] == IdentityEntries(i, b, flags)
      {
        assert Or32(offset + b * PAGE_SIZE, flags) == IdentityEntry(ENTRIES * i + b, flags);
        memory := memory.Store(block, b, Or32(offset + b * PAGE_SIZE, flags));
      }
      assert memory.pages[block] == IdentityTable(i, flags);
    }

    /** One round of the outer loop: a new table, filled, and entered in the directory. */
    method AddTable(directory: nat, i: nat, offset: Uint32, flags: Byte,
        ghost tables: seq<nat>) returns (ghost table: nat)
      requires Valid() && Clean(heap.entries[..]) && CountFree(heap.entries[..], 0) > 0
      requires i < ENTRIES && offset == i * ENTRIES * PAGE_SIZE && |tables| == i && directory < |memory.pages|
      requires heap.entries[directory] == ONE_BLOCK && forall k :: 0 <= k < i ==> tables[k] < |memory.pages| && heap.entries[tables[k]] == ONE_BLOCK
      requires TablesBuilt(memory, directory, tables, flags)
      modifies this`memory, heap.entries
      ensures Valid() && Clean(heap.entries[..]) && memory.saddr == old(memory.saddr)
      ensures |memory.pages| == |old(memory.pages)|
      ensures table < |memory.pages| && old(heap.entries[..])[table] == FREE
      ensures heap.entries[..] == old(heap.entries[..])[table := ONE_BLOCK]
      ensures CountFree(heap.entries[..], 0) == CountFree(old(heap.entries[..]), 0) - 1
      ensures TablesBuilt(memory, directory, tables + [table], flags)
      ensures forall b :: 0 <= b < |memory.pages| && b != directory && b != table ==> memory.pages[b] == old(memory.pages)[b]
    {
      hide CountFree, IdentityTable, DirectoryEntry, Clean;
      ghost var m0 := memory;
      var entry, block := Kzalloc(BLOCK_SIZE);
      table := block;
      ghost var m := memory;
      assert TablesBuilt(m, directory, tables, flags);
      FillTable(BlockOf(memory, entry), i, offset, flags);
      memory := memory.Store(directory, i, DirectoryEntry(entry, flags));
      BuildOneMore(m, directory, tables, flags, table, memory);
    }

    /** The directory of paging_new_4gb, with all its tables. */
    method NewDirectory(flags: Byte) returns (directoryPtr: Uint32, ghost directory: nat, ghost tables: seq<nat>)
      requires Valid() && Clean(heap.entries[..]) && CountFree(heap.entries[..], 0) >= ENTRIES + 2
      modifies this`memory, heap.entries
      ensures Valid() && Clean(heap.entries[..]) && memory.saddr == old(memory.saddr)
      ensures |memory.pages| == |old(memory.pages)| && CountFree(heap.entries[..], 0) > 0
      ensures directory < |memory.pages| && directoryPtr == memory.Address(directory)
      ensures |tables| == ENTRIES && Distinct(tables) && TablesBuilt(memory, directory, tables, flags)
      ensures Marked(old(heap.entries[..]), heap.entries[..], {directory} + SetOf(tables))
      ensures forall b :: 0 <= b < |memory.pages| && b != directory && b !in SetOf(tables) ==> memory.pages[b] == old(memory.pages)[b]
    {
      hide CountFree, IdentityTable, DirectoryEntry, Clean, IdentityEntry, And32;
      ghost var t, n := heap.entries[..], CountFree(heap.entries[..], 0);
      tables := [];
      var pointer, dirBlock := Kzalloc(BLOCK_SIZE);
      directoryPtr, directory := pointer, dirBlock;
      var offset: Uint32 := 0;
      for i := 0 to ENTRIES
        invariant Valid() && Clean(heap.entries[..]) && memory.saddr == old(memory.saddr)
        invariant |memory.pages| == |old(memory.pages)|
        invariant CountFree(heap.entries[..], 0) == n - 1 - i
        invariant |tables| == i && directory < |memory.pages| && directoryPtr == memory.Address(directory)
        invariant i < ENTRIES ==> offset == i * ENTRIES * PAGE_SIZE
        invariant Marked(t, heap.entries[..], {directory} + SetOf(tables))
        invariant TablesBuilt(memory, directory, tables, flags) && Distinct(tables)
        invariant forall b :: 0 <= b < |memory.pages| && b != directory && b !in SetOf(tables) ==> memory.pages[b] == old(memory.pages)[b]
      {
        ghost var table;
        table, tables := AddMarkedTable(BlockOf(memory, directoryPtr), i, offset, flags, tables, t);
        offset := (offset + ENTRIES * PAGE_SIZE) % 0x1_0000_0000;
      }
    }

    /** The same round, with the blocks that have been taken from table t so far. */
    method AddMarkedTable(directory: nat, i: nat, offset: Uint32, flags: Byte, ghost tables: seq<nat>, ghost t: Table)
        returns (ghost table: nat, ghost longer: seq<nat>)
      requires Valid() && Clean(heap.entries[..]) && CountFree(heap.entries[..], 0) > 0
      requires i < ENTRIES && offset == i * ENTRIES * PAGE_SIZE && |tables| == i && directory < |memory.pages|
      requires TablesBuilt(memory, directory, tables, flags) && Distinct(tables)
      requires Marked(t, heap.entries[..], {directory} + SetOf(tables))
      modifies this`memory, heap.entries
      ensures Valid() && Clean(heap.entries[..]) && memory.saddr == old(memory.saddr)
      ensures |memory.pages| == |old(memory.pages)|
      ensures longer == tables + [table] && Distinct(longer) && SetOf(longer) == SetOf(tables) + {table}
      ensures CountFree(heap.entries[..], 0) == CountFree(old(heap.entries[..]), 0) - 1
      ensures TablesBuilt(memory, directory, longer, flags) && Marked(t, heap.entries[..], {directory} + SetOf(longer))
      ensures forall b :: 0 <= b < |memory.pages| && b != directory && b != table ==> memory.pages[b] == old(memory.pages)[b]
    {
      hide CountFree, IdentityTable, DirectoryEntry, Clean, IdentityEntry, And32;
      ghost var u := heap.entries[..];
      assert forall k :: 0 <= k < i ==> tables[k] in SetOf(tables);
      assert forall k :: k in {directory} + SetOf(tables) ==> u[k] == ONE_BLOCK;
      hide Marked, SetOf, TablesBuilt;
      table := AddTable(directory, i, offset, flags, tables);
      MarkOneMore(t, u, {directory} + SetOf(tables), table);
      SetOfAppend(tables, table);
      longer := tables + [table];
      assert {directory} + SetOf(tables) + {table} == {directory} + SetOf(longer);
    }

    /** paging_new_4gb, on a heap that has the blocks it needs. */
    method New4gb(flags: Byte) returns (chunkPtr: nat, ghost l: Layout)
      requires Valid() && Clean(heap.entries[..]) && CountFree(heap.entries[..], 0) >= ENTRIES + 2
      modifies this`memory, heap.entries
      ensures Valid() && memory.saddr == old(memory.saddr) && |memory.pages| == |old(memory.pages)|
      ensures HasChunk(memory, l) && chunkPtr == memory.Address(l.chunk)
      ensures Marked(old(heap.entries[..]), heap.entries[..], l.Blocks())
      ensures forall page: nat :: page < ENTRIES * ENTRIES ==> Lookup(memory, l, page) == page * 4096 + flags
      ensures DirectoryHas(memory, l, flags)
      ensures forall b :: 0 <= b < |memory.pages| && b !in l.Blocks() ==> memory.pages[b] == old(memory.pages)[b]
    {
      hide CountFree, IdentityTable, DirectoryEntry, Clean, IdentityEntry, And32, HasChunk, DirectoryHas, Lookup;
      ghost var t := heap.entries[..];
      var directoryPtr;
      ghost var directory, tables;
      directoryPtr, directory, tables := NewDirectory(flags);
      ghost var u, m := heap.entries[..], memory;
      var ptr, chunk := Kzalloc(4);
      chunkPtr := ptr;
      MarkOneMore(t, u, {directory} + SetOf(tables), chunk);
      memory := memory.Store(BlockOf(memory, ptr), 0, directoryPtr);
      l := Layout(chunk, directory, tables);
      assert l.Blocks() == {directory} + SetOf(tables) + {chunk};
      hide Marked;
      BuiltApart(m, memory, l, flags);
      BuiltIsChunk(memory, l, flags);
    }

    /** paging_set through the directory at an address. */
    method Set(directory: nat, virt: Uint32, val: Uint32, ghost l: Layout) returns (res: int)
      requires Valid() && HasChunk(memory, l) && directory == memory.Address(l.directory)
      modifies this`memory
      ensures Valid() && HasChunk(memory, l)
      ensures virt % PAGE_SIZE != 0 ==> res == -EINVARG && memory == old(memory)
      ensures virt % PAGE_SIZE == 0 ==> res == 0 && memory == SetEntry(old(memory), l, virt / PAGE_SIZE, val)
    {
      if virt % PAGE_SIZE != 0 {
        return -EINVARG;
      }
      hide And32;
      var directoryIndex, tableIndex := DirectoryIndex(virt), TableIndex(virt);
      IndexesArePageNumber(virt);
      var entry := memory.pages[BlockOf(memory, directory)][directoryIndex];
      var table := And32(entry, ADDRESS_MASK);
      assert table == memory.Address(l.tables[directoryIndex]);
      SetIsPointUpdate(memory, l, virt / PAGE_SIZE, val);
      memory := memory.Store(BlockOf(memory, table), tableIndex, val);
      res := 0;
    }

    /** One round of the loop of paging_free_4gb. */
    method FreeTable(directoryPtr: nat, i: nat, ghost l: Layout, ghost t: Table)
      requires Valid() && HasChunk(memory, l) && directoryPtr == memory.Address(l.directory) && i < ENTRIES
      requires Cleared(t, heap.entries[..], SetOf(l.tables[..i]))
      requires forall k :: i <= k < ENTRIES ==> heap.entries[l.tables[k]] == ONE_BLOCK
      modifies heap.entries
      ensures Valid() && Cleared(t, heap.entries[..], SetOf(l.tables[..i + 1]))
      ensures forall k :: i + 1 <= k < ENTRIES ==> heap.entries[l.tables[k]] == ONE_BLOCK
    {
      hide And32, FreeFrom, SetOf;
      var entry := memory.pages[BlockOf(memory, directoryPtr)][i];
      var table := And32(entry, ADDRESS_MASK);
      FreeOne(heap.entries[..], l.tables[i]);
      Kfree(table);
      assert l.tables[..i + 1] == l.tables[..i] + [l.tables[i]];
      SetOfAppend(l.tables[..i], l.tables[i]);
    }

    /** The loop of paging_free_4gb: every table that the directory names. */
    method FreeTables(directoryPtr: nat, ghost l: Layout)
      requires Valid() && HasChunk(memory, l) && directoryPtr == memory.Address(l.directory)
      requires forall i :: 0 <= i < ENTRIES ==> heap.entries[l.tables[i]] == ONE_BLOCK
      modifies heap.entries
      ensures Valid() && Cleared(old(heap.entries[..]), heap.entries[..], SetOf(l.tables))
    {
      assert SetOf(l.tables[..0]) == {};
      hide And32, FreeFrom, SetOf, HasChunk;
      ChunkNamesDirectory(memory, l);
      ghost var t := heap.entries[..];
      for i := 0 to ENTRIES
        invariant Valid() && Cleared(t, heap.entries[..], SetOf(l.tables[..i]))
        invariant forall k :: i <= k < ENTRIES ==> heap.entries[l.tables[k]] == ONE_BLOCK
      {
        FreeTable(directoryPtr, i, l, t);
      }
      assert l.tables[..ENTRIES] == l.tables;
    }

    /** paging_free_4gb: the tables, the directory and the chunk. */
    method Free4gb(chunkPtr: nat, ghost l: Layout)
      requires Valid() && HasChunk(memory, l) && chunkPtr == memory.Address(l.chunk)
      requires forall b :: b in l.Blocks() ==> b < heap.entries.Length && heap.entries[b] == ONE_BLOCK
      modifies heap.entries
      ensures Valid() && Cleared(old(heap.entries[..]), heap.entries[..], l.Blocks())
    {
      hide And32, FreeFrom;
      var chunk := BlockOf(memory, chunkPtr);
      var directoryPtr := memory.pages[chunk][0];
      assert l.Blocks() == SetOf(l.tables) + {l.directory} + {l.chunk};
      assert forall i :: 0 <= i < ENTRIES ==> l.tables[i] in l.Blocks();
      FreeTables(directoryPtr, l);
      FreeOne(heap.entries[..], l.directory);
      Kfree(directoryPtr);
      FreeOne(heap.entries[..], l.chunk);
      Kfree(chunkPtr);
    }
  }

  /** The sets that are carried out: those of aligned addresses. */
  function Settings(virts: seq<Uint32>, vals: seq<Uint32>): (sets: seq<Setting>)
    requires |virts| == |vals|
    ensures InRange(sets)
  {
    if virts == [] then []
    else
      var last := |virts| - 1;
      var before := Settings(virts[..last], vals[..last]);
      if virts[last] % PAGE_SIZE != 0 then before else before + [Setting(virts[last] / PAGE_SIZE, vals[last])]
  }

  lemma {:induction false} LastSetAppend(sets: seq<Setting>, s: Setting, page: nat, before: Uint32)
    ensures LastSet(sets + [s], page, before) == if s.page == page then s.value else LastSet(sets, page, before)
    decreases |sets|
  {
    if sets == [] {
      assert [] + [s] == [s];
    } else {
      assert (sets + [s])[1..] == sets[1..] + [s];
      LastSetAppend(sets[1..], s, page, if sets[0].page == page then sets[0].value else before);
    }
  }

  lemma NoSettings(virts: seq<Uint32>, vals: seq<Uint32>)
    requires |virts| == |vals|
    ensures Settings(virts[..0], vals[..0]) == []
  {
    assert virts[..0] == [] && vals[..0] == [];
  }

  lemma SettingsAppend(virts: seq<Uint32>, vals: seq<Uint32>, i: nat)
    requires |virts| == |vals| && i < |virts|
    ensures Settings(virts[..i + 1], vals[..i + 1]) ==
            if virts[i] % PAGE_SIZE != 0 then Settings(virts[..i], vals[..i])
            else Settings(virts[..i], vals[..i]) + [Setting(virts[i] / PAGE_SIZE, vals[i])]
  {
    assert virts[..i + 1][..i] == virts[..i] && vals[..i + 1][..i] == vals[..i];
  }

  /** The last entry set for a page, or the page itself with the flags. */
  function EntryAfter(sets: seq<Setting>, page: nat, flags: Byte): Uint32
    requires page < ENTRIES * ENTRIES
  {
    LastSet(sets, page, page * 4096 + flags)
  }

  /** What is found for every page is that. */
  ghost predicate MapsAs(m: Memory, l: Layout, sets: seq<Setting>, flags: Byte) {
    && HasChunk(m, l) && DirectoryHas(m, l, flags)
    && forall page: nat :: page < ENTRIES * ENTRIES ==> Lookup(m, l, page) == EntryAfter(sets, page, flags)
  }

  /** What the processor makes of a linear address: the entry's page if it and the directory are present. */
  function Translated(sets: seq<Setting>, flags: Byte, linear: Uint32): Translation {
    var e := EntryAfter(sets, linear / 4096, flags);
    if flags % 2 == 1 && e % 2 == 1
    then Physical(e - e % 4096 + linear % 4096, e / 2 % 2 == 1, flags / 4 % 2 == 1 && e / 4 % 2 == 1) else Fault
  }

  lemma MapsTranslate(m: Memory, l: Layout, sets: seq<Setting>, flags: Byte, linear: Uint32)
    requires MapsAs(m, l, sets, flags)
    ensures Translate(m, m.Address(l.directory), linear) == Translated(sets, flags, linear)
  {
    hide Translate, LastSet, Lookup, HasChunk, DirectoryHas;
    DirectoryFits(m, l, flags);
    TranslateIsLookup(m, l, flags, linear);
  }

  lemma DirectoryFits(m: Memory, l: Layout, flags: Byte)
    requires DirectoryHas(m, l, flags)
    ensures m.Valid() && l.Fits(|m.pages|)
  {
  }

  /** In a new address space with present pages every linear address is its own physical address, and is writeable and
      open to the user as the flags say. */
  lemma NewSpaceIsIdentity(m: Memory, l: Layout, flags: Byte, linear: Uint32)
    requires MapsAs(m, l, [], flags) && flags % 2 == 1
    ensures Translate(m, m.Address(l.directory), linear) == Physical(linear, flags / 2 % 2 == 1, flags / 4 % 2 == 1)
  {
    hide MapsAs, Translate;
    MapsTranslate(m, l, [], flags, linear);
    PageBits(linear / 4096, flags);
  }

  lemma PageBits(page: nat, flags: Byte)
    ensures var e := page * 4096 + flags;
      e % 4096 == flags && e % 2 == flags % 2 && e / 2 % 2 == flags / 2 % 2 && e / 4 % 2 == flags / 4 % 2
  {
    PageResidue(page, flags);
    assert page * 4096 + flags == 8 * (512 * page) + flags;
    LowBitsOf(512 * page, flags);
  }

  lemma PageResidue(page: nat, flags: Byte)
    ensures (page * 4096 + flags) % 4096 == flags
  {
  }

  lemma SetKeepsDirectory(m: Memory, l: Layout, flags: Byte, page: nat, value: Uint32)
    requires DirectoryHas(m, l, flags) && page < ENTRIES * ENTRIES
    ensures DirectoryHas(SetEntry(m, l, page, value), l, flags)
  {
    hide WriteableFlags;
  }

  lemma MapsOneMore(m: Memory, l: Layout, sets: seq<Setting>, flags: Byte, page: nat, value: Uint32)
    requires MapsAs(m, l, sets, flags) && page < ENTRIES * ENTRIES
    ensures MapsAs(SetEntry(m, l, page, value), l, sets + [Setting(page, value)], flags)
  {
    DirectoryFits(m, l, flags);
    hide SetEntry, Lookup, And32, LastSet, DirectoryHas, HasChunk;
    SetIsPointUpdate(m, l, page, value);
    SetKeepsDirectory(m, l, flags, page, value);
    var u := SetEntry(m, l, page, value);
    forall q: nat | q < ENTRIES * ENTRIES
      ensures Lookup(u, l, q) == EntryAfter(sets + [Setting(page, value)], q, flags)
    {
      LastSetAppend(sets, Setting(page, value), q, q * 4096 + flags);
    }
  }

  /** A new address space and any number of sets in it: every page has the last entry set for it, or the
      identity entry. */
  method NewThenSets(kernel: Kernel, flags: Byte, virts: seq<Uint32>, vals: seq<Uint32>) returns (chunkPtr: nat,
      ghost l: Layout)
    requires |virts| == |vals|
    requires kernel.Valid() && Clean(kernel.heap.entries[..]) && CountFree(kernel.heap.entries[..], 0) >= ENTRIES + 2
    modifies kernel`memory, kernel.heap.entries
    ensures kernel.Valid() && MapsAs(kernel.memory, l, Settings(virts, vals), flags)
    ensures chunkPtr == kernel.memory.Address(l.chunk)
    ensures kernel.memory.pages[l.chunk][0] == kernel.memory.Address(l.directory)
    ensures TranslatesAs(kernel.memory, l, Settings(virts, vals), flags)
    ensures Marked(old(kernel.heap.entries[..]), kernel.heap.entries[..], l.Blocks())
  {
    hide HasChunk, DirectoryHas, CountFree, Clean, And32, Settings, MapsAs, TranslatesAs;
    NoSettings(virts, vals);
    chunkPtr, l := kernel.New4gb(flags);
    ghost var u := kernel.heap.entries[..];
    ChunkNamesDirectory(kernel.memory, l);
    MapsNothing(kernel.memory, l, flags);
    var directory := kernel.memory.pages[BlockOf(kernel.memory, chunkPtr)][0];
    for i := 0 to |virts|
      invariant kernel.Valid() && HasChunk(kernel.memory, l) && l.Fits(|kernel.memory.pages|)
      invariant directory == kernel.memory.Address(l.directory) && chunkPtr == kernel.memory.Address(l.chunk)
      invariant MapsAs(kernel.memory, l, Settings(virts[..i], vals[..i]), flags) && kernel.heap.entries[..] == u
    {
      SettingsAppend(virts, vals, i);
      if virts[i] % PAGE_SIZE == 0 {
        MapsOneMore(kernel.memory, l, Settings(virts[..i], vals[..i]), flags, virts[i] / PAGE_SIZE, vals[i]);
      }
      var res := kernel.Set(directory, virts[i], vals[i], l);
      ChunkNamesDirectory(kernel.memory, l);
    }
    assert virts[..|virts|] == virts && vals[..|vals|] == vals;
    ChunkNamesDirectory(kernel.memory, l);
    AllTranslate(kernel.memory, l, Settings(virts, vals), flags);
  }

  /** The processor translates every linear address so. */
  ghost predicate TranslatesAs(m: Memory, l: Layout, sets: seq<Setting>, flags: Byte) {
    && m.Valid() && l.Fits(|m.pages|)
    && forall linear: Uint32 :: Translate(m, m.Address(l.directory), linear) == Translated(sets, flags, linear)
  }

  lemma AllTranslate(m: Memory, l: Layout, sets: seq<Setting>, flags: Byte)
    requires MapsAs(m, l, sets, flags)
    ensures TranslatesAs(m, l, sets, flags)
  {
    DirectoryFits(m, l, flags);
    hide MapsAs, Translate, Translated;
    forall linear: Uint32
      ensures Translate(m, m.Address(l.directory), linear) == Translated(sets, flags, linear)
    {
      MapsTranslate(m, l, sets, flags, linear);
    }
  }

  lemma MapsNothing(m: Memory, l: Layout, flags: Byte)
    requires HasChunk(m, l) && DirectoryHas(m, l, flags)
    requires forall page: nat :: page < ENTRIES * ENTRIES ==> Lookup(m, l, page) == page * 4096 + flags
    ensures MapsAs(m, l, [], flags)
  {
    hide Lookup, DirectoryHas, HasChunk, And32;
  }

  /** A new address space, any number of sets in it, and its release: the heap's table is what it was,
      byte for byte. */
  method NewSetFree(kernel: Kernel, flags: Byte, virts: seq<Uint32>, vals: seq<Uint32>)
    requires |virts| == |vals|
    requires kernel.Valid() && Clean(kernel.heap.entries[..]) && CountFree(kernel.heap.entries[..], 0) >= ENTRIES + 2
    modifies kernel`memory, kernel.heap.entries
    ensures kernel.heap.entries[..] == old(kernel.heap.entries[..])
  {
    hide DirectoryHas, CountFree, Clean, And32, Lookup, LastSet, Settings, TranslatesAs;
    ghost var t := kernel.heap.entries[..];
    var chunkPtr, l := NewThenSets(kernel, flags, virts, vals);
    ghost var u := kernel.heap.entries[..];
    kernel.Free4gb(chunkPtr, l);
    MarkedThenCleared(t, u, kernel.heap.entries[..], l.Blocks());
  }
}

/** Two-level page tables in the blocks of the heap, as values: entries, masks, and the map from page
    number to entry that a directory stands for. */
module PageTables {
  import opened Bits
  import opened HeapTable
  import opened Status

  const PAGE_SIZE := 4096
  const ENTRIES := 1024
  const ADDRESS_MASK: Uint32 := 0xFFFF_F000
  const IS_WRITEABLE: Byte := 2

  type Page = p: seq<Uint32> | |p| == ENTRIES witness seq(ENTRIES, _ => 0)

  lemma Pow2Of32()
    ensures Pow2(32) == 0x1_0000_0000
  {
    assert Pow2(8) == 0x100;
    assert Pow2(16) == 0x1_0000;
    assert Pow2(24) == 0x100_0000;
  }

  function Or32(x: Uint32, y: Uint32): Uint32 {
    Pow2Of32();
    Bounded(x, y, 32);
    Or(x, y)
  }

  function And32(x: Uint32, y: Uint32): Uint32 {
    Pow2Of32();
    Bounded(x, y, 32);
    And(x, y)
  }

  lemma PowersOfPage()
    ensures Pow2(12) == PAGE_SIZE && Pow2(20) == 0x10_0000
  {
    assert Pow2(4) == 16;
    assert Pow2(8) == 0x100;
    assert Pow2(16) == 0x1_0000;
  }

  /** Flag bits in the low part of an aligned address do not reach its high part. */
  lemma OrFlags(address: Uint32, flags: Byte)
    requires address % PAGE_SIZE == 0
    ensures Or32(address, flags) == address + flags
  {
    hide Or, Shl, Pow2;
    var a := address / PAGE_SIZE;
    ShlBy12(a);
    PowersOfPage();
    OrLowBits(a, 0, flags, 12);
    OrZero(flags);
  }

  lemma OrMoreFlags(address: Uint32, flags: Byte, more: Byte)
    requires address % PAGE_SIZE == 0
    ensures Or(flags, more) < PAGE_SIZE && Or(address + flags, more) == address + Or(flags, more)
  {
    hide Or, Shl, Pow2;
    var a := address / PAGE_SIZE;
    ShlBy12(a);
    PowersOfPage();
    OrLowBits(a, flags, more, 12);
    Bounded(flags, more, 12);
  }

  /** The mask keeps the address and drops what is below a page. */
  lemma MaskDropsFlags(address: Uint32, low: nat)
    requires address % PAGE_SIZE == 0 && low < PAGE_SIZE
    ensures And(address + low, ADDRESS_MASK) == address
  {
    hide And, Shl, Pow2;
    var a := address / PAGE_SIZE;
    ShlBy12(a);
    ShlBy12(0xF_FFFF);
    PowersOfPage();
    AndDropsLow(a, low, 0xF_FFFF, 12);
    AndKeeps(a, 20);
    ShlBy12(And(a, 0xF_FFFF));
  }

  /** Masking a directory entry gives back the address of its table, whatever the flags are. */
  lemma MaskRecoversTable(address: Uint32, flags: Byte)
    requires address % PAGE_SIZE == 0
    ensures And32(Or32(Or32(address, flags), IS_WRITEABLE), ADDRESS_MASK) == address
  {
    hide And, Or;
    OrFlags(address, flags);
    OrMoreFlags(address, flags, IS_WRITEABLE);
    MaskDropsFlags(address, Or(flags, IS_WRITEABLE));
  }

  // ---------- addresses ----------

  function DirectoryIndex(virt: Uint32): nat {
    virt / (ENTRIES * PAGE_SIZE)
  }

  function TableIndex(virt: Uint32): nat {
    virt % (ENTRIES * PAGE_SIZE) / PAGE_SIZE
  }

  /** The pair of indexes of an aligned address is its page number, in base 1024: every pair belongs
      to one page and every page to one pair. */
  lemma IndexesArePageNumber(virt: Uint32)
    requires virt % PAGE_SIZE == 0
    ensures DirectoryIndex(virt) < ENTRIES && TableIndex(virt) < ENTRIES
    ensures ENTRIES * DirectoryIndex(virt) + TableIndex(virt) == virt / PAGE_SIZE
  {
  }

  lemma PageNumberHasIndexes(d: nat, t: nat)
    requires d < ENTRIES && t < ENTRIES
    ensures var virt := (ENTRIES * d + t) * PAGE_SIZE;
      virt < 0x1_0000_0000 && DirectoryIndex(virt) == d && TableIndex(virt) == t
  {
  }

  /** The entry that a fresh table has for a page: the page itself and the flags. */
  function IdentityEntry(page: nat, flags: Byte): Uint32
    requires page < ENTRIES * ENTRIES
  {
    Or32(page * PAGE_SIZE, flags)
  }

  // ---------- a directory and its tables in memory ----------

  /** The words of the heap's blocks; saddr is the address of block 0. */
  datatype Memory = Memory(saddr: nat, pages: seq<Page>) {
    predicate Valid() {
      saddr > 0 && saddr % PAGE_SIZE == 0 && saddr + |pages| * BLOCK_SIZE <= 0x1_0000_0000
    }

    function Address(block: nat): Uint32
      requires Valid() && block < |pages|
    {
      saddr + block * BLOCK_SIZE
    }

    /** The memory after one word of a block has been written. */
    function Store(block: nat, index: nat, value: Uint32): (m: Memory)
      requires block < |pages| && index < ENTRIES
      ensures m.saddr == saddr && |m.pages| == |pages| && (Valid() ==> m.Valid())
    {
      this.(pages := pages[block := pages[block][index := value]])
    }
  }

  /** The blocks of one chunk. */
  datatype Layout = Layout(chunk: nat, directory: nat, tables: seq<nat>) {
    ghost predicate Fits(blocks: nat) {
      && chunk < blocks && directory < blocks && chunk != directory
      && |tables| == ENTRIES
      && (forall i :: 0 <= i < ENTRIES ==> tables[i] < blocks && tables[i] != chunk && tables[i] != directory)
      && (forall i, j :: 0 <= i < j < ENTRIES ==> tables[i] != tables[j])
    }

    ghost function Blocks(): set<nat> {
      {chunk, directory} + (set i | 0 <= i < |tables| :: tables[i])
    }
  }

  /** The chunk names the directory, and every directory entry names its table once masked. */
  ghost predicate HasChunk(m: Memory, l: Layout) {
    && m.Valid() && l.Fits(|m.pages|)
    && m.pages[l.chunk][0] == m.Address(l.directory)
    && forall i :: 0 <= i < ENTRIES ==> And32(m.pages[l.directory][i], ADDRESS_MASK) == m.Address(l.tables[i])
  }

  /** The block that an address lies in. */
  function BlockOf(m: Memory, address: nat): nat
    requires m.saddr <= address
  {
    (address - m.saddr) / BLOCK_SIZE
  }

  /** The entry found for a page through the directory in a block, as the processor walks it. */
  function Lookup(m: Memory, l: Layout, page: nat): Uint32
    requires |l.tables| == ENTRIES && page < ENTRIES * ENTRIES && l.tables[page / ENTRIES] < |m.pages|
  {
    m.pages[l.tables[page / ENTRIES]][page % ENTRIES]
  }

  /** The memory after an entry has been set for a page. */
  function SetEntry(m: Memory, l: Layout, page: nat, value: Uint32): Memory
    requires |l.tables| == ENTRIES && page < ENTRIES * ENTRIES && l.tables[page / ENTRIES] < |m.pages|
  {
    m.Store(l.tables[page / ENTRIES], page % ENTRIES, value)
  }

  /** Setting an entry changes what is found for its page, and nothing else; the chunk stays. */
  lemma SetIsPointUpdate(m: Memory, l: Layout, page: nat, value: Uint32)
    requires HasChunk(m, l) && page < ENTRIES * ENTRIES
    ensures var u := SetEntry(m, l, page, value);
      HasChunk(u, l) && forall q: nat :: q < ENTRIES * ENTRIES ==> Lookup(u, l, q) == if q == page then value else Lookup(m, l, q)
  {
    hide And32;
    var u := SetEntry(m, l, page, value);
    assert forall i :: 0 <= i < ENTRIES ==> u.Address(l.tables[i]) == m.Address(l.tables[i]);
    forall q: nat | q < ENTRIES * ENTRIES
      ensures Lookup(u, l, q) == if q == page then value else Lookup(m, l, q)
    {
      if q / ENTRIES == page / ENTRIES && q % ENTRIES == page % ENTRIES {
        assert q == page;
      }
    }
  }

  // ---------- histories of sets ----------

  datatype Setting = Setting(page: nat, value: Uint32)

  predicate InRange(sets: seq<Setting>) {
    forall i :: 0 <= i < |sets| ==> sets[i].page < ENTRIES * ENTRIES
  }

  ghost function SetAll(m: Memory, l: Layout, sets: seq<Setting>): Memory
    requires HasChunk(m, l) && InRange(sets)
    decreases |sets|
  {
    if sets == [] then m
    else
      SetIsPointUpdate(m, l, sets[0].page, sets[0].value);
      SetAll(SetEntry(m, l, sets[0].page, sets[0].value), l, sets[1..])
  }

  /** The last value set for a page, or what was there before. */
  function LastSet(sets: seq<Setting>, page: nat, before: Uint32): Uint32
    decreases |sets|
  {
    if sets == [] then before
    else LastSet(sets[1..], page, if sets[0].page == page then sets[0].value else before)
  }

  /** After any history of sets every page has the last entry set for it, and if there is none the
      entry it had. */
  lemma {:induction false} SetsAreAMap(m: Memory, l: Layout, sets: seq<Setting>, page: nat)
    requires HasChunk(m, l) && InRange(sets) && page < ENTRIES * ENTRIES
    ensures HasChunk(SetAll(m, l, sets), l)
    ensures Lookup(SetAll(m, l, sets), l, page) == LastSet(sets, page, Lookup(m, l, page))
    decreases |sets|
  {
    hide SetEntry, And32;
    if sets != [] {
      SetIsPointUpdate(m, l, sets[0].page, sets[0].value);
      SetsAreAMap(SetEntry(m, l, sets[0].page, sets[0].value), l, sets[1..], page);
    }
  }

  // ---------- the walk of the processor ----------

  /** The word at a physical address of the heap. */
  function WordAt(m: Memory, address: nat): Option<Uint32> {
    if m.saddr <= address && (address - m.saddr) / 4096 < |m.pages| && address % 4 == 0
    then Some(m.pages[(address - m.saddr) / 4096][(address - m.saddr) % 4096 / 4])
    else None
  }

  datatype Translation = Fault | Physical(address: Uint32, writeable: bool, user: bool)

  predicate BitOf(entry: Uint32, weight: nat)
    requires weight > 0
  {
    entry / weight % 2 == 1
  }

  /** The translation of a linear address through the directory at an address, by the Intel SDM, volume 3A, section 4.3,
      with 4-KByte pages only: ten bits for the directory, ten for the table, and twelve for the page. */
  function Translate(m: Memory, directory: Uint32, linear: Uint32): Translation {
    match WordAt(m, directory - directory % 4096 + 4 * (linear / 0x40_0000))
    case None => Fault
    case Some(pde) =>
      if !BitOf(pde, 1) then Fault
      else match WordAt(m, pde - pde % 4096 + 4 * (linear / 4096 % 1024))
        case None => Fault
        case Some(pte) =>
          if !BitOf(pte, 1) then Fault
          else Physical(pte - pte % 4096 + linear % 4096, BitOf(pde, 2) && BitOf(pte, 2), BitOf(pde, 4) && BitOf(pte, 4))
  }

  /** Every entry of the directory is its table's address with these flags, and writeable. */
  ghost predicate DirectoryHas(m: Memory, l: Layout, flags: Byte) {
    && m.Valid() && l.Fits(|m.pages|)
    && forall i :: 0 <= i < ENTRIES ==> m.pages[l.directory][i] == m.Address(l.tables[i]) + WriteableFlags(flags)
  }

  /** Flags with the bit for writing. */
  function WriteableFlags(flags: Byte): Byte {
    if flags / 2 % 2 == 1 then flags else flags + 2
  }

  lemma OrWriteable(flags: Byte)
    ensures Or(flags, IS_WRITEABLE) == WriteableFlags(flags)
  {
    OrZero(flags / 2 / 2);
    assert Or(flags / 2, 1) == 2 * Or(flags / 2 / 2, 0) + 1;
    assert Or(flags, 2) == 2 * Or(flags / 2, 1) + flags % 2;
  }

  lemma WordOfBlock(m: Memory, block: nat, index: nat)
    requires m.Valid() && block < |m.pages| && index < ENTRIES
    ensures WordAt(m, m.Address(block) + 4 * index) == Some(m.pages[block][index])
  {
    assert (m.Address(block) + 4 * index - m.saddr) / 4096 == block;
    assert (m.Address(block) + 4 * index - m.saddr) % 4096 == 4 * index;
  }

  lemma AddressIsAligned(m: Memory, block: nat, low: nat)
    requires m.Valid() && block < |m.pages| && low < PAGE_SIZE && m.Address(block) + low < 0x1_0000_0000
    ensures m.Address(block) + low - (m.Address(block) + low) % 4096 == m.Address(block)
  {
  }

  lemma IndexesOfLinear(linear: Uint32)
    ensures linear / 0x40_0000 == linear / 4096 / ENTRIES && linear / 4096 % 1024 == linear / 4096 % ENTRIES
    ensures linear / 4096 < ENTRIES * ENTRIES
  {
  }

  lemma LowBitsOf(j: nat, w: nat)
    ensures (8 * j + w) % 2 == w % 2 && (8 * j + w) / 2 % 2 == w / 2 % 2 && (8 * j + w) / 4 % 2 == w / 4 % 2
  {
    assert (8 * j + w) / 2 == 4 * j + w / 2 && (8 * j + w) / 4 == 2 * j + w / 4;
  }

  lemma FlagBits(address: nat, flags: Byte)
    requires address % 4096 == 0
    ensures var pde := address + WriteableFlags(flags);
      pde % 2 == flags % 2 && pde / 2 % 2 == 1 && pde / 4 % 2 == flags / 4 % 2
  {
    var j := 512 * (address / 4096);
    assert address == 8 * j;
    var w := WriteableFlags(flags);
    BitsOfWriteable(flags);
    hide WriteableFlags;
    LowBitsOf(j, w);
  }

  lemma BitsOfWriteable(flags: Byte)
    ensures var w := WriteableFlags(flags); w % 2 == flags % 2 && w / 2 % 2 == 1 && w / 4 % 2 == flags / 4 % 2
  {
  }

  /** What the processor makes of an address is what the entry that is looked up for its page says, with the permissions
      of the directory's flags. */
  lemma TranslateIsLookup(m: Memory, l: Layout, flags: Byte, linear: Uint32)
    requires DirectoryHas(m, l, flags)
    ensures linear / 4096 < ENTRIES * ENTRIES
    ensures var e := Lookup(m, l, linear / 4096);
      Translate(m, m.Address(l.directory), linear) ==
        if flags % 2 == 1 && e % 2 == 1
        then Physical(e - e % 4096 + linear % 4096, e / 2 % 2 == 1, flags / 4 % 2 == 1 && e / 4 % 2 == 1) else Fault
  {
    IndexesOfLinear(linear);
    var d, t := linear / 4096 / ENTRIES, linear / 4096 % ENTRIES;
    AddressIsAligned(m, l.directory, 0);
    WordOfBlock(m, l.directory, d);
    AddressIsAligned(m, l.tables[d], WriteableFlags(flags));
    WordOfBlock(m, l.tables[d], t);
    FlagBits(m.Address(l.tables[d]), flags);
    hide WordAt, WriteableFlags;
  }
}

/** Paths such as 0:/dir/file.txt: their parts as values, and as a list in kernel memory that is built
    from the heap and given back to it. */
module PathParser {
  import opened Bits
  import opened HeapTable
  import opened SingleBlocks
  import opened Status
  import Heap
  import opened KernelHeap

  const MAX_PATH := 108
  const SLASH: Byte := 0x2F
  const COLON: Byte := 0x3A

  /** Strings, without the terminating zero. */
  type Text = seq<Byte>

  // ---------- paths as values ----------

  datatype Path = Path(drive: nat, parts: seq<Text>)

  predicate IsDigit(c: Byte) {
    48 <= c <= 57
  }

  function FirstPart(s: Text): (p: Text)
    ensures |p| <= |s| && p == s[..|p|] && SLASH !in p && (|p| == |s| || s[|p|] == SLASH)
  {
    if s == [] || s[0] == SLASH then [] else [s[0]] + FirstPart(s[1..])
  }

  /** What is left after the first part and the slash behind it. */
  function AfterFirst(s: Text): (rest: Text)
    ensures FirstPart(s) != [] ==> |rest| < |s|
  {
    var n := |FirstPart(s)|;
    if n < |s| then s[n + 1..] else []
  }

  /** The parts of a path, up to the first that is empty. */
  function Parts(s: Text): seq<Text>
    decreases |s|
  {
    if FirstPart(s) == [] then [] else [FirstPart(s)] + Parts(AfterFirst(s))
  }

  predicate ValidFormat(path: Text) {
    |path| >= 3 && IsDigit(path[0]) && path[1] == COLON && path[2] == SLASH
  }

  function ParsePath(path: Text): Option<Path> {
    if |path| > MAX_PATH || !ValidFormat(path) then None
    else Some(Path(path[0] - 48, Parts(path[3..])))
  }

  function Joined(parts: seq<Text>): Text {
    if parts == [] then [] else if |parts| == 1 then parts[0] else parts[0] + [SLASH] + Joined(parts[1..])
  }

  predicate ProperParts(parts: seq<Text>) {
    forall i :: 0 <= i < |parts| ==> parts[i] != [] && SLASH !in parts[i]
  }

  function Written(path: Path): Text
    requires path.drive < 10
  {
    [path.drive + 48, COLON, SLASH] + Joined(path.parts)
  }

  lemma {:induction false} FirstPartIsUnique(s: Text, p: Text)
    requires |p| <= |s| && p == s[..|p|] && SLASH !in p && (|p| == |s| || s[|p|] == SLASH)
    ensures FirstPart(s) == p
  {
    if p != [] {
      assert s[0] == p[0];
      FirstPartIsUnique(s[1..], p[1..]);
    }
  }

  lemma {:induction false} PartsOfJoined(parts: seq<Text>)
    requires ProperParts(parts)
    ensures Parts(Joined(parts)) == parts
  {
    if parts != [] {
      var s := Joined(parts);
      FirstPartIsUnique(s, parts[0]);
      if |parts| > 1 {
        assert s[|parts[0]| + 1..] == Joined(parts[1..]);
        PartsOfJoined(parts[1..]);
      } else {
        assert Parts([]) == [];
      }
    }
  }

  /** Parsing a written path gives it back. */
  lemma ParseWritten(path: Path)
    requires path.drive < 10 && ProperParts(path.parts) && |Written(path)| <= MAX_PATH
    ensures ParsePath(Written(path)) == Some(path)
  {
    assert Written(path)[3..] == Joined(path.parts);
    PartsOfJoined(path.parts);
  }

  /** A text is its first part, and then nothing, or a slash and the rest. */
  lemma SplitsAtSlash(s: Text)
    ensures (s == FirstPart(s) && AfterFirst(s) == []) || s == FirstPart(s) + [SLASH] + AfterFirst(s)
  {
    hide FirstPart;
  }

  /** The parts that are found are proper, and joined they are how the text starts. */
  lemma {:induction false} PartsAreProper(s: Text)
    ensures ProperParts(Parts(s)) && Joined(Parts(s)) <= s
    ensures forall i :: 0 <= i < |Parts(s)| ==> |Parts(s)[i]| <= |s|
    decreases |s|
  {
    hide FirstPart, AfterFirst;
    var p, rest := FirstPart(s), AfterFirst(s);
    SplitsAtSlash(s);
    if p != [] {
      PartsAreProper(rest);
      var parts := Parts(rest);
      assert Parts(s) == [p] + parts && Parts(s)[1..] == parts;
      if parts != [] {
        assert rest != [] by { assert |parts[0]| <= |rest|; }
        assert Joined(Parts(s)) == p + [SLASH] + Joined(parts);
      }
    }
  }

  /** The parts are all there are: behind them is the end, or a slash and then the end or another slash. */
  lemma {:induction false} PartsAreAll(s: Text)
    ensures var parts := Parts(s); var n := |Joined(parts)|;
      && n <= |s|
      && if parts == [] then s == [] || s[0] == SLASH
         else n == |s| || (s[n] == SLASH && (n + 1 == |s| || s[n + 1] == SLASH))
    decreases |s|
  {
    hide FirstPart, AfterFirst;
    var p, rest := FirstPart(s), AfterFirst(s);
    SplitsAtSlash(s);
    FirstIsEmpty(s);
    if p != [] {
      PartsAreAll(rest);
      PartsAreProper(rest);
      var parts := Parts(rest);
      assert Parts(s) == [p] + parts && Parts(s)[1..] == parts;
      if parts != [] {
        JoinedIsNotEmpty(parts);
        var m := |Joined(parts)|;
        assert Joined(Parts(s)) == p + [SLASH] + Joined(parts);
        assert s == p + [SLASH] + rest;
        assert m < |rest| ==> s[|p| + 1 + m] == rest[m];
        assert m + 1 < |rest| ==> s[|p| + 1 + m + 1] == rest[m + 1];
      } else {
        assert Joined(Parts(s)) == p;
      }
    }
  }

  lemma FirstIsEmpty(s: Text)
    ensures FirstPart(s) == [] <==> s == [] || s[0] == SLASH
  {
  }

  lemma JoinedIsNotEmpty(parts: seq<Text>)
    requires ProperParts(parts) && parts != []
    ensures Joined(parts) != []
  {
  }

  /** What is not parsed: paths of more than 108 characters, and those that do not start with a digit, a colon and a
      slash. */
  lemma ParseFails(path: Text)
    ensures ParsePath(path) == None <==>
              |path| > 108 || |path| < 3 || path[0] < 0x30 || path[0] > 0x39 || path[1] != 0x3A || path[2] != 0x2F
    ensures ParsePath(path).Some? ==> ParsePath(path).value.drive == path[0] - 0x30 && ParsePath(path).value.parts == Parts(path[3..])
  {
  }

  // ---------- paths in kernel memory ----------

  class PathPart {
    const text: array<Byte>
    const textAddress: nat
    const address: nat
    var next: PathPart?

    constructor (text: array<Byte>, textAddress: nat, address: nat)
      ensures this.text == text && this.textAddress == textAddress && this.address == address && next == null
    {
      this.text := text;
      this.textAddress := textAddress;
      this.address := address;
      next := null;
    }
  }

  class PathRoot {
    const driveNo: nat
    const address: nat
    var first: PathPart?

    constructor (driveNo: nat, address: nat)
      ensures this.driveNo == driveNo && this.address == address && first == null
    {
      this.driveNo := driveNo;
      this.address := address;
      first := null;
    }
  }

  /** A zeroed buffer of 108 bytes holds a text and a terminator behind it. */
  ghost predicate HoldsText(buffer: array<Byte>, s: Text)
    reads buffer
  {
    buffer.Length == MAX_PATH && |s| < MAX_PATH && buffer[..|s|] == s && forall i :: |s| <= i < MAX_PATH ==> buffer[i] == 0
  }

  /** The loop that copies the next part into a zeroed buffer and goes on behind its slash. */
  method CopyPart(path: Text, pos: nat) returns (buffer: array<Byte>, i: nat, after: nat)
    requires pos <= |path| && |path| - pos < MAX_PATH
    ensures pos <= after <= |path| && path[after..] == AfterFirst(path[pos..])
    ensures fresh(buffer) && HoldsText(buffer, FirstPart(path[pos..])) && i == |FirstPart(path[pos..])|
  {
    buffer := new Byte[MAX_PATH](_ => 0);
    ghost var p := FirstPart(path[pos..]);
    i := 0;
    after := pos;
    while after < |path| && path[after] != SLASH
      invariant after == pos + i <= |path| && i <= |p|
      invariant buffer[..i] == path[pos..after] && forall k :: i <= k < MAX_PATH ==> buffer[k] == 0
      decreases |path| - after
    {
      assert i < |p|;
      buffer[i] := path[after];
      after := after + 1;
      i := i + 1;
    }
    assert i == |p|;
    if after < |path| {
      after := after + 1;
    }
  }

  /** The next part, in a fresh buffer; no buffer is kept for an empty part. */
  method GetPathPart(heap: Heap.Heap, path: Text, pos: nat) returns (text: array?<Byte>, address: nat, after: nat,
      ghost block: nat)
    requires pos <= |path| && |path| - pos < MAX_PATH
    requires Clean(heap.entries[..]) && CountFree(heap.entries[..], 0) > 0
    modifies heap.entries
    ensures pos <= after <= |path| && path[after..] == AfterFirst(path[pos..])
    ensures FirstPart(path[pos..]) == [] ==> text == null && heap.entries[..] == old(heap.entries[..])
    ensures FirstPart(path[pos..]) != [] ==>
      && text != null && fresh(text) && HoldsText(text, FirstPart(path[pos..]))
      && block < heap.entries.Length && old(heap.entries[block]) == FREE && address == AddressOf(heap.saddr, block)
      && heap.entries[..] == old(heap.entries[..])[block := ONE_BLOCK] && Clean(heap.entries[..])
      && CountFree(heap.entries[..], 0) == CountFree(old(heap.entries[..]), 0) - 1
  {
    SomeFree(heap.entries[..]);
    hide CountFree, Clean, AddressOf, HasFree, FirstPart, AfterFirst;
    address, block := AllocateBlock(heap, MAX_PATH);
    var buffer, i;
    buffer, i, after := CopyPart(path, pos);
    if i == 0 {
      FreeBlock(heap, address, block);
      text := null;
    } else {
      text := buffer;
    }
  }

  /** The nodes are the list from first on. */
  ghost predicate Linked(first: PathPart?, nodes: seq<PathPart>)
    reads nodes
  {
    first == NodeAt(nodes, 0) && forall i :: 0 <= i < |nodes| ==> nodes[i].next == NodeAt(nodes, i + 1)
  }

  /** Each node holds a part in its buffer. */
  ghost predicate HoldParts(nodes: seq<PathPart>, parts: seq<Text>)
    reads set i | 0 <= i < |nodes| :: nodes[i].text
  {
    |nodes| == |parts| && forall i :: 0 <= i < |nodes| ==> HoldsText(nodes[i].text, parts[i])
  }

  function NodeAt(nodes: seq<PathPart>, i: nat): PathPart? {
    if i < |nodes| then nodes[i] else null
  }

  /** The blocks of a list: that of the root, and two for every part. */
  ghost predicate Owns(saddr: nat, root: PathRoot, nodes: seq<PathPart>, blocks: seq<nat>) {
    && |blocks| == 1 + 2 * |nodes| && Distinct(blocks)
    && root.address == AddressOf(saddr, blocks[0])
    && forall i :: 0 <= i < |nodes| ==>
         nodes[i].textAddress == AddressOf(saddr, blocks[2 * i + 1]) && nodes[i].address == AddressOf(saddr, blocks[2 * i + 2])
  }

  /** The next part, linked behind the last one. */
  method ParsePathPart(heap: Heap.Heap, last: PathPart?, path: Text, pos: nat)
      returns (part: PathPart?, after: nat, ghost textBlock: nat, ghost block: nat)
    requires pos <= |path| && |path| - pos < MAX_PATH
    requires Clean(heap.entries[..]) && CountFree(heap.entries[..], 0) > (if FirstPart(path[pos..]) == [] then 0 else 1)
    modifies heap.entries, last
    ensures pos <= after <= |path| && path[after..] == AfterFirst(path[pos..])
    ensures FirstPart(path[pos..]) == [] ==> part == null && heap.entries[..] == old(heap.entries[..]) && (last != null ==> unchanged(last))
    ensures FirstPart(path[pos..]) != [] ==>
      && part != null && fresh(part) && fresh(part.text) && part.next == null && HoldsText(part.text, FirstPart(path[pos..]))
      && (last != null ==> last.next == part)
      && textBlock < heap.entries.Length && block < heap.entries.Length && textBlock != block
      && old(heap.entries[textBlock]) == FREE && old(heap.entries[block]) == FREE
      && part.textAddress == AddressOf(heap.saddr, textBlock) && part.address == AddressOf(heap.saddr, block)
      && heap.entries[..] == old(heap.entries[..])[textBlock := ONE_BLOCK][block := ONE_BLOCK] && Clean(heap.entries[..])
      && CountFree(heap.entries[..], 0) == CountFree(old(heap.entries[..]), 0) - 2
  {
    hide CountFree, Clean, AddressOf, FirstPart, AfterFirst, HoldsText;
    var text, textAddress;
    text, textAddress, after, textBlock := GetPathPart(heap, path, pos);
    if text == null {
      return null, after, 0, 0;
    }
    assert heap.entries[textBlock] == heap.entries[..][textBlock] == ONE_BLOCK;
    SomeFree(heap.entries[..]);
    var address;
    address, block := AllocateBlock(heap, 8);
    part := new PathPart(text, textAddress, address);
    if last != null {
      last.next := part;
    }
  }

  /** The blocks needed to parse a text: two for every part and one for the buffer of the empty last one. */
  function BlocksNeeded(s: Text): nat {
    2 * |Parts(s)| + 1
  }

  lemma PartsFrom(s: Text)
    ensures FirstPart(s) == [] ==> Parts(s) == [] && BlocksNeeded(s) == 1
    ensures FirstPart(s) != [] ==> Parts(s) == [FirstPart(s)] + Parts(AfterFirst(s)) && BlocksNeeded(s) == BlocksNeeded(AfterFirst(s)) + 2
  {
  }

  lemma OwnsOneMore(saddr: nat, root: PathRoot, nodes: seq<PathPart>, blocks: seq<nat>, part: PathPart,
      textBlock: nat, block: nat)
    requires Owns(saddr, root, nodes, blocks)
    requires textBlock !in SetOf(blocks) && block !in SetOf(blocks + [textBlock])
    requires part.textAddress == AddressOf(saddr, textBlock) && part.address == AddressOf(saddr, block)
    ensures Owns(saddr, root, nodes + [part], blocks + [textBlock] + [block])
  {
    hide AddressOf;
    assert forall i :: 0 <= i < |blocks| ==> blocks[i] in SetOf(blocks);
    assert forall i :: 0 <= i < |blocks| + 1 ==> (blocks + [textBlock])[i] in SetOf(blocks + [textBlock]);
  }

  lemma MarkTwoMore(t: Table, u: Table, blocks: seq<nat>, textBlock: nat, block: nat)
    requires Marked(t, u, SetOf(blocks))
    requires textBlock < |u| && block < |u| && textBlock != block && u[textBlock] == FREE && u[block] == FREE
    ensures Marked(t, u[textBlock := ONE_BLOCK][block := ONE_BLOCK], SetOf(blocks + [textBlock] + [block]))
    ensures textBlock !in SetOf(blocks) && block !in SetOf(blocks + [textBlock])
  {
    hide SetOf;
    MarkOneMore(t, u, SetOf(blocks), textBlock);
    SetOfAppend(blocks, textBlock);
    MarkOneMore(t, u[textBlock := ONE_BLOCK], SetOf(blocks + [textBlock]), block);
    SetOfAppend(blocks + [textBlock], block);
  }

  lemma LinkOneMore(first: PathPart?, nodes: seq<PathPart>, part: PathPart)
    requires |nodes| > 0 && first == nodes[0] && (forall i :: 0 <= i < |nodes| - 1 ==> nodes[i].next == nodes[i + 1])
    requires nodes[|nodes| - 1].next == part && part.next == null
    ensures Linked(first, nodes + [part])
  {
  }

  ghost predicate NoRepeats(nodes: seq<PathPart>) {
    forall i, j :: 0 <= i < j < |nodes| ==> nodes[i] != nodes[j]
  }

  /** A list under construction: what its nodes hold, and the blocks that it has taken from table t. */
  ghost predicate Built(heap: Heap.Heap, t: Table, root: PathRoot, nodes: seq<PathPart>, parts: seq<Text>,
      blocks: seq<nat>)
    reads heap, heap.entries, root, nodes, set i | 0 <= i < |nodes| :: nodes[i].text
  {
    && Linked(root.first, nodes) && NoRepeats(nodes)
    && HoldParts(nodes, parts) && (forall i :: 0 <= i < |nodes| ==> nodes[i].text != heap.entries)
    && Owns(heap.saddr, root, nodes, blocks) && Marked(t, heap.entries[..], SetOf(blocks))
  }

  /** There are enough free blocks for what is left of a path. */
  ghost predicate Enough(heap: Heap.Heap, s: Text)
    reads heap, heap.entries
  {
    Clean(heap.entries[..]) && CountFree(heap.entries[..], 0) >= BlocksNeeded(s)
  }

  /** One round of the loop of the parser. */
  method AppendPart(heap: Heap.Heap, root: PathRoot, last: PathPart, path: Text, pos: nat,
                    ghost t: Table, ghost nodes: seq<PathPart>, ghost parts: seq<Text>, ghost blocks: seq<nat>)
      returns (part: PathPart?, after: nat, ghost newBlocks: seq<nat>)
    requires pos <= |path| && |path| - pos < MAX_PATH && Enough(heap, path[pos..])
    requires Built(heap, t, root, nodes, parts, blocks) && |nodes| > 0 && last == nodes[|nodes| - 1]
    modifies heap.entries, last
    ensures pos <= after <= |path| && path[after..] == AfterFirst(path[pos..])
    ensures FirstPart(path[pos..]) == [] ==> part == null && Built(heap, t, root, nodes, parts, blocks)
    ensures FirstPart(path[pos..]) != [] ==>
      && part != null && fresh(part) && Enough(heap, path[after..])
      && Built(heap, t, root, nodes + [part], parts + [FirstPart(path[pos..])], newBlocks)
  {
    hide CountFree, Clean, AddressOf, FirstPart, AfterFirst, HoldsText, BlocksNeeded, Parts, Marked, SetOf, Owns;
    PartsFrom(path[pos..]);
    ghost var p, u := FirstPart(path[pos..]), heap.entries[..];
    ghost var newText, newBlock;
    part, after, newText, newBlock := ParsePathPart(heap, last, path, pos);
    newBlocks := blocks;
    if part != null {
      MarkTwoMore(t, u, blocks, newText, newBlock);
      OwnsOneMore(heap.saddr, root, nodes, blocks, part, newText, newBlock);
      LinkOneMore(root.first, nodes, part);
      assert HoldParts(nodes, parts);
      newBlocks := blocks + [newText] + [newBlock];
    }
  }

  /** The loop of the parser, behind the first node. */
  method ParseRest(heap: Heap.Heap, root: PathRoot, first: PathPart, path: Text, pos: nat,
                   ghost t: Table, ghost s: Text, ghost firstBlocks: seq<nat>)
      returns (ghost nodes: seq<PathPart>, ghost blocks: seq<nat>)
    requires pos <= |path| && |path| - pos < MAX_PATH && Enough(heap, path[pos..])
    requires Built(heap, t, root, [first], [s], firstBlocks)
    modifies heap.entries, first
    ensures Built(heap, t, root, nodes, [s] + Parts(path[pos..]), blocks)
  {
    hide Built, Enough, FirstPart, AfterFirst, Parts;
    nodes, blocks := [first], firstBlocks;
    ghost var parts := [s];
    ghost var goal := [s] + Parts(path[pos..]);
    var part: PathPart?, at := first, pos;
    while part != null
      invariant pos <= at <= |path| && root.first == old(root.first) && Built(heap, t, root, nodes, parts, blocks)
      invariant part == null ==> parts == goal
      invariant part != null ==> |nodes| > 0 && part == nodes[|nodes| - 1] && goal == parts + Parts(path[at..]) && Enough(heap, path[at..])
      invariant part != null && part != first ==> fresh(part)
      decreases if part == null then 0 else 1 + |path| - at
    {
      PartsFrom(path[at..]);
      ghost var p := FirstPart(path[at..]);
      ghost var newBlocks;
      part, at, newBlocks := AppendPart(heap, root, part, path, at, t, nodes, parts, blocks);
      if part != null {
        nodes, blocks, parts := nodes + [part], newBlocks, parts + [p];
      }
    }
  }

  lemma FirstIsBuilt(heap: Heap.Heap, t: Table, u: Table, root: PathRoot, first: PathPart, s: Text, rootBlock: nat,
      textBlock: nat, block: nat)
    requires Marked(t, u, SetOf([rootBlock]))
    requires textBlock < |u| && block < |u| && textBlock != block && u[textBlock] == FREE && u[block] == FREE
    requires heap.entries[..] == u[textBlock := ONE_BLOCK][block := ONE_BLOCK]
    requires root.first == first && first.next == null && HoldsText(first.text, s) && first.text != heap.entries
    requires root.address == AddressOf(heap.saddr, rootBlock)
    requires first.textAddress == AddressOf(heap.saddr, textBlock) && first.address == AddressOf(heap.saddr, block)
    ensures Built(heap, t, root, [first], [s], [rootBlock, textBlock, block])
  {
    hide AddressOf, HoldsText, Marked, SetOf;
    MarkTwoMore(t, u, [rootBlock], textBlock, block);
    OwnsOneMore(heap.saddr, root, [], [rootBlock], first, textBlock, block);
    assert [] + [first] == [first] && [rootBlock] + [textBlock] + [block] == [rootBlock, textBlock, block];
  }

  /** pathparser_parse, on a heap that has the blocks that it needs: nothing for a path that is too long or
      badly formed, else the drive and the list of the parts. */
  method Parse(heap: Heap.Heap, path: Text) returns (root: PathRoot?, ghost nodes: seq<PathPart>,
      ghost blocks: seq<nat>)
    requires ParsePath(path).Some? ==> Clean(heap.entries[..]) && CountFree(heap.entries[..], 0) > BlocksNeeded(path[3..])
    modifies heap.entries
    ensures ParsePath(path) == None ==> root == null && heap.entries[..] == old(heap.entries[..])
    ensures ParsePath(path).Some? ==>
      && root != null && fresh(root) && root.driveNo == ParsePath(path).value.drive
      && Built(heap, old(heap.entries[..]), root, nodes, ParsePath(path).value.parts, blocks)
  {
    nodes, blocks := [], [];
    if |path| > MAX_PATH || !ValidFormat(path) {
      return null, nodes, blocks;
    }
    hide CountFree, Clean, AddressOf, FirstPart, AfterFirst, HoldsText, BlocksNeeded, Parts, Marked, SetOf;
    ghost var t := heap.entries[..];
    PartsFrom(path[3..]);
    SomeFree(heap.entries[..]);
    var address, rootBlock := AllocateBlock(heap, 8);
    root := new PathRoot(path[0] - 48, address);
    ghost var p, u := FirstPart(path[3..]), heap.entries[..];
    MarkFirst(t, rootBlock);
    var first, after, textBlock, block := ParsePathPart(heap, null, path, 3);
    blocks := [rootBlock];
    if first == null {
      return;
    }
    root.first := first;
    FirstIsBuilt(heap, t, u, root, first, p, rootBlock, textBlock, block);
    nodes, blocks := ParseRest(heap, root, first, path, after, t, p, [rootBlock, textBlock, block]);
  }

  /** The blocks that a parsed path takes. */
  function PathBlocks(path: Text): nat {
    match ParsePath(path)
    case None => 0
    case Some(p) => 1 + 2 * |p.parts|
  }

  /** The heap has the blocks that parsing needs: one more than those that stay taken. */
  ghost predicate HasPathBlocks(t: Table, path: Text) {
    ParsePath(path).Some? ==> Clean(t) && CountFree(t, 0) > PathBlocks(path)
  }

  /** What a parsed path leaves in the heap's table, if it is not freed. */
  lemma BuiltBlocks(heap: Heap.Heap, t: Table, root: PathRoot, nodes: seq<PathPart>, parts: seq<Text>, blocks: seq<nat>)
    requires Built(heap, t, root, nodes, parts, blocks)
    ensures |SetOf(blocks)| == 1 + 2 * |parts| && Marked(t, heap.entries[..], SetOf(blocks))
    ensures (root.first == null <==> parts == [])
  {
    SetOfSize(blocks);
    hide SetOf, Marked;
  }

  lemma MarkFirst(t: Table, block: nat)
    requires block < |t| && t[block] == FREE
    ensures Marked(t, t[block := ONE_BLOCK], SetOf([block]))
  {
    assert [block][0] == block;
  }

  /** The blocks from the first to the one before k have been freed, the others are still taken. */
  ghost predicate FreedUpTo(t: Table, u: Table, blocks: seq<nat>, k: nat)
    requires 1 <= k <= |blocks|
  {
    && |u| == |t| && (forall i :: 0 <= i < |blocks| ==> blocks[i] < |t|)
    && Cleared(t, u, SetOf(blocks[1..k]))
    && forall i :: 0 <= i < |blocks| && !(1 <= i < k) ==> u[blocks[i]] == ONE_BLOCK
  }

  method FreeNext(heap: Heap.Heap, address: nat, ghost t: Table, ghost blocks: seq<nat>, ghost k: nat)
    requires 1 <= k < |blocks| && Distinct(blocks) && address == AddressOf(heap.saddr, blocks[k])
    requires FreedUpTo(t, heap.entries[..], blocks, k)
    modifies heap.entries
    ensures FreedUpTo(t, heap.entries[..], blocks, k + 1)
  {
    hide AddressOf, SetOf;
    ghost var u := heap.entries[..];
    FreeBlock(heap, address, blocks[k]);
    assert blocks[1..k + 1] == blocks[1..k] + [blocks[k]];
    SetOfAppend(blocks[1..k], blocks[k]);
  }

  lemma NothingFreed(t: Table, blocks: seq<nat>)
    requires |blocks| > 0 && forall i :: 0 <= i < |blocks| ==> blocks[i] < |t| && t[blocks[i]] == ONE_BLOCK
    ensures FreedUpTo(t, t, blocks, 1)
  {
    assert SetOf(blocks[1..1]) == {};
  }

  lemma AllFreed(t: Table, u: Table, blocks: seq<nat>)
    requires |blocks| > 0 && FreedUpTo(t, u, blocks, |blocks|)
    ensures blocks[0] < |u| && u[blocks[0]] == ONE_BLOCK
    ensures Cleared(t, u[blocks[0] := FREE], SetOf(blocks))
  {
    hide SetOf;
    SetOfAppend(blocks[1..], blocks[0]);
    SameElements(blocks);
    assert blocks[1..|blocks|] == blocks[1..];
  }

  lemma SameElements(blocks: seq<nat>)
    requires |blocks| > 0
    ensures SetOf(blocks[1..] + [blocks[0]]) == SetOf(blocks)
  {
    var s, r := blocks[1..] + [blocks[0]], blocks;
    forall b | b in SetOf(r)
      ensures b in SetOf(s)
    {
      var i :| 0 <= i < |r| && r[i] == b;
      assert s[if i == 0 then |r| - 1 else i - 1] == b;
    }
    forall b | b in SetOf(s)
      ensures b in SetOf(r)
    {
      var i :| 0 <= i < |s| && s[i] == b;
      assert r[if i == |r| - 1 then 0 else i + 1] == b;
    }
  }

  method FreeNode(heap: Heap.Heap, root: PathRoot, part: PathPart, ghost t: Table, ghost nodes: seq<PathPart>,
      ghost blocks: seq<nat>, ghost i: nat)
    requires i < |nodes| && part == nodes[i] && Owns(heap.saddr, root, nodes, blocks)
    requires FreedUpTo(t, heap.entries[..], blocks, 2 * i + 1)
    modifies heap.entries
    ensures FreedUpTo(t, heap.entries[..], blocks, 2 * i + 3)
  {
    hide AddressOf, FreedUpTo, Distinct;
    FreeNext(heap, part.textAddress, t, blocks, 2 * i + 1);
    FreeNext(heap, part.address, t, blocks, 2 * i + 2);
  }

  lemma OwnsRoot(saddr: nat, root: PathRoot, nodes: seq<PathPart>, blocks: seq<nat>)
    requires Owns(saddr, root, nodes, blocks)
    ensures |blocks| == 1 + 2 * |nodes| && root.address == AddressOf(saddr, blocks[0])
  {
  }

  /** pathparser_free: the buffer and the node of every part, and the root. */
  method Free(heap: Heap.Heap, root: PathRoot, ghost nodes: seq<PathPart>, ghost blocks: seq<nat>)
    requires Linked(root.first, nodes) && Owns(heap.saddr, root, nodes, blocks)
    requires forall i :: 0 <= i < |blocks| ==> blocks[i] < heap.entries.Length && heap.entries[blocks[i]] == ONE_BLOCK
    modifies heap.entries
    ensures Cleared(old(heap.entries[..]), heap.entries[..], SetOf(blocks))
  {
    hide AddressOf, SetOf, FreedUpTo, Cleared, Owns;
    OwnsRoot(heap.saddr, root, nodes, blocks);
    ghost var t := heap.entries[..];
    NothingFreed(t, blocks);
    var part := root.first;
    ghost var i := 0;
    while part != null
      invariant i <= |nodes| && part == NodeAt(nodes, i) && heap.entries == old(heap.entries)
      invariant FreedUpTo(t, heap.entries[..], blocks, 2 * i + 1)
      decreases |nodes| - i
    {
      var next := part.next;
      FreeNode(heap, root, part, t, nodes, blocks, i);
      part := next;
      i := i + 1;
    }
    AllFreed(t, heap.entries[..], blocks);
    assert heap.entries[..][blocks[0]] == heap.entries[blocks[0]];
    FreeBlock(heap, root.address, blocks[0]);
  }

  /** Parsing any path and freeing the result leaves the table of the heap as it was. */
  method ParseThenFree(heap: Heap.Heap, path: Text)
    requires ParsePath(path).Some? ==> Clean(heap.entries[..]) && CountFree(heap.entries[..], 0) > BlocksNeeded(path[3..])
    modifies heap.entries
    ensures heap.entries[..] == old(heap.entries[..])
  {
    hide ParsePath, CountFree, Clean, BlocksNeeded, HoldParts;
    ghost var t := heap.entries[..];
    var root, nodes, blocks := Parse(heap, path);
    if root != null {
      ghost var u := heap.entries[..];
      assert forall i :: 0 <= i < |blocks| ==> blocks[i] in SetOf(blocks);
      assert forall i :: 0 <= i < |blocks| ==> u[blocks[i]] == ONE_BLOCK;
      Free(heap, root, nodes, blocks);
      MarkedThenCleared(t, u, heap.entries[..], SetOf(blocks));
    }
  }
}

/** Allocations of one block each, which is all that the kernel asks for when it builds page tables and
    path lists: what they do to the block table, one by one and all together. */
module SingleBlocks {
  import opened Bits
  import opened HeapTable

  const ONE_BLOCK: Byte := 0x41

  /** Free blocks have byte 0, as in every table that represents live allocations. */
  predicate Clean(t: Table) {
    forall i :: 0 <= i < |t| && IsFree(t[i]) ==> t[i] == FREE
  }

  lemma RepresentedIsClean(t: Table, live: Live)
    requires Represents(t, live)
    ensures Clean(t)
  {
    forall i | 0 <= i < |t| && IsFree(t[i])
      ensures t[i] == FREE
    {
      FreeMeansUncovered(t, live, i);
    }
  }

  lemma {:induction false} SomeBlockIsFree(t: Table, i: nat) returns (block: nat)
    requires i <= |t| && CountFree(t, i) > 0
    ensures i <= block < |t| && IsFree(t[block])
    decreases |t| - i
  {
    if IsFree(t[i]) {
      block := i;
    } else {
      block := SomeBlockIsFree(t, i + 1);
    }
  }

  lemma {:induction false} TakingOneCounts(t: Table, block: nat, i: nat)
    requires i <= |t| && block < |t| && IsFree(t[block])
    ensures CountFree(t[block := ONE_BLOCK], i) == CountFree(t, i) - (if i <= block then 1 else 0)
    decreases |t| - i
  {
    hide IsFree, HasNext, IsFirst;
    EntryFlags();
    if i < |t| {
      TakingOneCounts(t, block, i + 1);
    }
  }

  /** A request for one block is always answered properly, and is met while a block is free. */
  lemma OneBlockFits(t: Table)
    ensures Fits(t, 1) || !EndsFree(t)
    ensures CountFree(t, 0) > 0 ==> Fits(t, 1)
    ensures Fits(t, 1) <==> StartBlock(t, 1) >= 0
  {
    hide IsFree;
    if EndsFree(t) {
      assert FreeRun(t, |t| - 1, 1);
    }
    if CountFree(t, 0) > 0 {
      var b := SomeBlockIsFree(t, 0);
      assert FreeRun(t, b, 1);
    }
  }

  lemma OneBlockIsTaken(t: Table)
    requires Clean(t) && Fits(t, 1)
    ensures var s := StartBlock(t, 1); var u := Take(t, s, 1);
      s < |t| && t[s] == FREE && u == t[s := ONE_BLOCK] && Clean(u) && CountFree(u, 0) == CountFree(t, 0) - 1
  {
    FitStarts(t);
    var s := StartBlock(t, 1);
    hide StartBlock, IsFree, CountFree;
    TakeOne(t, s);
    TakingOneCounts(t, s, 0);
    TakenIsNotFree();
  }

  lemma FitStarts(t: Table)
    requires Fits(t, 1)
    ensures 0 <= StartBlock(t, 1) < |t| && IsFree(t[StartBlock(t, 1)])
  {
    hide IsFree;
    var s := FirstFit(t, 1, 0);
    assert FreeRun(t, s, 1);
  }

  lemma TakeOne(t: Table, s: nat)
    requires s < |t|
    ensures Take(t, s, 1) == t[s := ONE_BLOCK]
  {
    hide IsFree;
  }

  lemma TakenIsNotFree()
    ensures !IsFree(ONE_BLOCK)
  {
    EntryFlags();
  }

  /** u is t with the given blocks, which were free, taken one by one. */
  ghost predicate Marked(t: Table, u: Table, blocks: set<nat>) {
    && |u| == |t|
    && (forall b :: b in blocks ==> b < |t| && t[b] == FREE)
    && (forall i :: 0 <= i < |t| ==> u[i] == if i in blocks then ONE_BLOCK else t[i])
  }

  /** u is t with the given blocks set free. */
  ghost predicate Cleared(t: Table, u: Table, blocks: set<nat>) {
    |u| == |t| && forall i :: 0 <= i < |t| ==> u[i] == if i in blocks then FREE else t[i]
  }

  lemma FreeOne(t: Table, block: nat)
    requires block < |t| && t[block] == ONE_BLOCK
    ensures FreeFrom(t, block) == t[block := FREE]
  {
    hide IsFree, HasNext, IsFirst;
    EntryFlags();
  }

  function SetOf(blocks: seq<nat>): set<nat> {
    set i | 0 <= i < |blocks| :: blocks[i]
  }

  lemma SetOfAppend(blocks: seq<nat>, block: nat)
    ensures SetOf(blocks + [block]) == SetOf(blocks) + {block}
  {
    var longer := blocks + [block];
    assert longer[|blocks|] == block;
    forall b | b in SetOf(blocks)
      ensures b in SetOf(longer)
    {
      var i :| 0 <= i < |blocks| && blocks[i] == b;
      assert longer[i] == b;
    }
    forall b | b in SetOf(longer)
      ensures b in SetOf(blocks) + {block}
    {
      var i :| 0 <= i < |longer| && longer[i] == b;
      if i < |blocks| {
        assert blocks[i] == b;
      }
    }
  }

  lemma MarkOneMore(t: Table, u: Table, blocks: set<nat>, block: nat)
    requires Marked(t, u, blocks) && block < |u| && u[block] == FREE
    ensures block !in blocks && Marked(t, u[block := ONE_BLOCK], blocks + {block})
  {
  }

  predicate Distinct(blocks: seq<nat>) {
    forall i, j :: 0 <= i < j < |blocks| ==> blocks[i] != blocks[j]
  }

  lemma {:induction false} SetOfSize(blocks: seq<nat>)
    requires Distinct(blocks)
    ensures |SetOf(blocks)| == |blocks|
  {
    if blocks != [] {
      var n := |blocks| - 1;
      var before := blocks[..n];
      SetOfSize(before);
      SetOfAppend(before, blocks[n]);
      assert blocks == before + [blocks[n]];
      assert blocks[n] !in SetOf(before);
    }
  }

  /** As many blocks are free no more as have been taken. */
  lemma {:induction false} MarkedCounts(t: Table, u: Table, blocks: set<nat>)
    requires Marked(t, u, blocks)
    ensures CountFree(u, 0) == CountFree(t, 0) - |blocks|
    decreases |blocks|
  {
    hide IsFree, CountFree;
    EntryFlags();
    if blocks == {} {
      assert u == t;
    } else {
      var b :| b in blocks;
      var v := u[b := FREE];
      MarkedBefore(t, u, blocks, b);
      hide Marked;
      MarkedCounts(t, v, blocks - {b});
      TakingOneCounts(v, b, 0);
    }
  }

  lemma MarkedBefore(t: Table, u: Table, blocks: set<nat>, b: nat)
    requires Marked(t, u, blocks) && b in blocks
    ensures b < |u| && Marked(t, u[b := FREE], blocks - {b}) && u[b := FREE][b := ONE_BLOCK] == u
  {
  }

  lemma MarkedIsClean(t: Table, u: Table, blocks: set<nat>)
    requires Marked(t, u, blocks) && Clean(t)
    ensures Clean(u)
  {
    EntryFlags();
    hide IsFree;
  }

  /** Setting free what had been taken restores the table. */
  lemma MarkedThenCleared(t: Table, u: Table, w: Table, blocks: set<nat>)
    requires Marked(t, u, blocks) && Cleared(u, w, blocks)
    ensures w == t
  {
  }
}

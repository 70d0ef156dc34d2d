/** The block table of the heap: a byte for each block, and the map of live allocations that the
    bytes stand for. */
module HeapTable {
  import opened Bits
  import opened Status

  const BLOCK_SIZE := 4096
  const FREE: Byte := 0x00
  const TAKEN: Byte := 0x01
  const IS_FIRST: Byte := 0x40
  const HAS_NEXT: Byte := 0x80

  type Table = seq<Byte>

  predicate IsFree(entry: Byte) { And8(entry, 0x0F) == FREE }

  predicate HasNext(entry: Byte) { And8(entry, HAS_NEXT) != 0 }

  predicate IsFirst(entry: Byte) { And8(entry, IS_FIRST) != 0 }

  // ---------- where an allocation goes ----------

  /** n blocks from start are free. */
  predicate FreeRun(t: Table, start: int, n: nat) {
    0 <= start && start + n <= |t| && forall i :: start <= i < start + n ==> IsFree(t[i])
  }

  /** A request for n blocks can be met. */
  predicate Fits(t: Table, n: nat) {
    n > 0 && exists start :: 0 <= start < |t| && FreeRun(t, start, n)
  }

  /** The least start, from i on, of a free run of n blocks. */
  function FirstFit(t: Table, n: nat, i: nat): (start: nat)
    requires exists k :: i <= k < |t| && FreeRun(t, k, n)
    ensures i <= start < |t| && FreeRun(t, start, n)
    ensures forall k :: i <= k < start ==> !FreeRun(t, k, n)
    decreases |t| - i
  {
    if FreeRun(t, i, n) then i else FirstFit(t, n, i + 1)
  }

  /** The last block is free. */
  predicate EndsFree(t: Table) {
    |t| > 0 && IsFree(t[|t| - 1])
  }

  /** The start of the free run that the table ends with. */
  function TrailingStart(t: Table, end: nat): (start: nat)
    requires end <= |t|
    ensures start <= end && (forall i :: start <= i < end ==> IsFree(t[i])) && (start > 0 ==> !IsFree(t[start - 1]))
  {
    if end == 0 || !IsFree(t[end - 1]) then end else TrailingStart(t, end - 1)
  }

  /** The block that a request for n blocks gets: the first fit; without a fit, the start of the
      trailing free run, which is too short; and an error if there is none. */
  function StartBlock(t: Table, n: nat): int {
    if Fits(t, n) then FirstFit(t, n, 0)
    else if EndsFree(t) then TrailingStart(t, |t|)
    else -ENOMEM
  }

  /** The search is right exactly when a run fits or the last block is taken: otherwise it reports
      a run that is too short as a success. */
  lemma SearchIsRight(t: Table, n: nat)
    requires n > 0
    ensures (StartBlock(t, n) < 0 || FreeRun(t, StartBlock(t, n), n)) <==> Fits(t, n) || !EndsFree(t)
    ensures StartBlock(t, n) >= 0 && Fits(t, n) ==>
              forall k :: 0 <= k < StartBlock(t, n) ==> !FreeRun(t, k, n)
  {
    if !Fits(t, n) && EndsFree(t) {
      var s := StartBlock(t, n);
      assert s < |t| by { assert IsFree(t[|t| - 1]); }
    }
  }

  /** A free last block in front of which nothing is free cannot meet a request for two blocks, but
      the search succeeds. */
  lemma ShortTrailingRunIsReported()
    ensures var t := [TAKEN, FREE]; !Fits(t, 2) && StartBlock(t, 2) == 1
  {
    var t := [TAKEN, FREE];
    assert And8(0x01, 0x0F) == 1;
    assert !IsFree(t[0]) && IsFree(t[1]);
    assert !FreeRun(t, 0, 2) by { assert !IsFree(t[0]); }
    assert !FreeRun(t, 1, 2);
  }

  // ---------- marking blocks ----------

  /** The entry of the i-th block of a run of n blocks. */
  function RunEntry(n: nat, i: nat): Byte
    requires i < n
  {
    if i == 0 then (if n > 1 then 0xC1 else 0x41) else if i < n - 1 then 0x81 else 0x01
  }

  /** The table after n blocks from start have been taken. */
  function Take(t: Table, start: nat, n: nat): (r: Table)
    requires start + n <= |t|
    ensures |r| == |t|
  {
    t[..start] + seq(n, i requires 0 <= i < n => RunEntry(n, i)) + t[start + n..]
  }

  /** The table after n blocks from start have been cleared. */
  function Clear(t: Table, start: nat, n: nat): (r: Table)
    requires start + n <= |t|
    ensures |r| == |t|
  {
    t[..start] + seq(n, _ => FREE) + t[start + n..]
  }

  /** The table after freeing has followed HAS_NEXT from a block on. */
  function FreeFrom(t: Table, block: nat): (r: Table)
    ensures |r| == |t|
    decreases |t| - block
  {
    if block >= |t| then t
    else if HasNext(t[block]) then FreeFrom(t[block := FREE], block + 1)
    else t[block := FREE]
  }

  /** The flags of a free block and of the four entries that a run is made of. */
  lemma EntryFlags()
    ensures IsFree(FREE) && !HasNext(FREE) && !IsFirst(FREE)
    ensures !IsFree(0x41) && !HasNext(0x41) && IsFirst(0x41)
    ensures !IsFree(0xC1) && HasNext(0xC1) && IsFirst(0xC1)
    ensures !IsFree(0x81) && HasNext(0x81) && !IsFirst(0x81)
    ensures !IsFree(0x01) && !HasNext(0x01) && !IsFirst(0x01)
  {
    TakenEntries();
    NextBits();
    FirstBits();
  }

  lemma TakenEntries()
    ensures !IsFree(0x41) && !IsFree(0xC1) && !IsFree(0x81) && !IsFree(0x01)
  {
    assert And8(0x41, 0x0F) == 1;
    assert And8(0xC1, 0x0F) == 1;
    assert And8(0x81, 0x0F) == 1;
    assert And8(0x01, 0x0F) == 1;
  }

  lemma NextBits()
    ensures !HasNext(0x41) && HasNext(0xC1) && HasNext(0x81) && !HasNext(0x01)
  {
    assert Pow2(7) == 0x80;
    AndWithTop(0x41);
    AndWithTop(0xC1);
    AndWithTop(0x81);
    AndWithTop(0x01);
  }

  lemma AndWithTop(x: Byte)
    ensures And8(x, 0x80) != 0 <==> x >= 0x80
  {
    var f := x % 0x80;
    assert Pow2(7) == 0x80 && Shl(1, 7) == 0x80;
    AndDropsLow(x / 0x80, f, 1, 7);
    assert x >= 0x80 ==> x / 0x80 == 1;
    assert And(1, 1) == 1 && And(0, 1) == 0 && Shl(0, 7) == 0;
  }

  /** The flags of an entry, as numbers: it is free if its lower four bits are 0, bit 6 marks the first block of a run, and
      bit 7 one that is not the last. */
  lemma FlagsOfEntry(e: Byte)
    ensures (IsFree(e) <==> e % 16 == 0) && (IsFirst(e) <==> e / 64 % 2 == 1) && (HasNext(e) <==> e >= 128)
  {
    LowNibble(e);
    BitSix(e);
    BitSix(e / 2);
    assert And(e, 128) == 2 * And(e / 2, 64);
    hide And;
  }

  /** And with a mask whose lowest bit is one, or zero. */
  lemma AndMasks(x: nat, m: nat)
    ensures And(x, 2 * m + 1) == 2 * And(x / 2, m) + x % 2 && And(x, 2 * m) == 2 * And(x / 2, m)
  {
    HalvesOfMask(m);
    if x == 0 {
      assert And(0, m) == 0 && And(0, 2 * m) == 0 && And(0, 2 * m + 1) == 0;
    } else {
      assert And(x, 2 * m + 1) == 2 * And(x / 2, m) + x % 2;
      AndWithZero(x / 2);
    }
  }

  lemma HalvesOfMask(m: nat)
    ensures (2 * m + 1) / 2 == m && (2 * m + 1) % 2 == 1 && 2 * m / 2 == m && 2 * m % 2 == 0
  {
  }

  lemma LowNibble(e: Byte)
    ensures And(e, 15) == e % 16
  {
    hide And;
    AndMasks(e, 7);
    AndMasks(e / 2, 3);
    AndMasks(e / 2 / 2, 1);
    AndMasks(e / 2 / 2 / 2, 0);
    AndMasks(e / 2 / 2 / 2 / 2, 0);
    AndWithZero(e / 2 / 2 / 2 / 2);
    Nibble(e);
  }

  lemma AndWithZero(x: nat)
    ensures And(x, 0) == 0
  {
  }

  lemma Nibble(e: Byte)
    ensures e % 16 == 2 * (2 * (2 * (e / 2 / 2 / 2 % 2) + e / 2 / 2 % 2) + e / 2 % 2) + e % 2
  {
  }

  lemma BitSix(e: Byte)
    ensures And(e, 64) == 64 * (e / 64 % 2)
  {
    hide And;
    var e3 := e / 2 / 2 / 2;
    AndMasks(e, 32);
    AndMasks(e / 2, 16);
    AndMasks(e / 2 / 2, 8);
    AndMasks(e3, 4);
    AndMasks(e3 / 2, 2);
    AndMasks(e3 / 2 / 2, 1);
    AndMasks(e3 / 2 / 2 / 2, 0);
    AndWithZero(e3 / 2 / 2 / 2 / 2);
    assert e3 / 2 / 2 / 2 == e / 64;
  }

  lemma FirstBits()
    ensures IsFirst(0x41) && IsFirst(0xC1) && !IsFirst(0x81) && !IsFirst(0x01)
  {
    hide IsFirst, IsFree, HasNext;
    FlagsOfEntry(0x41);
    FlagsOfEntry(0xC1);
    FlagsOfEntry(0x81);
    FlagsOfEntry(0x01);
  }

  // ---------- the live allocations ----------

  /** A map from the first block of each live allocation to its number of blocks. */
  type Live = map<nat, nat>

  predicate RunAt(t: Table, start: nat, n: nat) {
    n > 0 && start + n <= |t| && forall i :: 0 <= i < n ==> t[start + i] == RunEntry(n, i)
  }

  predicate Covered(live: Live, block: nat) {
    exists s :: s in live && s <= block < s + live[s]
  }

  /** The table is made of the runs of live, which do not overlap, and of free blocks. */
  ghost predicate Represents(t: Table, live: Live) {
    && (forall s :: s in live ==> RunAt(t, s, live[s]))
    && (forall r, s :: r in live && s in live && r < s ==> r + live[r] <= s)
    && (forall i :: 0 <= i < |t| && !Covered(live, i) ==> t[i] == FREE)
  }

  /** The number of blocks of the run that starts at a block, by its flags. */
  function RunLength(t: Table, block: nat): nat
    requires block < |t|
    decreases |t| - block
  {
    if HasNext(t[block]) && block + 1 < |t| then 1 + RunLength(t, block + 1) else 1
  }

  /** The allocations that the flags of a table say. */
  function Decode(t: Table): Live {
    map s: nat | 0 <= s < |t| && IsFirst(t[s]) :: RunLength(t, s)
  }

  lemma {:induction false} RunLengthOfRun(t: Table, start: nat, n: nat, i: nat)
    requires RunAt(t, start, n) && i < n
    ensures RunLength(t, start + i) == n - i
    decreases n - i
  {
    hide IsFree, HasNext, IsFirst;
    EntryFlags();
    assert t[start + i] == RunEntry(n, i);
    if i < n - 1 {
      RunLengthOfRun(t, start, n, i + 1);
    }
  }

  /** The first block of a run is marked as such and says its length; the others are not. */
  lemma RunStarts(t: Table, start: nat, n: nat)
    requires RunAt(t, start, n)
    ensures IsFirst(t[start]) && RunLength(t, start) == n
  {
    hide IsFree, HasNext, IsFirst, RunLength;
    EntryFlags();
    assert t[start + 0] == RunEntry(n, 0);
    RunLengthOfRun(t, start, n, 0);
  }

  lemma RunGoesOn(t: Table, start: nat, n: nat, s: nat)
    requires RunAt(t, start, n) && start < s < start + n
    ensures !IsFirst(t[s])
  {
    hide IsFree, HasNext, IsFirst;
    EntryFlags();
    assert t[start + (s - start)] == RunEntry(n, s - start);
  }

  /** One block: its flags mark it as the first of a run exactly if a live run starts at it, and then say its length. */
  lemma DecodesAt(t: Table, live: Live, s: nat)
    requires Represents(t, live) && s < |t|
    ensures s in live <==> IsFirst(t[s])
    ensures s in live ==> RunLength(t, s) == live[s]
  {
    hide IsFree, HasNext, IsFirst, RunLength, RunAt;
    if s in live {
      RunStarts(t, s, live[s]);
    } else if Covered(live, s) {
      var r :| r in live && r <= s < r + live[r];
      RunGoesOn(t, r, live[r], s);
    } else {
      EntryFlags();
    }
  }

  /** The flags decode to exactly the live allocations. */
  lemma DecodesToLive(t: Table, live: Live)
    requires Represents(t, live)
    ensures Decode(t) == live
  {
    hide IsFirst, RunLength;
    forall s: nat | s < |t|
      ensures s in live <==> IsFirst(t[s])
      ensures s in live ==> RunLength(t, s) == live[s]
    {
      DecodesAt(t, live, s);
    }
    assert forall s :: s in live ==> RunAt(t, s, live[s]) && s < |t|;
  }

  /** A block is free exactly if no live run covers it, and then its byte is 0. */
  lemma FreeMeansUncovered(t: Table, live: Live, i: nat)
    requires Represents(t, live) && i < |t|
    ensures IsFree(t[i]) <==> !Covered(live, i)
    ensures IsFree(t[i]) ==> t[i] == FREE
  {
    hide IsFree, HasNext, IsFirst;
    EntryFlags();
    if Covered(live, i) {
      var s :| s in live && s <= i < s + live[s];
      assert t[s + (i - s)] == RunEntry(live[s], i - s);
    }
  }

  /** Taking a free run adds it to the live allocations and keeps the others. */
  lemma TakeRepresents(t: Table, live: Live, start: nat, n: nat)
    requires Represents(t, live) && n > 0 && FreeRun(t, start, n)
    ensures start !in live && Represents(Take(t, start, n), live[start := n])
  {
    hide IsFree, FreeRun, Take, RunEntry, RunAt, Covered, FreeFrom;
    TakenIsRun(t, start, n);
    var u, live' := Take(t, start, n), live[start := n];
    forall s | s in live
      ensures s != start && (s < start ==> s + live[s] <= start) && (s > start ==> start + n <= s) && RunAt(u, s, live[s])
    {
      FreeRunIsApart(t, live, start, n, s);
      RunStays(t, u, s, live[s]);
    }
    forall i | 0 <= i < |u| && !Covered(live', i)
      ensures u[i] == FREE
    {
      CoveredWithRun(live, start, n, i);
    }
  }

  lemma TakenIsRun(t: Table, start: nat, n: nat)
    requires n > 0 && FreeRun(t, start, n)
    ensures start + n <= |t| && |Take(t, start, n)| == |t| && RunAt(Take(t, start, n), start, n)
    ensures forall i :: 0 <= i < |t| && !(start <= i < start + n) ==> Take(t, start, n)[i] == t[i]
  {
    hide RunEntry, IsFree;
  }

  /** A live run and a free one have no block in common. */
  lemma FreeRunIsApart(t: Table, live: Live, start: nat, n: nat, s: nat)
    requires Represents(t, live) && n > 0 && FreeRun(t, start, n) && s in live
    ensures live[s] > 0 && s + live[s] <= |t| && (s + live[s] <= start || start + n <= s)
  {
    assert RunAt(t, s, live[s]);
    hide Represents, RunAt, IsFree;
    var i := if s < start then start else s;
    if s < start + n && start < s + live[s] {
      assert IsFree(t[i]) && Covered(live, i);
      FreeMeansUncovered(t, live, i);
    }
  }

  lemma RunStays(t: Table, u: Table, s: nat, n: nat)
    requires RunAt(t, s, n) && |u| == |t| && forall i :: s <= i < s + n ==> u[i] == t[i]
    ensures RunAt(u, s, n)
  {
    hide RunEntry;
    forall i | 0 <= i < n
      ensures u[s + i] == RunEntry(n, i)
    {
      assert t[s + i] == RunEntry(n, i);
    }
  }

  /** What a map with one more run covers. */
  lemma CoveredWithRun(live: Live, start: nat, n: nat, i: nat)
    requires start !in live
    ensures Covered(live, i) || start <= i < start + n ==> Covered(live[start := n], i)
  {
    var live' := live[start := n];
    if Covered(live, i) {
      var s :| s in live && s <= i < s + live[s];
      assert s in live' && live'[s] == live[s];
    } else if start <= i < start + n {
      assert start in live' && live'[start] == n;
    }
  }

  lemma {:induction false} FreeFromClears(t: Table, start: nat, n: nat, i: nat)
    requires i < n && start + n <= |t|
    requires forall k :: i <= k < n ==> t[start + k] == RunEntry(n, k)
    ensures FreeFrom(t, start + i) == Clear(t, start + i, n - i)
    decreases n - i
  {
    hide IsFree, HasNext, IsFirst;
    EntryFlags();
    assert t[start + i] == RunEntry(n, i);
    if i < n - 1 {
      FreeFromClears(t[start + i := FREE], start, n, i + 1);
    }
  }

  /** Freeing a live allocation removes just that one. */
  lemma FreeRepresents(t: Table, live: Live, start: nat)
    requires Represents(t, live) && start in live
    ensures FreeFrom(t, start) == Clear(t, start, live[start])
    ensures Represents(FreeFrom(t, start), live - {start})
  {
    hide IsFree, HasNext, IsFirst;
    assert RunAt(t, start, live[start]);
    FreeFromClears(t, start, live[start], 0);
    hide FreeFrom, Clear, RunAt, Represents;
    ClearRepresents(t, live, start);
  }

  lemma ClearRepresents(t: Table, live: Live, start: nat)
    requires Represents(t, live) && start in live
    ensures start + live[start] <= |t| && Represents(Clear(t, start, live[start]), live - {start})
  {
    var n := live[start];
    assert RunAt(t, start, n);
    var u, live' := Clear(t, start, n), live - {start};
    assert forall i :: 0 <= i < |t| ==> u[i] == if start <= i < start + n then FREE else t[i];
    hide Clear, RunAt, Covered;
    forall s | s in live'
      ensures RunAt(u, s, live'[s])
    {
      RunStays(t, u, s, live[s]);
    }
    forall i | 0 <= i < |u| && !Covered(live', i)
      ensures u[i] == FREE
    {
      CoveredByOne(live, start, i);
    }
  }

  lemma CoveredByOne(live: Live, start: nat, i: nat)
    requires start in live
    ensures Covered(live, i) && !(start <= i < start + live[start]) ==> Covered(live - {start}, i)
  {
    if Covered(live, i) && !(start <= i < start + live[start]) {
      var s :| s in live && s <= i < s + live[s];
      assert s in live - {start} && (live - {start})[s] == live[s];
    }
  }

  /** Freeing what has just been taken restores the table byte for byte. */
  lemma TakeThenFree(t: Table, live: Live, start: nat, n: nat)
    requires Represents(t, live) && n > 0 && FreeRun(t, start, n)
    ensures FreeFrom(Take(t, start, n), start) == t
  {
    hide IsFree, HasNext, IsFirst, Represents, FreeFrom;
    var u := Take(t, start, n);
    assert forall k :: 0 <= k < n ==> u[start + k] == RunEntry(n, k);
    FreeFromClears(u, start, n, 0);
    forall i | start <= i < start + n
      ensures t[i] == FREE
    {
      assert IsFree(t[i]);
      FreeMeansUncovered(t, live, i);
    }
    assert Clear(u, start, n) == t;
  }

  // ---------- conservation ----------

  function CountFree(t: Table, i: nat): nat
    requires i <= |t|
    decreases |t| - i
  {
    if i == |t| then 0 else (if IsFree(t[i]) then 1 else 0) + CountFree(t, i + 1)
  }

  /** The blocks of all runs that start at block i or later, by their flags. */
  function CountLive(t: Table, i: nat): nat
    requires i <= |t|
    decreases |t| - i
  {
    if i == |t| then 0 else (if IsFirst(t[i]) then RunLength(t, i) else 0) + CountLive(t, i + 1)
  }

  /** From the i-th block of a run on, nothing is free and no run starts before the run ends. */
  lemma {:induction false} CountsInsideRun(t: Table, start: nat, n: nat, i: nat)
    requires RunAt(t, start, n) && 1 <= i <= n
    ensures CountFree(t, start + i) == CountFree(t, start + n) && CountLive(t, start + i) == CountLive(t, start + n)
    decreases n - i
  {
    hide IsFree, HasNext, IsFirst;
    EntryFlags();
    if i < n {
      assert t[start + i] == RunEntry(n, i);
      CountsInsideRun(t, start, n, i + 1);
    }
  }

  /** Free and live blocks together are all blocks, counted from any block that no run straddles. */
  lemma {:induction false} FreePlusLiveFrom(t: Table, live: Live, i: nat)
    requires Represents(t, live) && i <= |t|
    requires forall s :: s in live && s < i ==> s + live[s] <= i
    ensures CountFree(t, i) + CountLive(t, i) == |t| - i
    decreases |t| - i
  {
    hide IsFree, HasNext, IsFirst;
    EntryFlags();
    if i == |t| {
    } else if i in live {
      var n := live[i];
      assert t[i + 0] == RunEntry(n, 0);
      RunLengthOfRun(t, i, n, 0);
      CountsInsideRun(t, i, n, 1);
      FreePlusLiveFrom(t, live, i + n);
    } else {
      assert !Covered(live, i);
      FreePlusLiveFrom(t, live, i + 1);
    }
  }

  lemma FreePlusLive(t: Table, live: Live)
    requires Represents(t, live)
    ensures CountFree(t, 0) + CountLive(t, 0) == |t|
  {
    FreePlusLiveFrom(t, live, 0);
  }

  // ---------- whole histories ----------

  /** A request for a number of blocks, or the return of the allocation that starts at a block. */
  datatype Request = Allocate(n: nat) | Release(start: nat)

  /** A request that the heap can carry out: an allocation that fits, or is refused because the last
      block is taken, or the return of a live allocation. */
  predicate Proper(t: Table, r: Request) {
    match r
    case Allocate(n) => n > 0 && (Fits(t, n) || !EndsFree(t))
    case Release(start) => start in Decode(t)
  }

  function Serve(t: Table, r: Request): Table
    requires Proper(t, r)
  {
    match r
    case Allocate(n) =>
      if StartBlock(t, n) < 0 then t else Take(t, StartBlock(t, n), n)
    case Release(start) => FreeFrom(t, start)
  }

  predicate AllProper(t: Table, rs: seq<Request>)
    decreases |rs|
  {
    rs == [] || (Proper(t, rs[0]) && AllProper(Serve(t, rs[0]), rs[1..]))
  }

  function ServeAll(t: Table, rs: seq<Request>): Table
    requires AllProper(t, rs)
    decreases |rs|
  {
    if rs == [] then t else ServeAll(Serve(t, rs[0]), rs[1..])
  }

  /** The abstract heap: allocations are added and removed, nothing else. */
  function ServeLive(t: Table, live: Live, r: Request): Live
    requires Proper(t, r)
  {
    match r
    case Allocate(n) => if StartBlock(t, n) < 0 then live else live[StartBlock(t, n) := n]
    case Release(start) => live - {start}
  }

  function ServeAllLive(t: Table, live: Live, rs: seq<Request>): Live
    requires AllProper(t, rs)
    decreases |rs|
  {
    if rs == [] then live else ServeAllLive(Serve(t, rs[0]), ServeLive(t, live, rs[0]), rs[1..])
  }

  lemma ServeRepresents(t: Table, live: Live, r: Request)
    requires Represents(t, live) && Proper(t, r)
    ensures Represents(Serve(t, r), ServeLive(t, live, r))
  {
    match r
    case Allocate(n) =>
      SearchIsRight(t, n);
      if StartBlock(t, n) >= 0 {
        TakeRepresents(t, live, StartBlock(t, n), n);
      }
    case Release(start) =>
      DecodesToLive(t, live);
      FreeRepresents(t, live, start);
  }

  /** After any history of proper requests, on a table that represents live allocations such as an empty one,
      the flags decode to exactly the live allocations, which are disjoint runs, and free and live blocks
      add up to the whole table. */
  lemma {:induction false} HistoryRepresents(t: Table, live: Live, rs: seq<Request>)
    requires Represents(t, live) && AllProper(t, rs)
    ensures var u := ServeAll(t, rs); var after := ServeAllLive(t, live, rs);
      Represents(u, after) && Decode(u) == after && CountFree(u, 0) + CountLive(u, 0) == |t| == |u|
    decreases |rs|
  {
    if rs == [] {
      DecodesToLive(t, live);
      FreePlusLive(t, live);
    } else {
      ServeRepresents(t, live, rs[0]);
      HistoryRepresents(Serve(t, rs[0]), ServeLive(t, live, rs[0]), rs[1..]);
    }
  }
}

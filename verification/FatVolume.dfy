/** A FAT16 volume as a value: where its clusters are, how its table links them, and what reading a
    file by its links returns. */
module FatVolume {
  import opened Bits
  import opened Division
  import opened Status
  import opened Streamer

  const ENTRY_SIZE := 32

  /** The fields of the boot sector that the driver uses, and the number of sectors, from which the size
      of the data area follows. */
  datatype Volume = Volume(disk: Contents, reservedSectors: nat, fatCopies: nat, sectorsPerFat: nat,
                           rootDirEntries: nat, sectorsPerCluster: nat, totalSectors: nat) {
    predicate Valid() {
      sectorsPerCluster > 0
    }

    function ClusterBytes(): (s: nat)
      ensures Valid() ==> s > 0
    {
      sectorsPerCluster * SECTOR_SIZE
    }

    function RootSector(): nat {
      fatCopies * sectorsPerFat + reservedSectors
    }

    function RootSize(): nat {
      rootDirEntries * ENTRY_SIZE
    }

    /** The first sector after the root directory. */
    function EndingSector(): nat {
      RootSector() + RootSize() / SECTOR_SIZE + (if RootSize() % SECTOR_SIZE != 0 then 1 else 0)
    }

    /** The number of clusters, by the FAT specification 1.03, "FAT Type Determination". */
    function ClusterCount(): nat
      requires Valid()
    {
      if totalSectors <= EndingSector() then 0 else (totalSectors - EndingSector()) / sectorsPerCluster
    }

    function ClusterSector(cluster: int): int {
      EndingSector() + (cluster - 2) * sectorsPerCluster
    }

    function ClusterPos(cluster: int): int {
      ClusterSector(cluster) * SECTOR_SIZE
    }

    /** The table entry of a cluster: two bytes, the low one first. */
    function FatEntry(cluster: int): Word {
      LittleEndian16(disk, reservedSectors * SECTOR_SIZE + cluster * 2)
    }

    /** The cluster that follows a cluster. */
    function Link(cluster: int): Option<Word> {
      if Stops(FatEntry(cluster)) then None else Some(FatEntry(cluster))
    }

    /** The cluster n links after a cluster. */
    function Walk(cluster: int, n: nat): Option<int>
      decreases n
    {
      if n == 0 then Some(cluster)
      else match Link(cluster)
        case None => None
        case Some(next) => Walk(next, n - 1)
    }
  }

  function LittleEndian16(disk: Contents, pos: int): Word {
    var low: int, high: int := disk(pos), disk(pos + 1);
    low + 0x100 * high
  }

  function LittleEndian32(disk: Contents, pos: int): nat {
    LittleEndian16(disk, pos) + 0x1_0000 * LittleEndian16(disk, pos + 2)
  }

  /** The entries at which the driver gives up. */
  predicate Stops(entry: Word) {
    entry == 0xFFF8 || entry == 0xFFFF || entry == 0xFF7 || entry == 0xFF0 || entry == 0xFF6 || entry == 0
  }

  /** The entries that link to a cluster of a volume with a number of clusters, by the FAT specification 1.03,
      "FAT Data Structure": the first cluster has number 2, and the last that number plus 1. */
  predicate IsLink(entry: Word, clusters: nat) {
    2 <= entry <= clusters + 1
  }

  /** The entries that end a chain; 0xFFF7 marks a bad cluster. */
  predicate IsEnd(entry: Word) {
    entry >= 0xFFF8
  }

  const MAX_CLUSTERS := 65524

  predicate IsFat12Code(entry: Word) {
    entry == 0xFF0 || entry == 0xFF6 || entry == 0xFF7
  }

  /** The driver follows an entry exactly if it should, but for two kinds of entries: the codes of FAT12 stop
      it even if they are cluster numbers, and what is no cluster number does not stop it unless it is
      0, one of these codes, or one of two of the eight end marks. */
  lemma FollowsLinks(entry: Word, clusters: nat)
    requires clusters <= MAX_CLUSTERS
    ensures (!Stops(entry) <==> IsLink(entry, clusters)) <==>
              if IsFat12Code(entry) then entry > clusters + 1
              else 2 <= entry <= clusters + 1 || entry == 0 || entry == 0xFFF8 || entry == 0xFFFF
  {
  }

  lemma {:induction false} WalkOn(v: Volume, cluster: int, m: nat, n: nat)
    ensures v.Walk(cluster, m + n) == match v.Walk(cluster, m) case None => None case Some(c) => v.Walk(c, n)
    decreases m
  {
    if m > 0 && v.Link(cluster).Some? {
      WalkOn(v, v.Link(cluster).value, m - 1, n);
    }
  }

  // ---------- what a read returns ----------

  /** The status of a read, and the position on the disk of every byte that it copied. */
  datatype Outcome = Outcome(status: int, positions: seq<int>)

  function Positions(pos: int, n: nat): (ps: seq<int>)
    ensures |ps| == n && forall i :: 0 <= i < n ==> ps[i] == pos + i
  {
    seq(n, i => pos + i)
  }

  function BytesAt(disk: Contents, ps: seq<int>): (bytes: seq<Byte>)
    ensures |bytes| == |ps| && forall i :: 0 <= i < |ps| ==> bytes[i] == disk(ps[i])
  {
    if ps == [] then [] else BytesAt(disk, ps[..|ps| - 1]) + [disk(ps[|ps| - 1])]
  }

  lemma BytesAtJoin(disk: Contents, ps: seq<int>, qs: seq<int>)
    ensures BytesAt(disk, ps + qs) == BytesAt(disk, ps) + BytesAt(disk, qs)
  {
  }

  lemma BytesAtSpan(disk: Contents, pos: int, n: nat)
    ensures BytesAt(disk, Positions(pos, n)) == Span(disk, pos, n)
  {
  }

  function Min(x: nat, y: nat): nat {
    if x > y then y else x
  }

  /** fat16_read_internal: at most a cluster's bytes from the cluster of the offset on, and then the rest
      at the offset that follows, looked up from the start cluster again. */
  function ReadOutcome(v: Volume, start: int, offset: nat, total: nat): (o: Outcome)
    requires v.Valid()
    ensures o.status == 0 || o.status == -EIO
    ensures |o.positions| <= total && (o.status == 0 ==> |o.positions| == total)
    decreases total
  {
    match v.Walk(start, Quot(offset, v.ClusterBytes()))
    case None => Outcome(-EIO, [])
    case Some(cluster) =>
      var n := Min(total, v.ClusterBytes());
      var here := Positions(v.ClusterPos(cluster) + Rem(offset, v.ClusterBytes()), n);
      if total == n then Outcome(0, here)
      else
        var rest := ReadOutcome(v, start, offset + n, total - n);
        Outcome(rest.status, here + rest.positions)
  }

  /** The same read in one pass: from a cluster on, following a link after every cluster's bytes. */
  function PassOutcome(v: Volume, cluster: int, r: nat, total: nat): Outcome
    requires v.Valid()
    decreases total
  {
    var n := Min(total, v.ClusterBytes());
    var here := Positions(v.ClusterPos(cluster) + r, n);
    if total == n then Outcome(0, here)
    else match v.Link(cluster)
      case None => Outcome(-EIO, here)
      case Some(next) =>
        var rest := PassOutcome(v, next, r, total - n);
        Outcome(rest.status, here + rest.positions)
  }

  /** Walking from the start cluster again for every cluster's bytes is the same as a single pass. */
  lemma {:induction false} ReadIsSinglePass(v: Volume, start: int, offset: nat, total: nat, cluster: int)
    requires v.Valid() && v.Walk(start, Quot(offset, v.ClusterBytes())) == Some(cluster)
    ensures ReadOutcome(v, start, offset, total) == PassOutcome(v, cluster, Rem(offset, v.ClusterBytes()), total)
    decreases total
  {
    var s := v.ClusterBytes();
    if total > s {
      DividedSum(offset, s, 1);
      WalkOn(v, start, Quot(offset, s), 1);
      assert v.Walk(cluster, 1) == match v.Link(cluster) case None => None case Some(next) => v.Walk(next, 0);
      if v.Link(cluster).Some? {
        ReadIsSinglePass(v, start, offset + s, total - s, v.Link(cluster).value);
      }
    }
  }

  // ---------- files as flat byte sequences ----------

  /** The clusters cs are linked one to the next. */
  predicate IsChain(v: Volume, cs: seq<int>) {
    |cs| > 0 && forall i :: 0 <= i < |cs| - 1 ==> v.Link(cs[i]) == Some(cs[i + 1])
  }

  /** cs are all clusters of a file. */
  predicate IsWholeChain(v: Volume, cs: seq<int>) {
    IsChain(v, cs) && v.Link(cs[|cs| - 1]) == None
  }

  /** cs are all clusters of a file, by the specification: each entry is the number of the next cluster, and
      the last one is an end mark. */
  predicate IsStandardChain(v: Volume, cs: seq<int>)
    requires v.Valid()
  {
    && |cs| > 0 && IsEnd(v.FatEntry(cs[|cs| - 1]))
    && forall i :: 0 <= i < |cs| - 1 ==> v.FatEntry(cs[i]) == cs[i + 1] && IsLink(v.FatEntry(cs[i]), v.ClusterCount())
  }

  /** A chain of the specification is one for the driver exactly if no cluster behind the first has the number
      of a code of FAT12 and the end mark is one of the two that the driver knows. */
  lemma StandardChainIsWhole(v: Volume, cs: seq<int>)
    requires v.Valid() && v.ClusterCount() <= MAX_CLUSTERS && IsStandardChain(v, cs)
    ensures IsWholeChain(v, cs) <==>
              && (v.FatEntry(cs[|cs| - 1]) == 0xFFF8 || v.FatEntry(cs[|cs| - 1]) == 0xFFFF)
              && forall i :: 0 <= i < |cs| - 1 ==> !IsFat12Code(v.FatEntry(cs[i]))
  {
    hide Volume.FatEntry, Volume.ClusterCount, IsFat12Code;
    forall i | 0 <= i < |cs| - 1
      ensures v.Link(cs[i]) == Some(cs[i + 1]) <==> !IsFat12Code(v.FatEntry(cs[i]))
    {
      assert v.FatEntry(cs[i]) == cs[i + 1];
      LinkStops(v.FatEntry(cs[i]), v.ClusterCount());
    }
    if IsChain(v, cs) {
      forall i | 0 <= i < |cs| - 1
        ensures !IsFat12Code(v.FatEntry(cs[i]))
      {
        assert v.Link(cs[i]) == Some(cs[i + 1]);
      }
    } else {
      var i :| 0 <= i < |cs| - 1 && v.Link(cs[i]) != Some(cs[i + 1]);
      assert IsFat12Code(v.FatEntry(cs[i]));
    }
  }

  lemma LinkStops(entry: Word, clusters: nat)
    requires clusters <= MAX_CLUSTERS && IsLink(entry, clusters)
    ensures Stops(entry) <==> IsFat12Code(entry)
  {
  }

  lemma {:induction false} WalkOfChain(v: Volume, cs: seq<int>, n: nat)
    requires IsChain(v, cs)
    ensures n < |cs| ==> v.Walk(cs[0], n) == Some(cs[n])
    ensures n >= |cs| && IsWholeChain(v, cs) ==> v.Walk(cs[0], n) == None
    decreases n
  {
    if n > 0 {
      if |cs| > 1 {
        assert forall i :: 0 <= i < |cs| - 2 ==> v.Link(cs[1..][i]) == Some(cs[1..][i + 1]);
        assert v.Link(cs[0]) == Some(cs[1]);
        WalkOfChain(v, cs[1..], n - 1);
      }
    }
  }

  /** Where byte k of a file is. */
  function FlatPosition(v: Volume, cs: seq<int>, k: nat): int
    requires v.Valid() && Quot(k, v.ClusterBytes()) < |cs|
  {
    v.ClusterPos(cs[Quot(k, v.ClusterBytes())]) + Rem(k, v.ClusterBytes())
  }

  /** The concatenation of clusters. */
  function FileBytes(v: Volume, cs: seq<int>): seq<Byte>
  {
    if cs == [] then [] else FileBytes(v, cs[..|cs| - 1]) + Span(v.disk, v.ClusterPos(cs[|cs| - 1]), v.ClusterBytes())
  }

  lemma {:induction false} FileBytesAreFlat(v: Volume, cs: seq<int>)
    requires v.Valid()
    ensures |FileBytes(v, cs)| == |cs| * v.ClusterBytes()
    ensures forall k :: 0 <= k < |FileBytes(v, cs)| ==>
      Quot(k, v.ClusterBytes()) < |cs| && FileBytes(v, cs)[k] == v.disk(FlatPosition(v, cs, k))
  {
    hide Quot, Rem, Volume.ClusterPos, Volume.ClusterBytes, FlatPosition, FileBytes;
    FileBytesLength(v, cs);
    forall k | 0 <= k < |cs| * v.ClusterBytes()
      ensures Quot(k, v.ClusterBytes()) < |cs| && FileBytes(v, cs)[k] == v.disk(FlatPosition(v, cs, k))
    {
      FileByteIsFlat(v, cs, k);
    }
  }

  lemma LastCluster(v: Volume, cs: seq<int>)
    requires cs != []
    ensures FileBytes(v, cs) == FileBytes(v, cs[..|cs| - 1]) + Span(v.disk, v.ClusterPos(cs[|cs| - 1]), v.ClusterBytes())
  {
  }

  lemma {:induction false} FileBytesLength(v: Volume, cs: seq<int>)
    requires v.Valid()
    ensures |FileBytes(v, cs)| == |cs| * v.ClusterBytes()
  {
    if cs != [] {
      hide FileBytes, Volume.ClusterBytes, Volume.ClusterPos;
      FileBytesLength(v, cs[..|cs| - 1]);
      LastCluster(v, cs);
      OneMore(|cs| - 1, v.ClusterBytes());
    }
  }

  lemma OneMore(n: nat, s: nat)
    ensures (n + 1) * s == n * s + s
  {
  }

  lemma FlatPositionIs(v: Volume, cs: seq<int>, k: nat)
    requires v.Valid() && Quot(k, v.ClusterBytes()) < |cs|
    ensures FlatPosition(v, cs, k) == v.ClusterPos(cs[Quot(k, v.ClusterBytes())]) + Rem(k, v.ClusterBytes())
  {
  }

  /** One byte of a file: it is in the last cluster, or in one before it. */
  lemma {:induction false} FileByteIsFlat(v: Volume, cs: seq<int>, k: nat)
    requires v.Valid() && k < |cs| * v.ClusterBytes()
    ensures k < |FileBytes(v, cs)| && Quot(k, v.ClusterBytes()) < |cs|
    ensures FileBytes(v, cs)[k] == v.disk(FlatPosition(v, cs, k))
    decreases |cs|
  {
    hide Quot, Rem, Volume.ClusterPos, Volume.ClusterBytes, FlatPosition, FileBytes;
    var s, n := v.ClusterBytes(), |cs| - 1;
    var front := cs[..n];
    FileBytesLength(v, cs);
    FileBytesLength(v, front);
    LastCluster(v, cs);
    OneMore(n, s);
    QuotBelow(k, s, |cs|);
    FlatPositionIs(v, cs, k);
    if k < n * s {
      FileByteIsFlat(v, front, k);
      FlatPositionIs(v, front, k);
    } else {
      DividedUniquely(k, s, n, k - n * s);
    }
  }

  /** Every byte that a read copies: cluster by cluster, but always from the remainder of the first
      offset on, whether or not that runs over the end of the cluster. */
  lemma {:induction false} OutcomeAt(v: Volume, cs: seq<int>, offset: nat, total: nat, j: nat)
    requires v.Valid() && IsChain(v, cs) && j < total
    requires ReadOutcome(v, cs[0], offset, total).status == 0
    ensures var s := v.ClusterBytes(); var i := Quot(offset, s) + Quot(j, s);
      IsWholeChain(v, cs) || i < |cs| ==>
      i < |cs| && ReadOutcome(v, cs[0], offset, total).positions[j] == v.ClusterPos(cs[i]) + Rem(offset, s) + Rem(j, s)
    decreases total
  {
    var s := v.ClusterBytes();
    WalkOfChain(v, cs, Quot(offset, s));
    if j < s {
      DividedSmall(j, s);
    } else {
      DividedSum(offset, s, 1);
      DividedSum(j - s, s, 1);
      OutcomeAt(v, cs, offset + s, total - s, j - s);
    }
  }

  /** A read succeeds exactly if the first byte that it takes of every cluster is in the file; it does
      not mind running over the end of the last one. */
  lemma {:induction false} ReadSucceeds(v: Volume, cs: seq<int>, offset: nat, total: nat)
    requires v.Valid() && IsChain(v, cs)
    ensures var started := Quot(offset, v.ClusterBytes()) + (if total == 0 then 0 else Quot(total - 1, v.ClusterBytes()));
      var o := ReadOutcome(v, cs[0], offset, total);
      (started < |cs| ==> o.status == 0) && (IsWholeChain(v, cs) && started >= |cs| ==> o.status == -EIO)
    decreases total
  {
    var s := v.ClusterBytes();
    WalkOfChain(v, cs, Quot(offset, s));
    if total > s {
      DividedSum(offset, s, 1);
      DividedSum(total - 1 - s, s, 1);
      ReadSucceeds(v, cs, offset + s, total - s);
    } else if total > 0 {
      DividedSmall(total - 1, s);
    }
  }

  /** The clusters from the first-th to the last-th lie one after the other on the disk. */
  predicate Contiguous(cs: seq<int>, first: nat, last: nat)
    requires last < |cs|
  {
    forall m :: first <= m < last ==> cs[m + 1] == cs[m] + 1
  }

  /** A read takes every byte from where the file has it. */
  predicate ReadsFlat(v: Volume, cs: seq<int>, offset: nat, total: nat)
    requires v.Valid() && IsChain(v, cs) && offset + total <= |cs| * v.ClusterBytes()
  {
    var o := ReadOutcome(v, cs[0], offset, total);
    o.status == 0
    && forall j :: 0 <= j < total ==> TakesFlat(v, cs, offset, o.positions, j)
  }

  predicate TakesFlat(v: Volume, cs: seq<int>, offset: nat, positions: seq<int>, j: nat)
    requires v.Valid() && j < |positions| && offset + j < |cs| * v.ClusterBytes()
  {
    QuotBelow(offset + j, v.ClusterBytes(), |cs|);
    positions[j] == FlatPosition(v, cs, offset + j)
  }

  lemma ReadInFileSucceeds(v: Volume, cs: seq<int>, offset: nat, total: nat)
    requires v.Valid() && IsChain(v, cs) && 0 < total && offset + total <= |cs| * v.ClusterBytes()
    ensures ReadOutcome(v, cs[0], offset, total).status == 0
    ensures Quot(offset + total - 1, v.ClusterBytes()) < |cs|
  {
    hide Quot, Rem;
    var s := v.ClusterBytes();
    QuotBelow(offset + total - 1, s, |cs|);
    DividedBoth(offset, total - 1, s);
    ReadSucceeds(v, cs, offset, total);
  }

  /** A byte is taken from the right place if the copy has not left the cluster that it started in, or
      if the next cluster of the file happens to follow on the disk. */
  lemma ByteIsFlat(v: Volume, cs: seq<int>, offset: nat, total: nat, j: nat)
    requires v.Valid() && IsChain(v, cs) && j < total && offset + total <= |cs| * v.ClusterBytes()
    requires ReadOutcome(v, cs[0], offset, total).status == 0
    ensures var s := v.ClusterBytes(); var i := Quot(offset, s) + Quot(j, s);
      i < |cs| && (Rem(offset, s) + Rem(j, s) >= s ==> i + 1 < |cs|)
      && (TakesFlat(v, cs, offset, ReadOutcome(v, cs[0], offset, total).positions, j)
          <==> Rem(offset, s) + Rem(j, s) < s || cs[i + 1] == cs[i] + 1)
  {
    hide Quot, Rem, ReadOutcome, IsChain;
    var s := v.ClusterBytes();
    var i := Quot(offset, s) + Quot(j, s);
    QuotBelow(offset + j, s, |cs|);
    DividedBoth(offset, j, s);
    OutcomeAt(v, cs, offset, total, j);
    if Rem(offset, s) + Rem(j, s) >= s {
      ClusterDistance(v, cs[i], cs[i + 1]);
    }
  }

  lemma ClusterDistance(v: Volume, c: int, d: int)
    requires v.Valid()
    ensures v.ClusterPos(d) == v.ClusterPos(c) + v.ClusterBytes() <==> d == c + 1
  {
    assert v.ClusterPos(d) - v.ClusterPos(c) == (d - c) * v.ClusterBytes();
    Distinguish(d - c, v.ClusterBytes());
  }

  lemma Distinguish(n: int, s: nat)
    requires s > 0
    ensures n * s == s <==> n == 1
  {
    if n > 1 {
      assert n * s == s + (n - 1) * s;
      Monotone(1, n - 1, s);
    } else if n < 1 {
      assert n * s == s - (1 - n) * s;
      Monotone(1, 1 - n, s);
    }
  }

  /** Reading inside a file takes exactly the bytes of the file exactly if the offset is at the start of a
      cluster, or the clusters that the range touches lie one after the other on the disk: as they do
      when it touches only one. */
  lemma ReadIsFlatExactly(v: Volume, cs: seq<int>, offset: nat, total: nat)
    requires v.Valid() && IsChain(v, cs) && 0 < total && offset + total <= |cs| * v.ClusterBytes()
    ensures var s := v.ClusterBytes(); var last := Quot(offset + total - 1, s);
      last < |cs| && (ReadsFlat(v, cs, offset, total) <==> Rem(offset, s) == 0 || Contiguous(cs, Quot(offset, s), last))
  {
    hide Quot, Rem, ReadOutcome, IsChain, TakesFlat, Volume.ClusterBytes, Volume.ClusterPos;
    var s := v.ClusterBytes();
    var q, r, last := Quot(offset, s), Rem(offset, s), Quot(offset + total - 1, s);
    ReadInFileSucceeds(v, cs, offset, total);
    var ps := ReadOutcome(v, cs[0], offset, total).positions;
    if r == 0 || Contiguous(cs, q, last) {
      forall j | 0 <= j < total
        ensures TakesFlat(v, cs, offset, ps, j)
      {
        ByteIsFlat(v, cs, offset, total, j);
        DividedBoth(offset, j, s);
        QuotMonotone(offset + j, offset + total - 1, s);
      }
    } else {
      var m :| q <= m < last && cs[m + 1] != cs[m] + 1;
      CrossingByte(offset, total, s, m);
      ByteIsFlat(v, cs, offset, total, (m - q) * s + (s - r));
    }
  }

  /** The first byte after the boundary behind cluster m, in a read that does not start at a boundary. */
  lemma CrossingByte(offset: nat, total: nat, s: nat, m: nat)
    requires s > 0 && total > 0 && Rem(offset, s) > 0 && Quot(offset, s) <= m < Quot(offset + total - 1, s)
    ensures var j := (m - Quot(offset, s)) * s + (s - Rem(offset, s));
      0 <= j < total && Quot(j, s) == m - Quot(offset, s) && Rem(j, s) == s - Rem(offset, s)
  {
    hide Quot, Rem;
    var q, r := Quot(offset, s), Rem(offset, s);
    var j := (m - q) * s + (s - r);
    Monotone(0, m - q, s);
    DividedUniquely(j, s, m - q, s - r);
    Divided(offset, s);
    Divided(offset + total - 1, s);
    assert offset + j == (m + 1) * s;
    Monotone(m + 1, Quot(offset + total - 1, s), s);
  }

  /** A flat read returns the bytes of the file. */
  lemma FlatReadReturnsFile(v: Volume, cs: seq<int>, offset: nat, total: nat)
    requires v.Valid() && IsChain(v, cs) && offset + total <= |cs| * v.ClusterBytes() && ReadsFlat(v, cs, offset, total)
    ensures |FileBytes(v, cs)| == |cs| * v.ClusterBytes()
    ensures BytesAt(v.disk, ReadOutcome(v, cs[0], offset, total).positions) == FileBytes(v, cs)[offset..offset + total]
  {
    hide FileBytes, ReadOutcome;
    FileBytesAreFlat(v, cs);
    var o := ReadOutcome(v, cs[0], offset, total);
    forall j | 0 <= j < total
      ensures v.disk(o.positions[j]) == FileBytes(v, cs)[offset + j]
    {
      assert TakesFlat(v, cs, offset, o.positions, j);
    }
  }

  /** A file in clusters 2 and 4: its byte 512, the first of cluster 4, is 7. */
  function Scattered(): Volume {
    Volume(p => if p == 4 then 4 else if p == 8 || p == 9 then 0xFF else if p == 1536 then 7 else 0, 0, 1, 1, 0, 1, 8)
  }

  lemma ScatteredBytes()
    ensures var disk := Scattered().disk; disk(1023) == 0 && disk(1024) == 0 && disk(1536) == 7
  {
  }

  lemma ScatteredLayout()
    ensures var v := Scattered();
      v.Valid() && IsWholeChain(v, [2, 4]) && v.ClusterBytes() == 512 && v.ClusterPos(2) == 512 && v.ClusterPos(4) == 1536
  {
    var v := Scattered();
    assert v.FatEntry(2) == 4 && v.FatEntry(4) == 0xFFFF;
    assert v.Link(2) == Some(4) && v.Link(4) == None;
  }

  lemma MisalignedOutcome()
    ensures var v := Scattered(); v.Valid() && ReadOutcome(v, 2, 511, 2) == Outcome(0, Positions(1023, 2))
  {
    var v := Scattered();
    ScatteredLayout();
    DividedSmall(511, 512);
    hide Scattered, IsChain, Volume.ClusterBytes, Volume.ClusterPos, Volume.Link, Quot, Rem;
    assert v.Walk(2, 0) == Some(2);
  }

  lemma TwoBytesOfFile(v: Volume, c: int, d: int)
    requires v.Valid() && v.ClusterBytes() == 512
    ensures |FileBytes(v, [c, d])| == 1024
    ensures FileBytes(v, [c, d])[511..513] == [v.disk(v.ClusterPos(c) + 511), v.disk(v.ClusterPos(d))]
  {
    hide FileBytes, Volume.ClusterBytes, Volume.ClusterPos, Quot, Rem;
    DividedUniquely(511, 512, 0, 511);
    DividedUniquely(512, 512, 1, 0);
    FileBytesAreFlat(v, [c, d]);
    assert FlatPosition(v, [c, d], 511) == v.ClusterPos(c) + 511 && FlatPosition(v, [c, d], 512) == v.ClusterPos(d);
  }

  /** A read of the bytes 511 and 512 of that file takes byte 512 from cluster 3. */
  lemma MisalignedReadFails()
    ensures var v := Scattered(); var o := ReadOutcome(v, 2, 511, 2);
      v.Valid() && IsWholeChain(v, [2, 4]) && o.status == 0
      && BytesAt(v.disk, o.positions) == [0, 0] && |FileBytes(v, [2, 4])| == 1024 && FileBytes(v, [2, 4])[511..513] == [0, 7]
  {
    ScatteredLayout();
    MisalignedOutcome();
    ScatteredBytes();
    hide Scattered, IsChain, ReadOutcome, Volume.ClusterBytes, Volume.ClusterPos, FileBytes;
    TwoBytesOfFile(Scattered(), 2, 4);
  }

  // ---------- reads of several members ----------

  /** fat16_read: nmemb reads of size bytes, one after the other, up to the first that fails. */
  function MembersOutcome(v: Volume, start: int, offset: nat, size: nat, nmemb: nat): (o: Outcome)
    requires v.Valid()
    ensures o.status == 0 || o.status == -EIO
    ensures |o.positions| <= nmemb * size && (o.status == 0 ==> |o.positions| == nmemb * size)
    decreases nmemb
  {
    if nmemb == 0 then Outcome(0, [])
    else
      var before := MembersOutcome(v, start, offset, size, nmemb - 1);
      assert nmemb * size == (nmemb - 1) * size + size;
      if before.status != 0 then before
      else
        var o := ReadOutcome(v, start, offset + (nmemb - 1) * size, size);
        Outcome(o.status, before.positions + o.positions)
  }

  /** If every member is read flat, all of them together are the bytes of the file. */
  lemma {:induction false} MembersReturnFile(v: Volume, cs: seq<int>, offset: nat, size: nat, nmemb: nat)
    requires v.Valid() && IsChain(v, cs) && offset + nmemb * size <= |cs| * v.ClusterBytes()
    requires forall i :: 0 <= i < nmemb ==> offset + i * size + size <= |cs| * v.ClusterBytes() && ReadsFlat(v, cs, offset + i * size, size)
    ensures |FileBytes(v, cs)| == |cs| * v.ClusterBytes()
    ensures var o := MembersOutcome(v, cs[0], offset, size, nmemb);
      o.status == 0 && BytesAt(v.disk, o.positions) == FileBytes(v, cs)[offset..offset + nmemb * size]
    decreases nmemb
  {
    hide FileBytes, ReadOutcome, ReadsFlat, BytesAt, Volume.ClusterBytes;
    FileBytesAreFlat(v, cs);
    if nmemb > 0 {
      assert nmemb * size == (nmemb - 1) * size + size;
      MembersReturnFile(v, cs, offset, size, nmemb - 1);
      var at := offset + (nmemb - 1) * size;
      FlatReadSucceeds(v, cs, at, size);
      FlatReadReturnsFile(v, cs, at, size);
      BytesAtJoin(v.disk, MembersOutcome(v, cs[0], offset, size, nmemb - 1).positions, ReadOutcome(v, cs[0], at,
          size).positions);
    }
  }

  lemma FlatReadSucceeds(v: Volume, cs: seq<int>, offset: nat, total: nat)
    requires v.Valid() && IsChain(v, cs) && offset + total <= |cs| * v.ClusterBytes() && ReadsFlat(v, cs, offset, total)
    ensures ReadOutcome(v, cs[0], offset, total).status == 0
  {
  }

  /** Members that divide a cluster evenly, read from a position that is a whole number of them, are
      always read flat: none of them crosses into another cluster. */
  lemma EvenMembersAreFlat(v: Volume, cs: seq<int>, member: nat, size: nat, perCluster: nat)
    requires v.Valid() && IsChain(v, cs) && size > 0 && v.ClusterBytes() == perCluster * size
    requires member * size + size <= |cs| * v.ClusterBytes()
    ensures ReadsFlat(v, cs, member * size, size)
  {
    hide Quot, Rem, ReadsFlat, IsChain, Volume.ClusterBytes;
    var s := v.ClusterBytes();
    var offset := member * size;
    var q, r := Quot(offset, s), Rem(offset, s);
    Divided(offset, s);
    assert r == (member - q * perCluster) * size by { assert q * (perCluster * size) == (q * perCluster) * size; }
    assert (member - q * perCluster) * size == -((q * perCluster - member) * size);
    if member - q * perCluster >= perCluster {
      Monotone(perCluster, member - q * perCluster, size);
    } else if member >= q * perCluster {
      Monotone(member - q * perCluster, perCluster, size);
    } else {
      Monotone(1, q * perCluster - member, size);
    }
    assert r + size <= s;
    DividedUniquely(offset + size - 1, s, q, r + size - 1);
    ReadIsFlatExactly(v, cs, offset, size);
  }
}

/** A disk as the FAT specification says it is written, and what the system reads from it: a file of the root directory,
    opened by its name, gives back the bytes that have been stored in its clusters. */
module FormattedDisk {
  import opened Bits
  import opened Division
  import opened Status
  import opened Streamer
  import opened FatVolume
  import opened FatDirectory
  import opened FatLayout
  import opened FatFormat
  import opened Fat16
  import opened FileTable
  import Heap
  import PathParser

  /** The first byte of the root directory, and that of a cluster. */
  function RootAt(b: BootSector): nat {
    (b.reservedSectors + b.fatCopies * b.sectorsPerFat) * 512
  }

  function ClusterAt(b: BootSector, cluster: int): int {
    (FirstDataSector(b.reservedSectors, b.fatCopies, b.sectorsPerFat, b.rootEntries) + (cluster - 2) * b.sectorsPerCluster) * 512
  }

  function ClusterSize(b: BootSector): nat {
    b.sectorsPerCluster * 512
  }

  /** An entry of a file: its name has a base without a dot, and the entry is neither deleted nor a subdirectory. */
  predicate IsFile(d: DirEntry) {
    && d.Valid() && d.base != [] && d.base[0] != 0xE5 && 0x2E !in d.base
    && d.attributes / 16 % 2 == 0 && d.clusterHigh == 0
  }

  predicate DifferentNames(files: seq<DirEntry>) {
    forall i, j :: 0 <= i < j < |files| ==> !SameName(files[i].FileName(), files[j].FileName())
  }

  /** The entries are in the root directory, and behind them is the mark that ends it. */
  ghost predicate HoldsFiles(disk: Contents, pos: int, files: seq<DirEntry>) {
    && (forall i :: 0 <= i < |files| ==> IsFile(files[i]) && Holds(disk, pos + 32 * i, EntryBytes(files[i])))
    && disk(pos + 32 * |files|) == 0
  }

  /** A disk with a boot sector, a table, and files in its root directory. */
  ghost predicate Formatted(disk: Contents, b: BootSector, table: seq<Word>, files: seq<DirEntry>) {
    && Starts(disk, b) && b.signature == 0x29 && b.sectorsPerCluster > 0
    && HoldsTable(disk, b.reservedSectors * 512, table)
    && HoldsFiles(disk, RootAt(b), files) && |files| <= b.rootEntries && DifferentNames(files)
  }

  predicate InTable(table: seq<Word>, cs: seq<int>) {
    forall k :: 0 <= k < |cs| ==> 0 <= cs[k] < |table|
  }

  /** The k-th cluster is linked to the next one, whose number is not one at which the driver stops. */
  predicate LinksOn(table: seq<Word>, cs: seq<int>, k: nat)
    requires InTable(table, cs) && k + 1 < |cs|
  {
    var next := cs[k + 1];
    table[cs[k]] == next && 2 <= next < 0xFFF7 && next != 0xFF0 && next != 0xFF6 && next != 0xFF7
  }

  predicate Chained(table: seq<Word>, cs: seq<int>) {
    cs != [] && InTable(table, cs) && forall k :: 0 <= k < |cs| - 1 ==> LinksOn(table, cs, k)
  }

  predicate IsStored(disk: Contents, b: BootSector, cs: seq<int>, bytes: seq<Byte>, k: nat, j: nat)
    requires k < |cs|
  {
    var at := k * ClusterSize(b) + j;
    at < |bytes| && bytes[at] == disk(ClusterAt(b, cs[k]) + j)
  }

  /** The bytes are in the clusters, one cluster after the other. */
  ghost predicate StoredIn(disk: Contents, b: BootSector, cs: seq<int>, bytes: seq<Byte>) {
    && |bytes| == |cs| * ClusterSize(b)
    && forall k, j :: 0 <= k < |cs| && 0 <= j < ClusterSize(b) ==> IsStored(disk, b, cs, bytes, k, j)
  }

  // ---------- the volume ----------

  lemma VolumeIs(disk: Contents, b: BootSector)
    ensures var v := VolumeOf(disk, b); RootPos(v) == RootAt(b) && v.ClusterBytes() == ClusterSize(b)
    ensures forall c: int :: VolumeOf(disk, b).ClusterPos(c) == ClusterAt(b, c)
  {
    forall c: int
      ensures VolumeOf(disk, b).ClusterPos(c) == ClusterAt(b, c)
    {
      ClusterIsAt(VolumeOf(disk, b), c);
    }
  }

  // ---------- the directory ----------

  lemma HeldEntry(disk: Contents, pos: int, i: nat, e: Entry)
    requires Holds(disk, pos + 32 * i, e)
    ensures EntryAt(disk, pos, i) == e && disk(pos + 32 * i) == e[0]
  {
    assert disk(pos + 32 * i + 0) == e[0];
    var s := EntryAt(disk, pos, i);
    assert forall k :: 0 <= k < 32 ==> s[k] == e[k];
  }

  lemma FirstByte(d: DirEntry)
    requires IsFile(d)
    ensures EntryBytes(d)[0] == d.base[0] && d.base[0] != 0
  {
    assert Padded(d.base, 8)[0] == d.base[0];
  }

  lemma FilesAreLive(disk: Contents, pos: int, files: seq<DirEntry>)
    requires HoldsFiles(disk, pos, files)
    ensures Terminated(disk, pos, |files|) && CountLive(disk, pos, |files|) == |files|
    ensures forall i :: 0 <= i < |files| ==> IsLive(disk, pos, i) && EntryAt(disk, pos, i) == EntryBytes(files[i])
  {
    hide Holds, EntryBytes, EntryAt, CountLive;
    forall i | 0 <= i < |files|
      ensures IsLive(disk, pos, i) && disk(pos + 32 * i) != 0 && EntryAt(disk, pos, i) == EntryBytes(files[i])
    {
      HeldEntry(disk, pos, i, EntryBytes(files[i]));
      FirstByte(files[i]);
    }
    CountsAll(disk, pos, |files|);
  }

  lemma FileEntry(d: DirEntry)
    requires IsFile(d)
    ensures var e := EntryBytes(d);
      FullName(e) == d.FileName() && !IsSubdirectory(e) && FirstCluster(e) == d.clusterLow
  {
    DirEntryRoundTrip(d);
  }

  /** The items of the root directory are the entries of the files. */
  lemma ItemsAreFiles(v: Volume, pos: int, files: seq<DirEntry>)
    requires HoldsFiles(v.disk, pos, files)
    ensures var items := ItemsAt(v, map[pos := |files|], pos);
      |items| == |files| && forall i :: 0 <= i < |files| ==> items[i] == EntryBytes(files[i])
  {
    FilesAreLive(v.disk, pos, files);
    hide HoldsFiles, EntryAt, EntryBytes, CountLive;
  }

  lemma ItemNames(v: Volume, pos: int, files: seq<DirEntry>)
    requires HoldsFiles(v.disk, pos, files)
    ensures var items := ItemsAt(v, map[pos := |files|], pos);
      |items| == |files| && forall i :: 0 <= i < |files| ==> FullName(items[i]) == files[i].FileName() && !IsSubdirectory(items[i])
  {
    ItemsAreFiles(v, pos, files);
    hide EntryBytes, FullName, IsSubdirectory, ItemsAt, Holds;
    forall i | 0 <= i < |files|
      ensures FullName(ItemsAt(v, map[pos := |files|], pos)[i]) == files[i].FileName()
      ensures !IsSubdirectory(ItemsAt(v, map[pos := |files|], pos)[i])
    {
      FileEntry(files[i]);
    }
  }

  lemma RootIsWellFormed(v: Volume, pos: int, files: seq<DirEntry>)
    requires HoldsFiles(v.disk, pos, files)
    ensures WellFormed(v, map[pos := |files|])
  {
    hide EntryBytes, FullName, IsSubdirectory, EntryAt, CountLive, Terminated, Holds, HoldsFiles, Known, ItemsAt,
        IsLive;
    FilesAreLive(v.disk, pos, files);
    ItemNames(v, pos, files);
    var items := ItemsAt(v, map[pos := |files|], pos);
    forall e | e in items
      ensures !IsSubdirectory(e)
    {
      var i :| 0 <= i < |items| && items[i] == e;
    }
  }

  lemma RootIsTidy(v: Volume, pos: int, files: seq<DirEntry>)
    requires HoldsFiles(v.disk, pos, files) && DifferentNames(files)
    ensures Tidy(v, map[pos := |files|])
  {
    hide EntryBytes, FullName, IsSubdirectory, SameName, EntryAt, CountLive, Terminated, Holds, HoldsFiles, ItemsAt,
        IsLive,
      DirEntry.FileName;
    FilesAreLive(v.disk, pos, files);
    ItemNames(v, pos, files);
    var items := ItemsAt(v, map[pos := |files|], pos);
    forall i, j | 0 <= i < j < |items|
      ensures !SameName(FullName(items[i]), FullName(items[j]))
    {
      assert !SameName(files[i].FileName(), files[j].FileName());
    }
  }

  lemma PathFindsFile(v: Volume, pos: int, files: seq<DirEntry>, i: nat, name: Name)
    requires HoldsFiles(v.disk, pos, files) && DifferentNames(files) && i < |files|
    requires SameName(files[i].FileName(), name)
    ensures Resolve(v, map[pos := |files|], pos, [name]) == Some(EntryBytes(files[i]))
  {
    var dirs := map[pos := |files|];
    RootIsTidy(v, pos, files);
    FilesAreLive(v.disk, pos, files);
    FileEntry(files[i]);
    hide HoldsFiles, EntryBytes, FullName, IsSubdirectory, SameName, EntryAt, CountLive, Terminated, Tidy, WellFormed,
        IsLive,
      Resolve;
    assert HasEntry(v, dirs, pos, EntryBytes(files[i])) by { assert EntryAt(v.disk, pos, i) == EntryBytes(files[i]) && IsLive(v.disk, pos, i); }
    assert LeadsTo(v, dirs, pos, [name], EntryBytes(files[i]));
    ResolveFindsPath(v, dirs, pos, [name], EntryBytes(files[i]));
  }

  // ---------- the path ----------

  lemma NameIsOrdinary(d: DirEntry, name: Name)
    requires IsFile(d) && SameName(d.FileName(), name) && 0x2F !in name
    ensures name != [] && |name| <= 12 && IsString(name) && !SameName(PARENT, name)
  {
    var f := d.FileName();
    assert Lower(f[0]) == Lower(name[0]);
    assert f[0] == d.base[0];
    assert d.base[0] in d.base;
    forall k | 0 <= k < |name|
      ensures name[k] != 0
    {
      assert Lower(f[k]) == Lower(name[k]);
      assert f[k] != 0;
    }
  }

  /** The path 0:/name, as it is written. */
  function RootPath(name: Name): Name {
    [0x30, 0x3A, 0x2F] + name
  }

  lemma RootPathParses(name: Name)
    requires name != [] && |name| <= 12 && 0x2F !in name
    ensures PathParser.ParsePath(RootPath(name)) == Some(PathParser.Path(0, [name]))
  {
    var path := PathParser.Path(0, [name]);
    assert PathParser.Joined([name]) == name;
    assert PathParser.Written(path) == RootPath(name);
    PathParser.ParseWritten(path);
  }

  lemma FileAt(disk: Contents, pos: int, files: seq<DirEntry>, i: nat)
    requires HoldsFiles(disk, pos, files) && i < |files|
    ensures IsFile(files[i])
  {
    hide IsFile, Holds;
  }

  lemma CanOpenFile(fat: FatPrivate, pos: int, files: seq<DirEntry>, i: nat, name: Name)
    requires HoldsFiles(fat.v.disk, pos, files) && DifferentNames(files) && pos == RootPos(fat.v)
    requires i < |files| && SameName(files[i].FileName(), name) && 0x2F !in name
    ensures var dirs := map[pos := |files|];
      CanOpen(fat, dirs, RootPath(name), [0x72]) && Opened(fat, dirs, RootPath(name), [0x72]) == Some(EntryBytes(files[i]))
  {
    hide PathParser.ParsePath, EntryBytes, HoldsFiles, Resolve, Named, IsSubdirectory, SameName, ItemsAt, RootPath,
      DifferentNames, IsFile;
    FileAt(fat.v.disk, pos, files, i);
    NameIsOrdinary(files[i], name);
    RootPathParses(name);
    PathFindsFile(fat.v, pos, files, i, name);
  }

  // ---------- the bytes ----------

  lemma ChainIsLinked(disk: Contents, b: BootSector, table: seq<Word>, cs: seq<int>)
    requires HoldsTable(disk, b.reservedSectors * 512, table) && Chained(table, cs)
    ensures IsChain(VolumeOf(disk, b), cs)
  {
    var v := VolumeOf(disk, b);
    forall k | 0 <= k < |cs| - 1
      ensures v.Link(cs[k]) == Some(cs[k + 1])
    {
      assert LinksOn(table, cs, k);
      EntryRoundTrip(v, table, cs[k]);
    }
  }

  lemma BytesAreStored(disk: Contents, b: BootSector, cs: seq<int>, bytes: seq<Byte>)
    requires b.sectorsPerCluster > 0 && StoredIn(disk, b, cs, bytes)
    ensures FileBytes(VolumeOf(disk, b), cs) == bytes
  {
    var v := VolumeOf(disk, b);
    VolumeIs(disk, b);
    FileBytesAreFlat(v, cs);
    hide FileBytes, VolumeOf, Volume.ClusterPos, Volume.ClusterBytes, Quot, Rem;
    var s := ClusterSize(b);
    assert v.disk == disk by { VolumeDisk(disk, b); }
    forall k | 0 <= k < |bytes|
      ensures FileBytes(v, cs)[k] == bytes[k]
    {
      Divided(k, s);
      var q, m := Quot(k, s), Rem(k, s);
      QuotBelow(k, s, |cs|);
      assert IsStored(disk, b, cs, bytes, q, m);
    }
  }

  lemma VolumeDisk(disk: Contents, b: BootSector)
    ensures VolumeOf(disk, b).disk == disk && VolumeOf(disk, b).rootDirEntries == b.rootEntries
    ensures b.sectorsPerCluster > 0 ==> VolumeOf(disk, b).Valid()
  {
  }

  // ---------- from the disk to the bytes ----------

  /** The mounted disk, with no file open. */
  method MountFormatted(disk: Contents, ghost b: BootSector, ghost table: seq<Word>, ghost files: seq<DirEntry>)
      returns (open: Files)
    requires Formatted(disk, b, table, files)
    ensures open.fat != null && open.fat.v == VolumeOf(disk, b) && fresh(open.slots)
    ensures fresh(open.fat.clusterStream) && fresh(open.fat.fatStream) && fresh(open.fat.directoryStream)
    ensures open.Valid(map[RootAt(b) := |files|]) && open.Descriptors() == map[]
  {
    ghost var v, pos := VolumeOf(disk, b), RootAt(b);
    ghost var dirs := map[pos := |files|];
    VolumeIsWritten(disk, b);
    VolumeIs(disk, b);
    VolumeDisk(disk, b);
    RootIsWellFormed(v, pos, files);
    FilesAreLive(disk, pos, files);
    hide HoldsFiles, HoldsTable, DifferentNames, VolumeOn, VolumeOf, WellFormed, Terminated, CountLive, EntryAt,
        EntryBytes,
      IsLive, RootPos, RootAt;
    var res, fat := Mount(disk, |files|);
    open := new Files(fat, dirs);
  }

  /** What is on the disk, in terms of the mounted volume. */
  lemma FileOnVolume(disk: Contents, b: BootSector, table: seq<Word>, files: seq<DirEntry>, i: nat, cs: seq<int>,
      bytes: seq<Byte>)
    requires Formatted(disk, b, table, files) && i < |files|
    requires Chained(table, cs) && cs[0] == files[i].clusterLow && StoredIn(disk, b, cs, bytes)
    ensures var v, e := VolumeOf(disk, b), EntryBytes(files[i]);
      && v.Valid() && v.disk == disk && RootPos(v) == RootAt(b) && IsChain(v, cs) && FileBytes(v, cs) == bytes
      && |bytes| == |cs| * v.ClusterBytes() && cs[0] == FirstCluster(e) && !IsSubdirectory(e)
  {
    VolumeDisk(disk, b);
    VolumeIs(disk, b);
    ChainIsLinked(disk, b, table, cs);
    BytesAreStored(disk, b, cs, bytes);
    FileEntry(files[i]);
    hide Holds, HoldsTable, VolumeOf, EntryBytes, IsChain, FileBytes, FirstCluster, IsSubdirectory, IsFile;
  }

  /** A file of the root directory of a formatted disk, opened by its name in any case of letters, gives back its first n
      bytes as they are stored, for any chain of clusters. */
  method ReadBack(heap: Heap.Heap, disk: Contents, ghost b: BootSector, ghost table: seq<Word>,
      ghost files: seq<DirEntry>,
                  ghost i: nat, name: Name, ghost cs: seq<int>, ghost bytes: seq<Byte>, n: nat, out: array<Byte>)
    requires Formatted(disk, b, table, files) && i < |files| && SameName(files[i].FileName(), name) && 0x2F !in name
    requires Chained(table, cs) && cs[0] == files[i].clusterLow && StoredIn(disk, b, cs, bytes)
    requires 0 < n <= |bytes| && n <= 0x7FFF_FFFF && n <= out.Length
    requires PathParser.HasPathBlocks(heap.entries[..], RootPath(name))
    modifies heap.entries, out
    ensures out[..n] == bytes[..n]
  {
    FileOnVolume(disk, b, table, files, i, cs, bytes);
    hide Starts, HoldsTable, HoldsFiles, DifferentNames, VolumeOf, EntryBytes, IsChain, StoredIn, Chained, FileBytes,
      FirstCluster, IsSubdirectory, PathParser.HasPathBlocks, Files.Valid, Files.Descriptors, CanOpen, Opened, SameName,
      RootPath, RootAt, RootPos, Volume.ClusterBytes, WellFormed;
    var open := MountFormatted(disk, b, table, files);
    CanOpenFile(open.fat, RootAt(b), files, i, name);
    assert 1 !in open.Descriptors();
    ReadFile(heap, open, RootPath(name), n, out, map[RootAt(b) := |files|], EntryBytes(files[i]), cs);
  }
}

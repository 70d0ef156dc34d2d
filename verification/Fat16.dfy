/** The FAT16 driver on its streams: table entries, clusters, reads, directories, and open files. */
module Fat16 {
  import opened Bits
  import opened Division
  import opened Status
  import opened Streamer
  import opened FatVolume
  import opened FatDirectory
  import FatFormat

  // ---------- names ----------

  /** A string without its terminator; reading at its end finds the terminator. */
  function CharAt(s: Name, i: nat): Byte
    requires i <= |s|
  {
    if i < |s| then s[i] else 0
  }

  predicate IsString(s: Name) {
    forall i :: 0 <= i < |s| ==> s[i] != 0
  }

  /** istrncmp on strings that are shorter than the limit: 0 exactly if they are the same up to case. */
  method CompareIgnoringCase(s1: Name, s2: Name, n: nat) returns (r: int)
    requires IsString(s1) && IsString(s2) && |s1| < n
    ensures r == 0 <==> SameName(s1, s2)
  {
    var i := 0;
    while i < n
      invariant i <= |s1| && i <= |s2| && forall k :: 0 <= k < i ==> Lower(s1[k]) == Lower(s2[k])
      decreases n - i
    {
      var u1, u2 := CharAt(s1, i), CharAt(s2, i);
      if u1 != u2 && Lower(u1) != Lower(u2) {
        assert i < |s1| || i < |s2|;
        return u1 as int - u2 as int;
      }
      if u1 == 0 {
        return 0;
      }
      assert i < |s1| && i < |s2|;
      i := i + 1;
    }
    return 0;
  }

  method ToProperString(field: seq<Byte>) returns (out: Name)
    requires |field| > 0
    ensures out == Trim(field)
  {
    out := [];
    var i := 0;
    while !IsPad(field[i])
      invariant i < |field| && out == field[..i] && Plain(out)
      decreases |field| - i
    {
      out := out + [field[i]];
      if i >= |field| - 1 {
        break;
      }
      i := i + 1;
    }
  }

  method GetFullRelativeFilename(e: Entry) returns (out: Name)
    ensures out == FullName(e) && IsString(out) && |out| <= 12
  {
    out := ToProperString(e[..8]);
    if !IsPad(e[8]) {
      var ext := ToProperString(e[8..11]);
      out := out + [DOT] + ext;
    }
  }

  const MAX_PATH := 108

  // ---------- the driver ----------

  const SIGNATURE: Byte := 0x29

  /** The volume that the boot sector of a disk describes. */
  function VolumeOn(disk: Contents): Volume {
    Volume(disk, LittleEndian16(disk, 14), disk(16), LittleEndian16(disk, 22), LittleEndian16(disk, 17), disk(13),
      if LittleEndian16(disk, 19) != 0 then LittleEndian16(disk, 19) else LittleEndian32(disk, 32))
  }

  /** The volume of a boot sector, field by field. */
  function VolumeOf(disk: Contents, b: FatFormat.BootSector): Volume {
    Volume(disk, b.reservedSectors, b.fatCopies, b.sectorsPerFat, b.rootEntries, b.sectorsPerCluster, b.Sectors())
  }

  /** The disk starts with the bytes of a boot sector. */
  predicate Starts(disk: Contents, b: FatFormat.BootSector) {
    b.Valid() && FatFormat.Holds(disk, 0, FatFormat.BootBytes(b))
  }

  lemma VolumeIsWritten(disk: Contents, b: FatFormat.BootSector)
    requires Starts(disk, b)
    ensures VolumeOn(disk) == VolumeOf(disk, b) && disk(38) == b.signature
  {
    hide LittleEndian16, LittleEndian32;
    FatFormat.BootHolds(disk, b);
  }

  function RootPos(v: Volume): int {
    v.RootSector() * SECTOR_SIZE
  }

  // ---------- open files ----------

  const SEEK_SET := 0
  const SEEK_CUR := 1
  const SEEK_END := 2

  class FileDescriptor {
    const item: Item
    var pos: Uint32

    constructor (item: Item)
      ensures this.item == item && pos == 0
    {
      this.item := item;
      pos := 0;
    }

    /** fat16_seek: only positions in the file are accepted, but a step from the current position is taken
        even if it leads out of the file. */
    method Seek(offset: Uint32, mode: nat) returns (res: int)
      modifies this`pos
      ensures (res, pos) == SeekFrom(item, old(pos), offset, mode)
      ensures res == 0 ==> item.FileItem? && offset < FileSize(item.entry) && mode <= 1
      ensures res == 0 ==> pos == if mode == 0 then offset else (old(pos) + offset) % 0x1_0000_0000
      ensures res != 0 ==> pos == old(pos)
      ensures item.FileItem? && offset < FileSize(item.entry) && mode <= 1 ==> res == 0
      ensures item.FileItem? && offset < FileSize(item.entry) && mode == 2 ==> res == -EUNIMP
      ensures item.FileItem? && offset >= FileSize(item.entry) ==> res == -EIO
      ensures item.DirectoryItem? ==> res == -EINVARG
    {
      if item.DirectoryItem? {
        return -EINVARG;
      }
      if offset >= FileSize(item.entry) {
        return -EIO;
      }
      res := 0;
      if mode == SEEK_SET {
        pos := offset;
      } else if mode == SEEK_END {
        res := -EUNIMP;
      } else if mode == SEEK_CUR {
        pos := (pos + offset) % 0x1_0000_0000;
      } else {
        res := -EINVARG;
      }
    }
  }

  /** The status of a seek and the position after it. */
  function SeekFrom(item: Item, pos: Uint32, offset: Uint32, mode: nat): (int, Uint32) {
    if item.DirectoryItem? then (-EINVARG, pos)
    else if offset >= FileSize(item.entry) then (-EIO, pos)
    else if mode == SEEK_SET then (0, offset)
    else if mode == SEEK_CUR then (0, (pos + offset) % 0x1_0000_0000)
    else (if mode == SEEK_END then -EUNIMP else -EINVARG, pos)
  }

  /** A seek that is accepted leaves the position in the file, except for a step from the current one that
      reaches the end: then it is in the file only if it wraps around. */
  lemma SeekStaysInFile(item: Item, pos: Uint32, offset: Uint32, mode: nat)
    requires item.FileItem? && pos < FileSize(item.entry)
    ensures SeekFrom(item, pos, offset, mode).1 < FileSize(item.entry) <==>
              !(mode == SEEK_CUR && offset < FileSize(item.entry) && FileSize(item.entry) <= pos + offset < 0x1_0000_0000)
  {
  }

  class FatPrivate {
    const v: Volume
    const clusterStream: DiskStream
    const fatStream: DiskStream
    const directoryStream: DiskStream
    /** The root directory, which stays in memory. */
    var root: Directory

    ghost predicate Valid() {
      && v.Valid()
      && clusterStream.disk == v.disk && fatStream.disk == v.disk && directoryStream.disk == v.disk
      && clusterStream != fatStream && clusterStream != directoryStream && fatStream != directoryStream
    }

    /** The root directory in memory is that of the volume. */
    ghost predicate Mounted(dirs: Directories)
      reads this
    {
      && Valid() && WellFormed(v, dirs) && RootPos(v) in dirs
      && root.Valid() && root.items[..root.total] == ItemsAt(v, dirs, RootPos(v))
    }

    constructor (v: Volume, ghost n: nat)
      requires v.Valid() && Terminated(v.disk, RootPos(v), n)
      ensures this.v == v && Valid() && fresh(clusterStream) && fresh(fatStream) && fresh(directoryStream)
      ensures root == Directory(EntriesAt(v.disk, RootPos(v), v.rootDirEntries), CountLive(v.disk, RootPos(v), n))
    {
      this.v := v;
      clusterStream := new DiskStream(v.disk);
      fatStream := new DiskStream(v.disk);
      directoryStream := new DiskStream(v.disk);
      root := Directory([], 0);
      new;
      root := GetRootDirectory(n);
    }

    method GetFatEntry(cluster: int) returns (res: Word)
      requires Valid()
      modifies fatStream
      ensures res == v.FatEntry(cluster)
    {
      var fatTablePosition := v.reservedSectors * SECTOR_SIZE;
      fatStream.Seek(fatTablePosition + cluster * 2);
      var result := new Byte[2];
      fatStream.Read(result, 0, 2);
      assert result[..][0] == v.disk(fatTablePosition + cluster * 2) && result[..][1] == v.disk(fatTablePosition + cluster * 2 + 1);
      var low: int, high: int := result[0], result[1];
      res := low + 0x100 * high;
    }

    /** The cluster of an offset: as many links from the start as there are whole clusters before it. */
    method GetClusterForOffset(startingCluster: nat, offset: nat) returns (res: int)
      requires Valid()
      modifies fatStream
      ensures res == match v.Walk(startingCluster, Quot(offset, v.ClusterBytes())) case None => -EIO case Some(cluster) => cluster
      ensures res >= 0 <==> v.Walk(startingCluster, Quot(offset, v.ClusterBytes())).Some?
    {
      hide Stops;
      var clusterToUse: int := startingCluster;
      var clustersAhead := Quot(offset, v.ClusterBytes());
      for i := 0 to clustersAhead
        invariant clusterToUse >= 0 && v.Walk(startingCluster, clustersAhead) == v.Walk(clusterToUse, clustersAhead - i)
      {
        var entry := GetFatEntry(clusterToUse);
        if Stops(entry) {
          return -EIO;
        }
        clusterToUse := entry;
      }
      res := clusterToUse;
    }

    /** The read of a range of a file, at most a cluster's bytes at a time. */
    method ReadInternal(cluster: nat, offset: nat, total: nat, out: array<Byte>, at: nat) returns (res: int)
      requires Valid() && at + total <= out.Length
      modifies clusterStream, fatStream, out
      ensures var o := ReadOutcome(v, cluster, offset, total);
        res == o.status && out[..] == Overwrite(old(out[..]), at, BytesAt(v.disk, o.positions))
      decreases total
    {
      hide Quot, Rem, Overwrite, BytesAt, Span, Volume.ClusterBytes, Volume.ClusterPos;
      ghost var before := out[..];
      var clusterToUse := GetClusterForOffset(cluster, offset);
      if clusterToUse < 0 {
        OverwriteNothing(before, at, v.disk);
        return clusterToUse;
      }
      var offsetFromCluster := Rem(offset, v.ClusterBytes());
      var startingPos := v.ClusterPos(clusterToUse) + offsetFromCluster;
      var totalToRead := if total > v.ClusterBytes() then v.ClusterBytes() else total;
      clusterStream.Seek(startingPos);
      clusterStream.Read(out, at, totalToRead);
      BytesAtSpan(v.disk, startingPos, totalToRead);
      res := 0;
      var left := total - totalToRead;
      if left > 0 {
        res := ReadInternal(cluster, offset + totalToRead, left, out, at + totalToRead);
        ghost var rest := ReadOutcome(v, cluster, offset + totalToRead, left);
        BytesAtJoin(v.disk, Positions(startingPos, totalToRead), rest.positions);
        OverwriteTwice(before, at, Span(v.disk, startingPos, totalToRead), BytesAt(v.disk, rest.positions));
      }
    }

    /** fat16_read: the position moves on only if all members have been read. */
    method Read(desc: FileDescriptor, size: nat, nmemb: nat, out: array<Byte>) returns (res: int)
      requires Valid() && desc.item.FileItem? && nmemb * size <= out.Length && desc.pos + nmemb * size <= 0x7FFF_FFFF
      modifies clusterStream, fatStream, desc`pos, out
      ensures var o := MembersOutcome(v, FirstCluster(desc.item.entry), old(desc.pos), size, nmemb);
        && out[..] == Overwrite(old(out[..]), 0, BytesAt(v.disk, o.positions))
        && (o.status == 0 ==> res == nmemb && desc.pos == old(desc.pos) + nmemb * size)
        && (o.status != 0 ==> res == o.status && desc.pos == old(desc.pos))
    {
      hide ReadOutcome, BytesAt, Overwrite, FirstCluster;
      ghost var start, before := FirstCluster(desc.item.entry), out[..];
      var offset: nat, at := desc.pos, 0;
      OverwriteNothing(before, 0, v.disk);
      for i := 0 to nmemb
        invariant MembersOutcome(v, start, desc.pos, size, i).status == 0
        invariant at == i * size <= nmemb * size && offset == desc.pos + i * size && desc.pos == old(desc.pos)
        invariant out[..] == Overwrite(before, 0, BytesAt(v.disk, MembersOutcome(v, start, desc.pos, size, i).positions))
      {
        MemberFits(i, nmemb, size);
        ghost var o := ReadOutcome(v, start, offset, size);
        ghost var ps := MembersOutcome(v, start, desc.pos, size, i).positions;
        res := ReadInternal(FirstCluster(desc.item.entry), offset, size, out, at);
        assert MembersOutcome(v, start, desc.pos, size, i + 1) == Outcome(o.status, ps + o.positions);
        BytesAtJoin(v.disk, ps, o.positions);
        OverwriteTwice(before, 0, BytesAt(v.disk, ps), BytesAt(v.disk, o.positions));
        if res < 0 {
          FailsForGood(v, start, desc.pos, size, i + 1, nmemb);
          return;
        }
        at := at + size;
        offset := offset + size;
      }
      desc.pos := offset;
      res := nmemb;
    }

    method ReadItem(item: array<Byte>, ghost pos: int)
      requires Valid() && item.Length == ENTRY_SIZE && directoryStream.pos == pos
      modifies directoryStream, item
      ensures directoryStream.pos == pos + ENTRY_SIZE && item[0] == v.disk(pos)
    {
      hide Overwrite, Span;
      ghost var before := item[..];
      directoryStream.Read(item, 0, ENTRY_SIZE);
      OverwriteAll(before, Span(v.disk, pos, ENTRY_SIZE));
      assert item[..][0] == item[0];
    }

    /** The number of entries that are not deleted, up to the entry that ends the directory. */
    method GetTotalItems(pos: int, ghost n: nat) returns (res: nat)
      requires Valid() && Terminated(v.disk, pos, n)
      modifies directoryStream
      ensures res == CountLive(v.disk, pos, n)
    {
      res := 0;
      assert CountLive(v.disk, pos, 0) == 0;
      hide Overwrite, Terminated, CountLive;
      directoryStream.Seek(pos);
      ghost var k := 0;
      var item := new Byte[ENTRY_SIZE];
      while true
        invariant k <= n && res == CountLive(v.disk, pos, k) && directoryStream.pos == pos + ENTRY_SIZE * k
        invariant fresh(item) && item.Length == ENTRY_SIZE
        decreases n - k
      {
        ReadItem(item, pos + ENTRY_SIZE * k);
        CountNext(v.disk, pos, n, k);
        if item[0] == 0 {
          break;
        }
        k := k + 1;
        if item[0] == DELETED {
          continue;
        }
        res := res + 1;
      }
    }

    /** The root directory: room for all entries it can have, and the count of those not deleted. */
    method GetRootDirectory(ghost n: nat) returns (directory: Directory)
      requires Valid() && Terminated(v.disk, RootPos(v), n)
      modifies directoryStream
      ensures directory == Directory(EntriesAt(v.disk, RootPos(v), v.rootDirEntries), CountLive(v.disk, RootPos(v), n))
    {
      hide EntriesAt, Overwrite, CountLive, Terminated;
      var total := GetTotalItems(RootPos(v), n);
      var dir := new Byte[v.RootSize()];
      directoryStream.Seek(RootPos(v));
      ghost var before := dir[..];
      directoryStream.Read(dir, 0, v.RootSize());
      OverwriteAll(before, Span(v.disk, RootPos(v), v.RootSize()));
      var items := EntriesIn(dir, v.rootDirEntries, v.disk, RootPos(v));
      directory := Directory(items, total);
    }

    /** The directory of an entry, if it ends in its first cluster. */
    method LoadDirectory(e: Entry, ghost n: nat) returns (directory: Directory)
      requires Valid() && IsSubdirectory(e)
      requires Terminated(v.disk, DirectoryPos(v, e), n) && ENTRY_SIZE * n < v.ClusterBytes()
      modifies directoryStream, clusterStream, fatStream
      ensures var total := CountLive(v.disk, DirectoryPos(v, e), n);
        directory == Directory(EntriesAt(v.disk, DirectoryPos(v, e), total), total)
    {
      hide EntriesAt, Overwrite, CountLive, Terminated, FirstCluster, IsSubdirectory, BytesAt;
      var cluster := FirstCluster(e);
      var total := GetTotalItems(v.ClusterSector(cluster) * SECTOR_SIZE, n);
      var size := total * ENTRY_SIZE;
      var dir := new Byte[size];
      DividedSmall(0, v.ClusterBytes());
      assert v.Walk(cluster, 0) == Some(cluster);
      BytesAtSpan(v.disk, DirectoryPos(v, e), size);
      ghost var before := dir[..];
      var res := ReadInternal(cluster, 0, size, dir, 0);
      assert ReadOutcome(v, cluster, 0, size) == Outcome(0, Positions(DirectoryPos(v, e), size));
      OverwriteAll(before, Span(v.disk, DirectoryPos(v, e), size));
      var items := EntriesIn(dir, total, v.disk, DirectoryPos(v, e));
      directory := Directory(items, total);
    }

    /** fat16_new_fat_item_for_directory_item */
    method NewItem(e: Entry, ghost dirs: Directories) returns (item: Item)
      requires Valid() && WellFormed(v, dirs) && (IsSubdirectory(e) ==> Known(v, dirs, e))
      modifies directoryStream, clusterStream, fatStream
      ensures (IsSubdirectory(e) ==> DirectoryPos(v, e) in dirs) && item == ItemOf(v, dirs, e)
    {
      if IsSubdirectory(e) {
        hide IsSubdirectory, Terminated, FullName, CountLive;
        var directory := LoadDirectory(e, dirs[DirectoryPos(v, e)]);
        return DirectoryItem(directory);
      }
      item := FileItem(e);
    }

    /** The search looks at every entry, and what it returns is the last one with the name. */
    method FindItemInDirectory(directory: Directory, name: Name, ghost dirs: Directories) returns (item: Option<Item>)
      requires Valid() && WellFormed(v, dirs) && directory.Valid() && IsString(name)
      requires forall e :: e in directory.items[..directory.total] && SameName(FullName(e), name) && IsSubdirectory(e) ==> Known(v, dirs, e)
      modifies directoryStream, clusterStream, fatStream
      ensures IsItemOf(v, dirs, item, Named(directory.items[..directory.total], name))
    {
      hide IsSubdirectory, FullName, WellFormed, Known, SameName;
      item := None;
      ghost var items := directory.items[..directory.total];
      for i := 0 to directory.total
        invariant IsItemOf(v, dirs, item, Named(items[..i], name))
      {
        assert items[..i + 1] == items[..i] + [items[i]];
        NamedNext(items[..i], items[i], name);
        var filename := GetFullRelativeFilename(directory.items[i]);
        var order := CompareIgnoringCase(filename, name, MAX_PATH);
        if order == 0 {
          var found := NewItem(directory.items[i], dirs);
          item := Some(found);
        }
      }
      assert items[..directory.total] == items;
    }

    /** The walk along the parts of a path. */
    method GetDirectoryEntry(root: Directory, path: seq<Name>, ghost dirs: Directories) returns (item: Option<Item>)
      requires Valid() && WellFormed(v, dirs) && root.Valid()
      requires RootPos(v) in dirs && root.items[..root.total] == ItemsAt(v, dirs, RootPos(v))
      requires |path| > 0 && NoParents(path) && forall i :: 0 <= i < |path| ==> IsString(path[i])
      requires CanFollow(v, dirs, path)
      modifies directoryStream, clusterStream, fatStream
      ensures IsItemOf(v, dirs, item, Resolve(v, dirs, RootPos(v), path))
    {
      hide IsSubdirectory, FullName, WellFormed, Known, SameName, NoParents, LastNamed, EntriesAt;
      EntriesFoundAreKnown(v, dirs, RootPos(v), path, 0);
      item := FindItemInDirectory(root, path[0], dirs);
      if item == None {
        return;
      }
      ghost var e := Named(ItemsAt(v, dirs, RootPos(v)), path[0]).value;
      ghost var goal := Resolve(v, dirs, RootPos(v), path);
      var next := 1;
      while next < |path|
        invariant 1 <= next <= |path|
        invariant item.None? ==> next == |path| && goal == None
        invariant item.Some? ==> IsItemOf(v, dirs, item, Some(e)) && CanWalk(v, dirs, e, path[next..])
        invariant item.Some? ==> goal == ResolveFrom(v, dirs, e, path[next..])
      {
        if item.value.FileItem? {
          return None;
        }
        EntriesFoundAreKnown(v, dirs, DirectoryPos(v, e), path, next);
        var found := FindItemInDirectory(item.value.directory, path[next], dirs);
        ghost var pos := DirectoryPos(v, e);
        assert item.value.directory.items[..item.value.directory.total] == ItemsAt(v, dirs, pos);
        if found.Some? {
          e := Named(ItemsAt(v, dirs, pos), path[next]).value;
        }
        assert path[next..][1..] == path[next + 1..];
        item := found;
        next := next + 1;
      }
    }

    /** fat16_open: only reading is possible, and the path must lead to an entry. */
    method Open(path: seq<Name>, mode: nat, ghost dirs: Directories) returns (err: int, desc: FileDescriptor?)
      requires Mounted(dirs) && GoodPath(v, dirs, path)
      modifies directoryStream, clusterStream, fatStream
      ensures mode != MODE_READ ==> err == -ERDONLY && desc == null
      ensures mode == MODE_READ ==> match Resolve(v, dirs, RootPos(v), path)
        case None => err == -EIO && desc == null
        case Some(e) => err == 0 && desc != null && fresh(desc) && desc.pos == 0
                        && (IsSubdirectory(e) ==> DirectoryPos(v, e) in dirs) && desc.item == ItemOf(v, dirs, e)
    {
      hide IsSubdirectory, WellFormed, NoParents, CanFollow, EntriesAt, Resolve;
      if mode != MODE_READ {
        return -ERDONLY, null;
      }
      var item := GetDirectoryEntry(root, path, dirs);
      if item == None {
        return -EIO, null;
      }
      desc := new FileDescriptor(item.value);
      err := 0;
    }
  }

  const MODE_READ := 0
  const HEADER_SIZE := 62

  ghost predicate GoodPath(v: Volume, dirs: Directories, path: seq<Name>)
    requires RootPos(v) in dirs
  {
    |path| > 0 && NoParents(path) && (forall i :: 0 <= i < |path| ==> IsString(path[i])) && CanFollow(v, dirs, path)
  }

  lemma {:induction false} FirstEntries(disk: Contents, pos: int, m: nat, n: nat)
    requires m <= n
    ensures EntriesAt(disk, pos, n)[..m] == EntriesAt(disk, pos, m)
  {
    hide EntryAt;
  }

  lemma HeaderBytes(disk: Contents, header: array<Byte>)
    requires header.Length == HEADER_SIZE && header[..] == Span(disk, 0, HEADER_SIZE)
    ensures header[13] == disk(13) && header[14] == disk(14) && header[15] == disk(15) && header[16] == disk(16)
    ensures header[17] == disk(17) && header[18] == disk(18) && header[22] == disk(22) && header[23] == disk(23)
    ensures header[19] == disk(19) && header[20] == disk(20) && header[38] == disk(38)
    ensures header[32] == disk(32) && header[33] == disk(33) && header[34] == disk(34) && header[35] == disk(35)
  {
    hide Span;
    assert forall i :: 0 <= i < HEADER_SIZE ==> header[i] == header[..][i];
  }

  /** The boot sector, read into a header and taken apart. */
  method ReadHeader(disk: Contents) returns (signature: Byte, v: Volume)
    ensures signature == disk(38) && v == VolumeOn(disk) && v.disk == disk
  {
    var stream := new DiskStream(disk);
    var header := new Byte[HEADER_SIZE];
    ghost var before := header[..];
    stream.Read(header, 0, HEADER_SIZE);
    OverwriteAll(before, Span(disk, 0, HEADER_SIZE));
    HeaderBytes(disk, header);
    hide Span, Overwrite;
    signature := header[38];
    var sectors: nat := Word16(header[19], header[20]);
    if sectors == 0 {
      var low: int, high: int := Word16(header[32], header[33]), Word16(header[34], header[35]);
      sectors := low + 0x1_0000 * high;
    }
    v := Volume(disk, Word16(header[14], header[15]), header[16], Word16(header[22], header[23]),
      Word16(header[17], header[18]), header[13], sectors);
  }

  /** fat16_resolve: a disk whose boot sector has the signature is mounted. If its directories are well formed the
      paths on it can be walked. */
  method Mount(disk: Contents, ghost n: nat) returns (res: int, fat: FatPrivate?)
    requires disk(38) == SIGNATURE ==> VolumeOn(disk).Valid() && Terminated(disk, RootPos(VolumeOn(disk)), n)
    ensures disk(38) != SIGNATURE ==> res == -EFSNOTUS && fat == null
    ensures disk(38) == SIGNATURE ==>
      && res == 0 && fat != null && fresh(fat) && fat.v == VolumeOn(disk) && fat.Valid()
      && fresh(fat.clusterStream) && fresh(fat.fatStream) && fresh(fat.directoryStream)
      && (forall b: FatFormat.BootSector :: Starts(disk, b) ==> b.signature == SIGNATURE && fat.v == VolumeOf(disk, b))
      && forall dirs :: WellFormed(fat.v, dirs) && RootPos(fat.v) in dirs && dirs[RootPos(fat.v)] == n <= fat.v.rootDirEntries ==>
           fat.Mounted(dirs)
  {
    hide WellFormed, VolumeOn, VolumeOf, Starts, EntriesAt, Terminated, CountLive;
    var signature, v := ReadHeader(disk);
    if signature != SIGNATURE {
      return -EFSNOTUS, null;
    }
    fat := new FatPrivate(v, n);
    forall b: FatFormat.BootSector | Starts(disk, b)
      ensures b.signature == SIGNATURE && fat.v == VolumeOf(disk, b)
    {
      VolumeIsWritten(disk, b);
    }
    if n <= v.rootDirEntries {
      FirstEntries(v.disk, RootPos(v), CountLive(v.disk, RootPos(v), n), v.rootDirEntries);
    }
    res := 0;
  }

  /** What the walk finds from an entry on. */
  ghost function ResolveFrom(v: Volume, dirs: Directories, e: Entry, rest: seq<Name>): Option<Entry> {
    if rest == [] then Some(e) else if IsSubdirectory(e) then Resolve(v, dirs, DirectoryPos(v, e), rest) else None
  }

  ghost predicate CanFollow(v: Volume, dirs: Directories, path: seq<Name>)
    requires |path| > 0 && RootPos(v) in dirs
  {
    match Named(ItemsAt(v, dirs, RootPos(v)), path[0])
    case None => true
    case Some(e) => CanWalk(v, dirs, e, path[1..])
  }

  ghost predicate IsItemOf(v: Volume, dirs: Directories, item: Option<Item>, e: Option<Entry>) {
    match e
    case None => item == None
    case Some(f) => (IsSubdirectory(f) ==> DirectoryPos(v, f) in dirs) && item == Some(ItemOf(v, dirs, f))
  }

  lemma NamedNext(items: seq<Entry>, e: Entry, name: Name)
    ensures Named(items + [e], name) == if SameName(FullName(e), name) then Some(e) else Named(items, name)
  {
    hide SameName, FullName;
    assert (items + [e])[..|items|] == items;
    var i := LastNamed(items, name);
  }

  /** In a directory of the volume an entry that has the name of a part, and so is no parent entry, is
      known if it is a subdirectory. */
  lemma EntriesFoundAreKnown(v: Volume, dirs: Directories, pos: int, path: seq<Name>, i: nat)
    requires WellFormed(v, dirs) && NoParents(path) && i < |path| && pos in dirs
    ensures forall e :: e in ItemsAt(v, dirs, pos) && SameName(FullName(e), path[i]) && IsSubdirectory(e) ==> Known(v, dirs, e)
  {
    hide FullName, SameName, IsSubdirectory, Known, Terminated, CountLive;
  }

  lemma CountNext(disk: Contents, pos: int, n: nat, k: nat)
    requires Terminated(disk, pos, n) && k <= n
    ensures disk(pos + ENTRY_SIZE * k) == 0 <==> k == n
    ensures CountLive(disk, pos, k + 1) == CountLive(disk, pos, k) + (if disk(pos + ENTRY_SIZE * k) == DELETED then 0 else 1)
  {
  }

  lemma MemberFits(i: nat, nmemb: nat, size: nat)
    requires i < nmemb
    ensures i * size + size <= nmemb * size && (i + 1) * size == i * size + size
  {
    Monotone(i + 1, nmemb, size);
  }

  lemma {:induction false} FailsForGood(v: Volume, start: int, offset: nat, size: nat, i: nat, nmemb: nat)
    requires v.Valid() && i <= nmemb && MembersOutcome(v, start, offset, size, i).status != 0
    ensures MembersOutcome(v, start, offset, size, nmemb) == MembersOutcome(v, start, offset, size, i)
    decreases nmemb
  {
    if i < nmemb {
      FailsForGood(v, start, offset, size, i, nmemb - 1);
    }
  }

  lemma OverwriteAll(a: seq<Byte>, bytes: seq<Byte>)
    requires |a| == |bytes|
    ensures Overwrite(a, 0, bytes) == bytes
  {
  }

  /** The bytes of a buffer as directory entries. */
  method EntriesIn(dir: array<Byte>, n: nat, ghost disk: Contents, ghost pos: int) returns (items: seq<Entry>)
    requires dir.Length == n * ENTRY_SIZE && dir[..] == Span(disk, pos, n * ENTRY_SIZE)
    ensures items == EntriesAt(disk, pos, n)
  {
    items := [];
    for i := 0 to n
      invariant items == EntriesAt(disk, pos, i)
    {
      var item := dir[i * ENTRY_SIZE..i * ENTRY_SIZE + ENTRY_SIZE];
      assert item == dir[..][i * ENTRY_SIZE..i * ENTRY_SIZE + ENTRY_SIZE];
      assert item == EntryAt(disk, pos, i);
      items := items + [item];
    }
  }

  lemma OverwriteNothing(a: seq<Byte>, at: nat, disk: Contents)
    requires at <= |a|
    ensures Overwrite(a, at, BytesAt(disk, [])) == a
  {
  }
}

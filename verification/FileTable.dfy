/** The descriptors of open files: a table of 512 slots over the FAT16 driver. */
module FileTable {
  import opened Bits
  import opened Division
  import opened Status
  import opened Streamer
  import opened FatVolume
  import opened FatDirectory
  import opened Fat16
  import opened HeapTable
  import opened SingleBlocks
  import Heap
  import PathParser

  const MAX_DESCRIPTORS := 512

  /** What an open file is, for its user: an item, and a position. */
  datatype OpenFile = OpenFile(item: Item, pos: Uint32)

  /** The open files by descriptor. */
  type View = map<int, OpenFile>

  class FileHandle {
    const index: int
    const file: FileDescriptor

    constructor (index: int, file: FileDescriptor)
      ensures this.index == index && this.file == file
    {
      this.index := index;
      this.file := file;
    }
  }

  datatype FileMode = ReadMode | WriteMode | AppendMode | InvalidMode

  /** The mode that the first character of a string means. */
  function ModeOf(mode: Name): FileMode {
    if mode == [] then InvalidMode
    else if mode[0] == 0x72 then ReadMode
    else if mode[0] == 0x77 then WriteMode
    else if mode[0] == 0x61 then AppendMode
    else InvalidMode
  }

  /** The entry that a parsed path opens, if fopen gets that far. */
  function OpenedAt(fat: FatPrivate?, dirs: Directories, path: PathParser.Path, mode: Name): Option<Entry> {
    if path.parts == [] || path.drive != 0 || fat == null || ModeOf(mode) != ReadMode then None
    else Resolve(fat.v, dirs, RootPos(fat.v), path.parts)
  }

  function Opened(fat: FatPrivate?, dirs: Directories, filename: Name, mode: Name): Option<Entry> {
    match PathParser.ParsePath(filename)
    case None => None
    case Some(path) => OpenedAt(fat, dirs, path, mode)
  }

  /** Only the first character of the mode counts, and only 'r' opens anything; so does drive 0 only, and a path with a
      part. */
  lemma OpenedOnlyForReading(fat: FatPrivate?, dirs: Directories, filename: Name, mode: Name)
    ensures mode == [] || mode[0] != 0x72 ==> Opened(fat, dirs, filename, mode) == None
    ensures |filename| >= 1 && filename[0] != 0x30 ==> Opened(fat, dirs, filename, mode) == None
    ensures |filename| <= 3 ==> Opened(fat, dirs, filename, mode) == None
  {
    hide Resolve, PathParser.ParsePath;
    PathParser.ParseFails(filename);
    if |filename| == 3 {
      assert filename[3..] == [];
    }
  }

  /** The path can be walked, if fopen gets to walking it. */
  ghost predicate CanOpenAt(fat: FatPrivate?, dirs: Directories, path: PathParser.Path, mode: Name) {
    path.parts == [] || path.drive != 0 || fat == null || ModeOf(mode) != ReadMode
    || (RootPos(fat.v) in dirs && GoodPath(fat.v, dirs, path.parts))
  }

  ghost predicate CanOpen(fat: FatPrivate?, dirs: Directories, filename: Name, mode: Name) {
    match PathParser.ParsePath(filename)
    case None => true
    case Some(path) => CanOpenAt(fat, dirs, path, mode)
  }

  /** The descriptors that the operations accept. */
  predicate Usable(open: View, fd: int) {
    fd in open && fd != MAX_DESCRIPTORS
  }

  /** What any operation does to the open files: nothing, a new descriptor, or the end of a usable one, or
      a new state of it. */
  ghost predicate Step(before: View, after: View) {
    || after == before
    || (exists fd :: fd in after && fd !in before && after == before[fd := after[fd]])
    || (exists fd :: Usable(before, fd) && after == before - {fd})
    || (exists fd :: fd in after && Usable(before, fd) && after == before[fd := after[fd]])
  }

  lemma StepsAre(before: View, after: View, fd: int, f: OpenFile)
    requires after == before || (after == before - {fd} && Usable(before, fd))
          || (after == before[fd := f] && (fd !in before || Usable(before, fd)))
    ensures Step(before, after)
  {
    if after == before[fd := f] {
      assert fd in after && after == before[fd := after[fd]];
    }
  }

  lemma NothingMarked(t: seq<Byte>)
    ensures Marked(t, t, {})
  {
  }

  lemma NoStep(open: View)
    ensures Step(open, open)
  {
  }

  class Files {
    const fat: FatPrivate?
    const slots: array<FileHandle?>

    /** Slot i holds the descriptor i + 1, and no two descriptors share a file. */
    ghost predicate Valid(dirs: Directories)
      reads slots, fat
    {
      && slots.Length == MAX_DESCRIPTORS && (fat != null ==> fat.Mounted(dirs))
      && (forall i :: 0 <= i < slots.Length && slots[i] != null ==> slots[i].index == i + 1)
      && forall i, j :: 0 <= i < j < slots.Length && slots[i] != null && slots[j] != null ==> slots[i].file != slots[j].file
    }

    ghost function OpenFiles(): set<object>
      reads slots
    {
      set i | 0 <= i < slots.Length && slots[i] != null :: slots[i].file
    }

    predicate InUse(fd: int)
      requires 1 <= fd <= slots.Length
      reads slots
    {
      slots[fd - 1] != null
    }

    ghost function Descriptors(): View
      reads slots, OpenFiles()
    {
      map fd | 1 <= fd <= slots.Length && InUse(fd) :: OpenFile(slots[fd - 1].file.item, slots[fd - 1].file.pos)
    }

    constructor (fat: FatPrivate?, ghost dirs: Directories)
      requires fat != null ==> fat.Mounted(dirs)
      ensures this.fat == fat && Valid(dirs) && Descriptors() == map[] && fresh(slots)
    {
      this.fat := fat;
      slots := new FileHandle?[MAX_DESCRIPTORS](_ => null);
    }

    /** The descriptor's slot; 512 is refused, though the last slot has this number. */
    function GetDescriptor(fd: int): (h: FileHandle?)
      requires slots.Length == MAX_DESCRIPTORS
      reads slots, OpenFiles()
      ensures h != null <==> Usable(Descriptors(), fd)
    {
      if fd <= 0 || fd >= MAX_DESCRIPTORS then null else slots[fd - 1]
    }

    /** The first free slot takes the file. */
    method NewDescriptor(file: FileDescriptor, ghost dirs: Directories) returns (res: int)
      requires Valid(dirs) && file !in OpenFiles()
      modifies slots
      ensures Valid(dirs)
      ensures res < 0 ==> Descriptors() == old(Descriptors()) && forall fd :: 1 <= fd <= MAX_DESCRIPTORS ==> fd in old(Descriptors())
      ensures res >= 0 ==>
        && 1 <= res <= MAX_DESCRIPTORS && res !in old(Descriptors()) && (forall fd :: 1 <= fd < res ==> fd in old(Descriptors()))
        && Descriptors() == old(Descriptors())[res := OpenFile(file.item, file.pos)] && FileOf(res) <= {file}
    {
      hide FatPrivate.Mounted;
      for i := 0 to MAX_DESCRIPTORS
        invariant forall k :: 0 <= k < i ==> slots[k] != null
        invariant forall k :: 0 <= k < slots.Length ==> slots[k] == old(slots[k])
      {
        if slots[i] == null {
          var desc := new FileHandle(i + 1, file);
          slots[i] := desc;
          return desc.index;
        }
      }
      res := -ENOMEM;
    }

    /** The path that fopen works on, as a list in the heap; nothing frees it. */
    method ParseName(heap: Heap.Heap, filename: Name) returns (root: PathParser.PathRoot?, ghost blocks: set<nat>)
      requires PathParser.HasPathBlocks(heap.entries[..], filename)
      modifies heap.entries
      ensures match PathParser.ParsePath(filename)
        case None => root == null
        case Some(path) => root != null && root.driveNo == path.drive && (root.first == null <==> path.parts == [])
      ensures Descriptors() == old(Descriptors())
      ensures Marked(old(heap.entries[..]), heap.entries[..], blocks) && |blocks| == PathParser.PathBlocks(filename)
    {
      ghost var nodes, listed;
      ghost var t := heap.entries[..];
      root, nodes, listed := PathParser.Parse(heap, filename);
      blocks := {};
      hide PathParser.Built, PathParser.Parts, Marked;
      if root == null {
        NothingMarked(t);
      } else {
        PathParser.BuiltBlocks(heap, t, root, nodes, PathParser.ParsePath(filename).value.parts, listed);
        blocks := SetOf(listed);
      }
    }

    /** What fopen has done if the entry e is, or is not, to be opened. */
    ghost predicate HasOpened(before: View, dirs: Directories, e: Option<Entry>, res: int)
      reads slots, OpenFiles()
    {
      match e
      case None => res == 0 && Descriptors() == before
      case Some(e) =>
        && (res == 0 <==> forall fd :: 1 <= fd <= MAX_DESCRIPTORS ==> fd in before)
        && (res == 0 ==> Descriptors() == before)
        && (res != 0 ==>
              && 1 <= res <= MAX_DESCRIPTORS && res !in before && (forall fd :: 1 <= fd < res ==> fd in before)
              && fat != null && (IsSubdirectory(e) ==> DirectoryPos(fat.v, e) in dirs)
              && Descriptors() == before[res := OpenFile(ItemOf(fat.v, dirs, e), 0)])
    }

    /** fopen behind the parser. */
    method OpenPath(path: PathParser.Path, mode: Name, ghost dirs: Directories) returns (res: int)
      requires Valid(dirs) && CanOpenAt(fat, dirs, path, mode)
      modifies slots, if fat == null then {} else {fat.directoryStream, fat.clusterStream, fat.fatStream}
      ensures Valid(dirs) && Step(old(Descriptors()), Descriptors())
      ensures HasOpened(old(Descriptors()), dirs, OpenedAt(fat, dirs, path, mode), res) && (res != 0 ==> fresh(FileOf(res)))
    {
      hide IsSubdirectory, Resolve, GoodPath, FatPrivate.Mounted;
      if path.parts == [] {
        return 0;
      }
      if path.drive != 0 || fat == null {
        return 0;
      }
      var fileMode := ModeOf(mode);
      if fileMode == InvalidMode {
        return 0;
      }
      if fileMode != ReadMode {
        return 0;
      }
      var err, file := fat.Open(path.parts, MODE_READ, dirs);
      if file == null {
        return 0;
      }
      res := NewDescriptor(file, dirs);
      if res < 0 {
        res := 0;
      }
    }

    /** fopen: the lowest free descriptor for a path that leads to an entry, and 0 for every failure. The blocks of the
        path stay taken, whether it succeeds or not. */
    method Fopen(heap: Heap.Heap, filename: Name, mode: Name, ghost dirs: Directories)
        returns (res: int, ghost blocks: set<nat>)
      requires Valid(dirs) && CanOpen(fat, dirs, filename, mode) && PathParser.HasPathBlocks(heap.entries[..], filename)
      modifies heap.entries, slots, if fat == null then {} else {fat.directoryStream, fat.clusterStream, fat.fatStream}
      ensures Valid(dirs) && Step(old(Descriptors()), Descriptors())
      ensures HasOpened(old(Descriptors()), dirs, Opened(fat, dirs, filename, mode), res) && (res != 0 ==> fresh(FileOf(res)))
      ensures Marked(old(heap.entries[..]), heap.entries[..], blocks) && |blocks| == PathParser.PathBlocks(filename)
    {
      hide PathParser.ParsePath, Marked, PathParser.PathBlocks, PathParser.HasPathBlocks, Files.Valid, CanOpenAt,
          OpenedAt,
        Step, Files.Descriptors, Files.FileOf;
      var root;
      root, blocks := ParseName(heap, filename);
      if root == null {
        NoStep(Descriptors());
        return 0, blocks;
      }
      res := OpenPath(PathParser.Path(root.driveNo, PathParser.ParsePath(filename).value.parts), mode, dirs);
    }

    ghost function FileOf(fd: int): set<object>
      reads slots
    {
      if 1 <= fd < MAX_DESCRIPTORS && fd <= slots.Length && slots[fd - 1] != null then {slots[fd - 1].file} else {}
    }

    /** fseek: as the driver seeks, for every open descriptor but 512. */
    method Fseek(fd: int, offset: int, whence: nat, ghost dirs: Directories) returns (res: int)
      requires Valid(dirs) && -0x8000_0000 <= offset < 0x8000_0000
      modifies FileOf(fd)
      ensures Valid(dirs) && Step(old(Descriptors()), Descriptors())
      ensures !Usable(old(Descriptors()), fd) ==> res == -EIO && Descriptors() == old(Descriptors())
      ensures Usable(old(Descriptors()), fd) ==>
        var f := old(Descriptors())[fd];
        var after := SeekFrom(f.item, f.pos, offset % 0x1_0000_0000, whence);
        res == after.0 && Descriptors() == old(Descriptors())[fd := OpenFile(f.item, after.1)]
    {
      hide SeekFrom, FatPrivate.Mounted, Step;
      var desc := GetDescriptor(fd);
      ghost var before := Descriptors();
      if desc == null {
        NoStep(before);
        return -EIO;
      }
      res := desc.file.Seek(offset % 0x1_0000_0000, whence);
      assert Descriptors() == before[fd := OpenFile(before[fd].item, desc.file.pos)];
      StepsAre(before, Descriptors(), fd, OpenFile(before[fd].item, desc.file.pos));
    }

    /** fread: as the driver reads, for every open descriptor but 512. */
    method Fread(out: array<Byte>, size: nat, nmemb: nat, fd: int, ghost dirs: Directories) returns (res: int)
      requires Valid(dirs) && nmemb * size <= out.Length
      requires Usable(Descriptors(), fd) && size > 0 && nmemb > 0 ==>
        fat != null && Descriptors()[fd].item.FileItem? && Descriptors()[fd].pos + nmemb * size <= 0x7FFF_FFFF
      modifies FileOf(fd), out, if fat == null then {} else {fat.clusterStream, fat.fatStream}
      ensures Valid(dirs) && Step(old(Descriptors()), Descriptors())
      ensures size == 0 || nmemb == 0 || !Usable(old(Descriptors()), fd) ==>
        res == -EINVARG && Descriptors() == old(Descriptors()) && out[..] == old(out[..])
      ensures size > 0 && nmemb > 0 && Usable(old(Descriptors()), fd) ==>
        var f := old(Descriptors())[fd];
        var o := MembersOutcome(fat.v, FirstCluster(f.item.entry), f.pos, size, nmemb);
        && out[..] == Overwrite(old(out[..]), 0, BytesAt(fat.v.disk, o.positions))
        && res == (if o.status == 0 then nmemb else o.status)
        && Descriptors() == old(Descriptors())[fd := f.(pos := if o.status == 0 then f.pos + nmemb * size else f.pos)]
    {
      hide MembersOutcome, BytesAt, Overwrite, FirstCluster, WellFormed, Step;
      NoStep(Descriptors());
      if size == 0 || nmemb == 0 || fd < 1 {
        return -EINVARG;
      }
      var desc := GetDescriptor(fd);
      if desc == null {
        return -EINVARG;
      }
      ghost var before := Descriptors();
      res := fat.Read(desc.file, size, nmemb, out);
      assert Descriptors() == before[fd := OpenFile(before[fd].item, desc.file.pos)];
      StepsAre(before, Descriptors(), fd, OpenFile(before[fd].item, desc.file.pos));
    }

    /** fclose: the slot is free again; the descriptor 512 cannot be closed. */
    method Fclose(fd: int, ghost dirs: Directories) returns (res: int)
      requires Valid(dirs)
      modifies slots
      ensures Valid(dirs) && Step(old(Descriptors()), Descriptors())
      ensures Usable(old(Descriptors()), fd) ==> res == 0 && Descriptors() == old(Descriptors()) - {fd}
      ensures !Usable(old(Descriptors()), fd) ==> res == -EIO && Descriptors() == old(Descriptors())
    {
      hide Step, FatPrivate.Mounted;
      var desc := GetDescriptor(fd);
      if desc == null {
        NoStep(Descriptors());
        return -EIO;
      }
      ghost var before := Descriptors();
      slots[desc.index - 1] := null;
      res := 0;
      assert Descriptors() == before - {fd};
      StepsAre(before, Descriptors(), fd, before[fd]);
    }
  }

  /** Opening a file, reading from its start and closing it: the bytes are those of the file's clusters, for
      any chain of clusters, and the table of descriptors is what it was. */
  method ReadFile(heap: Heap.Heap, files: Files, filename: Name, n: nat, out: array<Byte>, ghost dirs: Directories,
      ghost e: Entry,
      ghost cs: seq<int>)
    requires files.Valid(dirs) && CanOpen(files.fat, dirs, filename, [0x72]) && files.fat != null
    requires Opened(files.fat, dirs, filename, [0x72]) == Some(e) && !IsSubdirectory(e)
    requires exists fd :: 1 <= fd < MAX_DESCRIPTORS && fd !in files.Descriptors()
    requires IsChain(files.fat.v, cs) && cs[0] == FirstCluster(e)
    requires 0 < n <= |cs| * files.fat.v.ClusterBytes() && n <= 0x7FFF_FFFF && n <= out.Length
    requires PathParser.HasPathBlocks(heap.entries[..], filename)
    modifies heap.entries, files.slots, files.fat.directoryStream, files.fat.clusterStream, files.fat.fatStream, out
    ensures files.Valid(dirs) && files.Descriptors() == old(files.Descriptors())
    ensures |FileBytes(files.fat.v, cs)| >= n && out[..n] == FileBytes(files.fat.v, cs)[..n]
  {
    hide CanOpen, Opened, IsSubdirectory, IsChain, FirstCluster, FileBytes, ReadOutcome, Resolve, WellFormed, BytesAt,
        Files.Valid,
      MembersOutcome, Overwrite, Files.Descriptors, Files.FileOf, PathParser.HasPathBlocks, PathParser.PathBlocks, Marked;
    var fd, blocks := files.Fopen(heap, filename, [0x72], dirs);
    ghost var before := out[..];
    var res := files.Fread(out, n, 1, fd, dirs);
    WholeRead(files.fat.v, cs, n);
    OverwriteStart(before, FileBytes(files.fat.v, cs)[..n]);
    var closed := files.Fclose(fd, dirs);
  }

  lemma OverwriteStart(a: seq<Byte>, bytes: seq<Byte>)
    requires |bytes| <= |a|
    ensures Overwrite(a, 0, bytes)[..|bytes|] == bytes
  {
  }

  lemma WholeRead(v: Volume, cs: seq<int>, n: nat)
    requires v.Valid() && IsChain(v, cs) && 0 < n <= |cs| * v.ClusterBytes()
    ensures |FileBytes(v, cs)| >= n
    ensures var o := MembersOutcome(v, cs[0], 0, n, 1); o.status == 0 && BytesAt(v.disk, o.positions) == FileBytes(v, cs)[..n]
  {
    DividedSmall(0, v.ClusterBytes());
    ReadIsFlatExactly(v, cs, 0, n);
    hide IsChain, FileBytes, ReadOutcome, ReadsFlat, BytesAt;
    assert n == 1 * n;
    MembersReturnFile(v, cs, 0, n, 1);
  }

  /** A descriptor that has been opened can be given back exactly if it is not 512. The blocks that the path has taken
      are never given back: as many fewer are free. */
  method OpenThenClose(heap: Heap.Heap, files: Files, filename: Name, mode: Name,
      ghost dirs: Directories) returns (fd: int)
    requires files.Valid(dirs) && CanOpen(files.fat, dirs, filename, mode)
    requires PathParser.HasPathBlocks(heap.entries[..], filename)
    modifies heap.entries, files.slots, if files.fat == null then {} else {files.fat.directoryStream,
        files.fat.clusterStream,
        files.fat.fatStream}
    ensures files.Valid(dirs)
    ensures files.Descriptors() == old(files.Descriptors()) <==> fd != 512
    ensures CountFree(heap.entries[..], 0) == CountFree(old(heap.entries[..]), 0) - PathParser.PathBlocks(filename)
  {
    hide CanOpen, Opened, IsSubdirectory, Resolve, WellFormed, Files.Valid, Files.Descriptors, Marked,
        PathParser.PathBlocks,
      PathParser.HasPathBlocks, CountFree;
    ghost var t, blocks := heap.entries[..], {};
    fd, blocks := files.Fopen(heap, filename, mode, dirs);
    MarkedCounts(t, heap.entries[..], blocks);
    ghost var before, during := old(files.Descriptors()), files.Descriptors();
    if fd != 0 {
      var res := files.Fclose(fd, dirs);
      assert fd != MAX_DESCRIPTORS ==> during - {fd} == before;
    }
  }

  /** Once the last slot has been taken, no history of operations gives it back. */
  lemma {:induction false} LastSlotIsLost(history: seq<View>, n: nat)
    requires n < |history| && forall i :: 0 <= i < n ==> Step(history[i], history[i + 1])
    requires 512 in history[0]
    ensures 512 in history[n] && history[n][512] == history[0][512]
  {
    if n > 0 {
      LastSlotIsLost(history, n - 1);
      assert Step(history[n - 1], history[n - 1 + 1]);
    }
  }

}

/** Directories of a FAT16 volume: 32-byte entries, 8.3 names, and trees of them on the disk. */
module FatDirectory {
  import opened Bits
  import opened Status
  import opened Streamer
  import opened FatVolume

  const SUBDIRECTORY: Byte := 0x10
  const DELETED: Byte := 0xE5
  const DOT: Byte := 0x2E
  const SPACE: Byte := 0x20

  type Entry = e: seq<Byte> | |e| == ENTRY_SIZE witness seq(ENTRY_SIZE, _ => 0)

  function EntryAt(disk: Contents, pos: int, i: nat): Entry {
    Span(disk, pos + ENTRY_SIZE * i, ENTRY_SIZE)
  }

  predicate IsSubdirectory(e: Entry) {
    And8(e[11], SUBDIRECTORY) != 0
  }

  function Word16(low: Byte, high: Byte): Word {
    var l: int, h: int := low, high;
    l + 0x100 * h
  }

  /** The two halves of the cluster number are or-ed, without a shift. */
  function FirstCluster(e: Entry): Word {
    assert Pow2(8) == 0x100;
    assert Pow2(16) == 0x1_0000;
    Bounded(Word16(e[20], e[21]), Word16(e[26], e[27]), 16);
    Or(Word16(e[20], e[21]), Word16(e[26], e[27]))
  }

  function FileSize(e: Entry): Uint32 {
    var low: int, high: int := Word16(e[28], e[29]), Word16(e[30], e[31]);
    low + 0x1_0000 * high
  }

  // ---------- names ----------

  type Name = seq<Byte>

  predicate IsPad(b: Byte) {
    b == 0 || b == SPACE
  }

  /** A field up to its padding. */
  function Trim(field: seq<Byte>): (s: Name)
    ensures |s| <= |field| && s == field[..|s|] && (forall i :: 0 <= i < |s| ==> !IsPad(s[i]))
    ensures |s| == |field| || IsPad(field[|s|])
  {
    if field == [] || IsPad(field[0]) then [] else [field[0]] + Trim(field[1..])
  }

  function FullName(e: Entry): Name {
    Trim(e[..8]) + (if IsPad(e[8]) then [] else [DOT] + Trim(e[8..11]))
  }

  function Padded(s: Name, n: nat): seq<Byte>
    requires |s| <= n
  {
    s + seq(n - |s|, _ => SPACE)
  }

  predicate Plain(s: Name) {
    forall i :: 0 <= i < |s| ==> !IsPad(s[i])
  }

  lemma {:induction false} TrimPadded(s: Name, n: nat)
    requires Plain(s) && |s| <= n
    ensures Trim(Padded(s, n)) == s
  {
    if s != [] {
      assert Padded(s, n)[1..] == Padded(s[1..], n - 1);
      TrimPadded(s[1..], n - 1);
      assert s == [s[0]] + s[1..];
    } else if n > 0 {
      assert Padded(s, n)[0] == SPACE;
    }
  }

  /** Decoding an 8.3 name gives back the base and the extension that were stored. */
  lemma NameRoundTrip(e: Entry, base: Name, ext: Name)
    requires Plain(base) && Plain(ext) && |base| <= 8 && |ext| <= 3
    requires e[..8] == Padded(base, 8) && e[8..11] == Padded(ext, 3)
    ensures FullName(e) == if ext == [] then base else base + [DOT] + ext
  {
    TrimPadded(base, 8);
    TrimPadded(ext, 3);
    assert e[8] == e[8..11][0];
    assert e[8] == if ext == [] then SPACE else ext[0];
    assert ext != [] ==> !IsPad(ext[0]);
    assert base + [DOT] + ext == base + ([DOT] + ext);
  }

  function Lower(b: Byte): Byte {
    if 65 <= b <= 90 then b + 32 else b
  }

  /** Two characters are the same up to case exactly if they are the same, or the two cases of one of the 26 letters. */
  lemma SameLetter(x: Byte, y: Byte)
    ensures Lower(x) == Lower(y) <==> x == y || (0x41 <= x <= 0x5A && y == x + 32) || (0x41 <= y <= 0x5A && x == y + 32)
  {
  }

  /** The same name, up to the case of letters. */
  predicate SameName(a: Name, b: Name) {
    |a| == |b| && forall i :: 0 <= i < |a| ==> Lower(a[i]) == Lower(b[i])
  }

  // ---------- entries on the disk ----------

  predicate IsLive(disk: Contents, pos: int, i: nat) {
    disk(pos + ENTRY_SIZE * i) != DELETED
  }

  /** The directory at pos has n entries before the one that ends it. */
  predicate Terminated(disk: Contents, pos: int, n: nat) {
    disk(pos + ENTRY_SIZE * n) == 0 && forall i :: 0 <= i < n ==> disk(pos + ENTRY_SIZE * i) != 0
  }

  /** The number of the first n entries that are not deleted. */
  function CountLive(disk: Contents, pos: int, n: nat): (c: nat)
    ensures c <= n
  {
    if n == 0 then 0 else CountLive(disk, pos, n - 1) + (if IsLive(disk, pos, n - 1) then 1 else 0)
  }

  lemma {:induction false} CountsAll(disk: Contents, pos: int, n: nat)
    ensures CountLive(disk, pos, n) == n <==> forall i :: 0 <= i < n ==> IsLive(disk, pos, i)
  {
    if n > 0 {
      CountsAll(disk, pos, n - 1);
    }
  }

  lemma {:induction false} CountsFirst(disk: Contents, pos: int, m: nat, n: nat)
    requires m <= n && forall i :: m <= i < n ==> !IsLive(disk, pos, i)
    ensures CountLive(disk, pos, n) == CountLive(disk, pos, m)
    decreases n
  {
    if m < n {
      CountsFirst(disk, pos, m, n - 1);
    }
  }

  lemma {:induction false} SomeDeleted(disk: Contents, pos: int, n: nat) returns (i: nat)
    requires CountLive(disk, pos, n) < n
    ensures i < n && !IsLive(disk, pos, i)
  {
    if IsLive(disk, pos, n - 1) {
      i := SomeDeleted(disk, pos, n - 1);
    } else {
      i := n - 1;
    }
  }

  /** No deleted entry comes before one that is not. */
  predicate DeletedLast(disk: Contents, pos: int, n: nat) {
    forall i, j :: 0 <= i < j < n && IsLive(disk, pos, j) ==> IsLive(disk, pos, i)
  }

  /** The driver counts the entries that are not deleted and then looks at that many entries from the
      first on. It sees all that are not deleted exactly if no deleted one comes before such an entry. */
  lemma AllLiveSeen(disk: Contents, pos: int, n: nat)
    ensures (forall i :: 0 <= i < n && IsLive(disk, pos, i) ==> i < CountLive(disk, pos, n)) <==> DeletedLast(disk, pos, n)
  {
    var c := CountLive(disk, pos, n);
    if forall i :: 0 <= i < n && IsLive(disk, pos, i) ==> i < c {
      CountsFirst(disk, pos, c, n);
      CountsAll(disk, pos, c);
    }
    if DeletedLast(disk, pos, n) {
      forall k | 0 <= k < n && IsLive(disk, pos, k)
        ensures k < c
      {
        CountsAll(disk, pos, k + 1);
        CountMonotone(disk, pos, k + 1, n);
      }
    }
  }

  lemma {:induction false} CountMonotone(disk: Contents, pos: int, m: nat, n: nat)
    requires m <= n
    ensures CountLive(disk, pos, m) <= CountLive(disk, pos, n)
    decreases n
  {
    if m < n {
      CountMonotone(disk, pos, m, n - 1);
    }
  }

  /** The first n entries of a directory. */
  function EntriesAt(disk: Contents, pos: int, n: nat): (es: seq<Entry>)
    ensures |es| == n && forall i :: 0 <= i < n ==> es[i] == EntryAt(disk, pos, i)
  {
    if n == 0 then [] else EntriesAt(disk, pos, n - 1) + [EntryAt(disk, pos, n - 1)]
  }

  /** A directory in memory: its entries, and how many of them are looked at. */
  datatype Directory = Directory(items: seq<Entry>, total: nat) {
    predicate Valid() {
      total <= |items|
    }
  }

  datatype Item = FileItem(entry: Entry) | DirectoryItem(directory: Directory)

  // ---------- the directories of a volume ----------

  /** The directories of a volume: where each one is, and its number of entries, deleted ones included. */
  type Directories = map<int, nat>

  const PARENT: Name := [DOT, DOT]

  function DirectoryPos(v: Volume, e: Entry): int {
    v.ClusterPos(FirstCluster(e))
  }

  predicate UniqueNames(items: seq<Entry>) {
    forall i, j :: 0 <= i < j < |items| ==> !SameName(FullName(items[i]), FullName(items[j]))
  }

  /** The entries of a directory that the driver looks at. */
  function ItemsAt(v: Volume, dirs: Directories, pos: int): seq<Entry>
    requires pos in dirs
  {
    EntriesAt(v.disk, pos, CountLive(v.disk, pos, dirs[pos]))
  }

  /** The directory has an entry, which is not deleted. */
  predicate HasEntry(v: Volume, dirs: Directories, pos: int, e: Entry)
    requires pos in dirs
  {
    exists i :: 0 <= i < dirs[pos] && IsLive(v.disk, pos, i) && EntryAt(v.disk, pos, i) == e
  }

  /** A subdirectory is in the map, and ends in its first cluster. */
  predicate Known(v: Volume, dirs: Directories, e: Entry) {
    DirectoryPos(v, e) in dirs && ENTRY_SIZE * dirs[DirectoryPos(v, e)] < v.ClusterBytes()
  }

  /** Every directory is terminated, and every subdirectory that the driver may meet in one is known, but for the
      parent entries: that of a first-level directory has cluster 0. */
  ghost predicate WellFormed(v: Volume, dirs: Directories) {
    forall pos :: pos in dirs ==>
      && Terminated(v.disk, pos, dirs[pos])
      && forall e :: e in ItemsAt(v, dirs, pos) && IsSubdirectory(e) && FullName(e) != PARENT ==> Known(v, dirs, e)
  }

  /** In no directory does a deleted entry come before one that is not, or have two entries the same name. */
  ghost predicate Tidy(v: Volume, dirs: Directories) {
    forall pos :: pos in dirs ==> DeletedLast(v.disk, pos, dirs[pos]) && UniqueNames(ItemsAt(v, dirs, pos))
  }

  predicate NoParents(path: seq<Name>) {
    forall i :: 0 <= i < |path| ==> !SameName(PARENT, path[i])
  }

  /** The path leads from a directory to an entry. */
  ghost predicate LeadsTo(v: Volume, dirs: Directories, pos: int, path: seq<Name>, e: Entry)
    requires |path| > 0
    decreases |path|
  {
    pos in dirs
    && exists f ::
         && HasEntry(v, dirs, pos, f) && SameName(FullName(f), path[0])
         && if |path| == 1 then e == f else IsSubdirectory(f) && LeadsTo(v, dirs, DirectoryPos(v, f), path[1..], e)
  }

  /** The index of the last entry with a name, or -1. */
  function LastNamed(items: seq<Entry>, name: Name): (i: int)
    ensures -1 <= i < |items|
    ensures i >= 0 ==> SameName(FullName(items[i]), name)
    ensures forall k :: i < k < |items| ==> !SameName(FullName(items[k]), name)
  {
    if items == [] then -1
    else if SameName(FullName(items[|items| - 1]), name) then |items| - 1
    else LastNamed(items[..|items| - 1], name)
  }

  function Named(items: seq<Entry>, name: Name): Option<Entry> {
    var i := LastNamed(items, name);
    if i < 0 then None else Some(items[i])
  }

  /** What the driver's walk finds: at every step the last entry with the name. */
  function Resolve(v: Volume, dirs: Directories, pos: int, path: seq<Name>): Option<Entry>
    requires |path| > 0
    decreases |path|
  {
    if pos !in dirs then None
    else match Named(ItemsAt(v, dirs, pos), path[0])
      case None => None
      case Some(f) =>
        if |path| == 1 then Some(f)
        else if IsSubdirectory(f) then Resolve(v, dirs, DirectoryPos(v, f), path[1..]) else None
  }

  lemma SameNameTransitive(a: Name, b: Name, c: Name)
    requires SameName(a, c) && SameName(b, c)
    ensures SameName(a, b)
  {
  }

  lemma NamedIsOnly(items: seq<Entry>, name: Name, f: Entry)
    requires UniqueNames(items)
    ensures Named(items, name) == Some(f) <==> f in items && SameName(FullName(f), name)
  {
    hide FullName;
    var i := LastNamed(items, name);
    if f in items && SameName(FullName(f), name) {
      var k :| 0 <= k < |items| && items[k] == f;
      if k < i {
        SameNameTransitive(FullName(items[k]), FullName(items[i]), name);
      }
    }
  }

  /** In a tidy directory the driver looks at exactly the entries that there are. */
  lemma SeesAllEntries(v: Volume, dirs: Directories, pos: int, f: Entry)
    requires pos in dirs && DeletedLast(v.disk, pos, dirs[pos])
    ensures f in ItemsAt(v, dirs, pos) <==> HasEntry(v, dirs, pos, f)
  {
    hide EntryAt;
    var n := dirs[pos];
    var c := CountLive(v.disk, pos, n);
    AllLiveSeen(v.disk, pos, n);
    CountsFirst(v.disk, pos, c, n);
    CountsAll(v.disk, pos, c);
    hide IsLive, CountLive;
    if f in ItemsAt(v, dirs, pos) {
      var i :| 0 <= i < c && ItemsAt(v, dirs, pos)[i] == f;
      assert IsLive(v.disk, pos, i) && EntryAt(v.disk, pos, i) == f;
    }
    if HasEntry(v, dirs, pos, f) {
      var i :| 0 <= i < n && IsLive(v.disk, pos, i) && EntryAt(v.disk, pos, i) == f;
      assert ItemsAt(v, dirs, pos)[i] == f;
    }
  }

  /** One step of the walk takes the only entry that has the name. */
  lemma StepFindsOnly(v: Volume, dirs: Directories, pos: int, name: Name, f: Entry)
    requires Tidy(v, dirs) && pos in dirs
    ensures Named(ItemsAt(v, dirs, pos), name) == Some(f) <==> HasEntry(v, dirs, pos, f) && SameName(FullName(f), name)
  {
    hide FullName, SameName, DeletedLast, HasEntry, ItemsAt;
    SeesAllEntries(v, dirs, pos, f);
    NamedIsOnly(ItemsAt(v, dirs, pos), name, f);
  }

  /** The walk finds exactly what the path leads to, if no deleted entry comes before one that is not and names
      are unique. */
  lemma {:induction false} ResolveFindsPath(v: Volume, dirs: Directories, pos: int, path: seq<Name>, e: Entry)
    requires |path| > 0 && Tidy(v, dirs)
    ensures Resolve(v, dirs, pos, path) == Some(e) <==> LeadsTo(v, dirs, pos, path, e)
    decreases |path|
  {
    hide FullName, SameName, IsSubdirectory, Tidy, Named, ItemsAt, HasEntry, FirstCluster;
    if pos in dirs {
      forall f: Entry
        ensures Named(ItemsAt(v, dirs, pos), path[0]) == Some(f) <==> HasEntry(v, dirs, pos, f) && SameName(FullName(f), path[0])
      {
        StepFindsOnly(v, dirs, pos, path[0], f);
      }
      match Named(ItemsAt(v, dirs, pos), path[0])
      case None =>
      case Some(f) =>
        if |path| > 1 && IsSubdirectory(f) {
          ResolveFindsPath(v, dirs, DirectoryPos(v, f), path[1..], e);
        }
    }
  }

  /** A root directory with a deleted entry and a file of the name A behind it. */
  function Untidy(): Volume {
    Volume(p => if p == 0 then DELETED else if p == ENTRY_SIZE then 0x41 else 0, 0, 0, 0, 16, 1, 100)
  }

  /** A directory with a deleted entry and one behind it: a path leads to the second entry, but the driver looks
      at the first only. */
  lemma HiddenBehindDeleted(v: Volume, pos: int, dirs: Directories, name: Name)
    requires dirs == map[pos := 2] && Terminated(v.disk, pos, 2) && CountLive(v.disk, pos, 2) == 1
    requires IsLive(v.disk, pos, 1)
    requires !IsSubdirectory(EntryAt(v.disk, pos, 0)) && !SameName(FullName(EntryAt(v.disk, pos, 0)), name)
    requires SameName(FullName(EntryAt(v.disk, pos, 1)), name)
    ensures WellFormed(v, dirs) && LeadsTo(v, dirs, pos, [name], EntryAt(v.disk, pos, 1))
    ensures Resolve(v, dirs, pos, [name]) == None
  {
    var gone, file := EntryAt(v.disk, pos, 0), EntryAt(v.disk, pos, 1);
    assert EntriesAt(v.disk, pos, 1) == [gone];
    hide EntryAt, FullName, SameName, CountLive, Terminated, IsLive, IsSubdirectory, Known, EntriesAt;
    assert ItemsAt(v, dirs, pos) == [gone];
    assert HasEntry(v, dirs, pos, file);
    assert Named([gone], name) == None;
  }

  /** There the path A leads to the file, and the walk does not find it. */
  lemma DeletedEntryHides()
    ensures var v, dirs, path := Untidy(), map[0 := 2], [[0x41 as Byte]];
      WellFormed(v, dirs) && LeadsTo(v, dirs, 0, path, EntryAt(v.disk, 0, 1)) && Resolve(v, dirs, 0, path) == None
  {
    UntidyEntries();
    NamesOfUntidy();
    hide Untidy, EntryAt, FullName, CountLive, Terminated, IsLive, IsSubdirectory, WellFormed, LeadsTo, Resolve;
    HiddenBehindDeleted(Untidy(), 0, map[0 := 2], [0x41]);
  }

  lemma UntidyEntries()
    ensures var disk := Untidy().disk;
      Terminated(disk, 0, 2) && CountLive(disk, 0, 2) == 1 && IsLive(disk, 0, 1)
  {
    var disk := Untidy().disk;
    assert CountLive(disk, 0, 2) == CountLive(disk, 0, 1) + 1;
  }

  lemma NamesOfUntidy()
    ensures var disk := Untidy().disk;
      && !SameName(FullName(EntryAt(disk, 0, 0)), [0x41]) && SameName(FullName(EntryAt(disk, 0, 1)), [0x41])
      && !IsSubdirectory(EntryAt(disk, 0, 0))
  {
    var disk := Untidy().disk;
    FirstByteOnly(EntryAt(disk, 0, 0));
    FirstByteOnly(EntryAt(disk, 0, 1));
    assert Lower([DELETED][0]) != Lower([0x41 as Byte][0]);
    assert And8(0, SUBDIRECTORY) == 0;
  }

  lemma FirstByteOnly(e: Entry)
    requires !IsPad(e[0]) && forall i :: 1 <= i < 11 ==> e[i] == 0
    ensures FullName(e) == [e[0]]
  {
    assert e[..8][1..] == e[1..8];
    assert Trim(e[1..8]) == [];
  }

  /** The walk needs every directory on the way, after the first, to have the next part, up to the last
      part or a file: it does not test for a missing one. */
  predicate CanWalk(v: Volume, dirs: Directories, f: Entry, rest: seq<Name>)
    decreases |rest|
  {
    |rest| <= 1 || !IsSubdirectory(f) || DirectoryPos(v, f) !in dirs
    || match Named(ItemsAt(v, dirs, DirectoryPos(v, f)), rest[0])
       case None => false
       case Some(g) => CanWalk(v, dirs, g, rest[1..])
  }

  /** The driver's item for an entry. */
  function ItemOf(v: Volume, dirs: Directories, e: Entry): Item
    requires IsSubdirectory(e) ==> DirectoryPos(v, e) in dirs
  {
    if IsSubdirectory(e) then
      var items := ItemsAt(v, dirs, DirectoryPos(v, e));
      DirectoryItem(Directory(items, |items|))
    else FileItem(e)
  }
}

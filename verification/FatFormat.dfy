/** What the FAT specification 1.03 says is written to a disk, field by field in its order and widths, and that decoding
    gives it back: the boot sector ("Boot Sector and BPB"), the table, and directory entries ("FAT Directory Structure"). */
module FatFormat {
  import opened Bits
  import opened Status
  import opened Streamer
  import opened FatVolume
  import opened FatDirectory

  /** Numbers are written with the low byte first. */
  function Two(w: Word): (b: seq<Byte>)
    ensures |b| == 2
  {
    [w % 256, w / 256]
  }

  function Four(x: Uint32): (b: seq<Byte>)
    ensures |b| == 4
  {
    Two(x % 65536) + Two(x / 65536)
  }

  /** The bytes are on the disk from a position on. */
  predicate Holds(disk: Contents, pos: int, bytes: seq<Byte>) {
    forall i :: 0 <= i < |bytes| ==> disk(pos + i) == bytes[i]
  }

  lemma HoldsParts(disk: Contents, pos: int, first: seq<Byte>, rest: seq<Byte>)
    requires Holds(disk, pos, first + rest)
    ensures Holds(disk, pos, first) && Holds(disk, pos + |first|, rest)
  {
    forall i | 0 <= i < |first|
      ensures disk(pos + i) == first[i]
    {
      assert (first + rest)[i] == first[i];
    }
    forall i | 0 <= i < |rest|
      ensures disk(pos + |first| + i) == rest[i]
    {
      assert (first + rest)[|first| + i] == rest[i];
      assert disk(pos + (|first| + i)) == (first + rest)[|first| + i];
    }
  }

  lemma HoldsOne(disk: Contents, pos: int, b: Byte)
    requires Holds(disk, pos, [b])
    ensures disk(pos) == b
  {
    assert disk(pos + 0) == [b][0];
  }

  lemma HoldsTwo(disk: Contents, pos: int, w: Word)
    requires Holds(disk, pos, Two(w))
    ensures LittleEndian16(disk, pos) == w
  {
    assert disk(pos + 0) == Two(w)[0] && disk(pos + 1) == Two(w)[1];
  }

  lemma HoldsFour(disk: Contents, pos: int, x: Uint32)
    requires Holds(disk, pos, Four(x))
    ensures LittleEndian32(disk, pos) == x
  {
    HoldsParts(disk, pos, Two(x % 65536), Two(x / 65536));
    HoldsTwo(disk, pos, x % 65536);
    HoldsTwo(disk, pos + 2, x / 65536);
  }

  // ---------- the boot sector ----------

  datatype BootSector = BootSector(
    jump: seq<Byte>, oemName: seq<Byte>, bytesPerSector: Word, sectorsPerCluster: Byte, reservedSectors: Word,
    fatCopies: Byte, rootEntries: Word, sectors16: Word, media: Byte, sectorsPerFat: Word, sectorsPerTrack: Word,
    heads: Word, hiddenSectors: Uint32, sectors32: Uint32, drive: Byte, reserved: Byte, signature: Byte,
    volumeId: Uint32, volumeLabel: seq<Byte>, systemId: seq<Byte>) {
    predicate Valid() {
      |jump| == 3 && |oemName| == 8 && |volumeLabel| == 11 && |systemId| == 8
    }

    function Sectors(): nat {
      if sectors16 != 0 then sectors16 else sectors32
    }
  }

  function Head(b: BootSector): seq<Byte> {
    b.jump + b.oemName + Two(b.bytesPerSector) + [b.sectorsPerCluster] + Two(b.reservedSectors) + [b.fatCopies]
    + Two(b.rootEntries) + Two(b.sectors16) + [b.media] + Two(b.sectorsPerFat)
  }

  function Tail(b: BootSector): seq<Byte> {
    Two(b.sectorsPerTrack) + Two(b.heads) + Four(b.hiddenSectors) + Four(b.sectors32) + [b.drive, b.reserved, b.signature]
    + Four(b.volumeId) + b.volumeLabel + b.systemId
  }

  /** The fields of the boot sector, one behind the other. */
  function BootBytes(b: BootSector): seq<Byte> {
    Head(b) + Tail(b)
  }

  lemma HeadHolds(disk: Contents, b: BootSector)
    requires b.Valid() && Holds(disk, 0, Head(b))
    ensures disk(13) == b.sectorsPerCluster && LittleEndian16(disk, 14) == b.reservedSectors && disk(16) == b.fatCopies
    ensures LittleEndian16(disk, 17) == b.rootEntries && LittleEndian16(disk, 19) == b.sectors16
    ensures LittleEndian16(disk, 22) == b.sectorsPerFat
  {
    var p1 := b.jump + b.oemName + Two(b.bytesPerSector);
    var p2 := p1 + [b.sectorsPerCluster];
    var p3 := p2 + Two(b.reservedSectors);
    var p4 := p3 + [b.fatCopies];
    var p5 := p4 + Two(b.rootEntries);
    var p6 := p5 + Two(b.sectors16);
    var p7 := p6 + [b.media];
    hide Holds, Two;
    HoldsParts(disk, 0, p7, Two(b.sectorsPerFat));
    HoldsTwo(disk, 22, b.sectorsPerFat);
    HoldsParts(disk, 0, p6, [b.media]);
    HoldsParts(disk, 0, p5, Two(b.sectors16));
    HoldsTwo(disk, 19, b.sectors16);
    HoldsParts(disk, 0, p4, Two(b.rootEntries));
    HoldsTwo(disk, 17, b.rootEntries);
    HoldsParts(disk, 0, p3, [b.fatCopies]);
    HoldsOne(disk, 16, b.fatCopies);
    HoldsParts(disk, 0, p2, Two(b.reservedSectors));
    HoldsTwo(disk, 14, b.reservedSectors);
    HoldsParts(disk, 0, p1, [b.sectorsPerCluster]);
    HoldsOne(disk, 13, b.sectorsPerCluster);
  }

  lemma TailHolds(disk: Contents, b: BootSector)
    requires b.Valid() && Holds(disk, 24, Tail(b))
    ensures LittleEndian32(disk, 32) == b.sectors32 && disk(38) == b.signature
  {
    var p1 := Two(b.sectorsPerTrack) + Two(b.heads) + Four(b.hiddenSectors);
    var p2 := p1 + Four(b.sectors32);
    var p3 := p2 + [b.drive, b.reserved, b.signature];
    var p4 := p3 + Four(b.volumeId);
    var p5 := p4 + b.volumeLabel;
    hide Holds, Two, Four;
    HoldsParts(disk, 24, p5, b.systemId);
    HoldsParts(disk, 24, p4, b.volumeLabel);
    HoldsParts(disk, 24, p3, Four(b.volumeId));
    HoldsParts(disk, 24, p2, [b.drive, b.reserved, b.signature]);
    assert [b.drive, b.reserved, b.signature] == [b.drive, b.reserved] + [b.signature];
    HoldsParts(disk, 36, [b.drive, b.reserved], [b.signature]);
    HoldsOne(disk, 38, b.signature);
    HoldsParts(disk, 24, p1, Four(b.sectors32));
    HoldsFour(disk, 32, b.sectors32);
  }

  /** The fields of a boot sector that is at the start of a disk. */
  lemma BootHolds(disk: Contents, b: BootSector)
    requires b.Valid() && Holds(disk, 0, BootBytes(b))
    ensures disk(13) == b.sectorsPerCluster && LittleEndian16(disk, 14) == b.reservedSectors && disk(16) == b.fatCopies
    ensures LittleEndian16(disk, 17) == b.rootEntries && LittleEndian16(disk, 19) == b.sectors16
    ensures LittleEndian16(disk, 22) == b.sectorsPerFat && LittleEndian32(disk, 32) == b.sectors32
    ensures disk(38) == b.signature
  {
    hide Holds, Tail, LittleEndian16, LittleEndian32;
    assert |Head(b)| == 24;
    hide Head;
    HoldsParts(disk, 0, Head(b), Tail(b));
    HeadHolds(disk, b);
    TailHolds(disk, b);
  }

  // ---------- the table ----------

  /** The table is on the disk, an entry of two bytes for every cluster number. */
  ghost predicate HoldsTable(disk: Contents, pos: int, table: seq<Word>) {
    forall c :: 0 <= c < |table| ==> Holds(disk, pos + 2 * c, Two(table[c]))
  }

  lemma EntryRoundTrip(v: Volume, table: seq<Word>, cluster: nat)
    requires HoldsTable(v.disk, v.reservedSectors * 512, table) && cluster < |table|
    ensures v.FatEntry(cluster) == table[cluster]
  {
    HoldsTwo(v.disk, v.reservedSectors * 512 + 2 * cluster, table[cluster]);
  }

  // ---------- directory entries ----------

  datatype DirEntry = DirEntry(
    base: Name, ext: Name, attributes: Byte, reserved: Byte, createdTenths: Byte, createdTime: Word, createdDate: Word,
    accessedDate: Word, clusterHigh: Word, modifiedTime: Word, modifiedDate: Word, clusterLow: Word, size: Uint32) {
    predicate Valid() {
      |base| <= 8 && |ext| <= 3 && Plain(base) && Plain(ext)
    }

    /** The name of the file. */
    function FileName(): Name {
      if ext == [] then base else base + [0x2E] + ext
    }
  }

  function EntryBytes(d: DirEntry): (bytes: Entry)
    requires d.Valid()
  {
    Padded(d.base, 8) + Padded(d.ext, 3) + [d.attributes, d.reserved, d.createdTenths] + Two(d.createdTime)
    + Two(d.createdDate) + Two(d.accessedDate) + Two(d.clusterHigh) + Two(d.modifiedTime) + Two(d.modifiedDate)
    + Two(d.clusterLow) + Four(d.size)
  }

  /** The bytes of an entry, one by one. */
  lemma EntryFields(d: DirEntry)
    requires d.Valid()
    ensures var e := EntryBytes(d);
      && e[..8] == Padded(d.base, 8) && e[8..11] == Padded(d.ext, 3) && e[11] == d.attributes
      && Word16(e[20], e[21]) == d.clusterHigh && Word16(e[26], e[27]) == d.clusterLow && FileSize(e) == d.size
  {
    var e := EntryBytes(d);
    assert e[20] == Two(d.clusterHigh)[0] && e[21] == Two(d.clusterHigh)[1];
    assert e[26] == Two(d.clusterLow)[0] && e[27] == Two(d.clusterLow)[1];
    assert e[28] == Four(d.size)[0] && e[29] == Four(d.size)[1] && e[30] == Four(d.size)[2] && e[31] == Four(d.size)[3];
    hide EntryBytes;
  }

  lemma AttributeBit(x: Byte)
    ensures And8(x, 0x10) != 0 <==> x / 16 % 2 == 1
  {
    assert And(x, 16) == 2 * And(x / 2, 8);
    assert And(x / 2, 8) == 2 * And(x / 4, 4);
    assert And(x / 4, 4) == 2 * And(x / 8, 2);
    assert And(x / 8, 2) == 2 * And(x / 16, 1);
    assert And(x / 16, 1) == x / 16 % 2;
  }

  /** Decoding an entry that has been written gives back its name, its kind, and its size; and its cluster exactly if all
      bits of the upper half of the number are set in the lower half, as when the upper half is 0, which it is on FAT16. */
  lemma DirEntryRoundTrip(d: DirEntry)
    requires d.Valid()
    ensures var e := EntryBytes(d);
      && FullName(e) == d.FileName() && (IsSubdirectory(e) <==> d.attributes / 16 % 2 == 1) && FileSize(e) == d.size
      && (FirstCluster(e) == d.clusterLow <==> Within(d.clusterHigh, d.clusterLow))
      && (d.clusterHigh == 0 ==> FirstCluster(e) == d.clusterLow)
  {
    var e := EntryBytes(d);
    EntryFields(d);
    hide EntryBytes, FullName, FileSize, Word16, Or, And8, Within, Padded;
    NameRoundTrip(e, d.base, d.ext);
    AttributeBit(d.attributes);
    OperandKept(d.clusterHigh, d.clusterLow);
    OrZero(d.clusterLow);
  }
}

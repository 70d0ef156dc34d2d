/** Streams over a disk of 512-byte sectors. */
module Streamer {
  import opened Bits

  const SECTOR_SIZE := 512

  /** The byte at every position of a disk. */
  type Contents = int -> Byte

  /** The n bytes from a position on. */
  function Span(disk: Contents, pos: int, n: nat): (bytes: seq<Byte>)
    ensures |bytes| == n && forall i :: 0 <= i < n ==> bytes[i] == disk(pos + i)
  {
    if n == 0 then [] else Span(disk, pos, n - 1) + [disk(pos + n - 1)]
  }

  lemma SpansJoin(disk: Contents, pos: int, m: nat, n: nat)
    ensures Span(disk, pos, m) + Span(disk, pos + m, n) == Span(disk, pos, m + n)
  {
  }

  /** a with the bytes from an index on replaced. */
  function Overwrite(a: seq<Byte>, at: nat, bytes: seq<Byte>): (r: seq<Byte>)
    requires at + |bytes| <= |a|
    ensures |r| == |a|
  {
    a[..at] + bytes + a[at + |bytes|..]
  }

  lemma OverwriteTwice(a: seq<Byte>, at: nat, first: seq<Byte>, second: seq<Byte>)
    requires at + |first| + |second| <= |a|
    ensures Overwrite(Overwrite(a, at, first), at + |first|, second) == Overwrite(a, at, first + second)
  {
  }

  /** The numbers from first to last. */
  function Range(first: int, last: int): (r: seq<int>)
    decreases last - first
  {
    if first > last then [] else [first] + Range(first + 1, last)
  }

  /** The copy loop: n bytes of a sector buffer, from an offset on. */
  method Copy(buf: array<Byte>, offset: nat, out: array<Byte>, at: nat, n: nat, ghost sectorPos: int,
      ghost disk: Contents)
    requires offset + n <= buf.Length && at + n <= out.Length && buf != out
    requires buf[..] == Span(disk, sectorPos, buf.Length)
    modifies out
    ensures out[..] == Overwrite(old(out[..]), at, Span(disk, sectorPos + offset, n))
  {
    for i := 0 to n
      invariant forall k :: 0 <= k < out.Length ==> out[k] == if at <= k < at + i then disk(sectorPos + offset + k - at) else old(out[k])
    {
      assert buf[offset + i] == buf[..][offset + i];
      out[at + i] := buf[offset + i];
    }
  }

  function SectorOf(pos: int): int {
    pos / SECTOR_SIZE
  }

  function OffsetOf(pos: int): (offset: nat)
    ensures offset < SECTOR_SIZE && SectorOf(pos) * SECTOR_SIZE + offset == pos
  {
    pos % SECTOR_SIZE
  }

  /** A read that stays before the end of a sector takes this sector; any other takes it and goes on
      with the next. */
  lemma SectorsOfRead(pos: int, total: nat)
    ensures OffsetOf(pos) + total < SECTOR_SIZE ==> Range(SectorOf(pos), SectorOf(pos + total)) == [SectorOf(pos)]
    ensures OffsetOf(pos) + total >= SECTOR_SIZE ==>
              var next := pos + SECTOR_SIZE - OffsetOf(pos);
              SectorOf(next) == SectorOf(pos) + 1
              && Range(SectorOf(pos), SectorOf(pos + total)) == [SectorOf(pos)] + Range(SectorOf(next), SectorOf(pos + total))
  {
    if OffsetOf(pos) + total < SECTOR_SIZE {
      assert SectorOf(pos + total) == SectorOf(pos);
      assert Range(SectorOf(pos) + 1, SectorOf(pos)) == [];
    }
  }

  class DiskStream {
    const disk: Contents
    var pos: int
    /** The sectors that have been read, in order. */
    ghost var sectors: seq<int>

    constructor (disk: Contents)
      ensures this.disk == disk && pos == 0 && sectors == []
    {
      this.disk := disk;
      pos := 0;
      sectors := [];
    }

    method Seek(pos: int)
      modifies this`pos
      ensures this.pos == pos
    {
      this.pos := pos;
    }

    method ReadBlock(sector: int) returns (buf: array<Byte>)
      modifies this`sectors
      ensures fresh(buf) && buf.Length == SECTOR_SIZE && buf[..] == Span(disk, sector * SECTOR_SIZE, SECTOR_SIZE)
      ensures sectors == old(sectors) + [sector]
    {
      buf := new Byte[SECTOR_SIZE](i => disk(sector * SECTOR_SIZE + i));
      sectors := sectors + [sector];
    }

    /** Copies the next total bytes of the disk to out, from index at on. Every sector from that of the
        first byte to that of the byte after the last is read once, in order. */
    method Read(out: array<Byte>, at: nat, total: nat)
      requires at + total <= out.Length
      modifies this`pos, this`sectors, out
      ensures pos == old(pos) + total
      ensures out[..] == Overwrite(old(out[..]), at, Span(disk, old(pos), total))
      ensures sectors == old(sectors) + Range(SectorOf(old(pos)), SectorOf(old(pos) + total))
      decreases total
    {
      hide Span, Overwrite, Range, SectorOf, OffsetOf;
      SectorsOfRead(pos, total);
      var sector, offset := SectorOf(pos), OffsetOf(pos);
      var totalToRead := total;
      var overflow := offset + totalToRead >= SECTOR_SIZE;
      if overflow {
        totalToRead := totalToRead - (offset + totalToRead - SECTOR_SIZE);
      }
      var buf := ReadBlock(sector);
      ghost var start, before := pos, out[..];
      Copy(buf, offset, out, at, totalToRead, sector * SECTOR_SIZE, disk);
      pos := pos + totalToRead;
      if overflow {
        Read(out, at + totalToRead, total - totalToRead);
        SpansJoin(disk, start, totalToRead, total - totalToRead);
        OverwriteTwice(before, at, Span(disk, start, totalToRead), Span(disk, start + totalToRead,
            total - totalToRead));
      }
    }
  }

  /** Two consecutive reads leave what one longer read leaves. */
  method ReadInTwoParts(stream: DiskStream, out: array<Byte>, m: nat, n: nat)
    requires m + n <= out.Length
    modifies stream`pos, stream`sectors, out
    ensures stream.pos == old(stream.pos) + (m + n)
    ensures out[..] == Overwrite(old(out[..]), 0, Span(stream.disk, old(stream.pos), m + n))
  {
    hide Span, Overwrite, Range;
    ghost var start, before := stream.pos, out[..];
    stream.Read(out, 0, m);
    stream.Read(out, m, n);
    SpansJoin(stream.disk, start, m, n);
    OverwriteTwice(before, 0, Span(stream.disk, start, m), Span(stream.disk, start + m, n));
  }
}

/** Segment descriptors: their eight bytes, written from and read back to base, limit and type. */
module Gdt {
  import opened Bits

  /** A segment as the kernel describes it. */
  datatype Segment = Segment(base: Uint32, limit: Uint32, kind: Byte)

  // ---------- masks ----------

  function LowBits(x: nat, k: nat): nat
    decreases k
  {
    if k == 0 then 0 else 2 * LowBits(x / 2, k - 1) + x % 2
  }

  lemma {:induction false} AndMask(x: nat, k: nat)
    ensures And(x, Pow2(k) - 1) == LowBits(x, k)
    decreases k
  {
    if k > 0 {
      AndMask(x / 2, k - 1);
      if x == 0 {
        assert And(0, Pow2(k - 1) - 1) == 0;
      }
    }
  }

  lemma {:induction false} LowBitsJoin(x: nat, j: nat, k: nat)
    ensures LowBits(x, j + k) == LowBits(x, j) + Shl(LowBits(Shr(x, j), k), j)
    decreases j
  {
    if j > 0 {
      LowBitsJoin(x / 2, j - 1, k);
    }
  }

  function Shr(x: nat, k: nat): nat
    decreases k
  {
    if k == 0 then x else Shr(x / 2, k - 1)
  }

  lemma {:induction false} ShrJoin(x: nat, j: nat, k: nat)
    ensures Shr(x, j + k) == Shr(Shr(x, j), k)
    decreases j
  {
    if j > 0 {
      ShrJoin(x / 2, j - 1, k);
    }
  }

  lemma TwoBits(x: nat)
    ensures LowBits(x, 2) == x % 4 && Shr(x, 2) == x / 4 && Shl(x, 2) == 4 * x
  {
    assert LowBits(x / 2, 1) == x / 2 % 2;
  }

  lemma SplitFour(x: nat)
    ensures x % 16 == 4 * (x / 4 % 4) + x % 4 && x / 4 / 4 == x / 16
  {
  }

  lemma FourBits(x: nat)
    ensures LowBits(x, 4) == x % 16 && Shr(x, 4) == x / 16
  {
    hide LowBits, Shr, Shl;
    TwoBits(x);
    TwoBits(x / 4);
    LowBitsJoin(x, 2, 2);
    ShrJoin(x, 2, 2);
    TwoBits(x / 4 % 4);
    SplitFour(x);
  }

  lemma ShlBy4(a: nat)
    ensures Shl(a, 4) == 16 * a
  {
    assert Shl(a, 2) == 4 * a;
  }

  lemma SplitEight(x: nat)
    ensures x % 0x100 == 16 * (x / 16 % 16) + x % 16
  {
    assert x == 16 * (x / 16) + x % 16;
    assert x / 16 == 16 * (x / 0x100) + x / 16 % 16;
  }

  lemma EightBits(x: nat)
    ensures LowBits(x, 8) == x % 0x100
  {
    hide LowBits, Shr, Shl;
    FourBits(x);
    FourBits(x / 16);
    LowBitsJoin(x, 4, 4);
    ShlBy4(LowBits(x / 16, 4));
    SplitEight(x);
  }

  lemma SplitTwelve(x: nat)
    ensures x % 0x1000 == 16 * (x / 16 % 0x100) + x % 16
  {
    assert x == 16 * (x / 16) + x % 16;
    assert x / 16 == 0x100 * (x / 0x1000) + x / 16 % 0x100;
  }

  lemma TwelveBits(x: nat)
    ensures LowBits(x, 12) == x % 0x1000
  {
    hide LowBits, Shr, Shl;
    FourBits(x);
    EightBits(x / 16);
    LowBitsJoin(x, 4, 8);
    ShlBy4(LowBits(x / 16, 8));
    SplitTwelve(x);
  }

  lemma Masks(x: nat)
    ensures And(x, 0x0F) == x % 0x10 && And(x, 0xFF) == x % 0x100 && And(x, 0xFFF) == x % 0x1000
  {
    assert Pow2(4) == 0x10 && Pow2(8) == 0x100 && Pow2(12) == 0x1000;
    hide And, LowBits, Shr, Pow2;
    AndMask(x, 4);
    AndMask(x, 8);
    AndMask(x, 12);
    FourBits(x);
    EightBits(x);
    TwelveBits(x);
  }

  lemma OrHighBits(high: nat, low: nat)
    requires low < 16
    ensures Or(16 * high, low) == 16 * high + low
  {
    assert Pow2(4) == 16;
    hide Or;
    ShlBy4(high);
    OrLowBits(high, 0, low, 4);
    OrZero(low);
  }

  // ---------- encoding and decoding ----------

  /** The limits that the encoder takes; it panics at any other. */
  predicate Accepted(s: Segment) {
    s.limit <= 65536 || And(s.limit, 0xFFF) == 0xFFF
  }

  /** The segment that eight bytes describe, by section 3.4.5 of volume 3A of the Intel SDM: with the
      granularity bit set the limit counts pages, and its low twelve bits are ones. */
  function Decode(d: seq<Byte>): (int, int, Byte)
    requires |d| == 8
  {
    var base := d[2] as int + 0x100 * (d[3] as int) + 0x1_0000 * (d[4] as int) + 0x100_0000 * (d[7] as int);
    var limit := d[0] as int + 0x100 * (d[1] as int) + 0x1_0000 * (d[6] as int % 16);
    (base, if d[6] / 0x80 == 1 then limit * 0x1000 + 0xFFF else limit, d[5])
  }

  predicate Describes(d: seq<Byte>, s: Segment) {
    |d| == 8 && Decode(d) == (s.base, s.limit, s.kind)
  }

  /** The limit in twenty bits. */
  function ShortLimit(s: Segment): nat {
    if s.limit > 65536 then s.limit / 0x1000 else s.limit
  }

  function Encoded(s: Segment): (d: seq<Byte>)
    ensures |d| == 8
  {
    var l, b := ShortLimit(s), s.base;
    [l % 0x100, l / 0x100 % 0x100, b % 0x100, b / 0x100 % 0x100, b / 0x1_0000 % 0x100, s.kind,
     (if s.limit > 65536 then 0xC0 else 0x40) + l / 0x1_0000 % 0x10, b / 0x100_0000 % 0x100]
  }

  lemma BytesOf(x: Uint32)
    ensures x == x % 0x100 + 0x100 * (x / 0x100 % 0x100) + 0x1_0000 * (x / 0x1_0000 % 0x100) + 0x100_0000 * (x / 0x100_0000 % 0x100)
  {
    assert x / 0x100 == x / 0x100 % 0x100 + 0x100 * (x / 0x1_0000);
    assert x / 0x1_0000 == x / 0x1_0000 % 0x100 + 0x100 * (x / 0x100_0000);
  }

  /** Twenty bits of a limit, and the flags above them in the seventh byte. */
  lemma LimitDecodes(limit: nat, flags: Byte)
    requires limit < 0x10_0000 && flags % 16 == 0
    ensures flags + limit / 0x1_0000 < 0x100 && (flags + limit / 0x1_0000) / 0x80 == flags / 0x80
    ensures limit == limit % 0x100 + 0x100 * (limit / 0x100 % 0x100) + 0x1_0000 * ((flags + limit / 0x1_0000) % 16)
  {
    BytesOf(limit);
  }

  /** Decoding gives back every accepted segment. */
  lemma DecodeEncoded(s: Segment)
    requires Accepted(s)
    ensures Describes(Encoded(s), s)
  {
    hide And;
    Masks(s.limit);
    BytesOf(s.base);
    ShortLimitFits(s);
    LimitDecodes(ShortLimit(s), if s.limit > 65536 then 0xC0 else 0x40);
    hide ShortLimit;
  }

  lemma ShortLimitFits(s: Segment)
    requires s.limit <= 65536 || s.limit % 0x1000 == 0xFFF
    ensures ShortLimit(s) < 0x10_0000 && ShortLimit(s) / 0x1_0000 % 0x10 == ShortLimit(s) / 0x1_0000
    ensures s.limit == if s.limit > 65536 then ShortLimit(s) * 0x1000 + 0xFFF else ShortLimit(s)
  {
  }

  /** The segments that any eight bytes can describe. */
  ghost predicate Representable(s: Segment) {
    exists d: seq<Byte> :: Describes(d, s)
  }

  /** The encoder turns away just the limits that need more than 16 bits, fit in 20, and are not whole
      pages, though eight bytes without the granularity bit could describe them. */
  lemma AcceptedAreRepresentable(s: Segment)
    ensures Accepted(s) <==> Representable(s) && !(65536 < s.limit < 0x10_0000 && s.limit % 0x1000 != 0xFFF)
  {
    hide And, Describes, Encoded;
    Masks(s.limit);
    if Accepted(s) {
      DecodeEncoded(s);
      assert Describes(Encoded(s), s);
    }
    if Representable(s) {
      var d :| Describes(d, s);
      DescribedLimit(d, s);
    }
  }

  lemma DescribedLimit(d: seq<Byte>, s: Segment)
    requires Describes(d, s)
    ensures s.limit < 0x10_0000 || s.limit % 0x1000 == 0xFFF
  {
    var limit := d[0] as int + 0x100 * (d[1] as int) + 0x1_0000 * (d[6] as int % 16);
    assert limit < 0x10_0000;
  }

  /** The part of the encoder that writes the limit, below the flags that are there. */
  method EncodeLimit(target: array<Byte>, at: nat, limit: nat)
    requires at + 8 <= target.Length
    requires Or(target[at + 6], And(limit / 0x1_0000, 0x0F)) < 0x100 && And(limit, 0xFF) < 0x100
    requires And(limit / 0x100, 0xFF) < 0x100
    modifies target
    ensures target[at] == And(limit, 0xFF) && target[at + 1] == And(limit / 0x100, 0xFF)
    ensures target[at + 6] == Or(old(target[at + 6]), And(limit / 0x1_0000, 0x0F))
    ensures forall i :: 0 <= i < target.Length && i != at && i != at + 1 && i != at + 6 ==> target[i] == old(target[i])
  {
    hide And, Or;
    target[at] := And(limit, 0xFF);
    target[at + 1] := And(limit / 0x100, 0xFF);
    target[at + 6] := Or(target[at + 6], And(limit / 0x1_0000, 0x0F));
  }

  /** The part of the encoder that writes the base. */
  method EncodeBase(target: array<Byte>, at: nat, base: Uint32)
    requires at + 8 <= target.Length
    modifies target
    ensures target[at + 2] == And(base, 0xFF) && target[at + 3] == And(base / 0x100, 0xFF)
    ensures target[at + 4] == And(base / 0x1_0000, 0xFF) && target[at + 7] == And(base / 0x100_0000, 0xFF)
    ensures forall i :: 0 <= i < target.Length && !(at + 2 <= i <= at + 4) && i != at + 7 ==> target[i] == old(target[i])
  {
    hide And;
    BaseBytes(base);
    target[at + 2] := And(base, 0xFF);
    target[at + 3] := And(base / 0x100, 0xFF);
    target[at + 4] := And(base / 0x1_0000, 0xFF);
    target[at + 7] := And(base / 0x100_0000, 0xFF);
  }

  /** encodeGdtEntry, into the eight bytes from an index on; false stands for the panic. */
  method EncodeEntry(target: array<Byte>, at: nat, source: Segment) returns (ok: bool)
    requires at + 8 <= target.Length
    modifies target
    ensures ok <==> Accepted(source)
    ensures target[..] == if ok then old(target[..at]) + Encoded(source) + old(target[at + 8..]) else old(target[..])
  {
    hide And, Or, Encoded, ShortLimit;
    Masks(source.limit);
    EncodedBytes(source);
    if source.limit > 65536 && And(source.limit, 0xFFF) != 0xFFF {
      return false;
    }
    target[at + 6] := 0x40;
    var limit: nat := source.limit;
    if limit > 65536 {
      limit := limit / 0x1000;
      target[at + 6] := 0xC0;
    }
    EncodeLimit(target, at, limit);
    EncodeBase(target, at, source.base);
    target[at + 5] := source.kind;
    ok := true;
    assert target[at..at + 8] == Encoded(source);
    assert target[..at] == old(target[..at]) && target[at + 8..] == old(target[at + 8..]);
    assert target[..] == target[..at] + target[at..at + 8] + target[at + 8..];
  }

  /** The bytes as the encoder computes them. */
  lemma EncodedBytes(s: Segment)
    ensures var d := Encoded(s); var flags: Byte := if s.limit > 65536 then 0xC0 else 0x40;
      var limit: nat := if s.limit > 65536 then s.limit / 0x1000 else s.limit;
      && d[0] == And(limit, 0xFF) && d[1] == And(limit / 0x100, 0xFF)
      && d[6] == Or(flags, And(limit / 0x1_0000, 0x0F)) && d[5] == s.kind
      && d[2] == And(s.base, 0xFF) && d[3] == And(s.base / 0x100, 0xFF)
      && d[4] == And(s.base / 0x1_0000, 0xFF) && d[7] == And(s.base / 0x100_0000, 0xFF)
  {
    hide And, Or;
    LimitBytes(ShortLimit(s), if s.limit > 65536 then 0xC0 else 0x40);
    BaseBytes(s.base);
  }

  lemma LimitBytes(limit: nat, flags: Byte)
    requires flags % 16 == 0
    ensures And(limit, 0xFF) == limit % 0x100 && And(limit / 0x100, 0xFF) == limit / 0x100 % 0x100
    ensures And(limit / 0x1_0000, 0x0F) == limit / 0x1_0000 % 0x10
    ensures Or(flags, And(limit / 0x1_0000, 0x0F)) == flags + limit / 0x1_0000 % 0x10
  {
    hide And, Or;
    Masks(limit);
    Masks(limit / 0x100);
    Masks(limit / 0x1_0000);
    OrHighBits(flags / 16, limit / 0x1_0000 % 0x10);
  }

  lemma BaseBytes(base: Uint32)
    ensures And(base, 0xFF) == base % 0x100 && And(base / 0x100, 0xFF) == base / 0x100 % 0x100
    ensures And(base / 0x1_0000, 0xFF) == base / 0x1_0000 % 0x100
    ensures And(base / 0x100_0000, 0xFF) == base / 0x100_0000 % 0x100
  {
    hide And;
    Masks(base);
    Masks(base / 0x100);
    Masks(base / 0x1_0000);
    Masks(base / 0x100_0000);
  }

  /** gdt_structured_to_gdt: if no entry makes it panic, decoding the table gives back all of them. */
  method EncodeTable(gdt: array<Byte>, segments: seq<Segment>) returns (ok: bool)
    requires gdt.Length == 8 * |segments|
    modifies gdt
    ensures ok <==> forall i :: 0 <= i < |segments| ==> Accepted(segments[i])
    ensures ok ==> forall i :: 0 <= i < |segments| ==> Describes(gdt[8 * i..8 * i + 8], segments[i])
  {
    hide Accepted, Describes, Encoded;
    for i := 0 to |segments|
      invariant forall k :: 0 <= k < i ==> Accepted(segments[k]) && gdt[8 * k..8 * k + 8] == Encoded(segments[k])
    {
      ghost var before := gdt[..];
      ok := EncodeEntry(gdt, 8 * i, segments[i]);
      if !ok {
        return;
      }
      forall k | 0 <= k < i
        ensures gdt[8 * k..8 * k + 8] == Encoded(segments[k])
      {
        assert gdt[8 * k..8 * k + 8] == gdt[..][8 * k..8 * k + 8] == before[8 * k..8 * k + 8];
      }
    }
    forall i | 0 <= i < |segments|
      ensures Describes(gdt[8 * i..8 * i + 8], segments[i])
    {
      DecodeEncoded(segments[i]);
    }
    ok := true;
  }
}

/** Multi-byte arithmetic by carry threading, on the operations and on a program of instructions. */
module CpuArithmetic {
  import opened Bits
  import opened OpcodeTable
  import opened Cpu
  import opened CpuCases
  import opened CpuRun

  /** The number that little-endian bytes stand for. */
  function Val(bytes: seq<Byte>): nat {
    if bytes == [] then 0 else bytes[0] + 0x100 * Val(bytes[1..])
  }

  function Pow256(n: nat): nat {
    if n == 0 then 1 else 0x100 * Pow256(n - 1)
  }

  // ---------- one byte ----------

  /** A sum with carry in, or a difference with borrow in, is the accumulator and a carry or borrow
      out, and Z and N are those of the result. */
  lemma AdcSbcAreExact(s: Machine, v: Byte)
    ensures var t := Adc(s, v);
      t.a + Bit(t.flags.c, 0x100) == s.a + v + Bit(s.flags.c, 1) &&
      (t.flags.z <==> t.a == 0) && (t.flags.n <==> t.a >= 0x80)
    ensures var t := Sbc(s, v);
      t.a - Bit(!t.flags.c, 0x100) == s.a - v - Bit(!s.flags.c, 1) &&
      (t.flags.z <==> t.a == 0) && (t.flags.n <==> t.a >= 0x80)
  {
  }

  function AddOrSubtract(subtract: bool, s: Machine, v: Byte): Machine {
    if subtract then Sbc(s, v) else Adc(s, v)
  }

  /** What a chain of n bytes should satisfy: result, carry in and out, and the two operands. */
  predicate ChainEquation(subtract: bool, n: nat, r: int, cOut: bool, x: int, y: int, cIn: bool) {
    if subtract then r - Bit(!cOut, Pow256(n)) == x - y - Bit(!cIn, 1)
    else r + Bit(cOut, Pow256(n)) == x + y + Bit(cIn, 1)
  }

  /** Adding a more significant part to a one-byte chain. */
  lemma ChainExtends(subtract: bool, n: nat, r0: int, c0: bool, x0: int, y0: int, cIn: bool,
                     r: int, cOut: bool, x: int, y: int)
    requires ChainEquation(subtract, 1, r0, c0, x0, y0, cIn)
    requires ChainEquation(subtract, n, r, cOut, x, y, c0)
    ensures ChainEquation(subtract, n + 1, r0 + 0x100 * r, cOut, x0 + 0x100 * x, y0 + 0x100 * y, cIn)
  {
    assert Pow256(1) == 0x100 * Pow256(0);
  }

  lemma OneByteChain(subtract: bool, s: Machine, v: Byte)
    ensures var t := AddOrSubtract(subtract, s, v);
      ChainEquation(subtract, 1, t.a, t.flags.c, s.a, v, s.flags.c)
  {
    AdcSbcAreExact(s, v);
    assert Pow256(1) == 0x100 * Pow256(0);
  }

  // ---------- the emulated program: LDA x; ADC y or SBC y; STA r, for each byte ----------

  /** The three zero-page operands of one byte position. */
  datatype Triple = Triple(x: Byte, y: Byte, r: Byte)

  predicate CodeAt(s: Machine, pc: Word, subtract: bool, t: Triple)
    requires pc + 6 <= 0x1_0000
  {
    Read(s, pc) == 0xA5 && Read(s, pc + 1) == t.x &&
    Read(s, pc + 2) == (if subtract then 0xE5 else 0x65) && Read(s, pc + 3) == t.y &&
    Read(s, pc + 4) == 0x85 && Read(s, pc + 5) == t.r
  }

  /** The program lies at pc, outside the zero page and within the address space. */
  predicate ProgramAt(s: Machine, pc: int, subtract: bool, ts: seq<Triple>)
    decreases |ts|
  {
    ts == [] ||
    (0x100 <= pc && pc + 6 * |ts| < 0x1_0000 && CodeAt(s, pc, subtract, ts[0]) && ProgramAt(s, pc + 6, subtract, ts[1..]))
  }

  /** No result overwrites an operand or a result of a later byte. */
  predicate NoOverlap(ts: seq<Triple>) {
    forall i, j :: 0 <= i < j < |ts| ==> ts[i].r != ts[j].x && ts[i].r != ts[j].y && ts[i].r != ts[j].r
  }

  function Xs(ram: seq<Byte>, ts: seq<Triple>): seq<Byte>
    requires |ram| == RAM_SIZE
  {
    if ts == [] then [] else [ram[ts[0].x]] + Xs(ram, ts[1..])
  }

  function Ys(ram: seq<Byte>, ts: seq<Triple>): seq<Byte>
    requires |ram| == RAM_SIZE
  {
    if ts == [] then [] else [ram[ts[0].y]] + Ys(ram, ts[1..])
  }

  function Rs(ram: seq<Byte>, ts: seq<Triple>): seq<Byte>
    requires |ram| == RAM_SIZE
  {
    if ts == [] then [] else [ram[ts[0].r]] + Rs(ram, ts[1..])
  }

  /** The operand of a zero-page instruction, from the state in which it is next. */
  lemma ZeroPageOperand(d: Machine)
    ensures var f := FetchOperands(d, ZeroPage);
      && Address(d, ZeroPage) == Read(d, d.pc) && f.pc == Next(d.pc)
      && f.a == d.a && f.flags == d.flags && f.ram == d.ram && f.rom == d.rom
  {
  }

  lemma LdaEntry()
    ensures Table(0xA5) == Entry(LDA, ZeroPage, 2, 3) && Implemented(0xA5) && KindOf(LDA).Loading?
  {
  }

  lemma LdaStep(s: Machine)
    requires Opcode(s) == 0xA5
    ensures var t := Step(s);
      t.a == Read(s, Read(s, Next(s.pc))) && t.pc == Next(Next(s.pc)) && t.ram == s.ram && t.rom == s.rom &&
      t.flags.c == s.flags.c
  {
    hide Table, Implemented, ClassOf, KindOf, Step, Exec, ExecOperand, Decoded, Adc, Sbc, FetchOperands, Address, Next;
    LdaEntry();
    var d := Decoded(s);
    DecodedKeeps(s);
    ZeroPageOperand(d);
    StepIs(s, LDA, ZeroPage);
    ExecOfKind(d, LDA, ZeroPage);
    ExecOfClass(d, LDA, ZeroPage);
  }

  /** Sums and differences depend on the accumulator and the flags only. */
  lemma OnlyAAndFlags(s: Machine, t: Machine, v: Byte)
    requires s.a == t.a && s.flags == t.flags
    ensures Adc(s, v).a == Adc(t, v).a && Adc(s, v).flags == Adc(t, v).flags
    ensures Sbc(s, v).a == Sbc(t, v).a && Sbc(s, v).flags == Sbc(t, v).flags
  {
  }

  lemma AdcEntry()
    ensures Table(0x65) == Entry(ADC, ZeroPage, 2, 3) && Implemented(0x65) && KindOf(ADC).Adding?
  {
  }

  lemma AdcStep(s: Machine)
    requires Opcode(s) == 0x65
    ensures var t := Step(s); var u := Adc(s, Read(s, Read(s, Next(s.pc))));
      t.a == u.a && t.flags.c == u.flags.c && t.pc == Next(Next(s.pc)) && t.ram == s.ram && t.rom == s.rom
  {
    hide Table, Implemented, ClassOf, KindOf, Step, Exec, ExecOperand, Decoded, Adc, Sbc, FetchOperands, Address, Next;
    AdcEntry();
    var d := Decoded(s);
    DecodedKeeps(s);
    ZeroPageOperand(d);
    var f := FetchOperands(d, ZeroPage);
    StepIs(s, ADC, ZeroPage);
    ExecOfKind(d, ADC, ZeroPage);
    ExecOfClass(d, ADC, ZeroPage);
    OnlyAAndFlags(s, f, Read(s, Read(s, Next(s.pc))));
  }

  lemma SbcEntry()
    ensures Table(0xE5) == Entry(SBC, ZeroPage, 2, 3) && Implemented(0xE5) && KindOf(SBC).Adding?
  {
  }

  lemma SbcStep(s: Machine)
    requires Opcode(s) == 0xE5
    ensures var t := Step(s); var u := Sbc(s, Read(s, Read(s, Next(s.pc))));
      t.a == u.a && t.flags.c == u.flags.c && t.pc == Next(Next(s.pc)) && t.ram == s.ram && t.rom == s.rom
  {
    hide Table, Implemented, ClassOf, KindOf, Step, Exec, ExecOperand, Decoded, Adc, Sbc, FetchOperands, Address, Next;
    SbcEntry();
    var d := Decoded(s);
    DecodedKeeps(s);
    ZeroPageOperand(d);
    var f := FetchOperands(d, ZeroPage);
    StepIs(s, SBC, ZeroPage);
    ExecOfKind(d, SBC, ZeroPage);
    ExecOfClass(d, SBC, ZeroPage);
    OnlyAAndFlags(s, f, Read(s, Read(s, Next(s.pc))));
  }

  lemma StaEntry()
    ensures Table(0x85) == Entry(STA, ZeroPage, 2, 3) && Implemented(0x85) && KindOf(STA).Storing?
  {
  }

  lemma StaStep(s: Machine)
    requires Opcode(s) == 0x85
    ensures var t := Step(s);
      t.ram == s.ram[Read(s, Next(s.pc)) := s.a] && t.pc == Next(Next(s.pc)) && t.rom == s.rom && t.flags.c == s.flags.c
  {
    hide Table, Implemented, ClassOf, KindOf, Step, Exec, ExecOperand, Decoded, Adc, Sbc, FetchOperands, Address, Next;
    StaEntry();
    var d := Decoded(s);
    DecodedKeeps(s);
    ZeroPageOperand(d);
    StepIs(s, STA, ZeroPage);
    ExecOfKind(d, STA, ZeroPage);
    ExecOfClass(d, STA, ZeroPage);
  }

  /** One byte of the program: three steps. */
  lemma TripleSteps(s: Machine, subtract: bool, t: Triple)
    requires 0x100 <= s.pc && s.pc + 6 < 0x1_0000 && CodeAt(s, s.pc, subtract, t)
    ensures var u := Steps(s, 3);
      && u.pc == s.pc + 6 && u.rom == s.rom && u.ram == s.ram[t.r := u.ram[t.r]]
      && ChainEquation(subtract, 1, u.ram[t.r], u.flags.c, s.ram[t.x], s.ram[t.y], s.flags.c)
  {
    hide Step, Adc, Sbc;
    var s1 := Step(s);
    var s2 := Step(s1);
    assert Steps(s, 3) == Step(s2);
    LdaStep(s);
    if subtract { SbcStep(s1); } else { AdcStep(s1); }
    OneByteChain(subtract, s1, s.ram[t.y]);
    StaStep(s2);
  }

  /** A program outside the zero page is still there when the zero page has changed. */
  lemma {:induction false} ProgramStays(s: Machine, u: Machine, pc: int, subtract: bool, ts: seq<Triple>)
    requires ProgramAt(s, pc, subtract, ts) && u.rom == s.rom
    requires forall a :: 0x100 <= a < RAM_SIZE ==> u.ram[a] == s.ram[a]
    ensures ProgramAt(u, pc, subtract, ts)
    decreases |ts|
  {
    if ts != [] {
      ProgramStays(s, u, pc + 6, subtract, ts[1..]);
    }
  }

  lemma {:induction false} OperandsStay(ram: seq<Byte>, r: Byte, v: Byte, ts: seq<Triple>)
    requires |ram| == RAM_SIZE
    requires forall j :: 0 <= j < |ts| ==> r != ts[j].x && r != ts[j].y
    ensures Xs(ram[r := v], ts) == Xs(ram, ts) && Ys(ram[r := v], ts) == Ys(ram, ts)
  {
    if ts != [] {
      OperandsStay(ram, r, v, ts[1..]);
    }
  }

  lemma {:induction false} StepsSplit(s: Machine, m: nat, n: nat)
    ensures Steps(s, m + n) == Steps(Steps(s, m), n)
    decreases m
  {
    hide Step;
    if m > 0 {
      StepsSplit(Step(s), m - 1, n);
    }
  }

  lemma LowestByteFirst(ram: seq<Byte>, ts: seq<Triple>)
    requires |ram| == RAM_SIZE && ts != []
    ensures Val(Rs(ram, ts)) == ram[ts[0].r] + 0x100 * Val(Rs(ram, ts[1..]))
    ensures Val(Xs(ram, ts)) == ram[ts[0].x] + 0x100 * Val(Xs(ram, ts[1..]))
    ensures Val(Ys(ram, ts)) == ram[ts[0].y] + 0x100 * Val(Ys(ram, ts[1..]))
  {
    assert Rs(ram, ts)[1..] == Rs(ram, ts[1..]);
    assert Xs(ram, ts)[1..] == Xs(ram, ts[1..]);
    assert Ys(ram, ts)[1..] == Ys(ram, ts[1..]);
  }

  lemma EmptyProgram(s: Machine, subtract: bool, ts: seq<Triple>)
    requires ts == []
    ensures ChainEquation(subtract, |ts|, Val(Rs(s.ram, ts)), s.flags.c, Val(Xs(s.ram, ts)), Val(Ys(s.ram, ts)), s.flags.c)
  {
    assert Pow256(0) == 1;
  }

  /** Any number of bytes: after three steps a byte, the program is done, the result is the sum or
      the difference with the carry as its top, and no other cell has changed. */
  lemma {:induction false} MultiByteProgram(s: Machine, subtract: bool, ts: seq<Triple>)
    requires ProgramAt(s, s.pc, subtract, ts) && NoOverlap(ts)
    ensures var u := Steps(s, 3 * |ts|);
      && u.pc == s.pc + 6 * |ts|
      && ChainEquation(subtract, |ts|, Val(Rs(u.ram, ts)), u.flags.c,
                       Val(Xs(s.ram, ts)), Val(Ys(s.ram, ts)), s.flags.c)
      && forall a :: 0 <= a < RAM_SIZE && (forall j :: 0 <= j < |ts| ==> ts[j].r != a) ==> u.ram[a] == s.ram[a]
    decreases |ts|
  {
    hide Step, ChainEquation, CodeAt, Val, Xs, Ys, Rs;
    if ts == [] {
      EmptyProgram(s, subtract, ts);
    } else {
      var t, rest := ts[0], ts[1..];
      var u := Steps(s, 3);
      var w := Steps(u, 3 * |rest|);
      TripleSteps(s, subtract, t);
      StepsSplit(s, 3, 3 * |rest|);
      ProgramStays(s, u, u.pc, subtract, rest);
      OperandsStay(s.ram, t.r, u.ram[t.r], rest);
      MultiByteProgram(u, subtract, rest);
      assert w.ram[t.r] == u.ram[t.r];
      LowestByteFirst(w.ram, ts);
      LowestByteFirst(s.ram, ts);
      ChainExtends(subtract, |rest|, u.ram[t.r], u.flags.c, s.ram[t.x], s.ram[t.y], s.flags.c,
                   Val(Rs(w.ram, rest)), w.flags.c, Val(Xs(s.ram, rest)), Val(Ys(s.ram, rest)));
    }
  }

  // ---------- shifting a number of many bytes in memory ----------

  predicate Cells(zs: seq<Word>) {
    (forall i :: 0 <= i < |zs| ==> zs[i] < RAM_SIZE) && (forall i, j :: 0 <= i < j < |zs| ==> zs[i] != zs[j])
  }

  function Bytes(s: Machine, zs: seq<Word>): seq<Byte>
    requires Cells(zs)
  {
    if zs == [] then [] else [s.ram[zs[0]]] + Bytes(s, zs[1..])
  }

  /** ROL on each cell, least significant first. */
  function RolChain(s: Machine, zs: seq<Word>): Machine
    decreases |zs|
  {
    if zs == [] then s else RolChain(ShiftMemory(s, ROL, zs[0]), zs[1..])
  }

  /** ROR on each cell, most significant first. */
  function RorChain(s: Machine, zs: seq<Word>): Machine
    decreases |zs|
  {
    if zs == [] then s else ShiftMemory(RorChain(s, zs[1..]), ROR, zs[0])
  }

  /** ASL on the lowest cell, then ROL on the others upward. */
  function AslRolChain(s: Machine, zs: seq<Word>): Machine
    requires zs != []
  {
    RolChain(ShiftMemory(s, ASL, zs[0]), zs[1..])
  }

  /** LSR on the highest cell, then ROR on the others downward. */
  function LsrRorChain(s: Machine, zs: seq<Word>): Machine
    requires zs != []
  {
    RorChain(ShiftMemory(s, LSR, zs[|zs| - 1]), zs[..|zs| - 1])
  }

  lemma ShiftOneCell(s: Machine, op: Mnemonic, z: Word)
    requires z < RAM_SIZE
    ensures var t := ShiftMemory(s, op, z); var before: int := s.ram[z]; var after: int := t.ram[z];
      && t.ram == s.ram[z := t.ram[z]]
      && (op.ROL? ==> after + Bit(t.flags.c, 0x100) == 2 * before + Bit(s.flags.c, 1))
      && (op.ROR? ==> 2 * after + Bit(t.flags.c, 1) == before + Bit(s.flags.c, 0x100))
  {
  }

  /** ASL and LSR are ROL and ROR with a clear carry. */
  lemma AslIsRol(s: Machine, z: Word)
    ensures ShiftMemory(s, ASL, z) == ShiftMemory(WithCarry(s, false), ROL, z)
  {
    hide Store;
    assert Shift(ASL, Read(s, z), s.flags.c) == Shift(ROL, Read(s, z), false);
    CarryOverwritten(s, Shift(ROL, Read(s, z), false).1);
  }

  lemma LsrIsRor(s: Machine, z: Word)
    ensures ShiftMemory(s, LSR, z) == ShiftMemory(WithCarry(s, false), ROR, z)
  {
    hide Store;
    assert Shift(LSR, Read(s, z), s.flags.c) == Shift(ROR, Read(s, z), false);
    CarryOverwritten(s, Shift(ROR, Read(s, z), false).1);
  }

  lemma CarryOverwritten(s: Machine, c: bool)
    ensures WithCarry(WithCarry(s, false), c) == WithCarry(s, c)
  {
  }

  lemma LowestCellFirst(s: Machine, zs: seq<Word>)
    requires Cells(zs) && zs != []
    ensures Val(Bytes(s, zs)) == s.ram[zs[0]] + 0x100 * Val(Bytes(s, zs[1..]))
  {
    assert Bytes(s, zs)[1..] == Bytes(s, zs[1..]);
  }

  lemma {:induction false} BytesStay(s: Machine, t: Machine, zs: seq<Word>)
    requires Cells(zs) && forall i :: 0 <= i < |zs| ==> t.ram[zs[i]] == s.ram[zs[i]]
    ensures Bytes(t, zs) == Bytes(s, zs)
  {
    if zs != [] {
      BytesStay(s, t, zs[1..]);
    }
  }

  lemma {:induction false} ChainsKeepOtherCells(s: Machine, zs: seq<Word>, a: Word)
    requires Cells(zs) && a < RAM_SIZE && a !in zs
    ensures RolChain(s, zs).ram[a] == s.ram[a] && RorChain(s, zs).ram[a] == s.ram[a]
    decreases |zs|
  {
    hide ShiftMemory;
    if zs != [] {
      ShiftOneCell(s, ROL, zs[0]);
      ChainsKeepOtherCells(ShiftMemory(s, ROL, zs[0]), zs[1..], a);
      ShiftOneCell(RorChain(s, zs[1..]), ROR, zs[0]);
      ChainsKeepOtherCells(s, zs[1..], a);
    }
  }

  /** ROL upward over n bytes doubles the number they hold, carry in at the bottom and out at the
      top. */
  lemma {:induction false} RolChainDoubles(s: Machine, zs: seq<Word>)
    requires Cells(zs)
    ensures var t := RolChain(s, zs);
      Val(Bytes(t, zs)) + Bit(t.flags.c, Pow256(|zs|)) == 2 * Val(Bytes(s, zs)) + Bit(s.flags.c, 1)
    decreases |zs|
  {
    hide ShiftMemory;
    if zs != [] {
      var z, rest := zs[0], zs[1..];
      var u := ShiftMemory(s, ROL, z);
      var t := RolChain(u, rest);
      ShiftOneCell(s, ROL, z);
      RolChainDoubles(u, rest);
      BytesStay(s, u, rest);
      ChainsKeepOtherCells(u, rest, z);
      LowestCellFirst(s, zs);
      LowestCellFirst(t, zs);
      assert Pow256(|zs|) == 0x100 * Pow256(|rest|);
    }
  }

  /** ROR downward over n bytes halves the number they hold, carry in at the top and out at the
      bottom. */
  lemma {:induction false} RorChainHalves(s: Machine, zs: seq<Word>)
    requires Cells(zs)
    ensures var t := RorChain(s, zs);
      2 * Val(Bytes(t, zs)) + Bit(t.flags.c, 1) == Val(Bytes(s, zs)) + Bit(s.flags.c, Pow256(|zs|))
    decreases |zs|
  {
    hide ShiftMemory;
    if zs != [] {
      var z, rest := zs[0], zs[1..];
      var u := RorChain(s, rest);
      var t := ShiftMemory(u, ROR, z);
      RorChainHalves(s, rest);
      ChainsKeepOtherCells(s, rest, z);
      ShiftOneCell(u, ROR, z);
      BytesStay(u, t, rest);
      LowestCellFirst(s, zs);
      LowestCellFirst(t, zs);
      assert Pow256(|zs|) == 0x100 * Pow256(|rest|);
    }
  }

  /** Bytes are determined by their number. */
  lemma {:induction false} ValInjective(bs: seq<Byte>, cs: seq<Byte>)
    requires |bs| == |cs| && Val(bs) == Val(cs)
    ensures bs == cs
  {
    if bs != [] {
      ValInjective(bs[1..], cs[1..]);
      assert bs == [bs[0]] + bs[1..] && cs == [cs[0]] + cs[1..];
    }
  }

  lemma {:induction false} BytesAt(s: Machine, zs: seq<Word>)
    requires Cells(zs)
    ensures |Bytes(s, zs)| == |zs| && forall i :: 0 <= i < |zs| ==> Bytes(s, zs)[i] == s.ram[zs[i]]
  {
    if zs != [] {
      BytesAt(s, zs[1..]);
    }
  }

  /** Rotating n bytes up and then down again restores every cell of memory and the carry. */
  lemma RotateUpThenDown(s: Machine, zs: seq<Word>)
    requires Cells(zs)
    ensures var t := RorChain(RolChain(s, zs), zs);
      t.ram == s.ram && t.flags.c == s.flags.c
  {
    var u := RolChain(s, zs);
    var t := RorChain(u, zs);
    RolChainDoubles(s, zs);
    RorChainHalves(u, zs);
    BytesAt(s, zs);
    BytesAt(t, zs);
    ValInjective(Bytes(s, zs), Bytes(t, zs));
    hide RolChain, RorChain, Bytes;
    forall a: Word | a < RAM_SIZE
      ensures t.ram[a] == s.ram[a]
    {
      if a in zs {
        var i :| 0 <= i < |zs| && zs[i] == a;
        assert Bytes(t, zs)[i] == Bytes(s, zs)[i];
      } else {
        ChainsKeepOtherCells(s, zs, a);
        ChainsKeepOtherCells(u, zs, a);
      }
    }
  }

  /** ASL and then ROL upward double an n-byte number whatever the carry was; the top bit goes to
      the carry. */
  lemma AslRolDoubles(s: Machine, zs: seq<Word>)
    requires Cells(zs) && zs != []
    ensures var t := AslRolChain(s, zs);
      Val(Bytes(t, zs)) + Bit(t.flags.c, Pow256(|zs|)) == 2 * Val(Bytes(s, zs))
  {
    var cleared := WithCarry(s, false);
    hide ShiftMemory;
    AslIsRol(s, zs[0]);
    RolChainDoubles(cleared, zs);
    BytesStay(s, cleared, zs);
  }

  /** LSR and then ROR downward halve an n-byte number whatever the carry was; the lowest bit goes
      to the carry. */
  lemma LsrRorHalves(s: Machine, zs: seq<Word>)
    requires Cells(zs) && zs != []
    ensures var t := LsrRorChain(s, zs);
      2 * Val(Bytes(t, zs)) + Bit(t.flags.c, 1) == Val(Bytes(s, zs))
  {
    var cleared := WithCarry(s, false);
    var n := |zs| - 1;
    hide ShiftMemory;
    LsrIsRor(s, zs[n]);
    RorChainSplits(cleared, zs[..n], [zs[n]]);
    assert zs[..n] + [zs[n]] == zs;
    assert RorChain(cleared, [zs[n]]) == ShiftMemory(cleared, ROR, zs[n]);
    RorChainHalves(cleared, zs);
    BytesStay(s, cleared, zs);
  }

  lemma {:induction false} RorChainSplits(s: Machine, low: seq<Word>, high: seq<Word>)
    ensures RorChain(s, low + high) == RorChain(RorChain(s, high), low)
  {
    hide ShiftMemory;
    if low == [] {
      assert low + high == high;
    } else {
      assert (low + high)[1..] == low[1..] + high;
      RorChainSplits(s, low[1..], high);
    }
  }
}

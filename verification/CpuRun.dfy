/** Whole runs of the emulated processor: progress of a step, termination and exit of emu_run. */
module CpuRun {
  import opened Bits
  import opened OpcodeTable
  import opened Cpu

  /** Power-on: zeroed RAM, the ROM image, 8 cycles gone, interrupts disabled, the program counter
      from the reset vector. */
  function Reset(image: seq<Byte>): Machine
    requires |image| == ROM_SIZE
  {
    MachineState(0, 0, 0, FlagsOf(0).(i := true), 0xFD, WordOf(image[0x7FFC], image[0x7FFD]),
                 seq(RAM_SIZE, _ => 0), image, 8, false, 0, 0, [])
  }

  /** Power-on by the memory map: RAM is zeroed, the image fills the upper half of the address space, and the first
      instruction is where the vector at 0xFFFC points. */
  lemma ResetVector(image: seq<Byte>)
    requires |image| == ROM_SIZE
    ensures var s := Reset(image);
      && s.pc == Read16(s, 0xFFFC, 0xFFFD) && s.pc == image[0x7FFC] as int + 256 * image[0x7FFD] as int
      && s.a == s.x == s.y == 0 && s.sp == 0xFD && s.cycles == 8 && !s.halted
      && s.flags.i && !s.flags.c && !s.flags.z && !s.flags.d && !s.flags.v && !s.flags.n
      && (forall at: Word :: at < 0x8000 ==> Read(s, at) == 0) && forall k :: 0 <= k < 0x8000 ==> Read(s, 0x8000 + k) == image[k]
  {
  }

  predicate SuitsClass(e: Entry) {
    && (match ClassOf(e.mnemonic)
        case BranchClass => e.mode.Relative?
        case ImpliedClass => OperandBytes(e.mode) == 0
        case NoClass => false
        case _ => true)
    && (e.mode.IndirectX? || e.mode.IndirectY? ==> e.mnemonic.STA?)
    && (e.mode.AbsIndirect? ==> e.mnemonic.JMP?)
    && (e.mnemonic.JSR? || e.mnemonic.JMP? ==> OperandBytes(e.mode) == 2)
  }

  /** Every opcode with a case is of a class that Exec knows, in a mode that suits the class; only STA and JMP take a
      pointer. */
  lemma ImplementedSuits(opcode: Byte)
    requires Implemented(opcode)
    ensures SuitsClass(Table(opcode))
  {
    hide SuitsClass, Table, Implemented;
    if opcode < 0x10 { ImplementedSuits00(opcode); }
    else if opcode < 0x20 { ImplementedSuits10(opcode); }
    else if opcode < 0x30 { ImplementedSuits20(opcode); }
    else if opcode < 0x40 { ImplementedSuits30(opcode); }
    else if opcode < 0x50 { ImplementedSuits40(opcode); }
    else if opcode < 0x60 { ImplementedSuits50(opcode); }
    else if opcode < 0x70 { ImplementedSuits60(opcode); }
    else if opcode < 0x80 { ImplementedSuits70(opcode); }
    else if opcode < 0x90 { ImplementedSuits80(opcode); }
    else if opcode < 0xA0 { ImplementedSuits90(opcode); }
    else if opcode < 0xA8 { ImplementedSuitsA0(opcode); }
    else if opcode < 0xB0 { ImplementedSuitsA8(opcode); }
    else if opcode < 0xB8 { ImplementedSuitsB0(opcode); }
    else if opcode < 0xC0 { ImplementedSuitsB8(opcode); }
    else if opcode < 0xC8 { ImplementedSuitsC0(opcode); }
    else if opcode < 0xD0 { ImplementedSuitsC8(opcode); }
    else if opcode < 0xE0 { ImplementedSuitsD0(opcode); }
    else if opcode < 0xE8 { ImplementedSuitsE0(opcode); }
    else if opcode < 0xF0 { ImplementedSuitsE8(opcode); }
    else if opcode < 0xF8 { ImplementedSuitsF0(opcode); }
    else { ImplementedSuitsF8(opcode); }
  }

  lemma ImplementedSuits00(opcode: Byte)
    requires Implemented(opcode) && opcode < 0x10
    ensures SuitsClass(Table(opcode))
  {
  }

  lemma ImplementedSuits10(opcode: Byte)
    requires Implemented(opcode) && 0x10 <= opcode < 0x20
    ensures SuitsClass(Table(opcode))
  {
  }

  lemma ImplementedSuits20(opcode: Byte)
    requires Implemented(opcode) && 0x20 <= opcode < 0x30
    ensures SuitsClass(Table(opcode))
  {
  }

  lemma ImplementedSuits30(opcode: Byte)
    requires Implemented(opcode) && 0x30 <= opcode < 0x40
    ensures SuitsClass(Table(opcode))
  {
  }

  lemma ImplementedSuits40(opcode: Byte)
    requires Implemented(opcode) && 0x40 <= opcode < 0x50
    ensures SuitsClass(Table(opcode))
  {
  }

  lemma ImplementedSuits50(opcode: Byte)
    requires Implemented(opcode) && 0x50 <= opcode < 0x60
    ensures SuitsClass(Table(opcode))
  {
  }

  lemma ImplementedSuits60(opcode: Byte)
    requires Implemented(opcode) && 0x60 <= opcode < 0x70
    ensures SuitsClass(Table(opcode))
  {
  }

  lemma ImplementedSuits70(opcode: Byte)
    requires Implemented(opcode) && 0x70 <= opcode < 0x80
    ensures SuitsClass(Table(opcode))
  {
  }

  lemma ImplementedSuits80(opcode: Byte)
    requires Implemented(opcode) && 0x80 <= opcode < 0x90
    ensures SuitsClass(Table(opcode))
  {
  }

  lemma ImplementedSuits90(opcode: Byte)
    requires Implemented(opcode) && 0x90 <= opcode < 0xA0
    ensures SuitsClass(Table(opcode))
  {
  }

  lemma ImplementedSuitsA0(opcode: Byte)
    requires Implemented(opcode) && 0xA0 <= opcode < 0xA8
    ensures SuitsClass(Table(opcode))
  {
  }

  lemma ImplementedSuitsA8(opcode: Byte)
    requires Implemented(opcode) && 0xA8 <= opcode < 0xB0
    ensures SuitsClass(Table(opcode))
  {
  }

  lemma ImplementedSuitsB0(opcode: Byte)
    requires Implemented(opcode) && 0xB0 <= opcode < 0xB8
    ensures SuitsClass(Table(opcode))
  {
  }

  lemma ImplementedSuitsB8(opcode: Byte)
    requires Implemented(opcode) && 0xB8 <= opcode < 0xC0
    ensures SuitsClass(Table(opcode))
  {
  }

  lemma ImplementedSuitsC0(opcode: Byte)
    requires Implemented(opcode) && 0xC0 <= opcode < 0xC8
    ensures SuitsClass(Table(opcode))
  {
    InRowC(opcode);
    hide Table;
  }

  lemma ImplementedSuitsC8(opcode: Byte)
    requires Implemented(opcode) && 0xC8 <= opcode < 0xD0
    ensures SuitsClass(Table(opcode))
  {
    InRowC(opcode);
    hide Table;
  }

  lemma ImplementedSuitsD0(opcode: Byte)
    requires Implemented(opcode) && 0xD0 <= opcode < 0xE0
    ensures SuitsClass(Table(opcode))
  {
  }

  lemma ImplementedSuitsE0(opcode: Byte)
    requires Implemented(opcode) && 0xE0 <= opcode < 0xE8
    ensures SuitsClass(Table(opcode))
  {
    InRowE(opcode);
    hide Table;
  }

  lemma ImplementedSuitsE8(opcode: Byte)
    requires Implemented(opcode) && 0xE8 <= opcode < 0xF0
    ensures SuitsClass(Table(opcode))
  {
    InRowE(opcode);
    hide Table;
  }

  lemma ImplementedSuitsF0(opcode: Byte)
    requires Implemented(opcode) && 0xF0 <= opcode < 0xF8
    ensures SuitsClass(Table(opcode))
  {
  }

  lemma ImplementedSuitsF8(opcode: Byte)
    requires Implemented(opcode) && 0xF8 <= opcode
    ensures SuitsClass(Table(opcode))
  {
  }

  // ---------- termination ----------

  const CYCLE_LIMIT := 1000

  predicate Running(s: Machine) {
    !s.halted && s.cycles < CYCLE_LIMIT
  }

  /** How far the program counter is, going up and around, from 0x800, which is not mapped. */
  function DistanceToUnmapped(pc: Word): nat {
    if pc <= 0x800 then 0x800 - pc else 0x1_0800 - pc
  }

  /** A step costs up to 8 cycles. A step that costs none is a KIL: it moves on by one byte, and
      it is not at 0x800, where an unmapped 0 reads as BRK. */
  lemma StepProgress(s: Machine)
    ensures s.cycles <= Step(s).cycles <= s.cycles + 8
    ensures Step(s).cycles == s.cycles ==> Step(s).pc == Next(s.pc) && s.pc != 0x800
  {
    var e := Table(Opcode(s));
    TableIsRegular(Opcode(s));
    assert e.mnemonic.KIL? ==> !Implemented(Opcode(s)) by {
      if Implemented(Opcode(s)) {
        ImplementedSuits(Opcode(s));
      }
    }
    assert Implemented(Opcode(s)) ==> (ClassOf(e.mnemonic).BranchClass? ==> e.mode.Relative?) by {
      if Implemented(Opcode(s)) {
        ImplementedSuits(Opcode(s));
      }
    }
    assert Table(0).cycles == 7;
    hide Table, Implemented, KindOf, ClassOf, Exec;
  }

  /** emu_run ends from every state: the cycles left decrease, or the distance to 0x800 does. */
  function EmuRun(s: Machine): Machine
    decreases if s.cycles < CYCLE_LIMIT then CYCLE_LIMIT - s.cycles else 0, DistanceToUnmapped(s.pc)
  {
    if Running(s) then
      StepProgress(s);
      EmuRun(Step(s))
    else s
  }

  /** A run exits when the processor has halted or with 1000 to 1007 cycles. */
  lemma {:induction false} RunExits(s: Machine)
    ensures var t := EmuRun(s);
      t.halted || 1000 <= t.cycles <= (if s.cycles < 1000 then 1007 else s.cycles)
    decreases if s.cycles < CYCLE_LIMIT then CYCLE_LIMIT - s.cycles else 0, DistanceToUnmapped(s.pc)
  {
    if Running(s) {
      StepProgress(s);
      RunExits(Step(s));
    }
  }

  /** The states in which a run starts an instruction, in order. */
  function Visited(s: Machine): seq<Machine>
    decreases if s.cycles < CYCLE_LIMIT then CYCLE_LIMIT - s.cycles else 0, DistanceToUnmapped(s.pc)
  {
    if Running(s) then
      StepProgress(s);
      [s] + Visited(Step(s))
    else []
  }

  function Steps(s: Machine, n: nat): Machine
    decreases n
  {
    if n == 0 then s else Steps(Step(s), n - 1)
  }

  /** A run is nothing but its steps, each of them taken while running. */
  lemma {:induction false} RunIsItsSteps(s: Machine)
    ensures EmuRun(s) == Steps(s, |Visited(s)|)
    ensures forall i :: 0 <= i < |Visited(s)| ==>
      Visited(s)[i] == Steps(s, i) && !Steps(s, i).halted && Steps(s, i).cycles < 1000
    decreases if s.cycles < CYCLE_LIMIT then CYCLE_LIMIT - s.cycles else 0, DistanceToUnmapped(s.pc)
  {
    hide Step;
    if Running(s) {
      StepProgress(s);
      RunIsItsSteps(Step(s));
      forall i | 0 < i < |Visited(s)|
        ensures Visited(s)[i] == Steps(s, i) && !Steps(s, i).halted && Steps(s, i).cycles < 1000
      {
        assert Visited(s)[i] == Visited(Step(s))[i - 1];
      }
    }
  }

  // ---------- what one step does with the program counter and the log ----------

  function Advance(pc: Word, n: nat): Word
    requires n <= 3
  {
    Wrap16(pc + n)
  }

  predicate IsStraightLine(op: Mnemonic) {
    ClassOf(op).OperandClass? || ClassOf(op).ImpliedClass?
  }

  lemma ExecMovesPastOperands(s: Machine, op: Mnemonic, mode: Mode)
    requires IsStraightLine(op)
    requires ClassOf(op).ImpliedClass? ==> OperandBytes(mode) == 0
    ensures DataOnly(FetchOperands(s, mode), Exec(s, op, mode))
  {
  }

  lemma OperandsFetched(s: Machine, mode: Mode)
    requires s.loggedOpcode != 0 && s.operands == []
    ensures var t := FetchOperands(s, mode); var n := OperandBytes(mode);
      && t.pc == Advance(s.pc, n) && t.loggedOpcode == s.loggedOpcode && |t.operands| == n
      && forall i :: 0 <= i < n ==> t.operands[i] == Read(s, Advance(s.pc, i))
  {
  }

  lemma ExecStraightLine(s: Machine, op: Mnemonic, mode: Mode)
    requires IsStraightLine(op)
    requires ClassOf(op).ImpliedClass? ==> OperandBytes(mode) == 0
    requires s.loggedOpcode != 0 && s.operands == []
    ensures var t := Exec(s, op, mode); var n := OperandBytes(mode);
      && t.pc == Advance(s.pc, n) && t.cycles == s.cycles && t.loggedOpcode == s.loggedOpcode && |t.operands| == n
      && forall i :: 0 <= i < n ==> t.operands[i] == Read(s, Advance(s.pc, i))
  {
    ExecMovesPastOperands(s, op, mode);
    OperandsFetched(s, mode);
  }

  lemma DecodedFacts(s: Machine)
    ensures var d := Decoded(s);
      d.pc == Next(s.pc) && d.cycles == s.cycles && d.ram == s.ram && d.rom == s.rom &&
      (Opcode(s) != 0 ==> d.loggedOpcode == Opcode(s) && d.operands == [])
  {
  }

  lemma NotBreak(opcode: Byte)
    requires IsStraightLine(Table(opcode).mnemonic)
    ensures opcode != 0
  {
    assert Table(0).mnemonic.BRK?;
  }

  /** Away from jumps and branches a step moves past exactly the bytes that the table counts, costs
      exactly the cycles of the table, and logs exactly the opcode and the operand bytes. */
  lemma StraightLineStep(s: Machine)
    requires Implemented(Opcode(s)) && IsStraightLine(Table(Opcode(s)).mnemonic)
    ensures var e := Table(Opcode(s)); var t := Step(s);
      && 1 <= e.numBytes <= 3
      && t.pc == Advance(s.pc, e.numBytes)
      && t.cycles == s.cycles + e.cycles
      && t.loggedOpcode == Opcode(s)
      && |t.operands| == e.numBytes - 1
      && forall i :: 0 <= i < |t.operands| ==> t.operands[i] == Read(s, Advance(s.pc, i + 1))
  {
    hide Table, Implemented, KindOf, ClassOf, Exec, Read, Advance, OperandBytes, IsStraightLine;
    DecodedFacts(s);
    NotBreak(Opcode(s));
    hide Decoded, Opcode;
    StraightLineEntry(Opcode(s));
    var e := Table(Opcode(s));
    ExecStraightLine(Decoded(s), e.mnemonic, e.mode);
    AfterOpcode(s, OperandBytes(e.mode));
  }

  /** The lengths of the table are those of the addressing modes. */
  lemma StraightLineEntry(opcode: Byte)
    requires Implemented(opcode) && IsStraightLine(Table(opcode).mnemonic)
    ensures var e := Table(opcode);
      e.numBytes == 1 + OperandBytes(e.mode) && (ClassOf(e.mnemonic).ImpliedClass? ==> OperandBytes(e.mode) == 0)
  {
    hide Table, Implemented, OperandBytes;
    ImplementedSuits(opcode);
    TableIsRegular(opcode);
    assert Table(opcode).mnemonic.TAS? ==> !IsStraightLine(Table(opcode).mnemonic);
  }

  lemma AfterOpcode(s: Machine, n: nat)
    requires n <= 2
    ensures Advance(Next(s.pc), n) == Advance(s.pc, n + 1)
    ensures forall i :: 0 <= i < n ==>
      Read(Decoded(s), Advance(Next(s.pc), i)) == Read(s, Advance(s.pc, i + 1))
  {
    DecodedFacts(s);
    hide Decoded;
  }

  /** The log entry's buffer of two operand bytes is never overrun. */
  lemma AtMostTwoOperandsLogged(s: Machine)
    ensures |Step(s).operands| <= 2
  {
  }
}

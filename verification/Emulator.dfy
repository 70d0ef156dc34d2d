/** The emulator object: struct emulator is one variable, updated by the switch of emulate_CPU.
    Every step of it is the Step of the table-driven machine of module Cpu. */
module Emulator {
  import opened Bits
  import opened OpcodeTable
  import opened Cpu
  import opened CpuCases
  import opened CpuRun
  import opened TracedRun
  import TraceLog

  predicate HasAddress(mode: Mode) {
    mode.ZeroPage? || mode.ZeroPageX? || mode.Absolute? || mode.AbsoluteX? || mode.IndirectX? || mode.IndirectY?
  }

  predicate IsLoads(opcode: Byte) {
    opcode == 0xA9 || opcode == 0xA5 || opcode == 0xB5 || opcode == 0xAD || opcode == 0xBD || opcode == 0xA2 ||
    opcode == 0xA0
  }

  predicate IsStores(opcode: Byte) {
    opcode == 0x85 || opcode == 0x95 || opcode == 0x8D || opcode == 0x9D || opcode == 0x91 || opcode == 0x81 ||
    opcode == 0x86 || opcode == 0x8E || opcode == 0x84 || opcode == 0x8C
  }

  predicate IsBranches(opcode: Byte) {
    opcode == 0xD0 || opcode == 0xF0 || opcode == 0x10 || opcode == 0x30 || opcode == 0x50 || opcode == 0x70 ||
    opcode == 0x90 || opcode == 0xB0
  }

  predicate IsStackOps(opcode: Byte) {
    opcode == 0x48 || opcode == 0x68 || opcode == 0x08 || opcode == 0x28
  }

  predicate IsJumps(opcode: Byte) {
    opcode == 0x20 || opcode == 0x60 || opcode == 0x4C || opcode == 0x6C
  }

  predicate IsInterrupts(opcode: Byte) {
    opcode == 0x00 || opcode == 0x40
  }

  predicate IsCounts(opcode: Byte) {
    opcode == 0xE8 || opcode == 0xCA || opcode == 0xC8 || opcode == 0x88
  }

  predicate IsTransfers(opcode: Byte) {
    opcode == 0xAA || opcode == 0xA8 || opcode == 0x8A || opcode == 0x98 || opcode == 0x9A || opcode == 0xBA
  }

  predicate IsCarryOps(opcode: Byte) {
    opcode == 0x38 || opcode == 0x18 || opcode == 0xB8
  }

  predicate IsModeOps(opcode: Byte) {
    opcode == 0x78 || opcode == 0x58 || opcode == 0xF8 || opcode == 0x02 || opcode == 0xEA
  }

  predicate IsAccumulatorShifts(opcode: Byte) {
    opcode == 0x0A || opcode == 0x4A || opcode == 0x2A
  }

  predicate IsMemoryShifts(opcode: Byte) {
    opcode == 0x06 || opcode == 0x0E || opcode == 0x46 || opcode == 0x4E || opcode == 0x26 || opcode == 0x2E ||
    opcode == 0x66 || opcode == 0x6E
  }

  predicate IsLogicOps(opcode: Byte) {
    opcode == 0x09 || opcode == 0x05 || opcode == 0x0D || opcode == 0x49 || opcode == 0x45 || opcode == 0x4D ||
    opcode == 0x29 || opcode == 0x25 || opcode == 0x2D
  }

  predicate IsIncrementsOfMemory(opcode: Byte) {
    opcode == 0xE6 || opcode == 0xEE || opcode == 0xFE || opcode == 0xC6 || opcode == 0xCE
  }

  predicate IsAddsAndSubtracts(opcode: Byte) {
    opcode == 0x69 || opcode == 0x75 || opcode == 0x65 || opcode == 0x6D || opcode == 0xE9 || opcode == 0xE5 ||
    opcode == 0xED
  }

  predicate IsCompares(opcode: Byte) {
    opcode == 0xC9 || opcode == 0xC5 || opcode == 0xCD || opcode == 0xE0 || opcode == 0xE4 || opcode == 0xEC ||
    opcode == 0xC0 || opcode == 0xC4 || opcode == 0xCC || opcode == 0x24 || opcode == 0x2C
  }

  predicate LoadsAgree(opcode: Byte, op: Mnemonic, mode: Mode) {
    (opcode == 0xA9 ==> op.LDA? && mode.Immediate?) &&
    (opcode == 0xA5 ==> op.LDA? && mode.ZeroPage?) &&
    (opcode == 0xB5 ==> op.LDA? && mode.ZeroPageX?) &&
    (opcode == 0xAD ==> op.LDA? && mode.Absolute?) &&
    (opcode == 0xBD ==> op.LDA? && mode.AbsoluteX?) &&
    (opcode == 0xA2 ==> op.LDX? && mode.Immediate?) &&
    (opcode == 0xA0 ==> op.LDY? && mode.Immediate?)
  }

  predicate StoresAgree(opcode: Byte, op: Mnemonic, mode: Mode) {
    (opcode == 0x85 ==> op.STA? && mode.ZeroPage?) &&
    (opcode == 0x95 ==> op.STA? && mode.ZeroPageX?) &&
    (opcode == 0x8D ==> op.STA? && mode.Absolute?) &&
    (opcode == 0x9D ==> op.STA? && mode.AbsoluteX?) &&
    (opcode == 0x91 ==> op.STA? && mode.IndirectY?) &&
    (opcode == 0x81 ==> op.STA? && mode.IndirectX?) &&
    (opcode == 0x86 ==> op.STX? && mode.ZeroPage?) &&
    (opcode == 0x8E ==> op.STX? && mode.Absolute?) &&
    (opcode == 0x84 ==> op.STY? && mode.ZeroPage?) &&
    (opcode == 0x8C ==> op.STY? && mode.Absolute?)
  }

  predicate MemoryShiftsAgree(opcode: Byte, op: Mnemonic, mode: Mode) {
    (opcode == 0x06 ==> op.ASL? && mode.ZeroPage?) &&
    (opcode == 0x0E ==> op.ASL? && mode.Absolute?) &&
    (opcode == 0x46 ==> op.LSR? && mode.ZeroPage?) &&
    (opcode == 0x4E ==> op.LSR? && mode.Absolute?) &&
    (opcode == 0x26 ==> op.ROL? && mode.ZeroPage?) &&
    (opcode == 0x2E ==> op.ROL? && mode.Absolute?) &&
    (opcode == 0x66 ==> op.ROR? && mode.ZeroPage?) &&
    (opcode == 0x6E ==> op.ROR? && mode.Absolute?)
  }

  predicate AccumulatorShiftsAgree(opcode: Byte, op: Mnemonic, mode: Mode) {
    (opcode == 0x0A ==> op.ASL? && mode.Unknown?) &&
    (opcode == 0x4A ==> op.LSR? && mode.Accumulator?) &&
    (opcode == 0x2A ==> op.ROL? && mode.Accumulator?)
  }

  predicate LogicOpsAgree(opcode: Byte, op: Mnemonic, mode: Mode) {
    (opcode == 0x09 ==> op.ORA? && mode.Immediate?) &&
    (opcode == 0x05 ==> op.ORA? && mode.ZeroPage?) &&
    (opcode == 0x0D ==> op.ORA? && mode.Absolute?) &&
    (opcode == 0x49 ==> op.EOR? && mode.Immediate?) &&
    (opcode == 0x45 ==> op.EOR? && mode.ZeroPage?) &&
    (opcode == 0x4D ==> op.EOR? && mode.Absolute?) &&
    (opcode == 0x29 ==> op.AND? && mode.Immediate?) &&
    (opcode == 0x25 ==> op.AND? && mode.ZeroPage?) &&
    (opcode == 0x2D ==> op.AND? && mode.Absolute?)
  }

  predicate IncrementsOfMemoryAgree(opcode: Byte, op: Mnemonic, mode: Mode) {
    (opcode == 0xE6 ==> op.INC? && mode.ZeroPage?) &&
    (opcode == 0xEE ==> op.INC? && mode.Absolute?) &&
    (opcode == 0xFE ==> op.INC? && mode.AbsoluteX?) &&
    (opcode == 0xC6 ==> op.DEC? && mode.ZeroPage?) &&
    (opcode == 0xCE ==> op.DEC? && mode.Absolute?)
  }

  predicate AddsAndSubtractsAgree(opcode: Byte, op: Mnemonic, mode: Mode) {
    (opcode == 0x69 ==> op.ADC? && mode.Immediate?) &&
    (opcode == 0x75 ==> op.ADC? && mode.ZeroPageX?) &&
    (opcode == 0x65 ==> op.ADC? && mode.ZeroPage?) &&
    (opcode == 0x6D ==> op.ADC? && mode.Absolute?) &&
    (opcode == 0xE9 ==> op.SBC? && mode.Immediate?) &&
    (opcode == 0xE5 ==> op.SBC? && mode.ZeroPage?) &&
    (opcode == 0xED ==> op.SBC? && mode.Absolute?)
  }

  predicate ComparesAgree(opcode: Byte, op: Mnemonic, mode: Mode) {
    (opcode == 0xC9 ==> op.CMP? && mode.Immediate?) &&
    (opcode == 0xC5 ==> op.CMP? && mode.ZeroPage?) &&
    (opcode == 0xCD ==> op.CMP? && mode.Absolute?) &&
    (opcode == 0xE0 ==> op.CPX? && mode.Immediate?) &&
    (opcode == 0xE4 ==> op.CPX? && mode.ZeroPage?) &&
    (opcode == 0xEC ==> op.CPX? && mode.Absolute?) &&
    (opcode == 0xC0 ==> op.CPY? && mode.Immediate?) &&
    (opcode == 0xC4 ==> op.CPY? && mode.ZeroPage?) &&
    (opcode == 0xCC ==> op.CPY? && mode.Absolute?) &&
    (opcode == 0x24 ==> op.BIT? && mode.ZeroPage?) &&
    (opcode == 0x2C ==> op.BIT? && mode.Absolute?)
  }

  predicate StackOpsAgree(opcode: Byte, op: Mnemonic) {
    (opcode == 0x48 ==> op.PHA?) &&
    (opcode == 0x68 ==> op.PLA?) &&
    (opcode == 0x08 ==> op.PHP?) &&
    (opcode == 0x28 ==> op.PLP?)
  }

  predicate CountsAgree(opcode: Byte, op: Mnemonic) {
    (opcode == 0xE8 ==> op.INX?) &&
    (opcode == 0xCA ==> op.DEX?) &&
    (opcode == 0xC8 ==> op.INY?) &&
    (opcode == 0x88 ==> op.DEY?)
  }

  predicate TransfersAgree(opcode: Byte, op: Mnemonic) {
    (opcode == 0xAA ==> op.TAX?) &&
    (opcode == 0xA8 ==> op.TAY?) &&
    (opcode == 0x8A ==> op.TXA?) &&
    (opcode == 0x98 ==> op.TYA?) &&
    (opcode == 0x9A ==> op.TXS?) &&
    (opcode == 0xBA ==> op.TSX?)
  }

  predicate CarryOpsAgree(opcode: Byte, op: Mnemonic) {
    (opcode == 0x38 ==> op.SEC?) &&
    (opcode == 0x18 ==> op.CLC?) &&
    (opcode == 0xB8 ==> op.CLV?)
  }

  predicate ModeOpsAgree(opcode: Byte, op: Mnemonic) {
    (opcode == 0x78 ==> op.SEI?) &&
    (opcode == 0x58 ==> op.CLI?) &&
    (opcode == 0xF8 ==> op.SED?) &&
    (opcode == 0x02 ==> op.STP?) &&
    (opcode == 0xEA ==> op.NOP?)
  }

  predicate BranchesAgree(opcode: Byte, op: Mnemonic) {
    (opcode == 0xD0 ==> op.BNE?) &&
    (opcode == 0xF0 ==> op.BEQ?) &&
    (opcode == 0x10 ==> op.BPL?) &&
    (opcode == 0x30 ==> op.BMI?) &&
    (opcode == 0x50 ==> op.BVC?) &&
    (opcode == 0x70 ==> op.BVS?) &&
    (opcode == 0x90 ==> op.BCC?) &&
    (opcode == 0xB0 ==> op.BCS?)
  }

  predicate JumpsAgree(opcode: Byte, op: Mnemonic, mode: Mode) {
    (opcode == 0x20 ==> op.JSR? && mode.Absolute?) &&
    (opcode == 0x60 ==> op.RTS? && mode.Implied?) &&
    (opcode == 0x4C ==> op.JMP? && mode.Absolute?) &&
    (opcode == 0x6C ==> op.JMP? && mode.AbsIndirect?)
  }

  predicate InterruptsAgree(opcode: Byte, op: Mnemonic) {
    (opcode == 0x00 ==> op.BRK?) && (opcode == 0x40 ==> op.RTI?)
  }

  predicate OperandCasesAgree(opcode: Byte, op: Mnemonic, mode: Mode) {
    LoadsAgree(opcode, op, mode) &&
    StoresAgree(opcode, op, mode) &&
    MemoryShiftsAgree(opcode, op, mode) &&
    AccumulatorShiftsAgree(opcode, op, mode) &&
    LogicOpsAgree(opcode, op, mode) &&
    IncrementsOfMemoryAgree(opcode, op, mode) &&
    AddsAndSubtractsAgree(opcode, op, mode) &&
    ComparesAgree(opcode, op, mode)
  }

  predicate ImpliedCasesAgree(opcode: Byte, op: Mnemonic) {
    StackOpsAgree(opcode, op) &&
    CountsAgree(opcode, op) &&
    TransfersAgree(opcode, op) &&
    CarryOpsAgree(opcode, op) &&
    ModeOpsAgree(opcode, op)
  }

  predicate IsControlCase(opcode: Byte) {
    IsBranches(opcode) || IsJumps(opcode) || IsInterrupts(opcode)
  }

  predicate ControlCasesAgree(opcode: Byte, op: Mnemonic, mode: Mode) {
    BranchesAgree(opcode, op) && JumpsAgree(opcode, op, mode) && InterruptsAgree(opcode, op)
  }

  predicate CasesAgree(opcode: Byte, op: Mnemonic, mode: Mode) {
    OperandCasesAgree(opcode, op, mode) && ImpliedCasesAgree(opcode, op) &&
    ControlCasesAgree(opcode, op, mode)
  }

  /** The switch agrees with the table: each case carries out the mnemonic, in the addressing mode,
      that the opcode has in the table. */
  lemma SwitchAgreesWithTable(opcode: Byte)
    ensures CasesAgree(opcode, Table(opcode).mnemonic, Table(opcode).mode)
  {
    OperandCasesInTable(opcode);
    ImpliedCasesInTable(opcode);
    ControlCasesInTable(opcode);
    hide Table, OperandCasesAgree, ImpliedCasesAgree, ControlCasesAgree;
  }

  lemma OperandCasesInTable(opcode: Byte)
    ensures OperandCasesAgree(opcode, Table(opcode).mnemonic, Table(opcode).mode)
  {
  }

  lemma ImpliedCasesInTable(opcode: Byte)
    ensures ImpliedCasesAgree(opcode, Table(opcode).mnemonic)
  {
  }

  lemma ControlCasesInTable(opcode: Byte)
    ensures ControlCasesAgree(opcode, Table(opcode).mnemonic, Table(opcode).mode)
  {
  }

  predicate IsOperandCase(opcode: Byte) {
    IsLoads(opcode) || IsStores(opcode) || IsMemoryShifts(opcode) ||
    IsAccumulatorShifts(opcode) || IsLogicOps(opcode) || IsIncrementsOfMemory(opcode) ||
    IsAddsAndSubtracts(opcode) || IsCompares(opcode)
  }

  predicate IsImpliedCase(opcode: Byte) {
    IsStackOps(opcode) || IsCounts(opcode) || IsTransfers(opcode) ||
    IsCarryOps(opcode) || IsModeOps(opcode)
  }

  /** The groups are exactly the cases of the switch. */
  lemma CasesCoverSwitch(opcode: Byte)
    ensures Implemented(opcode) <==>
      IsOperandCase(opcode) || IsImpliedCase(opcode) || IsControlCase(opcode)
  {
  }

  // ---------- the kind of operation of each group of cases ----------

  lemma LoadsKind(opcode: Byte, op: Mnemonic, mode: Mode)
    requires IsLoads(opcode) && LoadsAgree(opcode, op, mode)
    ensures KindOf(op).Loading?
  {
  }

  lemma StoresKind(opcode: Byte, op: Mnemonic, mode: Mode)
    requires IsStores(opcode) && StoresAgree(opcode, op, mode)
    ensures KindOf(op).Storing?
  {
  }

  lemma MemoryShiftsKind(opcode: Byte, op: Mnemonic, mode: Mode)
    requires IsMemoryShifts(opcode) && MemoryShiftsAgree(opcode, op, mode)
    ensures KindOf(op).Shifting? && OperandBytes(mode) != 0
  {
  }

  lemma AccumulatorShiftsKind(opcode: Byte, op: Mnemonic, mode: Mode)
    requires IsAccumulatorShifts(opcode) && AccumulatorShiftsAgree(opcode, op, mode)
    ensures KindOf(op).Shifting? && OperandBytes(mode) == 0
  {
  }

  lemma LogicOpsKind(opcode: Byte, op: Mnemonic, mode: Mode)
    requires IsLogicOps(opcode) && LogicOpsAgree(opcode, op, mode)
    ensures KindOf(op).Logical?
  {
  }

  lemma IncrementsOfMemoryKind(opcode: Byte, op: Mnemonic, mode: Mode)
    requires IsIncrementsOfMemory(opcode) && IncrementsOfMemoryAgree(opcode, op, mode)
    ensures KindOf(op).Counting?
  {
  }

  lemma AddsAndSubtractsKind(opcode: Byte, op: Mnemonic, mode: Mode)
    requires IsAddsAndSubtracts(opcode) && AddsAndSubtractsAgree(opcode, op, mode)
    ensures KindOf(op).Adding?
  {
  }

  lemma ComparesKind(opcode: Byte, op: Mnemonic, mode: Mode)
    requires IsCompares(opcode) && ComparesAgree(opcode, op, mode)
    ensures KindOf(op).Comparing?
  {
  }

  lemma StackOpsKind(opcode: Byte, op: Mnemonic)
    requires IsStackOps(opcode) && StackOpsAgree(opcode, op)
    ensures KindOf(op).Stacking?
  {
  }

  lemma CountsKind(opcode: Byte, op: Mnemonic)
    requires IsCounts(opcode) && CountsAgree(opcode, op)
    ensures KindOf(op).Registering?
  {
  }

  lemma TransfersKind(opcode: Byte, op: Mnemonic)
    requires IsTransfers(opcode) && TransfersAgree(opcode, op)
    ensures KindOf(op).Registering?
  {
  }

  lemma CarryOpsKind(opcode: Byte, op: Mnemonic)
    requires IsCarryOps(opcode) && CarryOpsAgree(opcode, op)
    ensures KindOf(op).Flagging?
  {
  }

  lemma ModeOpsKind(opcode: Byte, op: Mnemonic)
    requires IsModeOps(opcode) && ModeOpsAgree(opcode, op)
    ensures KindOf(op).Flagging?
  {
  }

  lemma BranchesKind(opcode: Byte, op: Mnemonic)
    requires IsBranches(opcode) && BranchesAgree(opcode, op)
    ensures KindOf(op).Branching?
  {
  }

  lemma JumpsKind(opcode: Byte, op: Mnemonic, mode: Mode)
    requires IsJumps(opcode) && JumpsAgree(opcode, op, mode)
    ensures KindOf(op).Jumping?
  {
  }

  lemma InterruptsKind(opcode: Byte, op: Mnemonic)
    requires IsInterrupts(opcode) && InterruptsAgree(opcode, op)
    ensures KindOf(op).Jumping?
  {
  }

  /** An entry of the log says these registers, the bits of the status register, and the cycles. */
  predicate Says(t: TraceLog.Snapshot, a: Byte, x: Byte, y: Byte, f: Flags, sp: Byte, pc: Word, cycles: int) {
    && t.a == a && t.x == x && t.y == y && t.sp == sp && t.pc == pc && t.cycles == cycles
    && t.flags == Bit(f.c, 1) + Bit(f.z, 2) + Bit(f.i, 4) + Bit(f.d, 8) + Bit(f.b4, 0x10) + Bit(f.b5, 0x20)
                  + Bit(f.v, 0x40) + Bit(f.n, 0x80)
  }

  class Emulator {
    var A: Byte
    var X: Byte
    var Y: Byte
    var flags: Flags
    var stackPointer: Byte
    var programCounter: Word
    const RAM: array<Byte>
    const ROM: array<Byte>
    var curOpcode: Byte
    var totalCpuCycles: int
    var cpuHalted: bool
    const log: TraceLog.TraceLog

    ghost predicate Valid() {
      RAM.Length == RAM_SIZE && ROM.Length == ROM_SIZE && RAM != ROM
    }

    /** The machine that the fields hold. */
    ghost function State(): Machine
      requires Valid()
      reads this, RAM, ROM, log`tail, log`currentOperand, log.tail
    {
      MachineState(A, X, Y, flags, stackPointer, programCounter, RAM[..], ROM[..],
                   totalCpuCycles, cpuHalted, curOpcode, log.TailOpcode(), log.TailOperands())
    }

    /** The newest entry of the log has its opcode next, or room for two operand bytes. */
    ghost predicate Ready()
      reads log`tail, log`currentOperand, log.tail
    {
      Valid() && log.HasRoom(2)
    }

    constructor (image: seq<Byte>, log: TraceLog.TraceLog)
      requires |image| == ROM_SIZE
      ensures Valid() && fresh(RAM) && fresh(ROM) && this.log == log
      ensures State() == Reset(image).(loggedOpcode := log.TailOpcode(), operands := log.TailOperands())
      ensures A == X == Y == 0 && stackPointer == 0xFD && totalCpuCycles == 8 && !cpuHalted && flags.i
      ensures programCounter == Read16(State(), 0xFFFC, 0xFFFD)
      ensures (forall at :: 0 <= at < 0x800 ==> RAM[at] == 0) && ROM[..] == image
    {
      this.log := log;
      A, X, Y, curOpcode := 0, 0, 0, 0;
      totalCpuCycles, cpuHalted := 8, false;
      RAM := new Byte[RAM_SIZE](_ => 0);
      ROM := new Byte[ROM_SIZE](i requires 0 <= i < |image| => image[i]);
      flags := FlagsOf(0).(i := true);
      programCounter := WordOf(image[0x7FFC], image[0x7FFD]);
      stackPointer := 0xFD;
      new;
      assert ROM[..] == image;
      assert RAM[..] == seq(RAM_SIZE, _ => 0);
    }

    // ---------- memory and stack ----------

    method EmuRead(address: Word) returns (value: Byte)
      requires Valid()
      ensures value == Read(State(), address)
    {
      value := 0;
      if address < 0x800 {
        value := RAM[address];
      }
      if address >= 0x8000 {
        value := ROM[address - 0x8000];
      }
    }

    method EmuWrite(address: Word, value: Byte)
      requires Valid()
      modifies RAM
      ensures State() == Write(old(State()), address, value)
    {
      hide TraceLog.TraceLog.TailOpcode, TraceLog.TraceLog.TailOperands;
      if address < 0x800 {
        RAM[address] := value;
        assert RAM[..] == old(RAM[..])[address := value];
      }
    }

    method PushStack(value: Byte)
      requires Valid()
      modifies this`stackPointer, RAM
      ensures State() == Push(old(State()), value)
    {
      hide TraceLog.TraceLog.TailOpcode, TraceLog.TraceLog.TailOperands;
      EmuWrite(0x100 + stackPointer, value);
      stackPointer := Wrap8(stackPointer - 1);
    }

    method PullStack() returns (value: Byte)
      requires Valid()
      modifies this`stackPointer
      ensures value == Top(old(State())) && State() == Pull(old(State()))
    {
      stackPointer := Wrap8(stackPointer + 1);
      value := EmuRead(0x100 + stackPointer);
    }

    // ---------- program counter and operands ----------

    method ReadIncrementPC() returns (b: Byte)
      requires Valid() && log.HasRoom(if log.TailOpcode() == 0 then 0 else 1)
      modifies this`programCounter, log`currentOperand, log.tail`opcode, log.tail`operands
      ensures b == Read(old(State()), old(programCounter)) && State() == Fetch(old(State()))
      ensures log.HasRoom(0) && (old(Ready()) ==> log.HasRoom(if old(log.TailOpcode()) == 0 then 2 else 1))
    {
      b := EmuRead(programCounter);
      programCounter := Next(programCounter);
      log.TailSetOperand(b);
    }

    method ReadPC() returns (b: Byte)
      requires Valid() && log.HasRoom(if log.TailOpcode() == 0 then 0 else 1)
      modifies log`currentOperand, log.tail`opcode, log.tail`operands
      ensures b == Read(old(State()), old(programCounter)) && State() == Log(old(State()), b)
      ensures log.HasRoom(0)
    {
      b := EmuRead(programCounter);
      log.TailSetOperand(b);
    }

    /** The registers, as parts of the state. */
    lemma Holds()
      requires Valid()
      ensures var s := State();
        s.a == A && s.x == X && s.y == Y && s.flags == flags && s.sp == stackPointer && s.pc == programCounter
    {
    }

    method SetA(value: Byte)
      requires Valid()
      modifies this`A
      ensures State() == old(State()).(a := value) && A == value
    {
      A := value;
    }

    method SetPC(value: Word)
      requires Valid()
      modifies this`programCounter
      ensures State() == old(State()).(pc := value) && programCounter == value
    {
      programCounter := value;
    }

    method SetFlags(value: Flags)
      requires Valid()
      modifies this`flags
      ensures State() == old(State()).(flags := value) && flags == value
    {
      hide TraceLog.TraceLog.TailOpcode, TraceLog.TraceLog.TailOperands;
      flags := value;
    }

    method Halt()
      requires Valid()
      modifies this`cpuHalted
      ensures State() == old(State()).(halted := true)
    {
      cpuHalted := true;
    }

    method SetZeroNegative(result: Byte)
      requires Valid()
      modifies this`flags
      ensures State() == SetZN(old(State()), result)
    {
      hide TraceLog.TraceLog.TailOpcode, TraceLog.TraceLog.TailOperands;
      flags := flags.(z := result == 0);
      flags := flags.(n := Negative(result));
    }

    // ---------- addressing modes ----------

    method ZeroPageIndexedAddress(register: Byte) returns (address: Word)
      requires Ready()
      modifies this`programCounter, log`currentOperand, log.tail`opcode, log.tail`operands
      ensures State() == FetchOperands(old(State()), ZeroPageX)
      ensures address == Wrap8(Read(old(State()), old(programCounter)) + register)
      ensures log.HasRoom(0)
    {
      var b := ReadIncrementPC();
      address := Wrap8(b + register);
    }

    method AbsoluteAddress() returns (address: Word)
      requires Ready()
      modifies this`programCounter, log`currentOperand, log.tail`opcode, log.tail`operands
      ensures State() == FetchOperands(old(State()), Absolute) && address == Address(old(State()), Absolute)
      ensures log.HasRoom(0)
    {
      var low := ReadIncrementPC();
      var high := ReadIncrementPC();
      address := WordOf(low, high);
    }

    method AbsoluteXIndexedAddress() returns (address: Word)
      requires Ready()
      modifies this`programCounter, log`currentOperand, log.tail`opcode, log.tail`operands
      ensures State() == FetchOperands(old(State()), AbsoluteX) && address == Address(old(State()), AbsoluteX)
      ensures log.HasRoom(0)
    {
      hide TraceLog.TraceLog.TailOpcode, TraceLog.TraceLog.TailOperands;
      var low := ReadIncrementPC();
      var high := ReadIncrementPC();
      address := Wrap16(WordOf(low, high) + X);
    }

    method IndirectYIndexedAddress() returns (address: Word)
      requires Ready()
      modifies this`programCounter, log`currentOperand, log.tail`opcode, log.tail`operands
      ensures State() == FetchOperands(old(State()), IndirectY) && address == Address(old(State()), IndirectY)
      ensures log.HasRoom(0)
    {
      var p: int := ReadIncrementPC();
      var low := EmuRead(p);
      var high := EmuRead(p + 1);
      address := Wrap16(WordOf(low, high) + Y);
    }

    method IndirectXIndexedAddress() returns (address: Word)
      requires Ready()
      modifies this`programCounter, log`currentOperand, log.tail`opcode, log.tail`operands
      ensures State() == FetchOperands(old(State()), IndirectX) && address == Address(old(State()), IndirectX)
      ensures log.HasRoom(0)
    {
      var b := ReadIncrementPC();
      var p: int := Wrap8(b + X);
      var low := EmuRead(p);
      var high := EmuRead(p + 1);
      address := WordOf(low, high);
    }

    /** The effective address that a case gets for its mode. */
    method OperandAddress(mode: Mode) returns (address: Word)
      requires Ready() && HasAddress(mode)
      modifies this`programCounter, log`currentOperand, log.tail`opcode, log.tail`operands
      ensures State() == FetchOperands(old(State()), mode) && address == Address(old(State()), mode)
      ensures log.HasRoom(0)
    {
      if mode.ZeroPage? {
        address := ReadIncrementPC();
      } else if mode.ZeroPageX? {
        address := ZeroPageIndexedAddress(X);
      } else if mode.Absolute? {
        address := AbsoluteAddress();
      } else if mode.AbsoluteX? {
        address := AbsoluteXIndexedAddress();
      } else if mode.IndirectX? {
        address := IndirectXIndexedAddress();
      } else {
        address := IndirectYIndexedAddress();
      }
    }

    method OperandValue(mode: Mode) returns (v: Byte)
      requires Ready() && (mode.Immediate? || HasAddress(mode))
      modifies this, RAM, log`currentOperand, log.tail`opcode, log.tail`operands
      ensures State() == FetchOperands(old(State()), mode) && v == Read(State(), Address(old(State()), mode))
      ensures log.HasRoom(0)
    {
      if mode.Immediate? {
        v := ReadIncrementPC();
      } else {
        var address := OperandAddress(mode);
        v := EmuRead(address);
      }
    }

    // ---------- arithmetic ----------

    method AslOp(input: Byte, address: Word)
      requires Valid()
      modifies this, RAM
      ensures State() == ShiftInto(old(State()), ASL, input, address)
    {
      hide State;
      Holds();
      ShiftIntoIs(State(), ASL, input, address);
      hide ShiftInto, Shift, Negative, Odd, Wrap8;
      SetFlags(flags.(c := Negative(input)));
      var r := Wrap8(2 * input);
      EmuWrite(address, r);
      SetZeroNegative(r);
    }

    method LsrOp(input: Byte, address: Word)
      requires Valid()
      modifies this, RAM
      ensures State() == ShiftInto(old(State()), LSR, input, address)
    {
      hide State;
      Holds();
      ShiftIntoIs(State(), LSR, input, address);
      hide ShiftInto, Shift, Negative, Odd, Wrap8;
      SetFlags(flags.(c := Odd(input)));
      var r := input / 2;
      EmuWrite(address, r);
      SetZeroNegative(r);
    }

    method RolOp(input: Byte, address: Word)
      requires Valid()
      modifies this, RAM
      ensures State() == ShiftInto(old(State()), ROL, input, address)
    {
      hide State;
      Holds();
      ShiftIntoIs(State(), ROL, input, address);
      hide ShiftInto, Shift, Negative, Odd, Wrap8, Write, Read;
      var newCarryBit := Negative(input);
      var r := Wrap8(2 * input);
      if flags.c {
        r := r + 1;
      }
      CarryAfterWrite(State(), newCarryBit, address, r);
      EmuWrite(address, r);
      SetFlags(flags.(c := newCarryBit));
      SetZeroNegative(r);
    }

    method RorOp(input: Byte, address: Word)
      requires Valid()
      modifies this, RAM
      ensures State() == ShiftInto(old(State()), ROR, input, address)
    {
      hide State;
      Holds();
      ShiftIntoIs(State(), ROR, input, address);
      hide ShiftInto, Shift, Negative, Odd, Wrap8, Write, Read;
      var newCarryBit := Odd(input);
      var r := input / 2 + Bit(flags.c, 0x80);
      CarryAfterWrite(State(), newCarryBit, address, r);
      EmuWrite(address, r);
      SetFlags(flags.(c := newCarryBit));
      SetZeroNegative(r);
    }

    method BitXorA(value: Byte) returns (r: Byte)
      requires Valid()
      modifies this`A
      ensures State() == old(State()).(a := r) && r == Xor8(old(State()).a, value)
    {
      r := Xor8(A, value);
      A := r;
    }

    /** The overflow flag is computed with bit_XOR_A, which changes A on the way. */
    method AdcOp(input: Byte)
      requires Valid()
      modifies this, RAM
      ensures State() == Adc(old(State()), input)
    {
      hide State, AdcOverflow, SbcOverflow, Xor8, Negative;
      Holds();
      var sum := A + input + Bit(flags.c, 1);
      var first := BitXorA(input);
      var second := BitXorA(Wrap8(sum));
      SetFlags(flags.(v := AdcOverflow(first, second)));
      SetFlags(flags.(c := sum > 0xFF));
      SetA(Wrap8(sum));
      SetZeroNegative(A);
    }

    method SbcOp(input: Byte)
      requires Valid()
      modifies this, RAM
      ensures State() == Sbc(old(State()), input)
    {
      hide State, AdcOverflow, SbcOverflow, Xor8, Negative;
      Holds();
      var sum := A - input - Bit(!flags.c, 1);
      var first := BitXorA(input);
      var second := BitXorA(Wrap8(sum));
      SetFlags(flags.(v := SbcOverflow(first, second)));
      SetFlags(flags.(c := sum >= 0));
      SetA(Wrap8(sum));
      SetZeroNegative(A);
    }

    method IncOp(input: Byte, address: Word)
      requires Valid()
      modifies this, RAM
      ensures State() == Store(old(State()), address, Wrap8(input + 1))
    {
      var r := Wrap8(input + 1);
      EmuWrite(address, r);
      SetZeroNegative(r);
    }

    method DecOp(input: Byte, address: Word)
      requires Valid()
      modifies this, RAM
      ensures State() == Store(old(State()), address, Wrap8(input - 1))
    {
      var r := Wrap8(input - 1);
      EmuWrite(address, r);
      SetZeroNegative(r);
    }

    method CmpOp(input: Byte, register: Byte)
      requires Valid()
      modifies this, RAM
      ensures State() == Compare(old(State()), register, input)
    {
      hide TraceLog.TraceLog.TailOpcode, TraceLog.TraceLog.TailOperands;
      flags := flags.(c := register >= input);
      flags := flags.(z := register == input);
      flags := flags.(n := register - input > 127);
    }

    method BitOp(input: Byte)
      requires Valid()
      modifies this, RAM
      ensures State() == TestBits(old(State()), input)
    {
      hide TraceLog.TraceLog.TailOpcode, TraceLog.TraceLog.TailOperands;
      flags := flags.(z := And8(A, input) == 0);
      flags := flags.(n := Negative(input));
      flags := flags.(v := input / 0x40 % 2 == 1);
    }

    method AslA()
      requires Valid()
      modifies this, RAM
      ensures State() == ShiftA(old(State()), ASL)
    {
      hide State;
      Holds();
      ShiftAIs(State());
      hide ShiftA, Shift, Negative, Odd, Wrap8;
      SetFlags(flags.(c := Negative(A)));
      SetA(Wrap8(2 * A));
      SetZeroNegative(A);
    }

    method LsrA()
      requires Valid()
      modifies this, RAM
      ensures State() == ShiftA(old(State()), LSR)
    {
      hide State;
      Holds();
      ShiftAIs(State());
      hide ShiftA, Shift, Negative, Odd, Wrap8;
      if Odd(A) {
        SetFlags(flags.(c := true));
      }
      SetA(A / 2);
      SetZeroNegative(A);
    }

    method RolA()
      requires Valid()
      modifies this, RAM
      ensures State() == ShiftA(old(State()), ROL)
    {
      hide State;
      Holds();
      ShiftAIs(State());
      hide ShiftA, Shift, Negative, Odd, Wrap8;
      var newCarryBit := Negative(A);
      SetA(Wrap8(2 * A));
      if flags.c {
        SetA(A + 1);
      }
      SetFlags(flags.(c := newCarryBit));
      SetZeroNegative(A);
    }

    // ---------- instructions ----------

    method Lda(mode: Mode)
      requires Ready() && (mode.Immediate? || HasAddress(mode))
      modifies this, RAM, log`currentOperand, log.tail`opcode, log.tail`operands
      ensures State() == Load(old(State()), LDA, mode)
      ensures log.HasRoom(0)
    {
      hide FetchOperands, Address, Read;
      var v := OperandValue(mode);
      LoadRegisterA(v);
    }

    method Ldx(mode: Mode)
      requires Ready() && (mode.Immediate? || HasAddress(mode))
      modifies this, RAM, log`currentOperand, log.tail`opcode, log.tail`operands
      ensures State() == Load(old(State()), LDX, mode)
      ensures log.HasRoom(0)
    {
      hide FetchOperands, Address, Read;
      var v := OperandValue(mode);
      LoadRegisterX(v);
    }

    method Ldy(mode: Mode)
      requires Ready() && (mode.Immediate? || HasAddress(mode))
      modifies this, RAM, log`currentOperand, log.tail`opcode, log.tail`operands
      ensures State() == Load(old(State()), LDY, mode)
      ensures log.HasRoom(0)
    {
      hide FetchOperands, Address, Read;
      var v := OperandValue(mode);
      LoadRegisterY(v);
    }

    method Sta(mode: Mode)
      requires Ready() && HasAddress(mode)
      modifies this, RAM, log`currentOperand, log.tail`opcode, log.tail`operands
      ensures State() == StoreRegister(old(State()), STA, mode)
      ensures log.HasRoom(0)
    {
      var address := OperandAddress(mode);
      EmuWrite(address, A);
    }

    method Stx(mode: Mode)
      requires Ready() && HasAddress(mode)
      modifies this, RAM, log`currentOperand, log.tail`opcode, log.tail`operands
      ensures State() == StoreRegister(old(State()), STX, mode)
      ensures log.HasRoom(0)
    {
      var address := OperandAddress(mode);
      EmuWrite(address, X);
    }

    method Sty(mode: Mode)
      requires Ready() && HasAddress(mode)
      modifies this, RAM, log`currentOperand, log.tail`opcode, log.tail`operands
      ensures State() == StoreRegister(old(State()), STY, mode)
      ensures log.HasRoom(0)
    {
      var address := OperandAddress(mode);
      EmuWrite(address, Y);
    }

    method Asl(mode: Mode)
      requires Ready() && HasAddress(mode)
      modifies this, RAM, log`currentOperand, log.tail`opcode, log.tail`operands
      ensures State() == ShiftMemory(FetchOperands(old(State()), mode), ASL, Address(old(State()), mode))
      ensures log.HasRoom(0)
    {
      var address := OperandAddress(mode);
      var v := EmuRead(address);
      AslOp(v, address);
    }

    method Lsr(mode: Mode)
      requires Ready() && HasAddress(mode)
      modifies this, RAM, log`currentOperand, log.tail`opcode, log.tail`operands
      ensures State() == ShiftMemory(FetchOperands(old(State()), mode), LSR, Address(old(State()), mode))
      ensures log.HasRoom(0)
    {
      var address := OperandAddress(mode);
      var v := EmuRead(address);
      LsrOp(v, address);
    }

    method Rol(mode: Mode)
      requires Ready() && HasAddress(mode)
      modifies this, RAM, log`currentOperand, log.tail`opcode, log.tail`operands
      ensures State() == ShiftMemory(FetchOperands(old(State()), mode), ROL, Address(old(State()), mode))
      ensures log.HasRoom(0)
    {
      var address := OperandAddress(mode);
      var v := EmuRead(address);
      RolOp(v, address);
    }

    method Ror(mode: Mode)
      requires Ready() && HasAddress(mode)
      modifies this, RAM, log`currentOperand, log.tail`opcode, log.tail`operands
      ensures State() == ShiftMemory(FetchOperands(old(State()), mode), ROR, Address(old(State()), mode))
      ensures log.HasRoom(0)
    {
      var address := OperandAddress(mode);
      var v := EmuRead(address);
      RorOp(v, address);
    }

    method Inc(mode: Mode)
      requires Ready() && HasAddress(mode)
      modifies this, RAM, log`currentOperand, log.tail`opcode, log.tail`operands
      ensures State() == IncDec(old(State()), INC, mode)
      ensures log.HasRoom(0)
    {
      var address := OperandAddress(mode);
      var v := EmuRead(address);
      IncOp(v, address);
    }

    method Dec(mode: Mode)
      requires Ready() && HasAddress(mode)
      modifies this, RAM, log`currentOperand, log.tail`opcode, log.tail`operands
      ensures State() == IncDec(old(State()), DEC, mode)
      ensures log.HasRoom(0)
    {
      var address := OperandAddress(mode);
      var v := EmuRead(address);
      DecOp(v, address);
    }

    method Ora(mode: Mode)
      requires Ready() && (mode.Immediate? || HasAddress(mode))
      modifies this, RAM, log`currentOperand, log.tail`opcode, log.tail`operands
      ensures State() == LogicOp(old(State()), ORA, mode)
      ensures log.HasRoom(0)
    {
      hide State, FetchOperands, Fetch, Address, Or8, Xor8, And8, Negative, LogicOp, Read, Write;
      Holds();
      LogicOpIs(State(), ORA, mode);
      if mode.Immediate? {
        var v := ReadIncrementPC();
        SetA(Or8(A, v));
      } else {
        var address := OperandAddress(mode);
        var v := EmuRead(address);
        SetA(Or8(A, v));
        EmuWrite(address, A);
      }
      SetZeroNegative(A);
    }

    method Eor(mode: Mode)
      requires Ready() && (mode.Immediate? || HasAddress(mode))
      modifies this, RAM, log`currentOperand, log.tail`opcode, log.tail`operands
      ensures State() == LogicOp(old(State()), EOR, mode)
      ensures log.HasRoom(0)
    {
      hide State, FetchOperands, Fetch, Address, Or8, Xor8, And8, Negative, LogicOp, Read, Write;
      Holds();
      LogicOpIs(State(), EOR, mode);
      if mode.Immediate? {
        var v := ReadIncrementPC();
        SetA(Xor8(A, v));
      } else {
        var address := OperandAddress(mode);
        var v := EmuRead(address);
        SetA(Xor8(A, v));
        EmuWrite(address, A);
      }
      SetZeroNegative(A);
    }

    method And(mode: Mode)
      requires Ready() && (mode.Immediate? || HasAddress(mode))
      modifies this, RAM, log`currentOperand, log.tail`opcode, log.tail`operands
      ensures State() == LogicOp(old(State()), AND, mode)
      ensures log.HasRoom(0)
    {
      hide State, FetchOperands, Fetch, Address, Or8, Xor8, And8, Negative, LogicOp, Read, Write;
      Holds();
      LogicOpIs(State(), AND, mode);
      if mode.Immediate? {
        var v := ReadIncrementPC();
        SetA(And8(A, v));
      } else {
        var address := OperandAddress(mode);
        var v := EmuRead(address);
        SetA(And8(A, v));
        EmuWrite(address, A);
      }
      SetZeroNegative(A);
    }

    method AdcOf(mode: Mode)
      requires Ready() && (mode.Immediate? || HasAddress(mode))
      modifies this, RAM, log`currentOperand, log.tail`opcode, log.tail`operands
      ensures State() == AddSubtract(old(State()), ADC, mode)
      ensures log.HasRoom(0)
    {
      hide FetchOperands, Address, Read;
      var v := OperandValue(mode);
      AdcOp(v);
    }

    method SbcOf(mode: Mode)
      requires Ready() && (mode.Immediate? || HasAddress(mode))
      modifies this, RAM, log`currentOperand, log.tail`opcode, log.tail`operands
      ensures State() == AddSubtract(old(State()), SBC, mode)
      ensures log.HasRoom(0)
    {
      hide FetchOperands, Address, Read;
      var v := OperandValue(mode);
      SbcOp(v);
    }

    method Cmp(mode: Mode)
      requires Ready() && (mode.Immediate? || HasAddress(mode))
      modifies this, RAM, log`currentOperand, log.tail`opcode, log.tail`operands
      ensures State() == CompareOp(old(State()), CMP, mode)
      ensures log.HasRoom(0)
    {
      hide FetchOperands, Address, Read;
      var v := OperandValue(mode);
      CmpOp(v, A);
    }

    method Cpx(mode: Mode)
      requires Ready() && (mode.Immediate? || HasAddress(mode))
      modifies this, RAM, log`currentOperand, log.tail`opcode, log.tail`operands
      ensures State() == CompareOp(old(State()), CPX, mode)
      ensures log.HasRoom(0)
    {
      hide FetchOperands, Address, Read;
      var v := OperandValue(mode);
      CmpOp(v, X);
    }

    method Cpy(mode: Mode)
      requires Ready() && (mode.Immediate? || HasAddress(mode))
      modifies this, RAM, log`currentOperand, log.tail`opcode, log.tail`operands
      ensures State() == CompareOp(old(State()), CPY, mode)
      ensures log.HasRoom(0)
    {
      hide FetchOperands, Address, Read;
      var v := OperandValue(mode);
      CmpOp(v, Y);
    }

    method TestBitsOf(mode: Mode)
      requires Ready() && (mode.Immediate? || HasAddress(mode))
      modifies this, RAM, log`currentOperand, log.tail`opcode, log.tail`operands
      ensures State() == CompareOp(old(State()), BIT, mode)
      ensures log.HasRoom(0)
    {
      hide FetchOperands, Address, Read;
      var v := OperandValue(mode);
      BitOp(v);
    }

    method Jsr()
      requires Ready()
      modifies this, RAM, log`currentOperand, log.tail`opcode, log.tail`operands
      ensures State() == CallSubroutine(old(State()))
      ensures log.HasRoom(0)
    {
      hide State, Write, High, Low, Address, Fetch, Log, Read, Next;
      Holds();
      CallIs(State());
      var low := ReadIncrementPC();
      Holds();
      var high := ReadPC();
      Holds();
      PushStack(High(programCounter));
      PushStack(Low(programCounter));
      SetPC(WordOf(low, high));
    }

    method Rts()
      requires Ready()
      modifies this, RAM, log`currentOperand, log.tail`opcode, log.tail`operands
      ensures State() == Return(old(State()))
      ensures log.HasRoom(0)
    {
      var low := PullStack();
      var high := PullStack();
      programCounter := WordOf(low, high);
      var skipped := ReadIncrementPC();
    }

    method Brk()
      requires Valid()
      modifies this, RAM
      ensures State() == Break(old(State()))
    {
      hide State, Flags.ToByte, High, Low, Write, Next, Read;
      Holds();
      SetPC(Next(programCounter));
      PushStack(High(programCounter));
      PushStack(Low(programCounter));
      Holds();
      PushStack(flags.ToByte());
      var low := EmuRead(0xFFFE);
      var high := EmuRead(0xFFFF);
      SetPC(WordOf(low, high));
    }

    method Rti()
      requires Valid()
      modifies this, RAM
      ensures State() == ReturnFromInterrupt(old(State()))
    {
      var status := PullStack();
      flags := FlagsOf(status);
      var low := PullStack();
      var high := PullStack();
      programCounter := WordOf(low, high);
    }

    method JmpAbsolute()
      requires Ready()
      modifies this, log`currentOperand, log.tail`opcode, log.tail`operands
      ensures State() == JumpTo(old(State()), Absolute)
      ensures log.HasRoom(0)
    {
      programCounter := AbsoluteAddress();
    }

    method JmpIndirect()
      requires Ready()
      modifies this, log`currentOperand, log.tail`opcode, log.tail`operands
      ensures State() == JumpTo(old(State()), AbsIndirect)
      ensures log.HasRoom(0)
    {
      IndirectIs(State());
      hide FetchOperands, Address, Next;
      var pointer := AbsoluteAddress();
      var low := EmuRead(pointer);
      var high := EmuRead(Next(pointer));
      programCounter := WordOf(low, high);
    }

    method Pha()
      requires Valid()
      modifies this, RAM
      ensures State() == StackOp(old(State()), PHA)
    {
      PushStack(A);
    }

    method Pla()
      requires Valid()
      modifies this, RAM
      ensures State() == StackOp(old(State()), PLA)
    {
      hide Negative;
      var v := PullStack();
      A := v;
      SetZeroNegative(v);
    }

    method Php()
      requires Valid()
      modifies this, RAM
      ensures State() == StackOp(old(State()), PHP)
    {
      PushStack(flags.(b4 := true, b5 := true).ToByte());
    }

    method Plp()
      requires Valid()
      modifies this, RAM
      ensures State() == StackOp(old(State()), PLP)
    {
      hide FlagsOf;
      var v := PullStack();
      flags := FlagsOf(v);
    }

    method LoadRegisterX(v: Byte)
      requires Valid()
      modifies this, RAM
      ensures State() == LoadX(old(State()), v)
    {
      X := v;
      SetZeroNegative(v);
    }

    method LoadRegisterY(v: Byte)
      requires Valid()
      modifies this, RAM
      ensures State() == LoadY(old(State()), v)
    {
      Y := v;
      SetZeroNegative(v);
    }

    method LoadRegisterA(v: Byte)
      requires Valid()
      modifies this, RAM
      ensures State() == LoadA(old(State()), v)
    {
      A := v;
      SetZeroNegative(v);
    }

    method BranchIf(op: Mnemonic, condition: bool)
      requires Ready() && condition == Taken(State().flags, op)
      modifies this, RAM, log`currentOperand, log.tail`opcode, log.tail`operands
      ensures State() == Branch(old(State()), op)
      ensures log.HasRoom(0)
    {
      hide Branch, Taken, Fetch, Address, Next, Read, Wrap16;
      BranchIs(State(), op);
      FetchMoves(State());
      ghost var s := State();
      var result: int := ReadIncrementPC();
      if condition {
        var signedValue: int := result;
        if signedValue >= 0x80 {
          signedValue := signedValue - 256;
        }
        programCounter := Wrap16(programCounter + signedValue);
        totalCpuCycles := totalCpuCycles + 1;
        assert State() == Fetch(s).(pc := Address(s, Relative), cycles := s.cycles + 1);
      }
    }

    // ---------- the switch, one method for each group of cases ----------

    /** Cases LDA, LDX, LDY. */
    method Loads(opcode: Byte, ghost op: Mnemonic, ghost mode: Mode)
      requires Ready() && IsLoads(opcode) && LoadsAgree(opcode, op, mode)
      modifies this, RAM, log`currentOperand, log.tail`opcode, log.tail`operands
      ensures ClassOf(op).OperandClass? && State() == ExecOperand(old(State()), op, mode)
      ensures log.HasRoom(0)
    {
      LoadsKind(opcode, op, mode);
      hide Emulator.State, Load, ExecOperand, ExecImplied, KindOf, ClassOf, FetchOperands, Address, OperandBytes;
      ExecOfKind(State(), op, mode);
      match opcode {
        case 0xA9 => Lda(Immediate);
        case 0xA5 => Lda(ZeroPage);
        case 0xB5 => Lda(ZeroPageX);
        case 0xAD => Lda(Absolute);
        case 0xBD => Lda(AbsoluteX);
        case 0xA2 => Ldx(Immediate);
        case _ => Ldy(Immediate);
      }
    }

    /** Cases STA, STX, STY. */
    method Stores(opcode: Byte, ghost op: Mnemonic, ghost mode: Mode)
      requires Ready() && IsStores(opcode) && StoresAgree(opcode, op, mode)
      modifies this, RAM, log`currentOperand, log.tail`opcode, log.tail`operands
      ensures ClassOf(op).OperandClass? && State() == ExecOperand(old(State()), op, mode)
      ensures log.HasRoom(0)
    {
      StoresKind(opcode, op, mode);
      hide Emulator.State, StoreRegister, ExecOperand, ExecImplied, KindOf, ClassOf, FetchOperands, Address,
          OperandBytes;
      ExecOfKind(State(), op, mode);
      match opcode {
        case 0x85 => Sta(ZeroPage);
        case 0x95 => Sta(ZeroPageX);
        case 0x8D => Sta(Absolute);
        case 0x9D => Sta(AbsoluteX);
        case 0x91 => Sta(IndirectY);
        case 0x81 => Sta(IndirectX);
        case 0x86 => Stx(ZeroPage);
        case 0x8E => Stx(Absolute);
        case 0x84 => Sty(ZeroPage);
        case _ => Sty(Absolute);
      }
    }

    /** Cases ASL, LSR, ROL, ROR on memory. */
    method MemoryShifts(opcode: Byte, ghost op: Mnemonic, ghost mode: Mode)
      requires Ready() && IsMemoryShifts(opcode) && MemoryShiftsAgree(opcode, op, mode)
      modifies this, RAM, log`currentOperand, log.tail`opcode, log.tail`operands
      ensures ClassOf(op).OperandClass? && State() == ExecOperand(old(State()), op, mode)
      ensures log.HasRoom(0)
    {
      MemoryShiftsKind(opcode, op, mode);
      hide Emulator.State, ShiftMemory, ExecOperand, ExecImplied, KindOf, ClassOf, FetchOperands, Address, OperandBytes;
      ExecOfKind(State(), op, mode);
      match opcode {
        case 0x06 => Asl(ZeroPage);
        case 0x0E => Asl(Absolute);
        case 0x46 => Lsr(ZeroPage);
        case 0x4E => Lsr(Absolute);
        case 0x26 => Rol(ZeroPage);
        case 0x2E => Rol(Absolute);
        case 0x66 => Ror(ZeroPage);
        case _ => Ror(Absolute);
      }
    }

    /** Cases ASL A, LSR A, ROL A. */
    method AccumulatorShifts(opcode: Byte, ghost op: Mnemonic, ghost mode: Mode)
      requires Valid() && IsAccumulatorShifts(opcode) && AccumulatorShiftsAgree(opcode, op, mode)
      modifies this, RAM
      ensures ClassOf(op).OperandClass? && State() == ExecOperand(old(State()), op, mode)
    {
      AccumulatorShiftsKind(opcode, op, mode);
      hide Emulator.State, ShiftA, ExecOperand, ExecImplied, KindOf, ClassOf, FetchOperands, Address, OperandBytes;
      ExecOfKind(State(), op, mode);
      match opcode {
        case 0x0A => AslA();
        case 0x4A => LsrA();
        case _ => RolA();
      }
    }

    /** Cases ORA, EOR, AND. */
    method LogicOps(opcode: Byte, ghost op: Mnemonic, ghost mode: Mode)
      requires Ready() && IsLogicOps(opcode) && LogicOpsAgree(opcode, op, mode)
      modifies this, RAM, log`currentOperand, log.tail`opcode, log.tail`operands
      ensures ClassOf(op).OperandClass? && State() == ExecOperand(old(State()), op, mode)
      ensures log.HasRoom(0)
    {
      LogicOpsKind(opcode, op, mode);
      hide Emulator.State, LogicOp, ExecOperand, ExecImplied, KindOf, ClassOf, FetchOperands, Address, OperandBytes;
      ExecOfKind(State(), op, mode);
      match opcode {
        case 0x09 => Ora(Immediate);
        case 0x05 => Ora(ZeroPage);
        case 0x0D => Ora(Absolute);
        case 0x49 => Eor(Immediate);
        case 0x45 => Eor(ZeroPage);
        case 0x4D => Eor(Absolute);
        case 0x29 => And(Immediate);
        case 0x25 => And(ZeroPage);
        case _ => And(Absolute);
      }
    }

    /** Cases INC, DEC. */
    method IncrementsOfMemory(opcode: Byte, ghost op: Mnemonic, ghost mode: Mode)
      requires Ready() && IsIncrementsOfMemory(opcode) && IncrementsOfMemoryAgree(opcode, op, mode)
      modifies this, RAM, log`currentOperand, log.tail`opcode, log.tail`operands
      ensures ClassOf(op).OperandClass? && State() == ExecOperand(old(State()), op, mode)
      ensures log.HasRoom(0)
    {
      IncrementsOfMemoryKind(opcode, op, mode);
      hide Emulator.State, IncDec, ExecOperand, ExecImplied, KindOf, ClassOf, FetchOperands, Address, OperandBytes;
      ExecOfKind(State(), op, mode);
      match opcode {
        case 0xE6 => Inc(ZeroPage);
        case 0xEE => Inc(Absolute);
        case 0xFE => Inc(AbsoluteX);
        case 0xC6 => Dec(ZeroPage);
        case _ => Dec(Absolute);
      }
    }

    /** Cases ADC, SBC. */
    method AddsAndSubtracts(opcode: Byte, ghost op: Mnemonic, ghost mode: Mode)
      requires Ready() && IsAddsAndSubtracts(opcode) && AddsAndSubtractsAgree(opcode, op, mode)
      modifies this, RAM, log`currentOperand, log.tail`opcode, log.tail`operands
      ensures ClassOf(op).OperandClass? && State() == ExecOperand(old(State()), op, mode)
      ensures log.HasRoom(0)
    {
      AddsAndSubtractsKind(opcode, op, mode);
      hide Emulator.State, AddSubtract, ExecOperand, ExecImplied, KindOf, ClassOf, FetchOperands, Address, OperandBytes;
      ExecOfKind(State(), op, mode);
      match opcode {
        case 0x69 => AdcOf(Immediate);
        case 0x75 => AdcOf(ZeroPageX);
        case 0x65 => AdcOf(ZeroPage);
        case 0x6D => AdcOf(Absolute);
        case 0xE9 => SbcOf(Immediate);
        case 0xE5 => SbcOf(ZeroPage);
        case _ => SbcOf(Absolute);
      }
    }

    /** Cases CMP, CPX, CPY, BIT. */
    method Compares(opcode: Byte, ghost op: Mnemonic, ghost mode: Mode)
      requires Ready() && IsCompares(opcode) && ComparesAgree(opcode, op, mode)
      modifies this, RAM, log`currentOperand, log.tail`opcode, log.tail`operands
      ensures ClassOf(op).OperandClass? && State() == ExecOperand(old(State()), op, mode)
      ensures log.HasRoom(0)
    {
      ComparesKind(opcode, op, mode);
      hide Emulator.State, CompareOp, ExecOperand, ExecImplied, KindOf, ClassOf, FetchOperands, Address, OperandBytes;
      ExecOfKind(State(), op, mode);
      match opcode {
        case 0xC9 => Cmp(Immediate);
        case 0xC5 => Cmp(ZeroPage);
        case 0xCD => Cmp(Absolute);
        case 0xE0 => Cpx(Immediate);
        case 0xE4 => Cpx(ZeroPage);
        case 0xEC => Cpx(Absolute);
        case 0xC0 => Cpy(Immediate);
        case 0xC4 => Cpy(ZeroPage);
        case 0xCC => Cpy(Absolute);
        case 0x24 => TestBitsOf(ZeroPage);
        case _ => TestBitsOf(Absolute);
      }
    }

    /** Cases PHA, PLA, PHP, PLP. */
    method StackOps(opcode: Byte, ghost op: Mnemonic, ghost mode: Mode)
      requires Valid() && IsStackOps(opcode) && StackOpsAgree(opcode, op)
      modifies this, RAM
      ensures ClassOf(op).ImpliedClass? && State() == ExecImplied(old(State()), op)
    {
      StackOpsKind(opcode, op);
      hide Emulator.State, StackOp, ExecOperand, ExecImplied, KindOf, ClassOf, FetchOperands, Address, OperandBytes;
      ExecOfKind(State(), op, mode);
      match opcode {
        case 0x48 => Pha();
        case 0x68 => Pla();
        case 0x08 => Php();
        case _ => Plp();
      }
    }

    /** Cases INX, DEX, INY, DEY; DEY works on X. */
    method Counts(opcode: Byte, ghost op: Mnemonic, ghost mode: Mode)
      requires Valid() && IsCounts(opcode) && CountsAgree(opcode, op)
      modifies this, RAM
      ensures ClassOf(op).ImpliedClass? && State() == ExecImplied(old(State()), op)
    {
      RegisterOpIs(State(), op);
      CountsKind(opcode, op);
      hide RegisterOp, LoadX, LoadY, LoadA, ExecOperand, ExecImplied, KindOf, ClassOf, FetchOperands, Address,
          OperandBytes;
      ExecOfKind(State(), op, mode);
      match opcode {
        case 0xE8 => LoadRegisterX(Wrap8(X + 1));
        case 0xCA => LoadRegisterX(Wrap8(X - 1));
        case 0xC8 => LoadRegisterY(Wrap8(Y + 1));
        case _ => LoadRegisterX(Wrap8(X - 1));
      }
    }

    /** Cases TAX, TAY, TXA, TYA, TXS, TSX. */
    method Transfers(opcode: Byte, ghost op: Mnemonic, ghost mode: Mode)
      requires Valid() && IsTransfers(opcode) && TransfersAgree(opcode, op)
      modifies this, RAM
      ensures ClassOf(op).ImpliedClass? && State() == ExecImplied(old(State()), op)
    {
      RegisterOpIs(State(), op);
      TransfersKind(opcode, op);
      hide RegisterOp, LoadX, LoadY, LoadA, ExecOperand, ExecImplied, KindOf, ClassOf, FetchOperands, Address,
          OperandBytes;
      ExecOfKind(State(), op, mode);
      match opcode {
        case 0xAA => LoadRegisterX(A);
        case 0xA8 => LoadRegisterY(A);
        case 0x8A => LoadRegisterA(X);
        case 0x98 => LoadRegisterA(Y);
        case 0x9A => stackPointer := X;
        case _ => LoadRegisterX(stackPointer);
      }
    }

    /** Cases SEC, CLC, CLV. */
    method CarryOps(opcode: Byte, ghost op: Mnemonic, ghost mode: Mode)
      requires Valid() && IsCarryOps(opcode) && CarryOpsAgree(opcode, op)
      modifies this
      ensures ClassOf(op).ImpliedClass? && State() == ExecImplied(old(State()), op)
    {
      FlagOpIs(State(), op);
      CarryOpsKind(opcode, op);
      hide FlagOp, ExecOperand, ExecImplied, KindOf, ClassOf, FetchOperands, Address, OperandBytes;
      ExecOfKind(State(), op, mode);
      match opcode {
        case 0x38 => SetFlags(flags.(c := true));
        case 0x18 => SetFlags(flags.(c := false));
        case _ => SetFlags(flags.(v := false));
      }
    }

    /** Cases SEI, CLI, SED, HLT, NOP. */
    method ModeOps(opcode: Byte, ghost op: Mnemonic, ghost mode: Mode)
      requires Valid() && IsModeOps(opcode) && ModeOpsAgree(opcode, op)
      modifies this
      ensures ClassOf(op).ImpliedClass? && State() == ExecImplied(old(State()), op)
    {
      FlagOpIs(State(), op);
      ModeOpsKind(opcode, op);
      hide FlagOp, ExecOperand, ExecImplied, KindOf, ClassOf, FetchOperands, Address, OperandBytes;
      ExecOfKind(State(), op, mode);
      match opcode {
        case 0x78 => SetFlags(flags.(i := true));
        case 0x58 => SetFlags(flags.(i := false));
        case 0xF8 => SetFlags(flags.(d := true));
        case 0x02 => Halt();
        case _ =>
      }
    }

    /** Cases BNE, BEQ, BPL, BMI, BVC, BVS, BCC, BCS. */
    method Branches(opcode: Byte, ghost op: Mnemonic, ghost mode: Mode)
      requires Ready() && IsBranches(opcode) && BranchesAgree(opcode, op)
      modifies this, RAM, log`currentOperand, log.tail`opcode, log.tail`operands
      ensures ClassOf(op).BranchClass? && State() == Branch(old(State()), op)
      ensures log.HasRoom(0)
    {
      TakenIs(flags);
      BranchesKind(opcode, op);
      hide Taken, Branch, ExecOperand, ExecImplied, KindOf, ClassOf, FetchOperands, Address, OperandBytes;
      ExecOfKind(State(), op, mode);
      match opcode {
        case 0xD0 => BranchIf(BNE, !flags.z);
        case 0xF0 => BranchIf(BEQ, flags.z);
        case 0x10 => BranchIf(BPL, !flags.n);
        case 0x30 => BranchIf(BMI, flags.n);
        case 0x50 => BranchIf(BVC, !flags.v);
        case 0x70 => BranchIf(BVS, flags.v);
        case 0x90 => BranchIf(BCC, !flags.c);
        case _ => BranchIf(BCS, flags.c);
      }
    }

    /** Cases JSR, RTS, JMP. */
    method Jumps(opcode: Byte, ghost op: Mnemonic, ghost mode: Mode)
      requires Ready() && IsJumps(opcode) && JumpsAgree(opcode, op, mode)
      modifies this, RAM, log`currentOperand, log.tail`opcode, log.tail`operands
      ensures ClassOf(op).JumpClass? && State() == Jump(old(State()), op, mode)
      ensures log.HasRoom(0)
    {
      JumpIs(State(), mode);
      JumpsKind(opcode, op, mode);
      hide Jump, Emulator.State, CallSubroutine, Return, Break, ReturnFromInterrupt, JumpTo, ExecOperand, ExecImplied,
          KindOf, ClassOf, FetchOperands, Address, OperandBytes;
      ExecOfKind(State(), op, mode);
      match opcode {
        case 0x20 => Jsr();
        case 0x60 => Rts();
        case 0x4C => JmpAbsolute();
        case _ => JmpIndirect();
      }
    }

    /** Cases BRK, RTI. */
    method Interrupts(opcode: Byte, ghost op: Mnemonic, ghost mode: Mode)
      requires Valid() && IsInterrupts(opcode) && InterruptsAgree(opcode, op)
      modifies this, RAM
      ensures ClassOf(op).JumpClass? && State() == Jump(old(State()), op, mode)
    {
      JumpIs(State(), mode);
      InterruptsKind(opcode, op);
      hide Jump, Emulator.State, CallSubroutine, Return, Break, ReturnFromInterrupt, JumpTo, ExecOperand, ExecImplied,
          KindOf, ClassOf, FetchOperands, Address, OperandBytes;
      ExecOfKind(State(), op, mode);
      match opcode {
        case 0x00 => Brk();
        case _ => Rti();
      }
    }

    lemma ReadyHasRoom()
      requires Ready()
      ensures log.HasRoom(0)
    {
    }

    method ExecuteOperand(opcode: Byte, ghost op: Mnemonic, ghost mode: Mode)
      requires Ready() && IsOperandCase(opcode) && OperandCasesAgree(opcode, op, mode)
      modifies this, RAM, log`currentOperand, log.tail`opcode, log.tail`operands
      ensures ClassOf(op).OperandClass? && State() == ExecOperand(old(State()), op, mode)
      ensures log.HasRoom(0)
    {
      hide State, ExecOperand, ExecImplied, ClassOf, TraceLog.TraceLog.HasRoom, LoadsAgree, StoresAgree,
          MemoryShiftsAgree,
        AccumulatorShiftsAgree, LogicOpsAgree, IncrementsOfMemoryAgree, AddsAndSubtractsAgree, ComparesAgree, IsLoads,
        IsStores, IsMemoryShifts, IsAccumulatorShifts, IsLogicOps, IsIncrementsOfMemory, IsAddsAndSubtracts, IsCompares;
      ReadyHasRoom();
      if IsLoads(opcode) {
        Loads(opcode, op, mode);
      } else if IsStores(opcode) {
        Stores(opcode, op, mode);
      } else if IsMemoryShifts(opcode) {
        MemoryShifts(opcode, op, mode);
      } else if IsAccumulatorShifts(opcode) {
        AccumulatorShifts(opcode, op, mode);
      } else if IsLogicOps(opcode) {
        LogicOps(opcode, op, mode);
      } else if IsIncrementsOfMemory(opcode) {
        IncrementsOfMemory(opcode, op, mode);
      } else if IsAddsAndSubtracts(opcode) {
        AddsAndSubtracts(opcode, op, mode);
      } else {
        Compares(opcode, op, mode);
      }
    }

    method ExecuteImplied(opcode: Byte, ghost op: Mnemonic, ghost mode: Mode)
      requires Valid() && IsImpliedCase(opcode) && ImpliedCasesAgree(opcode, op)
      modifies this, RAM
      ensures ClassOf(op).ImpliedClass? && State() == ExecImplied(old(State()), op)
    {
      hide State, ExecOperand, ExecImplied, ClassOf, StackOpsAgree, CountsAgree, TransfersAgree, CarryOpsAgree,
          ModeOpsAgree,
        IsStackOps, IsCounts, IsTransfers, IsCarryOps, IsModeOps;
      if IsStackOps(opcode) {
        StackOps(opcode, op, mode);
      } else if IsCounts(opcode) {
        Counts(opcode, op, mode);
      } else if IsTransfers(opcode) {
        Transfers(opcode, op, mode);
      } else if IsCarryOps(opcode) {
        CarryOps(opcode, op, mode);
      } else {
        ModeOps(opcode, op, mode);
      }
    }

    method ExecuteControl(opcode: Byte, ghost op: Mnemonic, ghost mode: Mode)
      requires Ready() && IsControlCase(opcode) && ControlCasesAgree(opcode, op, mode)
      modifies this, RAM, log`currentOperand, log.tail`opcode, log.tail`operands
      ensures State() == Exec(old(State()), op, mode)
      ensures log.HasRoom(0)
    {
      ExecOfClass(State(), op, mode);
      hide Emulator.State, Exec, Branch, Jump, ClassOf, IsBranches, IsJumps, IsInterrupts, BranchesAgree, JumpsAgree,
          InterruptsAgree;
      if IsBranches(opcode) {
        Branches(opcode, op, mode);
        assert State() == Exec(old(State()), op, mode);
      } else if IsJumps(opcode) {
        Jumps(opcode, op, mode);
        assert State() == Exec(old(State()), op, mode);
      } else {
        Interrupts(opcode, op, mode);
        assert State() == Exec(old(State()), op, mode);
      }
    }

    /** The switch. An opcode without a case does nothing. */
    method Switch(opcode: Byte, ghost op: Mnemonic, ghost mode: Mode)
      requires Ready() && CasesAgree(opcode, op, mode)
      modifies this, RAM, log`currentOperand, log.tail`opcode, log.tail`operands
      ensures State() == if Implemented(opcode) then Exec(old(State()), op, mode) else old(State())
      ensures log.HasRoom(0)
    {
      hide TraceLog.TraceLog.HasRoom, Implemented, Emulator.State, Exec, ExecOperand, ExecImplied, ClassOf,
          IsOperandCase,
        IsImpliedCase, IsControlCase, OperandCasesAgree, ImpliedCasesAgree, ControlCasesAgree;
      ReadyHasRoom();
      CasesCoverSwitch(opcode);
      ExecOfClass(State(), op, mode);
      if IsOperandCase(opcode) {
        ExecuteOperand(opcode, op, mode);
        assert State() == Exec(old(State()), op, mode);
      } else if IsImpliedCase(opcode) {
        ExecuteImplied(opcode, op, mode);
        assert State() == Exec(old(State()), op, mode);
      } else if IsControlCase(opcode) {
        ExecuteControl(opcode, op, mode);
      }
    }

    /** The part of emulate_CPU behind add_tracelog_entry: the opcode, the switch, the cycles of the table. */
    method Instruct()
      requires Ready() && log.TailOpcode() == 0 && log.TailOperands() == []
      modifies this, RAM, log`currentOperand, log.tail`opcode, log.tail`operands
      ensures State() == Step(old(State())) && log.HasRoom(0)
    {
      hide Table, Implemented, CasesAgree, Exec;
      assert State() == State().(loggedOpcode := 0, operands := []);
      var opcode := ReadIncrementPC();
      curOpcode := opcode;
      assert State() == Decoded(old(State()));
      SwitchAgreesWithTable(opcode);
      Switch(opcode, Table(opcode).mnemonic, Table(opcode).mode);
      totalCpuCycles := totalCpuCycles + Table(opcode).cycles;
    }

    /** The memories are not the heap's table. */
    ghost predicate Apart()
      reads log.heap
    {
      RAM != log.heap.entries && ROM != log.heap.entries
    }

    /** What an instruction puts into the log is in its newest entry only. */
    method InstructLogged()
      requires Ready() && log.TailOpcode() == 0 && log.TailOperands() == [] && Apart() && log.Valid()
      modifies this, RAM, log`currentOperand, log.tail`opcode, log.tail`operands
      ensures State() == Step(old(State())) && log.HasRoom(0)
      ensures log.Valid() && log.past == old(log.past)
      ensures log.Supplied() == old(log.Supplied()) && log.Quiet() == old(log.Quiet())
    {
      hide Step, State, TraceLog.TraceLog.HasRoom;
      Instruct();
    }

    lemma EntrySays(s: Machine)
      requires Valid() && State() == Step(s) && log.HasRoom(0) && log.tail.snapshot == SnapshotOf(s)
      ensures log.History() == log.past + [RecordOf(s)]
    {
      hide Step;
      AtMostTwoOperandsLogged(s);
      assert log.tail.operands == Padded(log.TailOperands());
    }

    /** The first thing that emulate_CPU does: an entry with the registers and the cycles. */
    method AddTracelogEntry()
      requires Valid() && Apart() && log.Valid() && log.CanAdd()
      modifies log, log.memory, log.heap.entries
      ensures State() == old(State()).(loggedOpcode := 0, operands := []) && Ready()
      ensures log.Valid() && log.past == old(log.History())
      ensures log.tail in log.memory && log.tail.snapshot == SnapshotOf(old(State()))
      ensures Says(log.tail.snapshot, old(A), old(X), old(Y), old(flags), old(stackPointer), old(programCounter), old(totalCpuCycles))
      ensures log.curSelectedIndex == old(log.curSelectedIndex)
      ensures old(log.Supplied()) ==> log.Supplied()
      ensures old(log.Quiet()) ==> log.Quiet()
    {
      hide TraceLog.TraceLog.Valid, TraceLog.TraceLog.CanAdd, TraceLog.TraceLog.Supplied, TraceLog.TraceLog.Quiet,
        TraceLog.TraceLog.Linked, TraceLog.TraceLog.Owns, TraceLog.Grows, Flags.ToByte;
      ByteIsSum(flags);
      var entry := log.Add(TraceLog.Snapshot(A, X, Y, flags.ToByte(), stackPointer, programCounter, totalCpuCycles));
      log.TailIsLast();
      assert log.past == log.History()[..|log.History()| - 1];
      assert log.TailOperands() == [];
    }

    /** One instruction: an entry in the log, and then a step, which completes the entry. */
    method EmulateCPU()
      requires Valid() && Apart() && log.Valid() && log.CanAdd()
      modifies this, RAM, log, log.memory, log.heap.entries
      ensures State() == Step(old(State())) && log.Valid()
      ensures log.History() == old(log.History()) + [RecordOf(old(State()))]
      ensures log.tail != null
        && Says(log.tail.snapshot, old(A), old(X), old(Y), old(flags), old(stackPointer), old(programCounter), old(totalCpuCycles))
      ensures log.curSelectedIndex == old(log.curSelectedIndex)
      ensures old(log.Supplied()) ==> log.Supplied()
      ensures old(log.Quiet()) ==> log.Quiet()
    {
      hide Says, Step, State, SnapshotOf, TraceLog.TraceLog.Valid, TraceLog.TraceLog.CanAdd, TraceLog.TraceLog.Supplied,
        TraceLog.TraceLog.Quiet, TraceLog.TraceLog.Linked, TraceLog.TraceLog.Owns, TraceLog.TraceLog.History, RecordOf,
        TraceLog.TraceLog.TailOpcode, TraceLog.TraceLog.TailOperands, TraceLog.TraceLog.HasRoom;
      ghost var s := State();
      StepClearsLog(s);
      ClearedLog();
      AddTracelogEntry();
      ClearedLog();
      InstructLogged();
      EntrySays(s);
    }

    lemma ClearedLog()
      requires Valid()
      ensures State().loggedOpcode == log.TailOpcode() && State().operands == log.TailOperands()
    {
    }

    lemma GuardIsRunning()
      requires Valid()
      ensures Running(State()) <==> !cpuHalted && totalCpuCycles < CYCLE_LIMIT
    {
    }

    /** What a run from s0 has done so far, past being the states that it has left behind. */
    ghost predicate SoFar(s0: Machine, past: seq<Machine>, history: seq<TraceLog.Record>)
      reads this, RAM, ROM, log, log.memory, log.heap, log.heap.entries, log.tail
    {
      && Valid() && Apart() && log.Valid() && log.Supplied()
      && EmuRun(State()) == EmuRun(s0) && past + Visited(State()) == Visited(s0)
      && log.History() == history + RecordsOf(past)
    }

    /** One round of the run. */
    method Round(ghost s0: Machine, ghost past: seq<Machine>, ghost history: seq<TraceLog.Record>)
      requires SoFar(s0, past, history) && Running(State())
      modifies this, RAM, log, log.memory, log.heap.entries
      ensures SoFar(s0, past + [old(State())], history) && State() == Step(old(State()))
      ensures log.curSelectedIndex == old(log.curSelectedIndex) && (old(log.Quiet()) ==> log.Quiet())
    {
      hide Step, TraceLog.TraceLog.Valid, EmuRun, Visited, RecordsOf, TraceLog.TraceLog.History, RecordOf, State,
          Running;
      ghost var s := State();
      VisitedFrom(s);
      RecordsAppend(past, s);
      log.SuppliedCanAdd();
      EmulateCPU();
      assert past + ([s] + Visited(Step(s))) == (past + [s]) + Visited(Step(s));
    }

    /** emu_run: steps until the processor halts or 1000 cycles are gone. The log gets an entry for every instruction
        that is started, with the registers and the cycles before it and with its bytes. */
    method Run()
      requires Valid() && Apart() && log.Valid() && log.Supplied()
      modifies this, RAM, log, log.memory, log.heap.entries
      ensures State() == EmuRun(old(State())) && log.Valid() && log.Supplied()
      ensures log.History() == old(log.History()) + RecordsOf(Visited(old(State())))
      ensures log.curSelectedIndex == old(log.curSelectedIndex) && (old(log.Quiet()) ==> log.Quiet())
    {
      hide Step, TraceLog.TraceLog.Valid, EmuRun, Visited, RecordsOf, TraceLog.TraceLog.History, State, Running;
      ghost var s0, history := State(), log.History();
      ghost var past: seq<Machine> := [];
      assert RecordsOf([]) == [];
      GuardIsRunning();
      while !cpuHalted && totalCpuCycles < CYCLE_LIMIT
        invariant SoFar(s0, past, history) && log.curSelectedIndex == old(log.curSelectedIndex)
        invariant old(log.Quiet()) ==> log.Quiet()
        invariant Running(State()) <==> !cpuHalted && totalCpuCycles < CYCLE_LIMIT
        decreases if State().cycles < CYCLE_LIMIT then CYCLE_LIMIT - State().cycles else 0, DistanceToUnmapped(State().pc)
      {
        ghost var s := State();
        Progress(s);
        Round(s0, past, history);
        GuardIsRunning();
        past := past + [s];
      }
      VisitedFrom(State());
      assert past + [] == past;
    }
  }

  /** A step starts with an empty entry, whatever the entry before it says. */
  lemma StepClearsLog(s: Machine)
    ensures Step(s.(loggedOpcode := 0, operands := [])) == Step(s)
  {
    hide Exec, Table, Implemented, Next;
  }

  lemma Progress(s: Machine)
    requires Running(s)
    ensures s.cycles < CYCLE_LIMIT && s.cycles <= Step(s).cycles
    ensures Step(s).cycles == s.cycles ==> DistanceToUnmapped(Step(s).pc) < DistanceToUnmapped(s.pc)
  {
    hide Step;
    StepProgress(s);
  }
}

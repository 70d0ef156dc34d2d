/** What the table-driven machine does for each kind and each mnemonic, as equations: proofs about single
    instructions use these instead of the definitions. */
module CpuCases {
  import opened Bits
  import opened OpcodeTable
  import opened Cpu

  lemma ExecOfKind(s: Machine, op: Mnemonic, mode: Mode)
    ensures var k := KindOf(op);
      k.Loading? || k.Storing? || k.Shifting? || k.Logical? || k.Counting? || k.Adding? || k.Comparing? ==> ClassOf(op).OperandClass?
    ensures KindOf(op).Stacking? || KindOf(op).Flagging? || KindOf(op).Registering? ==> ClassOf(op).ImpliedClass?
    ensures KindOf(op).Branching? ==> ClassOf(op).BranchClass?
    ensures KindOf(op).Jumping? ==> ClassOf(op).JumpClass?
    ensures KindOf(op).Loading? ==> ExecOperand(s, op, mode) == Load(s, op, mode)
    ensures KindOf(op).Storing? ==> ExecOperand(s, op, mode) == StoreRegister(s, op, mode)
    ensures KindOf(op).Shifting? && OperandBytes(mode) == 0 ==> ExecOperand(s, op, mode) == ShiftA(s, op)
    ensures KindOf(op).Shifting? && OperandBytes(mode) != 0 ==>
              ExecOperand(s, op, mode) == ShiftMemory(FetchOperands(s, mode), op, Address(s, mode))
    ensures KindOf(op).Logical? ==> ExecOperand(s, op, mode) == LogicOp(s, op, mode)
    ensures KindOf(op).Counting? ==> ExecOperand(s, op, mode) == IncDec(s, op, mode)
    ensures KindOf(op).Adding? ==> ExecOperand(s, op, mode) == AddSubtract(s, op, mode)
    ensures KindOf(op).Comparing? ==> ExecOperand(s, op, mode) == CompareOp(s, op, mode)
    ensures KindOf(op).Stacking? ==> ExecImplied(s, op) == StackOp(s, op)
    ensures KindOf(op).Flagging? ==> ExecImplied(s, op) == FlagOp(s, op)
    ensures KindOf(op).Registering? ==> ExecImplied(s, op) == RegisterOp(s, op)
  {
    hide KindOf, Load, StoreRegister, ShiftMemory, ShiftA, LogicOp, IncDec, AddSubtract, CompareOp, FetchOperands,
        Address,
      StackOp, FlagOp, RegisterOp, OperandBytes;
  }

  lemma ExecOfClass(s: Machine, op: Mnemonic, mode: Mode)
    ensures ClassOf(op).OperandClass? ==> Exec(s, op, mode) == ExecOperand(s, op, mode)
    ensures ClassOf(op).ImpliedClass? ==> Exec(s, op, mode) == ExecImplied(s, op)
    ensures ClassOf(op).BranchClass? ==> Exec(s, op, mode) == Branch(s, op)
    ensures ClassOf(op).JumpClass? ==> Exec(s, op, mode) == Jump(s, op, mode)
  {
    hide ClassOf, ExecOperand, ExecImplied, Branch, Jump, Taken, KindOf, Fetch, FetchOperands;
    match ClassOf(op)
    case OperandClass => assert Exec(s, op, mode) == ExecOperand(s, op, mode);
    case ImpliedClass => assert Exec(s, op, mode) == ExecImplied(s, op);
    case BranchClass => assert Exec(s, op, mode) == Branch(s, op);
    case JumpClass => assert Exec(s, op, mode) == Jump(s, op, mode);
    case NoClass =>
  }

  lemma TakenIs(f: Flags)
    ensures Taken(f, BNE) == !f.z && Taken(f, BEQ) == f.z && Taken(f, BPL) == !f.n && Taken(f, BMI) == f.n
    ensures Taken(f, BVC) == !f.v && Taken(f, BVS) == f.v && Taken(f, BCC) == !f.c && Taken(f, BCS) == f.c
  {
  }

  lemma FlagOpIs(s: Machine, op: Mnemonic)
    ensures (op.SEC? ==> FlagOp(s, op) == WithCarry(s, true)) && (op.CLC? ==> FlagOp(s, op) == WithCarry(s, false))
    ensures (op.CLV? ==> FlagOp(s, op) == s.(flags := s.flags.(v := false))) && (op.SEI? ==> FlagOp(s, op) == s.(flags := s.flags.(i := true)))
    ensures (op.CLI? ==> FlagOp(s, op) == s.(flags := s.flags.(i := false))) && (op.SED? ==> FlagOp(s, op) == s.(flags := s.flags.(d := true)))
    ensures (op.STP? ==> FlagOp(s, op) == s.(halted := true)) && (op.NOP? ==> FlagOp(s, op) == s)
  {
    hide WithCarry;
  }

  lemma RegisterOpIs(s: Machine, op: Mnemonic)
    ensures (op.TAX? ==> RegisterOp(s, op) == LoadX(s, s.a)) && (op.TAY? ==> RegisterOp(s, op) == LoadY(s, s.a))
    ensures (op.TXA? ==> RegisterOp(s, op) == LoadA(s, s.x)) && (op.TYA? ==> RegisterOp(s, op) == LoadA(s, s.y))
    ensures (op.TSX? ==> RegisterOp(s, op) == LoadX(s, s.sp)) && (op.TXS? ==> RegisterOp(s, op) == s.(sp := s.x))
    ensures (op.INX? ==> RegisterOp(s, op) == LoadX(s, Wrap8(s.x + 1))) && (op.INY? ==> RegisterOp(s, op) == LoadY(s, Wrap8(s.y + 1)))
    ensures op.DEX? || op.DEY? ==> RegisterOp(s, op) == LoadX(s, Wrap8(s.x - 1))
  {
    hide LoadX, LoadY, LoadA, Wrap8;
  }

  lemma JumpIs(s: Machine, mode: Mode)
    ensures Jump(s, JSR, mode) == CallSubroutine(s) && Jump(s, RTS, mode) == Return(s) && Jump(s, BRK, mode) == Break(s)
    ensures Jump(s, RTI, mode) == ReturnFromInterrupt(s) && Jump(s, JMP, mode) == JumpTo(s, mode)
  {
    hide CallSubroutine, Return, Break, ReturnFromInterrupt, JumpTo;
  }

  lemma ShiftIntoIs(s: Machine, op: Mnemonic, v: Byte, address: Word)
    ensures op.ASL? ==> ShiftInto(s, op, v, address) == Store(WithCarry(s, Negative(v)), address, Wrap8(2 * v))
    ensures op.LSR? ==> ShiftInto(s, op, v, address) == Store(WithCarry(s, Odd(v)), address, v / 2)
    ensures op.ROL? ==>
              ShiftInto(s, op, v, address) == Store(WithCarry(s, Negative(v)), address, Wrap8(2 * v) + Bit(s.flags.c, 1))
    ensures op.ROR? ==>
              ShiftInto(s, op, v, address) == Store(WithCarry(s, Odd(v)), address, v / 2 + Bit(s.flags.c, 0x80))
  {
    hide Store, WithCarry, Negative, Odd;
  }

  /** Setting the carry and writing to memory can be done in either order. */
  lemma CarryAfterWrite(s: Machine, c: bool, address: Word, v: Byte)
    ensures Write(WithCarry(s, c), address, v) == WithCarry(Write(s, address, v), c)
    ensures Write(s, address, v).flags == s.flags
  {
  }

  lemma ShiftAIs(s: Machine)
    ensures ShiftA(s, ASL) == LoadA(WithCarry(s, Negative(s.a)), Wrap8(2 * s.a))
    ensures ShiftA(s, LSR) == LoadA(WithCarry(s, Odd(s.a) || s.flags.c), s.a / 2)
    ensures ShiftA(s, ROL) == LoadA(WithCarry(s, Negative(s.a)), Wrap8(2 * s.a) + Bit(s.flags.c, 1))
  {
    hide LoadA, WithCarry, Negative, Odd;
  }

  lemma LogicOpIs(s: Machine, op: Mnemonic, mode: Mode)
    requires mode.Immediate? || OperandBytes(mode) > 0
    ensures mode.Immediate? ==>
              var r := Logic(op, s.a, Read(s, s.pc)); LogicOp(s, op, mode) == SetZN(Fetch(s).(a := r), r)
    ensures var t := FetchOperands(s, mode); var r := Logic(op, s.a, Read(t, Address(s, mode)));
      t.a == s.a && (!mode.Immediate? ==> LogicOp(s, op, mode) == SetZN(Write(t.(a := r), Address(s, mode), r), r))
  {
    OperandsKeepA(s, mode);
    hide SetZN, Write, Logic, Next;
    assert mode.Immediate? ==> Address(s, mode) == s.pc && FetchOperands(s, mode) == Fetch(s);
    hide FetchOperands, Fetch, Address, Read;
  }

  lemma CallIs(s: Machine)
    ensures Address(s, Absolute) == WordOf(Read(s, s.pc), Read(Fetch(s), Fetch(s).pc))
  {
    hide Read, Next, Fetch, Log;
    FetchKeepsMemory(s);
    SameMemory(s, Fetch(s), Next(s.pc));
  }

  lemma FetchKeepsMemory(s: Machine)
    ensures Fetch(s).ram == s.ram && Fetch(s).rom == s.rom && Fetch(s).pc == Next(s.pc)
  {
  }

  lemma SameMemory(s: Machine, t: Machine, address: Word)
    requires s.ram == t.ram && s.rom == t.rom
    ensures Read(s, address) == Read(t, address)
  {
  }

  lemma OperandsKeepA(s: Machine, mode: Mode)
    ensures var t := FetchOperands(s, mode); t.a == s.a && t.ram == s.ram && t.rom == s.rom
    ensures mode.Immediate? ==> Read(FetchOperands(s, mode), s.pc) == Read(s, s.pc)
  {
  }

  /** Fetching moves the program counter and logs a byte, and does nothing else. */
  lemma FetchMoves(s: Machine)
    ensures Fetch(s).pc == Next(s.pc) && Fetch(s).flags == s.flags && Fetch(s).cycles == s.cycles
    ensures Address(s, Relative) == Wrap16(Next(s.pc) + (if Read(s, s.pc) >= 0x80 then Read(s, s.pc) - 0x100 else Read(s, s.pc)))
  {
    hide Read, Next, Wrap16;
  }

  lemma BranchIs(s: Machine, op: Mnemonic)
    ensures Branch(s, op) == if Taken(s.flags, op) then Fetch(s).(pc := Address(s, Relative), cycles := s.cycles + 1) else Fetch(s)
  {
    hide Taken, Fetch, Address;
  }

  lemma IndirectIs(s: Machine)
    ensures FetchOperands(s, AbsIndirect) == FetchOperands(s, Absolute)
    ensures var t := FetchOperands(s, Absolute); t.ram == s.ram && t.rom == s.rom
    ensures var p := Address(s, Absolute); Address(s, AbsIndirect) == Read16(s, p, Next(p))
  {
    hide Read, Next, Read16;
  }

  /** A step of an opcode whose entry is known. */
  lemma StepIs(s: Machine, op: Mnemonic, mode: Mode)
    requires Implemented(Opcode(s)) && Table(Opcode(s)).mnemonic == op && Table(Opcode(s)).mode == mode
    ensures Step(s) == Exec(Decoded(s), op, mode).(cycles := Step(s).cycles)
  {
    hide Implemented, Table, Exec, Decoded, Opcode;
  }

  /** Decoding leaves everything alone but the program counter and the log. */
  lemma DecodedKeeps(s: Machine)
    ensures var d := Decoded(s);
      && d.pc == Next(s.pc) && d.a == s.a && d.x == s.x && d.y == s.y && d.flags == s.flags && d.sp == s.sp
      && d.ram == s.ram && d.rom == s.rom && d.cycles == s.cycles
  {
  }
}

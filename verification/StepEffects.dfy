/** The rest of a step: its cost, what a program cannot see of it, and comparisons with the branches behind them. */
module StepEffects {
  import opened Bits
  import opened OpcodeTable
  import opened Cpu
  import opened CpuCases
  import opened CpuRun
  import opened CpuDeviations
  import opened Mos6502
  import opened StepAgreement

  // ---------- cost, and comparing numbers ----------

  lemma BranchClassIs(op: Mnemonic)
    ensures ClassOf(op).BranchClass? <==> KindOf(op).Branching?
  {
    hide KindOf;
  }

  /** What a step costs: the base cycles of the manual, one for a branch that is taken, and one more than documented for
      BVC and BCC. Pages cost nothing. */
  lemma StepCost(s: Machine)
    requires Implemented(Opcode(s)) && IsDocumented(Table(Opcode(s)).mnemonic)
    ensures var e := Table(Opcode(s)); var op := e.mnemonic;
      Step(s).cycles == s.cycles + BaseCycles(op, e.mode) + One(op.BVC? || op.BCC?) + One(KindOf(op).Branching? && Seen(s).Branches(op))
  {
    hide Table, Implemented, KindOf, ClassOf, Exec, Taken, BaseCycles, IsDocumented, MosState.Branches;
    var e := Table(Opcode(s));
    TableIsTimed(Opcode(s));
    BranchClassIs(e.mnemonic);
    DecodedFacts(s);
    DecodedSeen(s);
    if KindOf(e.mnemonic).Branching? {
      TakenSeen(s, e.mnemonic);
    }
    hide Decoded, Opcode;
  }

  /** After a comparison Z and C say whether the register is equal to the operand, and whether it is not below it, whatever
      the operand is; nothing but the flags has changed. */
  lemma ComparisonStep(s: Machine)
    requires Implemented(Opcode(s))
    requires var op := Table(Opcode(s)).mnemonic; op.CMP? || op.CPX? || op.CPY?
    ensures var e := Table(Opcode(s)); var m, t := Seen(s), Step(s); var v := m.At(m.Target(e.mode, true));
      && (t.flags.c <==> m.Register(e.mnemonic) >= v) && (t.flags.z <==> m.Register(e.mnemonic) == v)
      && t.pc == m.Past(e.mode).pc && t.ram == s.ram && t.rom == s.rom
  {
    hide Implemented, Table, ClassOf, KindOf, HasPointer, Step, Exec, ExecOperand, Decoded, Opcode, CompareOp,
        MosState.At,
      MosState.Target, MosState.Past;
    var e := Table(Opcode(s));
    var op := e.mnemonic;
    SuitedPointers(Opcode(s));
    ComparisonKind(op);
    NoPointerInPage(Seen(s), e.mode);
    CompareAgrees(s, op, e.mode);
    PastKeeps(Seen(s), e.mode);
    ExecOfKind(Decoded(s), op, e.mode);
    ExecOfClass(Decoded(s), op, e.mode);
    StepIs(s, op, e.mode);
  }

  lemma ComparisonKind(op: Mnemonic)
    requires op.CMP? || op.CPX? || op.CPY?
    ensures KindOf(op).Comparing?
  {
  }

  lemma BranchStep(s: Machine, op: Mnemonic)
    requires Implemented(Opcode(s)) && Table(Opcode(s)).mnemonic == op && KindOf(op).Branching?
    ensures Step(s).pc == Seen(s).Branched(op).pc
  {
    hide Implemented, Table, ClassOf, KindOf, Step, Exec, Decoded, Opcode, Branch, MosState.Branched;
    BranchAgrees(s, op);
    ExecOfKind(Decoded(s), op, Table(Opcode(s)).mode);
    ExecOfClass(Decoded(s), op, Table(Opcode(s)).mode);
    StepIs(s, op, Table(Opcode(s)).mode);
  }

  lemma BCCEntry()
    ensures Implemented(0x90) && Table(0x90).mnemonic.BCC? && KindOf(BCC).Branching?
  {
  }

  lemma BCSEntry()
    ensures Implemented(0xB0) && Table(0xB0).mnemonic.BCS? && KindOf(BCS).Branching?
  {
  }

  lemma BEQEntry()
    ensures Implemented(0xF0) && Table(0xF0).mnemonic.BEQ? && KindOf(BEQ).Branching?
  {
  }

  lemma BNEEntry()
    ensures Implemented(0xD0) && Table(0xD0).mnemonic.BNE? && KindOf(BNE).Branching?
  {
  }

  /** The branches on C and Z. */
  lemma BranchesOnCZ(t: Machine)
    ensures var m, branch := Seen(t), Opcode(t); var there, on := m.Target(Relative, true), (t.pc + 2) % 65536;
      && (branch == 0x90 ==> Step(t).pc == if t.flags.c then on else there)
      && (branch == 0xB0 ==> Step(t).pc == if t.flags.c then there else on)
      && (branch == 0xF0 ==> Step(t).pc == if t.flags.z then there else on)
      && (branch == 0xD0 ==> Step(t).pc == if t.flags.z then on else there)
  {
    hide Implemented, Table, Step, KindOf, Opcode, MosState.At, MosState.Target;
    BCCEntry(); BCSEntry(); BEQEntry(); BNEEntry();
    var branch := Opcode(t);
    if branch == 0x90 { BranchStep(t, BCC); }
    else if branch == 0xB0 { BranchStep(t, BCS); }
    else if branch == 0xF0 { BranchStep(t, BEQ); }
    else if branch == 0xD0 { BranchStep(t, BNE); }
  }

  lemma SamePlace(m: MosState, n: MosState)
    requires m.Valid() && n.Valid() && m.pc == n.pc && m.ram == n.ram && m.rom == n.rom
    ensures m.Target(Relative, true) == n.Target(Relative, true) && m.At(m.pc) == n.At(n.pc)
  {
  }

  lemma TwoSteps(s: Machine)
    ensures Steps(s, 2) == Step(Step(s))
  {
    hide Step;
    assert Steps(s, 2) == Steps(Step(s), 1) == Steps(Step(Step(s)), 0);
  }

  /** A comparison and the branch behind it: BCC, BCS, BEQ and BNE branch exactly if the register is below, not below,
      equal to, or not equal to the operand. */
  lemma CompareAndBranch(s: Machine)
    requires Implemented(Opcode(s))
    requires var op := Table(Opcode(s)).mnemonic; op.CMP? || op.CPX? || op.CPY?
    ensures var e := Table(Opcode(s)); var m := Seen(s); var n := m.Past(e.mode);
      var r, v := m.Register(e.mnemonic), m.At(m.Target(e.mode, true));
      var branch, there, on := m.At(n.pc), n.Target(Relative, true), (n.pc + 2) % 65536;
      && (branch == 0x90 ==> Steps(s, 2).pc == if r < v then there else on)
      && (branch == 0xB0 ==> Steps(s, 2).pc == if r >= v then there else on)
      && (branch == 0xF0 ==> Steps(s, 2).pc == if r == v then there else on)
      && (branch == 0xD0 ==> Steps(s, 2).pc == if r != v then there else on)
  {
    hide Implemented, Table, Step, Steps, KindOf, MosState.At, MosState.Register, MosState.Target, Opcode;
    ComparisonStep(s);
    TwoSteps(s);
    var t := Step(s);
    var n := Seen(s).Past(Table(Opcode(s)).mode);
    SamePlace(Seen(t), n);
    SamePlace(n, Seen(s).(pc := n.pc));
    OpcodeIs(t);
    AtOther(Seen(s), n);
    BranchesOnCZ(t);
  }

  lemma OpcodeIs(t: Machine)
    ensures Opcode(t) == Seen(t).At(t.pc)
  {
    MemoryAgrees(t);
  }

  lemma AtOther(m: MosState, n: MosState)
    requires m.Valid() && n.Valid() && m.ram == n.ram && m.rom == n.rom
    ensures m.At(n.pc) == n.At(n.pc)
  {
  }

  // ---------- what a program cannot see ----------

  /** The parts of the emulated machine that the processor does not have: halted, and the two unused status bits. */
  predicate SameRest(s: Machine, t: Machine) {
    t.halted == s.halted && t.flags.b4 == s.flags.b4 && t.flags.b5 == s.flags.b5
  }

  lemma FetchRest(s: Machine, mode: Mode)
    ensures SameRest(s, Fetch(s)) && SameRest(s, FetchOperands(s, mode))
  {
    hide Read, Next;
  }

  lemma WriteRest(s: Machine, at: Word, v: Byte)
    ensures SameRest(s, Write(s, at, v)) && SameRest(s, Store(s, at, v)) && SameRest(s, LoadA(s, v))
    ensures SameRest(s, LoadX(s, v))
    ensures SameRest(s, LoadY(s, v)) && SameRest(s, Cpu.Push(s, v)) && SameRest(s, Pull(s)) && SameRest(s, PullPC(s))
  {
    hide Cpu.Top, Wrap8, Negative;
  }

  lemma LoadRest(s: Machine, op: Mnemonic, mode: Mode)
    ensures SameRest(s, Load(s, op, mode))
  {
    hide FetchOperands, Address, Read, LoadA, LoadX, LoadY;
    FetchRest(s, mode);
    var t := FetchOperands(s, mode);
    WriteRest(t, 0, Read(t, Address(s, mode)));
  }

  lemma StoreRest(s: Machine, op: Mnemonic, mode: Mode)
    ensures SameRest(s, StoreRegister(s, op, mode))
  {
    hide FetchOperands, Address, Write;
    FetchRest(s, mode);
    var t := FetchOperands(s, mode);
    WriteRest(t, Address(s, mode), if op.STA? then t.a else if op.STX? then t.x else t.y);
  }

  lemma CountRest(s: Machine, op: Mnemonic, mode: Mode)
    ensures SameRest(s, IncDec(s, op, mode))
  {
    hide FetchOperands, Address, Read, Store;
    FetchRest(s, mode);
    var t := FetchOperands(s, mode);
    var v: int := Read(t, Address(s, mode));
    WriteRest(t, Address(s, mode), if op.INC? then Wrap8(v + 1) else Wrap8(v - 1));
  }

  lemma ShiftRest(s: Machine, op: Mnemonic)
    ensures SameRest(s, ShiftA(s, op)) && forall at: Word :: SameRest(s, ShiftMemory(s, op, at))
  {
    hide Read, Write, Shift, Negative;
    forall at: Word
      ensures SameRest(s, ShiftMemory(s, op, at))
    {
      var (r, c) := Shift(op, Read(s, at), s.flags.c);
      WriteRest(WithCarry(s, c), at, r);
    }
  }

  lemma LogicRest(s: Machine, op: Mnemonic, mode: Mode)
    ensures SameRest(s, LogicOp(s, op, mode))
  {
    hide FetchOperands, Address, Read, Write, Logic, Negative;
    FetchRest(s, mode);
    var t := FetchOperands(s, mode);
    var r := Logic(op, t.a, Read(t, Address(s, mode)));
    WriteRest(t.(a := r), Address(s, mode), r);
  }

  lemma ArithmeticRest(s: Machine, op: Mnemonic, mode: Mode)
    ensures SameRest(s, AddSubtract(s, op, mode)) && SameRest(s, CompareOp(s, op, mode))
  {
    hide FetchOperands, Address, Read, Negative, Wrap8, Xor8, And8, AdcOverflow, SbcOverflow;
    FetchRest(s, mode);
  }

  lemma OperandRest(s: Machine, op: Mnemonic, mode: Mode)
    requires ClassOf(op).OperandClass?
    ensures SameRest(s, ExecOperand(s, op, mode))
  {
    hide KindOf, Load, StoreRegister, IncDec, LogicOp, ShiftA, ShiftMemory, AddSubtract, CompareOp, FetchOperands,
        Address,
      OperandBytes;
    LoadRest(s, op, mode);
    StoreRest(s, op, mode);
    CountRest(s, op, mode);
    ShiftRest(s, op);
    FetchRest(s, mode);
    ShiftRest(FetchOperands(s, mode), op);
    LogicRest(s, op, mode);
    ArithmeticRest(s, op, mode);
  }

  /** What an operation does to what a program cannot see: PLP and RTI take the unused bits from the stack, and the opcode
      for HLT stops the emulator. */
  predicate RestAfter(s: Machine, op: Mnemonic, t: Machine) {
    t.halted == (s.halted || op.STP?)
    && if op.PLP? || op.RTI? then t.flags.b4 == (Cpu.Top(s) / 16 % 2 == 1) && t.flags.b5 == (Cpu.Top(s) / 32 % 2 == 1)
       else t.flags.b4 == s.flags.b4 && t.flags.b5 == s.flags.b5
  }

  lemma StackRest(s: Machine, op: Mnemonic)
    requires KindOf(op).Stacking?
    ensures RestAfter(s, op, StackOp(s, op))
  {
    StackKinds(op);
    hide KindOf, Cpu.Push, Pull, LoadA, FlagsOf, Cpu.Top;
    WriteRest(s, 0, s.a);
    WriteRest(s, 0, s.flags.(b4 := true, b5 := true).ToByte());
    WriteRest(Pull(s), 0, Cpu.Top(s));
    UnusedOf(Cpu.Top(s));
  }

  lemma UnusedOf(x: Byte)
    ensures FlagsOf(x).b4 == (x / 16 % 2 == 1) && FlagsOf(x).b5 == (x / 32 % 2 == 1)
  {
    var x4 := x / 2 / 2 / 2 / 2;
    assert x4 == x / 16 && x4 / 2 == x / 32;
  }

  lemma RegisterRest(s: Machine, op: Mnemonic)
    requires KindOf(op).Registering? || KindOf(op).Flagging?
    ensures KindOf(op).Registering? ==> RestAfter(s, op, RegisterOp(s, op))
    ensures KindOf(op).Flagging? ==> RestAfter(s, op, FlagOp(s, op))
  {
    hide Negative, Wrap8, Cpu.Top;
  }

  lemma CallRest(s: Machine, mode: Mode)
    ensures SameRest(s, CallSubroutine(s)) && SameRest(s, Return(s)) && SameRest(s, JumpTo(s, mode))
  {
    hide PushPC, PullPC, FetchOperands, Fetch, Address, Read;
    FetchRest(s, mode);
    PushesRest(Log(Fetch(s), Read(Fetch(s), Fetch(s).pc)));
    WriteRest(s, 0, 0);
    FetchRest(PullPC(s), mode);
  }

  lemma BreakRest(s: Machine)
    ensures SameRest(s, Break(s))
  {
    hide PushPC, Cpu.Push, Read16, Flags.ToByte, Next;
    var t := PushPC(s.(pc := Next(s.pc)));
    PushesRest(s.(pc := Next(s.pc)));
    WriteRest(t, 0, t.flags.ToByte());
  }

  lemma ResumeRest(s: Machine)
    ensures RestAfter(s, RTI, ReturnFromInterrupt(s))
  {
    hide PullPC, Cpu.Top, FlagsOf;
    UnusedOf(Cpu.Top(s));
    WriteRest(Pull(s).(flags := FlagsOf(Cpu.Top(s))), 0, 0);
  }

  lemma JumpRest(s: Machine, op: Mnemonic, mode: Mode)
    requires KindOf(op).Jumping?
    ensures RestAfter(s, op, Jump(s, op, mode))
  {
    hide KindOf, Cpu.Top, CallSubroutine, Return, Break, ReturnFromInterrupt, JumpTo;
    JumpKinds(op);
    CallRest(s, mode);
    BreakRest(s);
    ResumeRest(s);
  }

  lemma PushesRest(s: Machine)
    ensures SameRest(s, PushPC(s))
  {
  }

  lemma ExecRest(s: Machine, op: Mnemonic, mode: Mode)
    requires !ClassOf(op).NoClass?
    ensures RestAfter(s, op, Exec(s, op, mode))
  {
    hide KindOf, ClassOf, Exec, ExecOperand, ExecImplied, Branch, Jump, StackOp, RegisterOp, FlagOp, Cpu.Top;
    AllKinds(op);
    OperandIsPlain(op);
    ExecOfKind(s, op, mode);
    ExecOfClass(s, op, mode);
    var k := KindOf(op);
    if k.Stacking? { StackRest(s, op); }
    else if k.Registering? || k.Flagging? { RegisterRest(s, op); }
    else if k.Jumping? { JumpRest(s, op, mode); }
    else if k.Branching? { BranchRest(s, op); }
    else { OperandRest(s, op, mode); }
  }

  lemma BranchRest(s: Machine, op: Mnemonic)
    ensures SameRest(s, Branch(s, op))
  {
    hide Taken, Fetch, Address;
    FetchRest(s, Relative);
  }

  lemma OperandIsPlain(op: Mnemonic)
    ensures op.PLP? ==> KindOf(op).Stacking?
    ensures op.RTI? ==> KindOf(op).Jumping?
    ensures op.STP? ==> KindOf(op).Flagging?
  {
  }

  /** Only HLT stops the emulator, and only PLP and RTI touch the unused status bits. */
  lemma StepRest(s: Machine)
    requires Implemented(Opcode(s))
    ensures RestAfter(s, Table(Opcode(s)).mnemonic, Step(s))
  {
    hide Implemented, Table, ClassOf, KindOf, HasPointer, Step, Exec, Decoded, Opcode, Cpu.Top;
    var e := Table(Opcode(s));
    SuitedPointers(Opcode(s));
    ExecRest(Decoded(s), e.mnemonic, e.mode);
    StepIs(s, e.mnemonic, e.mode);
    DecodedRest(s);
  }

  lemma DecodedRest(s: Machine)
    ensures SameRest(s, Decoded(s)) && Cpu.Top(Decoded(s)) == Cpu.Top(s)
  {
  }

  /** An opcode without a case is passed over. */
  lemma SkippedStep(s: Machine)
    requires !Implemented(Opcode(s))
    ensures Seen(Step(s)) == Seen(s).(pc := (s.pc + 1) % 65536) && SameRest(s, Step(s))
    ensures Step(s).cycles == s.cycles + Table(Opcode(s)).cycles
  {
    DecodedSeen(s);
    DecodedRest(s);
    DecodedFacts(s);
    hide Implemented, Table, Decoded;
  }
}

/** One step of the emulator against one step of the processor that it emulates: for every instruction and every state
    they are the same, exactly unless the state is one of those that are listed here. */
module StepAgreement {
  import opened Bits
  import opened OpcodeTable
  import opened Cpu
  import opened CpuCases
  import opened CpuRun
  import opened CpuDeviations
  import opened Mos6502

  // ---------- memory and addresses agree ----------

  lemma MemoryAgrees(s: Machine)
    ensures forall at: Word :: Seen(s).At(at) == Read(s, at)
    ensures forall at: Word, v: Byte :: Seen(Write(s, at, v)) == Seen(s).With(at, v)
  {
  }

  lemma PointersAgree(s: Machine, at: Word)
    ensures Seen(s).Pointer(at, false) == Read16(s, at, Next(at))
    ensures at % 256 != 255 ==> Seen(s).Pointer(at, true) == Seen(s).Pointer(at, false)
  {
    MemoryAgrees(s);
    hide Read, MosState.At;
  }

  lemma FetchSeen(s: Machine)
    ensures Seen(Fetch(s)) == Seen(s).(pc := (s.pc + 1) % 65536) && Fetch(s).flags == s.flags
  {
    hide Read;
  }

  /** The state in which the operand bytes are next. */
  lemma DecodedSeen(s: Machine)
    ensures Seen(Decoded(s)) == Seen(s).(pc := (s.pc + 1) % 65536) && Decoded(s).flags == s.flags
    ensures Decoded(s).rom == s.rom
  {
    hide Read, Fetch;
    FetchSeen(s.(loggedOpcode := 0, operands := []));
  }

  /** The state behind the operand bytes. */
  lemma FetchAgrees(s: Machine, mode: Mode)
    ensures var t := FetchOperands(Decoded(s), mode); Seen(t) == Seen(s).Past(mode) && t.flags == s.flags
  {
    hide Decoded, Fetch;
    var d := Decoded(s);
    DecodedSeen(s);
    FetchSeen(d);
    FetchSeen(Fetch(d));
  }

  /** The operand bytes, and the pointers that may be in them. */
  lemma OperandsAgree(s: Machine)
    ensures var d := Decoded(s); var m := Seen(s);
      && Read(d, d.pc) == m.At((s.pc + 1) % 65536)
      && Read16(d, d.pc, Next(d.pc)) == m.Pair((s.pc + 1) % 65536, (s.pc + 2) % 65536)
      && forall at: Word :: Read16(d, at, Next(at)) == m.Pointer(at, false)
  {
    hide Decoded, Read, MosState.At;
    var d := Decoded(s);
    DecodedSeen(s);
    MemoryAgrees(d);
    MemoryAgrees(s);
    SameMemory(s, d);
    forall at: Word
      ensures Read16(d, at, Next(at)) == Seen(s).Pointer(at, false)
    {
      PointersAgree(s, at);
    }
  }

  lemma PageZeroAgrees(s: Machine, mode: Mode)
    requires mode.ZeroPage? || mode.ZeroPageX? || mode.ZeroPageY?
    ensures Address(Decoded(s), mode) == Seen(s).Target(mode, false)
  {
    hide Decoded, MosState.At, MosState.Pointer, MosState.Pair, Read, Read16, Next, Wrap8, Wrap16;
    DecodedSeen(s);
    OperandsAgree(s);
    WrapsAre();
  }

  lemma AbsoluteAgrees(s: Machine, mode: Mode)
    requires mode.Absolute? || mode.AbsoluteX? || mode.AbsoluteY?
    ensures Address(Decoded(s), mode) == Seen(s).Target(mode, false)
  {
    hide Decoded, MosState.At, MosState.Pointer, MosState.Pair, Read, Read16, Next, Wrap8, Wrap16;
    DecodedSeen(s);
    OperandsAgree(s);
    WrapsAre();
  }

  lemma IndirectXAgrees(s: Machine, mode: Mode)
    requires mode.IndirectX?
    ensures Address(Decoded(s), mode) == Seen(s).Target(mode, false)
  {
    hide Decoded, MosState.At, MosState.Pointer, MosState.Pair, Read, Read16, Next, Wrap8, Wrap16;
    DecodedSeen(s);
    OperandsAgree(s);
    NextIs();
    WrapsAre();
  }

  lemma IndirectYAgrees(s: Machine, mode: Mode)
    requires mode.IndirectY?
    ensures Address(Decoded(s), mode) == Seen(s).Target(mode, false)
  {
    hide Decoded, MosState.At, MosState.Pointer, MosState.Pair, Read, Read16, Next, Wrap8, Wrap16;
    DecodedSeen(s);
    OperandsAgree(s);
    NextIs();
    WrapsAre();
  }

  lemma AbsIndirectAgrees(s: Machine, mode: Mode)
    requires mode.AbsIndirect?
    ensures Address(Decoded(s), mode) == Seen(s).Target(mode, false)
  {
    hide Decoded, MosState.At, MosState.Pointer, MosState.Pair, Read, Read16, Next, Wrap8, Wrap16;
    DecodedSeen(s);
    OperandsAgree(s);
    NextIs();
    WrapsAre();
  }

  lemma RelativeAgrees(s: Machine)
    ensures Address(Decoded(s), Relative) == Seen(s).Target(Relative, false)
  {
    hide Decoded, MosState.At, MosState.Pointer, MosState.Pair, Read, Read16, Next, Wrap8, Wrap16;
    DecodedSeen(s);
    OperandsAgree(s);
    BranchWraps(s.pc, Read(Decoded(s), Decoded(s).pc));
  }

  lemma BranchWraps(pc: Word, b: Byte)
    ensures Wrap16(Next((pc + 1) % 65536) + (if b >= 0x80 then b - 0x100 else b)) == (pc + 2 + Signed(b)) % 65536
  {
  }

  lemma AddressAgrees(s: Machine, mode: Mode)
    ensures Address(Decoded(s), mode) == Seen(s).Target(mode, false)
  {
    hide Address, MosState.Target, Decoded;
    if mode.ZeroPage? || mode.ZeroPageX? || mode.ZeroPageY? {
      PageZeroAgrees(s, mode);
    } else if mode.Absolute? || mode.AbsoluteX? || mode.AbsoluteY? {
      AbsoluteAgrees(s, mode);
    } else if mode.IndirectX? {
      IndirectXAgrees(s, mode);
    } else if mode.IndirectY? {
      IndirectYAgrees(s, mode);
    } else if mode.AbsIndirect? {
      AbsIndirectAgrees(s, mode);
    } else if mode.Relative? {
      RelativeAgrees(s);
    } else {
      OtherAgrees(s, mode);
    }
  }

  lemma OtherAgrees(s: Machine, mode: Mode)
    requires mode.Implied? || mode.Accumulator? || mode.Immediate? || mode.Unknown?
    ensures Address(Decoded(s), mode) == Seen(s).Target(mode, false)
  {
    hide Decoded, MosState.At, MosState.Pointer, MosState.Pair, Read, Read16, Next, Wrap8, Wrap16;
    DecodedSeen(s);
  }

  lemma WrapsAre()
    ensures forall x :: 0 <= x < 0x200 ==> Wrap8(x) == x % 256
    ensures forall x :: 0 <= x < 0x2_0000 ==> Wrap16(x) == x % 65536
  {
  }

  lemma NextIs()
    ensures forall at: Word :: Next(at) == (at + 1) % 65536
  {
  }

  lemma SameMemory(s: Machine, t: Machine)
    requires s.ram == t.ram && s.rom == t.rom
    ensures forall at: Word :: Read(s, at) == Read(t, at)
  {
  }

  // ---------- every kind of instruction agrees, up to the deviations ----------

  /** The two bytes of a pointer are in the same page, or the mode has no pointer. */
  predicate InPage(m: MosState, mode: Mode)
    requires m.Valid()
  {
    m.Target(mode, true) == m.Target(mode, false)
  }

  /** What the operation of an instruction starts from, and the address it works on. */
  lemma OperandAgrees(s: Machine, mode: Mode)
    ensures var d := Decoded(s); var t := FetchOperands(d, mode); var at := Address(d, mode);
      && Seen(t) == Seen(s).Past(mode) && t.flags == s.flags && at == Seen(s).Target(mode, false)
      && Read(t, at) == Seen(s).At(at) && Read(d, at) == Seen(s).At(at)
  {
    hide Decoded, FetchOperands, Address, Read, MosState.At, MosState.Target;
    FetchAgrees(s, mode);
    DecodedSeen(s);
    AddressAgrees(s, mode);
    MemoryAgrees(s);
    SameMemory(s, FetchOperands(Decoded(s), mode));
    SameMemory(s, Decoded(s));
  }

  lemma PastKeeps(m: MosState, mode: Mode)
    ensures var n := m.Past(mode); n == m.(pc := n.pc)
  {
  }

  lemma ResultSeen(t: Machine, v: Byte)
    ensures Seen(LoadA(t, v)) == Seen(t).(a := v).Result(v)
    ensures Seen(LoadX(t, v)) == Seen(t).(x := v).Result(v)
    ensures Seen(LoadY(t, v)) == Seen(t).(y := v).Result(v)
  {
  }

  lemma LoadAgrees(s: Machine, op: Mnemonic, mode: Mode)
    requires InPage(Seen(s), mode)
    ensures Seen(Load(Decoded(s), op, mode)) == Seen(s).Loaded(op, mode)
  {
    hide Decoded, FetchOperands, Address, Read, LoadA, LoadX, LoadY, MosState.At, MosState.Target, MosState.Past,
      MosState.Result;
    OperandAgrees(s, mode);
    var t := FetchOperands(Decoded(s), mode);
    ResultSeen(t, Read(t, Address(Decoded(s), mode)));
  }

  lemma StoreAgrees(s: Machine, op: Mnemonic, mode: Mode)
    ensures Seen(StoreRegister(Decoded(s), op, mode)) == Seen(s).Stored(op, mode, false)
  {
    hide Decoded, FetchOperands, Address, Read, Write, MosState.At, MosState.With, MosState.Target;
    OperandAgrees(s, mode);
    MemoryAgrees(FetchOperands(Decoded(s), mode));
  }

  /** A comparison is right but for N, which is wrong exactly for the differences from -128 to -1. */
  predicate ComparesAs(t: MosState, m: MosState, difference: int) {
    t.(n := m.n) == m && (t.n == m.n <==> !(-128 <= difference < 0))
  }

  lemma CompareSeen(t: Machine, register: Byte, v: Byte)
    ensures ComparesAs(Seen(Compare(t, register, v)), Seen(t).(c := register >= v).Result((register - v) % 256), register - v)
  {
    CompareNegativeFlag(t, register, v);
  }

  lemma CompareAgrees(s: Machine, op: Mnemonic, mode: Mode)
    requires InPage(Seen(s), mode) && (op.CMP? || op.CPX? || op.CPY?)
    ensures var m := Seen(s);
      ComparesAs(Seen(CompareOp(Decoded(s), op, mode)), m.Compared(op, mode), m.Register(op) - m.At(m.Target(mode, true)))
  {
    hide Decoded, FetchOperands, Address, Read, MosState.At, MosState.Target, MosState.Past, Compare, ComparesAs,
        MosState.Result;
    OperandAgrees(s, mode);
    PastKeeps(Seen(s), mode);
    var t := FetchOperands(Decoded(s), mode);
    var v := Read(t, Address(Decoded(s), mode));
    CompareSeen(t, Seen(s).Register(op), v);
  }

  lemma TestSeen(t: Machine, v: Byte)
    ensures Seen(TestBits(t, v)) == Seen(t).(z := And8(t.a, v) == 0, n := v >= 128, v := v / 64 % 2 == 1)
  {
    hide And8;
  }

  lemma TestAgrees(s: Machine, mode: Mode)
    requires InPage(Seen(s), mode)
    ensures Seen(CompareOp(Decoded(s), BIT, mode)) == Seen(s).Tested(mode)
  {
    hide Decoded, FetchOperands, Address, Read, MosState.At, MosState.Target, MosState.Past, TestBits, And8;
    OperandAgrees(s, mode);
    PastKeeps(Seen(s), mode);
    TestSeen(FetchOperands(Decoded(s), mode), Read(FetchOperands(Decoded(s), mode), Address(Decoded(s), mode)));
  }

  lemma StoreSeen(t: Machine, at: Word, r: Byte)
    ensures Seen(Store(t, at, r)) == Seen(t).With(at, r).Result(r)
  {
    MemoryAgrees(t);
    hide Read;
  }

  lemma CountAgrees(s: Machine, op: Mnemonic, mode: Mode)
    requires InPage(Seen(s), mode)
    ensures Seen(IncDec(Decoded(s), op, mode)) == Seen(s).Counted(op, mode)
  {
    hide Decoded, FetchOperands, Address, Read, Store, MosState.At, MosState.With, MosState.Target, MosState.Past,
      MosState.Result;
    OperandAgrees(s, mode);
    var t := FetchOperands(Decoded(s), mode);
    var v: int := Read(t, Address(Decoded(s), mode));
    StoreSeen(t, Address(Decoded(s), mode), if op.INC? then Wrap8(v + 1) else Wrap8(v - 1));
  }

  /** The value and the carry of a shift. */
  lemma ShiftSeen(s: Machine, op: Mnemonic, v: Byte)
    ensures Shift(op, v, s.flags.c) == Seen(s).Shifted(op, v)
  {
    hide Wrap8;
    DoubleIs(v);
  }

  lemma DoubleIs(v: Byte)
    ensures Wrap8(2 * v) == 2 * v % 256 && (2 * v + 1) % 256 == 2 * v % 256 + 1
  {
  }

  lemma StoreResult(t: Machine, at: Word, r: Byte, carry: bool)
    ensures Seen(Store(WithCarry(t, carry), at, r)) == Seen(t).With(at, r).(c := carry).Result(r)
  {
    MemoryAgrees(t);
    hide Read;
  }

  lemma ShiftMemoryAgrees(s: Machine, op: Mnemonic, mode: Mode)
    requires InPage(Seen(s), mode)
    ensures var d := Decoded(s);
      Seen(ShiftMemory(FetchOperands(d, mode), op, Address(d, mode))) == Seen(s).ShiftedMemory(op, mode)
  {
    hide Decoded, FetchOperands, Address, Read, Store, WithCarry, MosState.At, MosState.With, MosState.Target,
        MosState.Past,
      MosState.Result, Shift, MosState.Shifted;
    OperandAgrees(s, mode);
    var t := FetchOperands(Decoded(s), mode);
    var at := Address(Decoded(s), mode);
    ShiftSeen(s, op, Read(t, at));
    var (r, carry) := Shift(op, Read(t, at), s.flags.c);
    StoreResult(t, at, r, carry);
  }

  lemma ShiftASeen(t: Machine, op: Mnemonic)
    ensures var (r, out) := Shift(op, t.a, t.flags.c);
      Seen(ShiftA(t, op)) == Seen(t).(a := r, c := if op.LSR? then out || t.flags.c else out).Result(r)
  {
    hide Shift;
  }

  /** A shift of the accumulator is right but for the carry of LSR, which is not cleared. */
  predicate ShiftsAs(t: MosState, m: MosState, stays: bool) {
    t.(c := m.c) == m && (t.c == m.c <==> !stays)
  }

  lemma ShiftAAgrees(s: Machine, op: Mnemonic, mode: Mode)
    requires OperandBytes(mode) == 0
    ensures ShiftsAs(Seen(ShiftA(Decoded(s), op)), Seen(s).ShiftedA(op, mode), op.LSR? && s.a % 2 == 0 && s.flags.c)
  {
    hide Decoded, Shift, ShiftA, MosState.Shifted;
    DecodedSeen(s);
    ShiftSeen(s, op, s.a);
    ShiftASeen(Decoded(s), op);
    ShiftOut(Seen(s), op);
  }

  lemma ShiftOut(m: MosState, op: Mnemonic)
    ensures op.LSR? ==> m.Shifted(op, m.a).1 == (m.a % 2 == 1)
  {
  }

  lemma LogicSeen(t: Machine, op: Mnemonic, at: Word, r: Byte, writes: bool)
    ensures Seen(SetZN(if writes then Write(t.(a := r), at, r) else t.(a := r), r)) ==
            (if writes then Seen(t).(a := r).With(at, r) else Seen(t).(a := r)).Result(r)
  {
    MemoryAgrees(t.(a := r));
    hide Read;
  }

  /** ORA, EOR and AND are right but for the write to a memory operand. */
  lemma LogicAgrees(s: Machine, op: Mnemonic, mode: Mode)
    requires InPage(Seen(s), mode)
    ensures var t, m, at := Seen(LogicOp(Decoded(s), op, mode)), Seen(s).Combined(op, mode), Seen(s).Target(mode, true);
      t == if mode.Immediate? then m else m.With(at, m.a)
  {
    hide Decoded, FetchOperands, Address, Read, Write, MosState.At, MosState.With, MosState.Target, MosState.Past,
      SetZN, MosState.Result, Or8, Xor8, And8;
    OperandAgrees(s, mode);
    var t := FetchOperands(Decoded(s), mode);
    var at := Address(Decoded(s), mode);
    PastKeeps(Seen(s), mode);
    var r := Logic(op, t.a, Read(t, at));
    LogicSeen(t, op, at, r, !mode.Immediate?);
    WithThenResult(Seen(t).(a := r), at, r);
  }

  lemma WithThenResult(m: MosState, at: Word, r: Byte)
    requires m.Valid()
    ensures m.With(at, r).Result(r) == m.Result(r).With(at, r) && m.Result(r).a == m.a
  {
  }

  /** Sums are right but for V, which is wrong exactly if both operands are negative; differences, if only the
      subtrahend is. */
  predicate AddsAs(t: MosState, m: MosState, wrong: bool) {
    t.(v := m.v) == m && (t.v == m.v <==> !wrong)
  }

  lemma AddSeen(t: Machine, v: Byte)
    ensures var sum := t.a + v + One(t.flags.c);
      AddsAs(Seen(Adc(t, v)), Seen(t).(a := sum % 256, c := sum >= 256,
        v := !(-128 <= Signed(t.a) + Signed(v) + One(t.flags.c) <= 127)).Result(sum % 256), t.a >= 128 && v >= 128)
  {
    hide Xor8, AdcOverflow;
    AdcOverflowFlag(t, v);
  }

  lemma SubtractSeen(t: Machine, v: Byte)
    ensures var rest := t.a - v - One(!t.flags.c);
      AddsAs(Seen(Sbc(t, v)), Seen(t).(a := rest % 256, c := rest >= 0,
        v := !(-128 <= Signed(t.a) - Signed(v) - One(!t.flags.c) <= 127)).Result(rest % 256), t.a < 128 && v >= 128)
  {
    hide Xor8, SbcOverflow;
    SbcOverflowFlag(t, v);
  }

  lemma AddAgrees(s: Machine, op: Mnemonic, mode: Mode)
    requires InPage(Seen(s), mode) && (op.ADC? || op.SBC?)
    ensures var m := Seen(s); var v := m.At(m.Target(mode, true));
      AddsAs(Seen(AddSubtract(Decoded(s), op, mode)), if op.ADC? then m.Added(mode) else m.Subtracted(mode),
        (op.ADC? <==> m.a >= 128) && v >= 128)
  {
    hide Decoded, FetchOperands, Address, Read, Adc, Sbc, AddsAs, MosState.At, MosState.Target, MosState.Past,
        MosState.Result;
    OperandAgrees(s, mode);
    PastKeeps(Seen(s), mode);
    var t := FetchOperands(Decoded(s), mode);
    AddSeen(t, Read(t, Address(Decoded(s), mode)));
    SubtractSeen(t, Read(t, Address(Decoded(s), mode)));
  }

  lemma TransferAgrees(s: Machine, op: Mnemonic)
    requires op.TAX? || op.TAY? || op.TXA? || op.TYA? || op.TSX? || op.TXS?
    ensures Seen(RegisterOp(Decoded(s), op)) == Seen(s).Registered(op)
  {
    hide Decoded, LoadA, LoadX, LoadY, MosState.Result, Wrap8;
    var d := Decoded(s);
    DecodedSeen(s);
    RegisterOpIs(d, op);
    hide RegisterOp;
    ResultSeen(d, if op.TAX? || op.TAY? then s.a else if op.TXA? then s.x else if op.TYA? then s.y else s.sp);
  }

  lemma CountXAgrees(s: Machine, op: Mnemonic)
    requires op.INX? || op.DEX? || op.DEY?
    ensures Seen(RegisterOp(Decoded(s), op)) == Seen(s).Registered(if op.DEY? then DEX else op)
  {
    hide Decoded, LoadA, LoadX, LoadY, MosState.Result, Wrap8;
    var d := Decoded(s);
    DecodedSeen(s);
    RegisterOpIs(d, op);
    hide RegisterOp;
    SmallSteps(s);
    ResultSeen(d, Wrap8(if op.INX? then s.x + 1 else s.x - 1));
  }

  lemma CountYAgrees(s: Machine)
    ensures Seen(RegisterOp(Decoded(s), INY)) == Seen(s).Registered(INY)
  {
    hide Decoded, LoadA, LoadX, LoadY, MosState.Result, Wrap8;
    var d := Decoded(s);
    DecodedSeen(s);
    RegisterOpIs(d, INY);
    hide RegisterOp;
    SmallSteps(s);
    ResultSeen(d, Wrap8(s.y + 1));
  }

  lemma RegisterAgrees(s: Machine, op: Mnemonic)
    requires KindOf(op).Registering?
    ensures Seen(RegisterOp(Decoded(s), op)) == Seen(s).Registered(if op.DEY? then DEX else op)
  {
    RegisterKinds(op);
    hide KindOf, RegisterOp, MosState.Registered, Decoded;
    if op.INY? {
      CountYAgrees(s);
    } else if op.INX? || op.DEX? || op.DEY? {
      CountXAgrees(s, op);
    } else {
      TransferAgrees(s, op);
    }
  }

  lemma SmallSteps(s: Machine)
    ensures Wrap8(s.x + 1) == (s.x + 1) % 256 && Wrap8(s.y + 1) == (s.y + 1) % 256
    ensures Wrap8(s.x - 1) == (s.x + 255) % 256
  {
  }

  lemma RegisterKinds(op: Mnemonic)
    requires KindOf(op).Registering?
    ensures op.TAX? || op.TAY? || op.TXA? || op.TYA? || op.TSX? || op.TXS? || op.INX? || op.INY? || op.DEX? || op.DEY?
  {
  }

  /** DEY counts X: that is never the same. */
  lemma DeyIsWrong(m: MosState)
    ensures m.Registered(DEX) != m.Registered(DEY)
  {
    assert m.Registered(DEX).y == m.y != m.Registered(DEY).y;
  }

  lemma FlagKinds(op: Mnemonic)
    requires KindOf(op).Flagging?
    ensures op.SEC? || op.CLC? || op.CLV? || op.SEI? || op.CLI? || op.SED? || op.STP? || op.NOP?
  {
  }

  lemma FlagAgrees(s: Machine, op: Mnemonic)
    requires KindOf(op).Flagging?
    ensures Seen(FlagOp(Decoded(s), op)) == Seen(s).Flagged(op)
  {
    FlagKinds(op);
    hide KindOf, FlagOp, MosState.Flagged, Decoded;
    if op.SEC? || op.CLC? || op.CLV? {
      CarryOpAgrees(s, op);
    } else {
      ModeOpAgrees(s, op);
    }
  }

  lemma CarryOpAgrees(s: Machine, op: Mnemonic)
    requires op.SEC? || op.CLC? || op.CLV?
    ensures Seen(FlagOp(Decoded(s), op)) == Seen(s).Flagged(op)
  {
    hide Decoded, FlagOp;
    DecodedSeen(s);
    FlagOpIs(Decoded(s), op);
  }

  lemma ModeOpAgrees(s: Machine, op: Mnemonic)
    requires op.SEI? || op.CLI? || op.SED? || op.STP? || op.NOP?
    ensures Seen(FlagOp(Decoded(s), op)) == Seen(s).Flagged(op)
  {
    hide Decoded, FlagOp;
    DecodedSeen(s);
    FlagOpIs(Decoded(s), op);
  }

  // ---------- the stack ----------

  lemma PushSeen(t: Machine, v: Byte)
    ensures Seen(Cpu.Push(t, v)) == Seen(t).Push(v) && Cpu.Push(t, v).flags == t.flags && Cpu.Push(t, v).rom == t.rom
  {
    MemoryAgrees(t);
    hide Read;
  }

  lemma PullSeen(t: Machine)
    ensures Cpu.Top(t) == Seen(t).Top(1) && Seen(Pull(t)) == Seen(t).Drop(1) && Pull(t).flags == t.flags
    ensures Cpu.Top(Pull(t)) == Seen(t).Top(2) && Seen(Pull(Pull(t))) == Seen(t).Drop(2)
  {
    MemoryAgrees(t);
    SameMemory(t, Pull(t));
    hide Read, MosState.At;
  }

  lemma PushWordSeen(t: Machine)
    ensures Seen(PushPC(t)) == Seen(t).PushWord(t.pc) && PushPC(t).flags == t.flags && PushPC(t).rom == t.rom
  {
    hide Cpu.Push, MosState.Push;
    PushSeen(t, High(t.pc));
    PushSeen(Cpu.Push(t, High(t.pc)), Low(t.pc));
  }

  /** The bits of a status byte, as a number. */
  lemma ByteOfFlags(f: Flags)
    ensures f.ToByte() == One(f.c) + 2 * One(f.z) + 4 * One(f.i) + 8 * One(f.d) + 16 * One(f.b4) + 32 * One(f.b5)
                          + 64 * One(f.v) + 128 * One(f.n)
  {
  }

  lemma StatusSeen(t: Machine)
    ensures t.flags.ToByte() == Seen(t).Status() - 16 * One(!t.flags.b4) - 32 * One(!t.flags.b5)
  {
    ByteOfFlags(t.flags);
    hide Flags.ToByte;
  }

  lemma StatusIsWhole(t: Machine)
    ensures t.flags.ToByte() == Seen(t).Status() <==> t.flags.b4 && t.flags.b5
  {
    StatusSeen(t);
    hide Flags.ToByte, MosState.Status;
  }

  lemma PushedStatusSeen(t: Machine)
    ensures t.flags.(b4 := true, b5 := true).ToByte() == Seen(t).Status()
  {
  }

  lemma FlagsSeen(t: Machine, x: Byte)
    ensures Seen(t.(flags := FlagsOf(x))) == Seen(t).WithStatus(x)
  {
    Halves(x);
  }

  lemma Halves(x: Byte)
    ensures var x1 := x / 2; var x2 := x1 / 2; var x3 := x2 / 2; var x6 := x3 / 2 / 2 / 2;
      x2 == x / 4 && x3 == x / 8 && x6 == x / 64 && x6 / 2 == x / 128
  {
  }

  lemma StackKinds(op: Mnemonic)
    requires KindOf(op).Stacking?
    ensures op.PHA? || op.PLA? || op.PHP? || op.PLP?
  {
  }

  lemma StackAgrees(s: Machine, op: Mnemonic)
    requires KindOf(op).Stacking?
    ensures Seen(StackOp(Decoded(s), op)) == Seen(s).Stacked(op)
  {
    hide Decoded, KindOf, Cpu.Push, Cpu.Top, Pull, LoadA, FlagsOf, Flags.ToByte, MosState.Push, MosState.Top,
        MosState.Drop,
      MosState.Status, MosState.WithStatus, MosState.Result;
    DecodedSeen(s);
    StackKinds(op);
    var d := Decoded(s);
    StackedLater(s);
    PushSeen(d, d.a);
    PushSeen(d, Seen(d).Status());
    PushedStatusSeen(d);
    PullSeen(d);
    ResultSeen(Pull(d), Cpu.Top(d));
    FlagsSeen(Pull(d), Cpu.Top(d));
  }

  /** Moving the program counter on does not touch what the stack operations see. */
  lemma StackedLater(s: Machine)
    ensures Seen(s).Past(Implied).Status() == Seen(s).Status() && Seen(s).Past(Implied).Top(1) == Seen(s).Top(1)
  {
    hide MosState.At;
    assert forall at: Word :: Seen(s).Past(Implied).At(at) == Seen(s).At(at) by { AtPast(s); }
  }

  lemma AtPast(s: Machine)
    ensures forall at: Word :: Seen(s).Past(Implied).At(at) == Seen(s).At(at)
  {
  }

  // ---------- the flow of control ----------

  lemma BranchKinds(op: Mnemonic)
    requires KindOf(op).Branching?
    ensures op.BNE? || op.BEQ? || op.BPL? || op.BMI? || op.BVC? || op.BVS? || op.BCC? || op.BCS?
  {
  }

  lemma TakenSeen(t: Machine, op: Mnemonic)
    requires KindOf(op).Branching?
    ensures Taken(t.flags, op) <==> Seen(t).Branches(op)
  {
    BranchKinds(op);
    hide KindOf;
  }

  lemma BranchAgrees(s: Machine, op: Mnemonic)
    requires KindOf(op).Branching?
    ensures Seen(Branch(Decoded(s), op)) == Seen(s).Branched(op)
  {
    hide Decoded, KindOf, Taken, Fetch, Address, MosState.Target, MosState.Branches;
    var d := Decoded(s);
    DecodedSeen(s);
    FetchAgrees(s, Relative);
    AddressAgrees(s, Relative);
    TakenSeen(s, op);
    RelativeInPage(Seen(s));
  }

  lemma RelativeInPage(m: MosState)
    requires m.Valid()
    ensures InPage(m, Relative) && InPage(m, Absolute)
  {
  }

  lemma LogSeen(t: Machine, b: Byte)
    ensures Seen(Log(t, b)) == Seen(t) && Log(t, b).flags == t.flags
  {
  }

  lemma CallAgrees(s: Machine)
    ensures Seen(CallSubroutine(Decoded(s))) == Seen(s).Called()
  {
    hide Decoded, Fetch, Log, Read, PushPC, Address, MosState.PushWord, MosState.Target;
    var d := Decoded(s);
    DecodedSeen(s);
    FetchSeen(d);
    AddressAgrees(s, Absolute);
    RelativeInPage(Seen(s));
    var t := Fetch(d);
    var u := Log(t, Read(t, t.pc));
    LogSeen(t, Read(t, t.pc));
    PushWordSeen(u);
    PushWordLater(Seen(s), u.pc, u.pc);
    hide Seen;
  }

  /** What is pushed does not depend on the program counter. */
  lemma PushWordLater(m: MosState, pc: Word, w: Word)
    requires m.Valid()
    ensures m.(pc := pc).PushWord(w) == m.PushWord(w).(pc := pc)
  {
  }

  lemma PullWordSeen(t: Machine)
    ensures Seen(PullPC(t)) == Seen(t).Drop(2).(pc := Seen(t).Top(1) + 256 * Seen(t).Top(2))
  {
    hide Cpu.Top, Pull, MosState.Top;
    PullSeen(t);
  }

  lemma ReturnAgrees(s: Machine)
    ensures Seen(Return(Decoded(s))) == Seen(s).Returned()
  {
    hide Decoded, Fetch, PullPC, MosState.Top;
    var d := Decoded(s);
    DecodedSeen(s);
    PullWordSeen(d);
    FetchSeen(PullPC(d));
    TopsLater(Seen(s), d.pc);
    hide Seen;
  }

  lemma TopsLater(m: MosState, pc: Word)
    requires m.Valid()
    ensures m.(pc := pc).Top(1) == m.Top(1) && m.(pc := pc).Top(2) == m.Top(2) && m.(pc := pc).Top(3) == m.Top(3)
  {
  }

  /** The interrupt as the emulator takes it: unused bits are pushed as they are, and I is left alone. */
  lemma BreakSeen(s: Machine)
    ensures var q := Seen(s).PushWord((s.pc + 2) % 65536);
      Seen(Break(Decoded(s))) == q.Push(s.flags.ToByte()).(pc := Seen(s).Pair(0xFFFE, 0xFFFF))
  {
    hide Decoded, PushPC, Cpu.Push, Flags.ToByte, Read, MosState.PushWord, MosState.Push, MosState.At;
    var d := Decoded(s);
    DecodedSeen(s);
    var w := (s.pc + 2) % 65536;
    assert Next(d.pc) == w;
    var e := d.(pc := w);
    PushWordSeen(e);
    PushWordLater(Seen(s), w, w);
    var t := PushPC(e);
    PushSeen(t, t.flags.ToByte());
    PushLater(Seen(s).PushWord(w), w, s.flags.ToByte());
    VectorAgrees(s, Cpu.Push(t, t.flags.ToByte()));
    hide Seen;
  }

  lemma VectorAgrees(s: Machine, u: Machine)
    requires u.rom == s.rom
    ensures Read16(u, 0xFFFE, 0xFFFF) == Seen(s).Pair(0xFFFE, 0xFFFF)
  {
  }

  lemma PushLater(m: MosState, pc: Word, v: Byte)
    requires m.Valid()
    ensures m.(pc := pc).Push(v) == m.Push(v).(pc := pc)
  {
  }

  /** Two bytes that are pushed leave the same memory only if they are the same. */
  lemma PushDiffers(m: MosState, v: Byte, w: Byte)
    requires m.Valid()
    ensures m.Push(v).ram == m.Push(w).ram <==> v == w
    ensures m.Push(v) == m.Push(w).(ram := m.Push(v).ram) && m.Push(v).i == m.i
  {
    assert m.Push(v).ram[256 + m.sp] == v && m.Push(w).ram[256 + m.sp] == w;
  }

  lemma BreakAgrees(s: Machine)
    ensures Seen(Break(Decoded(s))) == Seen(s).Broken() <==> s.flags.i && s.flags.b4 && s.flags.b5
  {
    hide Break, Decoded, Flags.ToByte, MosState.PushWord, MosState.Push, MosState.Status, MosState.Pair;
    BreakSeen(s);
    StatusIsWhole(s);
    PushWordKeeps(Seen(s), (s.pc + 2) % 65536);
    PushDiffers(Seen(s).PushWord((s.pc + 2) % 65536), s.flags.ToByte(), Seen(s).Status());
  }

  lemma PushWordKeeps(m: MosState, w: Word)
    requires m.Valid()
    ensures m.PushWord(w).i == m.i
  {
  }

  lemma ResumeAgrees(s: Machine)
    ensures Seen(ReturnFromInterrupt(Decoded(s))) == Seen(s).Resumed()
  {
    hide Decoded, Cpu.Top, Pull, PullPC, FlagsOf, MosState.Top, MosState.Drop, MosState.WithStatus, MosState.Resumed;
    var d := Decoded(s);
    DecodedSeen(s);
    PullSeen(d);
    var x := Cpu.Top(d);
    FlagsSeen(Pull(d), x);
    PullWordSeen(Pull(d).(flags := FlagsOf(x)));
    ResumedInSteps(Seen(s), d.pc);
    hide Seen;
  }

  lemma ResumedInSteps(m: MosState, pc: Word)
    requires m.Valid()
    ensures var d := m.(pc := pc); var t := d.Drop(1).WithStatus(d.Top(1));
      t.Valid() && t.Drop(2).(pc := t.Top(1) + 256 * t.Top(2)) == m.Resumed()
  {
    hide MosState.Top, MosState.WithStatus;
    var d := m.(pc := pc);
    TopsLater(m, pc);
    TopsAfter(d, d.Top(1));
    WithStatusLater(m.Drop(3), pc, m.Top(1));
  }

  lemma TopsAfter(m: MosState, x: Byte)
    requires m.Valid()
    ensures var n := m.Drop(1).WithStatus(x); n.Valid() && n.Top(1) == m.Top(2) && n.Top(2) == m.Top(3)
    ensures m.Drop(1).WithStatus(x).Drop(2) == m.Drop(3).WithStatus(x)
  {
  }

  lemma WithStatusLater(m: MosState, pc: Word, x: Byte)
    ensures m.(pc := pc).WithStatus(x) == m.WithStatus(x).(pc := pc)
  {
  }

  lemma JumpToAgrees(s: Machine, mode: Mode)
    ensures Seen(JumpTo(Decoded(s), mode)) == Seen(s).(pc := Seen(s).Target(mode, false))
  {
    hide Decoded, FetchOperands, Address, MosState.Target;
    FetchAgrees(s, mode);
    AddressAgrees(s, mode);
  }

  // ---------- where the emulator deviates ----------

  /** The instruction has a pointer whose first byte is the last one of a page, and the byte behind it is not that at the
      start of the page, where the second byte of the pointer is. */
  predicate Crosses(m: MosState, mode: Mode)
    requires m.Valid()
  {
    var b: int := m.At((m.pc + 1) % 65536);
    var p := if mode.IndirectX? then (b + m.x) % 256 else if mode.IndirectY? then b
             else m.Pair((m.pc + 1) % 65536, (m.pc + 2) % 65536);
    (mode.IndirectX? || mode.IndirectY? || mode.AbsIndirect?)
    && p % 256 == 255 && m.At(p - 255) != m.At((p + 1) % 65536)
  }

  /** Storing a byte at an address changes nothing. */
  predicate Held(m: MosState, at: Word, v: Byte)
    requires m.Valid()
  {
    at > 0x7FF || m.ram[at] == v
  }

  /** The states in which a store does something else: the pointer is taken from two pages, and one of the two cells that
      it might go to changes by it. */
  predicate StoreDeviates(m: MosState, op: Mnemonic, mode: Mode)
    requires m.Valid()
  {
    var v := if op.STA? then m.a else if op.STX? then m.x else m.y;
    Crosses(m, mode) && !(Held(m, m.Target(mode, true), v) && Held(m, m.Target(mode, false), v))
  }

  /** ORA, EOR and AND change their memory operand. */
  ghost predicate LogicDeviates(m: MosState, op: Mnemonic, mode: Mode)
    requires m.Valid()
  {
    var at := m.Target(mode, true);
    !mode.Immediate? && at <= 0x7FF
    && !(if op.ORA? then Within(m.a, m.ram[at]) else if op.EOR? then m.a == 0 else Within(m.ram[at], m.a))
  }

  /** Exactly the states in which the emulator does something else than the processor. */
  ghost predicate Deviates(s: Machine, op: Mnemonic, mode: Mode) {
    var m := Seen(s);
    var v := m.At(m.Target(mode, true));
    var k := KindOf(op);
    if k.Storing? then StoreDeviates(m, op, mode)
    else if k.Shifting? then op.LSR? && OperandBytes(mode) == 0 && m.a % 2 == 0 && m.c
    else if k.Logical? then LogicDeviates(m, op, mode)
    else if k.Adding? then (op.ADC? <==> m.a >= 128) && v >= 128
    else if k.Comparing? then !op.BIT? && -128 <= m.Register(op) - v < 0
    else if k.Registering? then op.DEY?
    else if k.Jumping? then (if op.BRK? then !(m.i && s.flags.b4 && s.flags.b5) else op.JMP? && Crosses(m, mode))
    else false
  }

  lemma PointersDiffer(m: MosState, at: Word)
    requires m.Valid()
    ensures m.Pointer(at, true) == m.Pointer(at, false) <==> !(at % 256 == 255 && m.At(at - 255) != m.At((at + 1) % 65536))
  {
    hide MosState.At;
  }

  lemma CrossesIs(m: MosState, mode: Mode)
    requires m.Valid()
    ensures InPage(m, mode) <==> !Crosses(m, mode)
  {
    hide MosState.At, MosState.Pointer, MosState.Pair;
    var b: int := m.At((m.pc + 1) % 65536);
    PointersDiffer(m, (b + m.x) % 256);
    PointersDiffer(m, b);
    PointersDiffer(m, m.Pair((m.pc + 1) % 65536, (m.pc + 2) % 65536));
    IndexingDiffers(m.Pointer(b, true), m.Pointer(b, false), m.y);
  }

  lemma IndexingDiffers(p: Word, q: Word, y: Byte)
    ensures (p + y) % 65536 == (q + y) % 65536 <==> p == q
  {
  }

  lemma TwoStores(m: MosState, p: Word, q: Word, v: Byte)
    requires m.Valid()
    ensures m.With(p, v) == m.With(q, v) <==> p == q || (Held(m, p, v) && Held(m, q, v))
  {
    if p != q {
      if p <= 0x7FF {
        assert m.With(p, v).ram[p] == v;
        assert m.With(q, v).ram[p] == m.ram[p];
      }
      if q <= 0x7FF {
        assert m.With(q, v).ram[q] == v;
        assert m.With(p, v).ram[q] == m.ram[q];
      }
    }
  }

  /** What Exec does from the state in which the operands are next is what the processor does, unless it deviates. */
  ghost predicate Agrees(s: Machine, op: Mnemonic, mode: Mode) {
    Seen(Exec(Decoded(s), op, mode)) == Seen(s).Next(op, mode) <==> !Deviates(s, op, mode)
  }

  predicate HasPointer(mode: Mode) {
    mode.IndirectX? || mode.IndirectY? || mode.AbsIndirect?
  }

  lemma NoPointerInPage(m: MosState, mode: Mode)
    requires m.Valid() && !HasPointer(mode)
    ensures InPage(m, mode)
  {
    CrossesIs(m, mode);
  }

  lemma LoadingAgrees(s: Machine, op: Mnemonic, mode: Mode)
    requires KindOf(op).Loading? && !HasPointer(mode)
    ensures Agrees(s, op, mode)
  {
    hide KindOf, ClassOf, Decoded, Exec, ExecOperand, ExecImplied, OperandBytes, FetchOperands, Address, MosState.At,
      MosState.Target, MosState.Past, Load, MosState.Loaded;
    ExecOfKind(Decoded(s), op, mode);
    ExecOfClass(Decoded(s), op, mode);
    NoPointerInPage(Seen(s), mode);
    LoadAgrees(s, op, mode);
  }

  lemma StoringAgrees(s: Machine, op: Mnemonic, mode: Mode)
    requires KindOf(op).Storing?
    ensures Agrees(s, op, mode)
  {
    hide KindOf, ClassOf, Decoded, Exec, ExecOperand, ExecImplied, OperandBytes, FetchOperands, Address, MosState.At,
      MosState.Target, MosState.Past, StoreRegister, MosState.With, Held, InPage;
    ExecOfKind(Decoded(s), op, mode);
    ExecOfClass(Decoded(s), op, mode);
    var m := Seen(s);
    StoreAgrees(s, op, mode);
    CrossesIs(m, mode);
    StoresDiffer(m, op, mode);
  }

  lemma ShiftedAIs(s: Machine, op: Mnemonic, mode: Mode)
    requires KindOf(op).Shifting? && OperandBytes(mode) == 0
    ensures Seen(s).Next(op, mode) == Seen(s).ShiftedA(op, mode)
    ensures Deviates(s, op, mode) <==> op.LSR? && s.a % 2 == 0 && s.flags.c
  {
    hide KindOf, OperandBytes, MosState.ShiftedA;
  }

  lemma ShiftingOfA(s: Machine, op: Mnemonic, mode: Mode)
    requires KindOf(op).Shifting? && OperandBytes(mode) == 0
    ensures Agrees(s, op, mode)
  {
    hide KindOf, ClassOf, Decoded, Exec, ExecOperand, ExecImplied, OperandBytes, ShiftA, ShiftsAs, MosState.ShiftedA,
      MosState.Next, Deviates;
    ExecOfKind(Decoded(s), op, mode);
    ExecOfClass(Decoded(s), op, mode);
    ShiftedAIs(s, op, mode);
    ShiftAAgrees(s, op, mode);
    OnlyC(Seen(ShiftA(Decoded(s), op)), Seen(s).ShiftedA(op, mode), op.LSR? && s.a % 2 == 0 && s.flags.c);
  }

  lemma ShiftingOfMemory(s: Machine, op: Mnemonic, mode: Mode)
    requires KindOf(op).Shifting? && OperandBytes(mode) != 0 && !HasPointer(mode)
    ensures Agrees(s, op, mode)
  {
    hide KindOf, ClassOf, Decoded, Exec, ExecOperand, ExecImplied, OperandBytes, FetchOperands, Address, MosState.At,
      MosState.Target, MosState.Past, ShiftA, ShiftMemory, MosState.ShiftedA, MosState.ShiftedMemory, ShiftsAs;
    ExecOfKind(Decoded(s), op, mode);
    ExecOfClass(Decoded(s), op, mode);
    NoPointerInPage(Seen(s), mode);
    ShiftMemoryAgrees(s, op, mode);
  }

  lemma ShiftingAgrees(s: Machine, op: Mnemonic, mode: Mode)
    requires KindOf(op).Shifting? && !HasPointer(mode)
    ensures Agrees(s, op, mode)
  {
    hide KindOf, OperandBytes, HasPointer, Agrees;
    if OperandBytes(mode) == 0 {
      ShiftingOfA(s, op, mode);
    } else {
      ShiftingOfMemory(s, op, mode);
    }
  }

  lemma LogicalAgrees(s: Machine, op: Mnemonic, mode: Mode)
    requires KindOf(op).Logical? && !HasPointer(mode)
    ensures Agrees(s, op, mode)
  {
    hide KindOf, ClassOf, Decoded, Exec, ExecOperand, ExecImplied, OperandBytes, FetchOperands, Address, MosState.At,
      MosState.Target, MosState.Past, LogicOp, MosState.Combined, MosState.With, LogicDeviates;
    ExecOfKind(Decoded(s), op, mode);
    ExecOfClass(Decoded(s), op, mode);
    NoPointerInPage(Seen(s), mode);
    LogicAgrees(s, op, mode);
    LogicWrites(Seen(s), op, mode);
  }

  lemma CountingAgrees(s: Machine, op: Mnemonic, mode: Mode)
    requires KindOf(op).Counting? && !HasPointer(mode)
    ensures Agrees(s, op, mode)
  {
    hide KindOf, ClassOf, Decoded, Exec, ExecOperand, ExecImplied, OperandBytes, FetchOperands, Address, MosState.At,
      MosState.Target, MosState.Past, IncDec, MosState.Counted;
    ExecOfKind(Decoded(s), op, mode);
    ExecOfClass(Decoded(s), op, mode);
    NoPointerInPage(Seen(s), mode);
    CountAgrees(s, op, mode);
  }

  lemma AddingAgrees(s: Machine, op: Mnemonic, mode: Mode)
    requires KindOf(op).Adding? && !HasPointer(mode)
    ensures Agrees(s, op, mode)
  {
    hide KindOf, ClassOf, Decoded, Exec, ExecOperand, ExecImplied, OperandBytes, FetchOperands, Address, MosState.At,
      MosState.Target, MosState.Past, AddSubtract, MosState.Added, MosState.Subtracted, AddsAs;
    ExecOfKind(Decoded(s), op, mode);
    ExecOfClass(Decoded(s), op, mode);
    NoPointerInPage(Seen(s), mode);
    AddKinds(op);
    AddAgrees(s, op, mode);
    var m := Seen(s);
    OnlyV(Seen(AddSubtract(Decoded(s), op, mode)), if op.ADC? then m.Added(mode) else m.Subtracted(mode),
          (op.ADC? <==> m.a >= 128) && m.At(m.Target(mode, true)) >= 128);
  }

  lemma ComparingAgrees(s: Machine, op: Mnemonic, mode: Mode)
    requires KindOf(op).Comparing? && !HasPointer(mode)
    ensures Agrees(s, op, mode)
  {
    hide KindOf, ClassOf, Decoded, Exec, ExecOperand, ExecImplied, OperandBytes, FetchOperands, Address, MosState.At,
      MosState.Target, MosState.Past, CompareOp, MosState.Compared, MosState.Tested, MosState.Register, ComparesAs;
    ExecOfKind(Decoded(s), op, mode);
    ExecOfClass(Decoded(s), op, mode);
    NoPointerInPage(Seen(s), mode);
    CompareKinds(op);
    if op.BIT? {
      TestAgrees(s, mode);
    } else {
      CompareAgrees(s, op, mode);
      OnlyN(Seen(CompareOp(Decoded(s), op, mode)), Seen(s).Compared(op, mode),
            Seen(s).Register(op) - Seen(s).At(Seen(s).Target(mode, true)));
    }
  }

  lemma RegisteringAgrees(s: Machine, op: Mnemonic, mode: Mode)
    requires KindOf(op).Registering?
    ensures Agrees(s, op, mode)
  {
    hide KindOf, ClassOf, Decoded, Exec, ExecOperand, ExecImplied, OperandBytes, FetchOperands, Address, MosState.At,
      MosState.Target, MosState.Past, RegisterOp, MosState.Registered;
    ExecOfKind(Decoded(s), op, mode);
    ExecOfClass(Decoded(s), op, mode);
    RegisterAgrees(s, op);
    DeyIsWrong(Seen(s));
  }

  lemma FlaggingAgrees(s: Machine, op: Mnemonic, mode: Mode)
    requires KindOf(op).Flagging?
    ensures Agrees(s, op, mode)
  {
    hide KindOf, ClassOf, Decoded, Exec, ExecOperand, ExecImplied, OperandBytes, FetchOperands, Address, MosState.At,
      MosState.Target, MosState.Past, FlagOp, MosState.Flagged;
    ExecOfKind(Decoded(s), op, mode);
    ExecOfClass(Decoded(s), op, mode);
    FlagAgrees(s, op);
  }

  lemma StackingAgrees(s: Machine, op: Mnemonic, mode: Mode)
    requires KindOf(op).Stacking?
    ensures Agrees(s, op, mode)
  {
    hide KindOf, ClassOf, Decoded, Exec, ExecOperand, ExecImplied, OperandBytes, FetchOperands, Address, MosState.At,
      MosState.Target, MosState.Past, StackOp, MosState.Stacked;
    ExecOfKind(Decoded(s), op, mode);
    ExecOfClass(Decoded(s), op, mode);
    StackAgrees(s, op);
  }

  lemma BranchingAgrees(s: Machine, op: Mnemonic, mode: Mode)
    requires KindOf(op).Branching?
    ensures Agrees(s, op, mode)
  {
    hide KindOf, ClassOf, Decoded, Exec, ExecOperand, ExecImplied, OperandBytes, FetchOperands, Address, MosState.At,
      MosState.Target, MosState.Past, Branch, MosState.Branched;
    ExecOfKind(Decoded(s), op, mode);
    ExecOfClass(Decoded(s), op, mode);
    BranchAgrees(s, op);
  }

  lemma JumpingAgrees(s: Machine, op: Mnemonic, mode: Mode)
    requires KindOf(op).Jumping?
    ensures Agrees(s, op, mode)
  {
    hide KindOf, ClassOf, Decoded, Exec, ExecOperand, ExecImplied, OperandBytes, FetchOperands, Address, MosState.At,
      MosState.Target, MosState.Past, Jump, CallSubroutine, Return, Break, ReturnFromInterrupt, JumpTo, MosState.Called,
      MosState.Returned, MosState.Broken, MosState.Resumed, Crosses, InPage;
    ExecOfKind(Decoded(s), op, mode);
    ExecOfClass(Decoded(s), op, mode);
    JumpKinds(op);
    JumpIs(Decoded(s), mode);
    CallAgrees(s);
    ReturnAgrees(s);
    BreakAgrees(s);
    ResumeAgrees(s);
    JumpToAgrees(s, mode);
    CrossesIs(Seen(s), mode);
    InPageIs(Seen(s), mode);
  }

  lemma OnlyC(t: MosState, m: MosState, stays: bool)
    requires ShiftsAs(t, m, stays)
    ensures t == m <==> !stays
  {
  }

  lemma OnlyN(t: MosState, m: MosState, difference: int)
    requires ComparesAs(t, m, difference)
    ensures t == m <==> !(-128 <= difference < 0)
  {
  }

  lemma OnlyV(t: MosState, m: MosState, wrong: bool)
    requires AddsAs(t, m, wrong)
    ensures t == m <==> !wrong
  {
  }

  lemma InPageIs(m: MosState, mode: Mode)
    requires m.Valid()
    ensures InPage(m, mode) <==> m.(pc := m.Target(mode, true)) == m.(pc := m.Target(mode, false))
  {
    hide MosState.Target;
  }

  lemma StoresDiffer(m: MosState, op: Mnemonic, mode: Mode)
    requires m.Valid()
    ensures m.Stored(op, mode, false) == m.Stored(op, mode, true) <==>
              var v := if op.STA? then m.a else if op.STX? then m.x else m.y; var p, q := m.Target(mode, true), m.Target(mode, false);
              p == q || (Held(m, p, v) && Held(m, q, v))
    ensures InPage(m, mode) <==> m.Target(mode, true) == m.Target(mode, false)
  {
    hide MosState.Target, MosState.With;
    var v := if op.STA? then m.a else if op.STX? then m.x else m.y;
    TwoStores(m.Past(mode), m.Target(mode, true), m.Target(mode, false), v);
  }

  lemma LogicWrites(m: MosState, op: Mnemonic, mode: Mode)
    requires m.Valid() && KindOf(op).Logical?
    ensures var n := m.Combined(op, mode);
      n == (if mode.Immediate? then n else n.With(m.Target(mode, true), n.a)) <==> !LogicDeviates(m, op, mode)
  {
    hide MosState.Target, Or, And, Xor, Within;
    LogicKinds(op);
    hide KindOf;
    var n, at := m.Combined(op, mode), m.Target(mode, true);
    if at <= 0x7FF {
      OperandKept(m.a, m.ram[at]);
    }
  }

  lemma LogicKinds(op: Mnemonic)
    requires KindOf(op).Logical?
    ensures op.ORA? || op.EOR? || op.AND?
  {
  }

  lemma AddKinds(op: Mnemonic)
    requires KindOf(op).Adding?
    ensures op.ADC? || op.SBC?
  {
  }

  lemma CompareKinds(op: Mnemonic)
    requires KindOf(op).Comparing?
    ensures op.CMP? || op.CPX? || op.CPY? || op.BIT?
  {
  }

  lemma JumpKinds(op: Mnemonic)
    requires KindOf(op).Jumping?
    ensures op.JMP? || op.JSR? || op.RTS? || op.BRK? || op.RTI?
  {
  }

  lemma ExecAgrees(s: Machine, op: Mnemonic, mode: Mode)
    requires !ClassOf(op).NoClass?
    requires HasPointer(mode) ==> KindOf(op).Storing? || KindOf(op).Jumping?
    ensures Agrees(s, op, mode)
  {
    AllKinds(op);
    hide KindOf, ClassOf, Agrees, HasPointer;
    var k := KindOf(op);
    if k.Loading? { LoadingAgrees(s, op, mode); }
    else if k.Storing? { StoringAgrees(s, op, mode); }
    else if k.Shifting? { ShiftingAgrees(s, op, mode); }
    else if k.Logical? { LogicalAgrees(s, op, mode); }
    else if k.Counting? { CountingAgrees(s, op, mode); }
    else if k.Adding? { AddingAgrees(s, op, mode); }
    else if k.Comparing? { ComparingAgrees(s, op, mode); }
    else if k.Registering? { RegisteringAgrees(s, op, mode); }
    else if k.Flagging? { FlaggingAgrees(s, op, mode); }
    else if k.Stacking? { StackingAgrees(s, op, mode); }
    else if k.Branching? { BranchingAgrees(s, op, mode); }
    else { JumpingAgrees(s, op, mode); }
  }

  lemma AllKinds(op: Mnemonic)
    requires !ClassOf(op).NoClass?
    ensures !KindOf(op).Unhandled?
  {
    hide KindOf;
  }

  lemma SuitedPointers(opcode: Byte)
    requires Implemented(opcode)
    ensures var e := Table(opcode);
      !ClassOf(e.mnemonic).NoClass? && (HasPointer(e.mode) ==> KindOf(e.mnemonic).Storing? || KindOf(e.mnemonic).Jumping?)
  {
    hide Table, Implemented;
    ImplementedSuits(opcode);
  }

  /** For every instruction that the emulator has, and every state: one step of the emulator is one step of the 6502, as
      far as a program can see, exactly unless the state deviates. */
  lemma StepIs6502(s: Machine)
    requires Implemented(Opcode(s))
    ensures var e := Table(Opcode(s));
      Seen(Step(s)) == Seen(s).Next(e.mnemonic, e.mode) <==> !Deviates(s, e.mnemonic, e.mode)
  {
    hide Implemented, Table, ClassOf, KindOf, HasPointer, Step, Exec, Decoded, Opcode, Deviates, MosState.Next;
    var e := Table(Opcode(s));
    SuitedPointers(Opcode(s));
    ExecAgrees(s, e.mnemonic, e.mode);
    StepIs(s, e.mnemonic, e.mode);
  }
}

/** Page one as a stack: calls return to where they were made, interrupts restore what they saved. */
module CpuStack {
  import opened Bits
  import opened OpcodeTable
  import opened Cpu
  import opened CpuCases
  import opened CpuRun

  // ---------- the abstract stack ----------

  const STACK_SIZE := 0x100

  /** The RAM address of the k-th byte of a stack whose first byte is at 0x100 + base. */
  function Cell(base: Byte, k: nat): Word
    requires k < STACK_SIZE
  {
    0x100 + Wrap8(base - k)
  }

  /** The machine's page one and stack pointer hold the bytes of stack, the first pushed first. */
  ghost predicate Holds(s: Machine, base: Byte, stack: seq<Byte>) {
    && |stack| <= STACK_SIZE
    && s.sp == Wrap8(base - |stack|)
    && forall k :: 0 <= k < |stack| ==> s.ram[Cell(base, k)] == stack[k]
  }

  ghost predicate IsLive(base: Byte, stack: seq<Byte>, address: Word)
    requires |stack| <= STACK_SIZE
  {
    exists k :: 0 <= k < |stack| && address == Cell(base, k)
  }

  lemma PushHolds(s: Machine, base: Byte, stack: seq<Byte>, v: Byte)
    requires Holds(s, base, stack) && |stack| < STACK_SIZE
    ensures Holds(Push(s, v), base, stack + [v])
  {
  }

  lemma PullHolds(s: Machine, base: Byte, stack: seq<Byte>)
    requires Holds(s, base, stack) && |stack| > 0
    ensures Top(s) == stack[|stack| - 1] && Holds(Pull(s), base, stack[..|stack| - 1])
  {
    assert s.ram[Cell(base, |stack| - 1)] == stack[|stack| - 1];
  }

  // ---------- one operation ----------

  function Pushed(s: Machine, op: Mnemonic): seq<Byte> {
    if op.PHA? then [s.a]
    else if op.PHP? then [s.flags.(b4 := true, b5 := true).ToByte()]
    else if op.JSR? || op.BRK? then
      // the address of the second byte after the opcode
      [High(Next(s.pc)), Low(Next(s.pc))] + (if op.BRK? then [s.flags.ToByte()] else [])
    else []
  }

  function PullCount(op: Mnemonic): nat {
    if op.PLA? || op.PLP? then 1 else if op.RTS? then 2 else if op.RTI? then 3 else 0
  }

  function Drop(stack: seq<Byte>, k: nat): seq<Byte> {
    if k <= |stack| then stack[..|stack| - k] else []
  }

  /** The stack after an operation, from the state in which its operands are next. */
  function StackAfterOp(s: Machine, op: Mnemonic, stack: seq<Byte>): seq<Byte> {
    Drop(stack, PullCount(op)) + Pushed(s, op)
  }

  /** An operation that keeps the stack discipline: no TXS, room to push, enough to pull, and no
      store into a live cell. */
  ghost predicate Disciplined(s: Machine, op: Mnemonic, mode: Mode, base: Byte, stack: seq<Byte>) {
    && !op.TXS?
    && PullCount(op) <= |stack| <= STACK_SIZE - |Pushed(s, op)|
    && (ClassOf(op).OperandClass? && Stores(op, mode) ==> !IsLive(base, stack, Address(s, mode)))
  }

  predicate Stores(op: Mnemonic, mode: Mode) {
    var k := KindOf(op);
    k.Storing? || k.Counting? || (k.Shifting? && OperandBytes(mode) != 0) || (k.Logical? && !mode.Immediate?)
  }

  /** t has the stack pointer of s and all of its memory but perhaps the cell at address. */
  predicate OnlyCellChanged(s: Machine, t: Machine, address: Word) {
    t.sp == s.sp && forall a :: 0 <= a < RAM_SIZE && a != address ==> t.ram[a] == s.ram[a]
  }

  lemma StoreFrame(s: Machine, op: Mnemonic, mode: Mode)
    ensures OnlyCellChanged(s, StoreRegister(s, op, mode), Address(s, mode))
    ensures OnlyCellChanged(s, IncDec(s, op, mode), Address(s, mode))
  {
    hide Address;
  }

  lemma ShiftFrame(s: Machine, op: Mnemonic, address: Word)
    ensures OnlyCellChanged(s, ShiftMemory(s, op, address), address)
  {
  }

  lemma LogicFrame(s: Machine, op: Mnemonic, mode: Mode)
    ensures OnlyCellChanged(s, LogicOp(s, op, mode), Address(s, mode))
    ensures LogicOp(s, op, mode).sp == s.sp && (mode.Immediate? ==> LogicOp(s, op, mode).ram == s.ram)
  {
    hide Address, Logic;
  }

  /** Loads, arithmetic, comparisons and shifts of the accumulator do not write to memory. */
  lemma QuietFrame(s: Machine, op: Mnemonic, mode: Mode)
    ensures Load(s, op, mode).sp == s.sp && Load(s, op, mode).ram == s.ram
    ensures AddSubtract(s, op, mode).sp == s.sp && AddSubtract(s, op, mode).ram == s.ram
    ensures CompareOp(s, op, mode).sp == s.sp && CompareOp(s, op, mode).ram == s.ram
    ensures ShiftA(s, op).sp == s.sp && ShiftA(s, op).ram == s.ram
  {
    hide Load, AddSubtract, CompareOp, ShiftA;
  }

  /** An operation on an operand leaves the stack pointer and all memory but a stored operand. */
  ghost predicate Framed(s: Machine, op: Mnemonic, mode: Mode) {
    var t := ExecOperand(s, op, mode);
    if Stores(op, mode) then OnlyCellChanged(s, t, Address(s, mode)) else t.sp == s.sp && t.ram == s.ram
  }

  lemma StoringIsFramed(s: Machine, op: Mnemonic, mode: Mode)
    requires KindOf(op).Storing? || KindOf(op).Counting?
    ensures Framed(s, op, mode)
  {
    hide KindOf, Address, StoreRegister, IncDec, OnlyCellChanged, FetchOperands;
    StoreFrame(s, op, mode);
  }

  lemma ShiftingIsFramed(s: Machine, op: Mnemonic, mode: Mode)
    requires KindOf(op).Shifting?
    ensures Framed(s, op, mode)
  {
    hide KindOf, Address, ShiftA, ShiftMemory, OnlyCellChanged, FetchOperands, OperandBytes;
    QuietFrame(s, op, mode);
    ShiftFrame(FetchOperands(s, mode), op, Address(s, mode));
    FetchFrame(s, mode, ShiftMemory(FetchOperands(s, mode), op, Address(s, mode)), Address(s, mode));
  }

  lemma LogicIsFramed(s: Machine, op: Mnemonic, mode: Mode)
    requires KindOf(op).Logical?
    ensures Framed(s, op, mode)
  {
    hide KindOf, Address, LogicOp, OnlyCellChanged, FetchOperands;
    LogicFrame(s, op, mode);
  }

  lemma OtherIsFramed(s: Machine, op: Mnemonic, mode: Mode)
    requires KindOf(op).Loading? || KindOf(op).Adding? || KindOf(op).Comparing?
    ensures Framed(s, op, mode)
  {
    hide KindOf, Address, Load, AddSubtract, CompareOp, OnlyCellChanged, FetchOperands;
    QuietFrame(s, op, mode);
  }

  lemma OperandFrame(s: Machine, op: Mnemonic, mode: Mode)
    requires ClassOf(op).OperandClass?
    ensures Framed(s, op, mode)
  {
    hide Framed, KindOf, ClassOf;
    OperandKinds(op);
    var k := KindOf(op);
    if k.Storing? || k.Counting? {
      StoringIsFramed(s, op, mode);
    } else if k.Shifting? {
      ShiftingIsFramed(s, op, mode);
    } else if k.Logical? {
      LogicIsFramed(s, op, mode);
    } else {
      OtherIsFramed(s, op, mode);
    }
  }

  lemma OperandKinds(op: Mnemonic)
    requires ClassOf(op).OperandClass?
    ensures var k := KindOf(op); k.Loading? || k.Storing? || k.Shifting? || k.Logical? || k.Counting? || k.Adding? || k.Comparing?
  {
    hide KindOf;
  }

  lemma FetchFrame(s: Machine, mode: Mode, t: Machine, address: Word)
    ensures OnlyCellChanged(FetchOperands(s, mode), t, address) <==> OnlyCellChanged(s, t, address)
    ensures FetchOperands(s, mode).ram == s.ram && FetchOperands(s, mode).sp == s.sp
  {
  }

  lemma NoPushNoPull(s: Machine, op: Mnemonic, stack: seq<Byte>)
    requires !KindOf(op).Stacking? && !KindOf(op).Jumping?
    ensures StackAfterOp(s, op, stack) == stack
  {
  }

  lemma OperandHolds(s: Machine, op: Mnemonic, mode: Mode, base: Byte, stack: seq<Byte>)
    requires Holds(s, base, stack) && ClassOf(op).OperandClass? && Disciplined(s, op, mode, base, stack)
    ensures StackAfterOp(s, op, stack) == stack && Holds(ExecOperand(s, op, mode), base, stack)
  {
    hide ExecOperand, Address, StackAfterOp, Pushed, PullCount;
    OperandFrame(s, op, mode);
    NoPushNoPull(s, op, stack);
    forall k | 0 <= k < |stack|
      ensures ExecOperand(s, op, mode).ram[Cell(base, k)] == stack[k]
    {
      assert s.ram[Cell(base, k)] == stack[k];
    }
  }

  lemma StackOpHolds(s: Machine, op: Mnemonic, base: Byte, stack: seq<Byte>)
    requires Holds(s, base, stack) && KindOf(op).Stacking? && Disciplined(s, op, Implied, base, stack)
    ensures Holds(StackOp(s, op), base, StackAfterOp(s, op, stack))
  {
    if op.PHA? { PushHolds(s, base, stack, s.a); }
    else if op.PHP? { PushHolds(s, base, stack, s.flags.(b4 := true, b5 := true).ToByte()); }
    else {
      PullHolds(s, base, stack);
      assert StackAfterOp(s, op, stack) == stack[..|stack| - 1];
    }
  }

  lemma ImpliedHolds(s: Machine, op: Mnemonic, base: Byte, stack: seq<Byte>)
    requires Holds(s, base, stack) && ClassOf(op).ImpliedClass? && Disciplined(s, op, Implied, base, stack)
    ensures Holds(ExecImplied(s, op), base, StackAfterOp(s, op, stack))
  {
    hide StackAfterOp, StackOp, FlagOp, RegisterOp, KindOf, Cell;
    ImpliedKinds(op);
    ExecOfKind(s, op, Implied);
    if KindOf(op).Stacking? {
      StackOpHolds(s, op, base, stack);
    } else {
      NoPushNoPull(s, op, stack);
      if KindOf(op).Registering? {
        RegisterOpKeepsSp(s, op);
      }
    }
  }

  lemma ImpliedKinds(op: Mnemonic)
    requires ClassOf(op).ImpliedClass?
    ensures KindOf(op).Stacking? || KindOf(op).Flagging? || KindOf(op).Registering?
  {
    hide KindOf;
  }

  lemma RegisterOpKeepsSp(s: Machine, op: Mnemonic)
    requires !op.TXS?
    ensures RegisterOp(s, op).sp == s.sp && RegisterOp(s, op).ram == s.ram
  {
  }

  lemma {:induction false} PushPCHolds(s: Machine, base: Byte, stack: seq<Byte>)
    requires Holds(s, base, stack) && |stack| + 2 <= STACK_SIZE
    ensures Holds(PushPC(s), base, stack + [High(s.pc), Low(s.pc)])
  {
    PushHolds(s, base, stack, High(s.pc));
    PushHolds(Push(s, High(s.pc)), base, stack + [High(s.pc)], Low(s.pc));
    assert stack + [High(s.pc)] + [Low(s.pc)] == stack + [High(s.pc), Low(s.pc)];
  }

  lemma PullPCHolds(s: Machine, base: Byte, stack: seq<Byte>)
    requires Holds(s, base, stack) && |stack| >= 2
    ensures Holds(PullPC(s), base, stack[..|stack| - 2])
    ensures PullPC(s).pc == WordOf(stack[|stack| - 1], stack[|stack| - 2])
  {
    PullHolds(s, base, stack);
    PullHolds(Pull(s), base, stack[..|stack| - 1]);
  }

  lemma CallHolds(s: Machine, base: Byte, stack: seq<Byte>)
    requires Holds(s, base, stack) && |stack| + 2 <= STACK_SIZE
    ensures Holds(CallSubroutine(s), base, StackAfterOp(s, JSR, stack))
  {
    var t := Fetch(s);
    var u := Log(t, Read(t, t.pc));
    assert Holds(u, base, stack) && u.pc == Next(s.pc);
    PushPCHolds(u, base, stack);
    assert StackAfterOp(s, JSR, stack) == stack + [High(u.pc), Low(u.pc)];
    assert CallSubroutine(s).ram == PushPC(u).ram && CallSubroutine(s).sp == PushPC(u).sp;
  }

  lemma BreakHolds(s: Machine, base: Byte, stack: seq<Byte>)
    requires Holds(s, base, stack) && |stack| + 3 <= STACK_SIZE
    ensures Holds(Break(s), base, StackAfterOp(s, BRK, stack))
  {
    var t := s.(pc := Next(s.pc));
    assert Holds(t, base, stack);
    PushPCHolds(t, base, stack);
    PushHolds(PushPC(t), base, stack + [High(t.pc), Low(t.pc)], s.flags.ToByte());
    assert StackAfterOp(s, BRK, stack) == stack + [High(t.pc), Low(t.pc)] + [s.flags.ToByte()];
  }

  lemma ReturnHolds(s: Machine, base: Byte, stack: seq<Byte>)
    requires Holds(s, base, stack) && |stack| >= 2
    ensures Holds(Return(s), base, StackAfterOp(s, RTS, stack))
    ensures Return(s).pc == Next(WordOf(stack[|stack| - 1], stack[|stack| - 2]))
  {
    PullPCHolds(s, base, stack);
    assert StackAfterOp(s, RTS, stack) == stack[..|stack| - 2];
  }

  lemma ReturnFromInterruptHolds(s: Machine, base: Byte, stack: seq<Byte>)
    requires Holds(s, base, stack) && |stack| >= 3
    ensures var t := ReturnFromInterrupt(s); var n := |stack|;
      && Holds(t, base, StackAfterOp(s, RTI, stack))
      && t.flags == FlagsOf(stack[n - 1]) && t.pc == WordOf(stack[n - 2], stack[n - 3])
  {
    PullHolds(s, base, stack);
    var t := Pull(s).(flags := FlagsOf(Top(s)));
    assert Holds(t, base, stack[..|stack| - 1]);
    PullPCHolds(t, base, stack[..|stack| - 1]);
    assert StackAfterOp(s, RTI, stack) == stack[..|stack| - 3];
  }

  lemma JumpToHolds(s: Machine, mode: Mode, base: Byte, stack: seq<Byte>)
    requires Holds(s, base, stack)
    ensures Holds(JumpTo(s, mode), base, StackAfterOp(s, JMP, stack))
  {
    hide Address;
    assert StackAfterOp(s, JMP, stack) == stack;
  }

  lemma JumpHolds(s: Machine, op: Mnemonic, mode: Mode, base: Byte, stack: seq<Byte>)
    requires Holds(s, base, stack) && ClassOf(op).JumpClass? && Disciplined(s, op, mode, base, stack)
    ensures Holds(Jump(s, op, mode), base, StackAfterOp(s, op, stack))
  {
    hide CallSubroutine, Break, Return, ReturnFromInterrupt, JumpTo, Holds, StackAfterOp;
    if op.JSR? { CallHolds(s, base, stack); }
    else if op.BRK? { BreakHolds(s, base, stack); }
    else if op.RTS? { ReturnHolds(s, base, stack); }
    else if op.RTI? { ReturnFromInterruptHolds(s, base, stack); }
    else { JumpToHolds(s, mode, base, stack); }
  }

  // ---------- one step ----------

  /** The stack after a step. */
  function StackAfterStep(s: Machine, stack: seq<Byte>): seq<Byte> {
    if Implemented(Opcode(s)) then StackAfterOp(Decoded(s), Table(Opcode(s)).mnemonic, stack) else stack
  }

  ghost predicate DisciplinedStep(s: Machine, base: Byte, stack: seq<Byte>) {
    |stack| <= STACK_SIZE &&
    (Implemented(Opcode(s)) ==>
      Disciplined(Decoded(s), Table(Opcode(s)).mnemonic, Table(Opcode(s)).mode, base, stack))
  }

  lemma BranchHolds(s: Machine, op: Mnemonic, base: Byte, stack: seq<Byte>)
    requires Holds(s, base, stack) && ClassOf(op).BranchClass?
    ensures Holds(Branch(s, op), base, stack) && StackAfterOp(s, op, stack) == stack
  {
    NoPushNoPull(s, op, stack);
    hide KindOf, Taken, Address, StackAfterOp, Fetch;
  }

  lemma ExecHolds(s: Machine, op: Mnemonic, mode: Mode, base: Byte, stack: seq<Byte>)
    requires Holds(s, base, stack) && Disciplined(s, op, mode, base, stack) && !ClassOf(op).NoClass?
    requires ClassOf(op).ImpliedClass? ==> OperandBytes(mode) == 0
    ensures Holds(Exec(s, op, mode), base, StackAfterOp(s, op, stack))
  {
    if ClassOf(op).BranchClass? {
      BranchHolds(s, op, base, stack);
    }
    ExecOfClass(s, op, mode);
    hide Exec, ExecOperand, ExecImplied, Branch, Jump, Holds, StackAfterOp, ClassOf;
    match ClassOf(op)
    case OperandClass => OperandHolds(s, op, mode, base, stack);
    case ImpliedClass => ImpliedHolds(s, op, base, stack);
    case BranchClass =>
    case JumpClass => JumpHolds(s, op, mode, base, stack);
  }

  /** A disciplined step keeps page one and the abstract stack in agreement. */
  lemma StepHolds(s: Machine, base: Byte, stack: seq<Byte>)
    requires Holds(s, base, stack) && DisciplinedStep(s, base, stack)
    ensures Holds(Step(s), base, StackAfterStep(s, stack))
  {
    assert Holds(Decoded(s), base, stack);
    if Implemented(Opcode(s)) {
      ImplementedSuits(Opcode(s));
      ExecHolds(Decoded(s), Table(Opcode(s)).mnemonic, Table(Opcode(s)).mode, base, stack);
    }
  }

  // ---------- whole runs ----------

  /** n steps that all keep the discipline, and the abstract stack that they leave. */
  ghost predicate DisciplinedRun(s: Machine, base: Byte, stack: seq<Byte>, n: nat)
    decreases n
  {
    n == 0 ||
    (DisciplinedStep(s, base, stack) && DisciplinedRun(Step(s), base, StackAfterStep(s, stack), n - 1))
  }

  function StackAfter(s: Machine, stack: seq<Byte>, n: nat): seq<Byte>
    decreases n
  {
    if n == 0 then stack else StackAfter(Step(s), StackAfterStep(s, stack), n - 1)
  }

  /** No step of the run takes the stack below a depth. */
  predicate StaysAtLeast(s: Machine, stack: seq<Byte>, n: nat, depth: nat)
    decreases n
  {
    |stack| >= depth &&
    (n == 0 || StaysAtLeast(Step(s), StackAfterStep(s, stack), n - 1, depth))
  }

  /** Over any disciplined run page one refines the abstract stack. */
  lemma {:induction false} RunHolds(s: Machine, base: Byte, stack: seq<Byte>, n: nat)
    requires Holds(s, base, stack) && DisciplinedRun(s, base, stack, n)
    ensures Holds(Steps(s, n), base, StackAfter(s, stack, n))
    decreases n
  {
    hide Step, Holds, DisciplinedStep, StackAfterStep;
    if n > 0 {
      StepHolds(s, base, stack);
      RunHolds(Step(s), base, StackAfterStep(s, stack), n - 1);
    }
  }

  /** What lies below the depth that a run never leaves is still there after it. */
  lemma {:induction false} PrefixSurvives(s: Machine, base: Byte, stack: seq<Byte>, n: nat, depth: nat)
    requires DisciplinedRun(s, base, stack, n) && StaysAtLeast(s, stack, n, depth)
    ensures |StackAfter(s, stack, n)| >= depth && |stack| >= depth
    ensures StackAfter(s, stack, n)[..depth] == stack[..depth]
    decreases n
  {
    hide Step, DisciplinedStep, StackAfterStep;
    if n > 0 {
      PrefixOfStep(s, base, stack, depth);
      PrefixSurvives(Step(s), base, StackAfterStep(s, stack), n - 1, depth);
    }
  }

  lemma PrefixOfStep(s: Machine, base: Byte, stack: seq<Byte>, depth: nat)
    requires DisciplinedStep(s, base, stack)
    requires |stack| >= depth && |StackAfterStep(s, stack)| >= depth
    ensures StackAfterStep(s, stack)[..depth] == stack[..depth]
  {
  }

  lemma WordOfHalves(w: Word)
    ensures WordOf(Low(w), High(w)) == w
  {
  }

  lemma JsrStep(s: Machine, stack: seq<Byte>)
    requires Opcode(s) == 0x20
    ensures var back := Next(Next(s.pc)); StackAfterStep(s, stack) == stack + [High(back), Low(back)]
  {
    assert Table(0x20) == Entry(JSR, Absolute, 3, 6);
  }

  lemma BrkStep(s: Machine, stack: seq<Byte>)
    requires Opcode(s) == 0x00
    ensures var back := Next(Next(s.pc)); StackAfterStep(s, stack) == stack + [High(back), Low(back), s.flags.ToByte()]
  {
    assert Table(0x00) == Entry(BRK, Unknown, 1, 7);
  }

  lemma RtsStep(s: Machine, base: Byte, stack: seq<Byte>)
    requires Opcode(s) == 0x60 && Holds(s, base, stack) && |stack| >= 2
    ensures var n := |stack|;
      Step(s).pc == Next(WordOf(stack[n - 1], stack[n - 2])) && Holds(Step(s), base, Drop(stack, 2))
  {
    assert Table(0x60) == Entry(RTS, Implied, 1, 6) && Implemented(0x60) && ClassOf(RTS).JumpClass?;
    var d := Decoded(s);
    assert StackAfterOp(d, RTS, stack) == Drop(stack, 2);
    hide Table, Implemented, ClassOf, Step, Exec, Jump, Decoded, Return, StackAfterOp, Next, WordOf, Drop;
    StepIs(s, RTS, Implied);
    DecodedKeeps(s);
    ReturnHolds(d, base, stack);
    ExecOfClass(d, RTS, Implied);
    JumpIs(d, Implied);
  }

  lemma RtiStep(s: Machine, base: Byte, stack: seq<Byte>)
    requires Opcode(s) == 0x40 && Holds(s, base, stack) && |stack| >= 3
    ensures var n := |stack|; var t := Step(s);
      t.pc == WordOf(stack[n - 2], stack[n - 3]) && t.flags == FlagsOf(stack[n - 1]) && Holds(t, base, Drop(stack, 3))
  {
    assert Table(0x40) == Entry(RTI, Implied, 1, 6) && Implemented(0x40) && ClassOf(RTI).JumpClass?;
    var d := Decoded(s);
    assert StackAfterOp(d, RTI, stack) == Drop(stack, 3);
    hide Table, Implemented, ClassOf, Step, Exec, Jump, Decoded, ReturnFromInterrupt, StackAfterOp, Next, WordOf,
        Drop, FlagsOf;
    StepIs(s, RTI, Implied);
    DecodedKeeps(s);
    ReturnFromInterruptHolds(d, base, stack);
    ExecOfClass(d, RTI, Implied);
    JumpIs(d, Implied);
  }

  /** A run that starts with a push of k bytes and comes back to its depth without having gone below
      it: the bytes are on top of the stack again, and below them is the old stack. */
  lemma {:induction false} PushedBytesSurvive(s: Machine, base: Byte, stack: seq<Byte>, k: nat, n: nat)
    requires Holds(s, base, stack) && DisciplinedRun(s, base, stack, n + 1)
    requires |StackAfterStep(s, stack)| == |stack| + k
    requires StaysAtLeast(Step(s), StackAfterStep(s, stack), n, |stack| + k)
    requires |StackAfter(Step(s), StackAfterStep(s, stack), n)| == |stack| + k
    ensures Holds(Steps(Step(s), n), base, StackAfterStep(s, stack))
  {
    hide Step, Holds, DisciplinedStep, StackAfterStep, StaysAtLeast, StackAfter;
    var inner := StackAfterStep(s, stack);
    StepHolds(s, base, stack);
    RunHolds(Step(s), base, inner, n);
    PrefixSurvives(Step(s), base, inner, n, |stack| + k);
    var last := StackAfter(Step(s), inner, n);
    assert last == last[..|stack| + k] == inner[..|stack| + k] == inner;
  }

  /** Every RTS resumes after its matching JSR: the JSR at s is followed by n disciplined steps that
      never go below the return address, and then by an RTS at just that depth. */
  lemma CallReturns(s: Machine, base: Byte, stack: seq<Byte>, n: nat)
    requires Opcode(s) == 0x20 && Holds(s, base, stack) && DisciplinedRun(s, base, stack, n + 1)
    requires StaysAtLeast(Step(s), StackAfterStep(s, stack), n, |stack| + 2)
    requires |StackAfter(Step(s), StackAfterStep(s, stack), n)| == |stack| + 2
    requires Opcode(Steps(Step(s), n)) == 0x60
    ensures var t := Step(Steps(Step(s), n));
      t.pc == Next(Next(Next(s.pc))) && Holds(t, base, stack) && t.sp == s.sp
  {
    hide Step, DisciplinedStep, StaysAtLeast, StackAfter, StackAfterStep;
    var r := Steps(Step(s), n);
    JsrStep(s, stack);
    PushedBytesSurvive(s, base, stack, 2, n);
    RtsStep(r, base, StackAfterStep(s, stack));
    assert Drop(StackAfterStep(s, stack), 2) == stack;
    WordOfHalves(Next(Next(s.pc)));
  }

  /** Every RTI restores the flags of its matching BRK and resumes two bytes after it. */
  lemma InterruptReturns(s: Machine, base: Byte, stack: seq<Byte>, n: nat)
    requires Opcode(s) == 0x00 && Holds(s, base, stack) && DisciplinedRun(s, base, stack, n + 1)
    requires StaysAtLeast(Step(s), StackAfterStep(s, stack), n, |stack| + 3)
    requires |StackAfter(Step(s), StackAfterStep(s, stack), n)| == |stack| + 3
    requires Opcode(Steps(Step(s), n)) == 0x40
    ensures var t := Step(Steps(Step(s), n));
      t.pc == Next(Next(s.pc)) && t.flags == s.flags && Holds(t, base, stack) && t.sp == s.sp
  {
    hide Step, DisciplinedStep, StaysAtLeast, StackAfter, StackAfterStep;
    var r := Steps(Step(s), n);
    BrkStep(s, stack);
    PushedBytesSurvive(s, base, stack, 3, n);
    RtiStep(r, base, StackAfterStep(s, stack));
    assert Drop(StackAfterStep(s, stack), 3) == stack;
    WordOfHalves(Next(Next(s.pc)));
    FlagsRoundTrip(s.flags);
  }
}

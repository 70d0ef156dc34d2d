/** What the trace log has to say about a run: an entry for every instruction. */
module TracedRun {
  import opened Bits
  import opened OpcodeTable
  import opened Cpu
  import opened CpuCases
  import opened CpuRun
  import TraceLog

  function SnapshotOf(s: Machine): TraceLog.Snapshot {
    TraceLog.Snapshot(s.a, s.x, s.y, s.flags.ToByte(), s.sp, s.pc, s.cycles)
  }

  /** The buffer of two operand bytes, cleared before any of them is put into it. */
  function Padded(operands: seq<Byte>): seq<Byte>
    requires |operands| <= 2
  {
    operands + seq(2 - |operands|, _ => 0)
  }

  /** The entry of the instruction that starts in a state. */
  function RecordOf(s: Machine): TraceLog.Record {
    AtMostTwoOperandsLogged(s);
    TraceLog.Record(SnapshotOf(s), Step(s).loggedOpcode, Padded(Step(s).operands))
  }

  function RecordsOf(states: seq<Machine>): (rs: seq<TraceLog.Record>)
    ensures |rs| == |states| && forall i :: 0 <= i < |rs| ==> rs[i] == RecordOf(states[i])
  {
    if states == [] then [] else [RecordOf(states[0])] + RecordsOf(states[1..])
  }

  lemma RecordsAppend(states: seq<Machine>, s: Machine)
    ensures RecordsOf(states + [s]) == RecordsOf(states) + [RecordOf(s)]
  {
  }

  lemma VisitedFrom(s: Machine)
    ensures Running(s) ==> Visited(s) == [s] + Visited(Step(s)) && EmuRun(s) == EmuRun(Step(s))
    ensures !Running(s) ==> Visited(s) == [] && EmuRun(s) == s
  {
  }

  lemma FetchKeepsOpcode(s: Machine, mode: Mode)
    requires s.loggedOpcode != 0
    ensures Fetch(s).loggedOpcode == s.loggedOpcode && FetchOperands(s, mode).loggedOpcode == s.loggedOpcode
    ensures Fetch(s).curOpcode == s.curOpcode && FetchOperands(s, mode).curOpcode == s.curOpcode
  {
  }

  lemma JumpKeepsOpcode(s: Machine, op: Mnemonic, mode: Mode)
    requires s.loggedOpcode != 0
    ensures Jump(s, op, mode).loggedOpcode == s.loggedOpcode && Jump(s, op, mode).curOpcode == s.curOpcode
  {
    FetchKeepsOpcode(s, mode);
    hide FetchOperands, Address, Next, FlagsOf, Write, Read, Wrap8;
  }

  lemma BranchKeepsOpcode(s: Machine, op: Mnemonic)
    requires s.loggedOpcode != 0
    ensures Branch(s, op).loggedOpcode == s.loggedOpcode && Branch(s, op).curOpcode == s.curOpcode
  {
    hide Taken, Address, Next, Read;
  }

  lemma DataOpsKeepOpcode(s: Machine, op: Mnemonic, mode: Mode)
    requires s.loggedOpcode != 0
    ensures ExecOperand(s, op, mode).loggedOpcode == s.loggedOpcode && ExecImplied(s, op).loggedOpcode == s.loggedOpcode
    ensures ExecOperand(s, op, mode).curOpcode == s.curOpcode && ExecImplied(s, op).curOpcode == s.curOpcode
  {
    hide ExecOperand, ExecImplied, FetchOperands, Fetch;
    FetchKeepsOpcode(s, mode);
    var t, u := ExecOperand(s, op, mode), ExecImplied(s, op);
    assert DataOnly(FetchOperands(s, mode), t) && DataOnly(s, u);
  }

  lemma ExecKeepsOpcode(s: Machine, op: Mnemonic, mode: Mode)
    requires s.loggedOpcode != 0
    ensures Exec(s, op, mode).loggedOpcode == s.loggedOpcode && Exec(s, op, mode).curOpcode == s.curOpcode
  {
    hide ExecOperand, ExecImplied, Jump, Branch, ClassOf, Taken, DataOnly, Fetch, FetchOperands;
    DataOpsKeepOpcode(s, op, mode);
    BranchKeepsOpcode(s, op);
    JumpKeepsOpcode(s, op, mode);
  }

  lemma BreakLogsNothing(s: Machine, mode: Mode)
    ensures var t := Exec(s, BRK, mode);
      t.loggedOpcode == s.loggedOpcode && t.operands == s.operands && t.curOpcode == s.curOpcode
  {
    hide KindOf, ClassOf, Exec, Jump, Break;
    JumpIs(s, mode);
    JumpsAreJumping();
    ExecOfKind(s, BRK, mode);
    ExecOfClass(s, BRK, mode);
    BreakKeepsLog(s);
  }

  lemma BreakKeepsLog(s: Machine)
    ensures var t := Break(s); t.loggedOpcode == s.loggedOpcode && t.operands == s.operands && t.curOpcode == s.curOpcode
  {
    hide Read16, Flags.ToByte, High, Low, Next;
  }

  /** The opcode of an entry is the byte at its program counter, whatever the instruction is. The operand bytes of all
      but jumps, branches and interrupts are the bytes behind it, as many as the table counts, and then zeros. */
  lemma RecordIsInstruction(s: Machine)
    ensures RecordOf(s).opcode == Opcode(s) && Step(s).curOpcode == Opcode(s)
    ensures Implemented(Opcode(s)) && IsStraightLine(Table(Opcode(s)).mnemonic) ==>
      var n := Table(Opcode(s)).numBytes - 1;
      && 0 <= n <= 2 && |RecordOf(s).operands| == 2
      && forall i :: 0 <= i < 2 ==> RecordOf(s).operands[i] == if i < n then Read(s, Advance(s.pc, i + 1)) else 0
    ensures !Implemented(Opcode(s)) ==> RecordOf(s).operands == [0, 0]
  {
    var e := Table(Opcode(s));
    DecodedFacts(s);
    if Opcode(s) == 0 {
      assert Table(0).mnemonic.BRK?;
      hide Table, Exec;
      BreakLogsNothing(Decoded(s), e.mode);
    } else {
      hide Table, Exec, Implemented, Decoded;
      ExecKeepsOpcode(Decoded(s), e.mnemonic, e.mode);
    }
    if Implemented(Opcode(s)) && IsStraightLine(e.mnemonic) {
      hide Table, Exec, Implemented, Decoded, Step, Opcode;
      StraightLineStep(s);
    }
  }

  lemma BranchLogs(d: Machine, op: Mnemonic)
    requires KindOf(op).Branching? && d.loggedOpcode != 0 && d.operands == []
    ensures Exec(d, op, Relative).operands == [Read(d, d.pc)]
  {
    hide KindOf, ClassOf, Branch, Read, Exec, Next;
    ExecOfKind(d, op, Relative);
    ExecOfClass(d, op, Relative);
  }

  lemma JumpLogs(d: Machine, op: Mnemonic, mode: Mode)
    requires (op.JSR? || op.JMP?) && OperandBytes(mode) == 2 && d.loggedOpcode != 0 && d.operands == []
    ensures Exec(d, op, mode).operands == [Read(d, d.pc), Read(d, Next(d.pc))]
  {
    hide KindOf, ClassOf, Exec, Jump, Address, PushPC, Next, OperandBytes;
    JumpIs(d, mode);
    JumpsAreJumping();
    ExecOfKind(d, op, mode);
    ExecOfClass(d, op, mode);
    PushLogs(Log(Fetch(d), Read(Fetch(d), Fetch(d).pc)));
  }

  lemma JumpsAreJumping()
    ensures KindOf(JSR).Jumping? && KindOf(JMP).Jumping? && KindOf(RTS).Jumping? && KindOf(BRK).Jumping?
    ensures KindOf(RTI).Jumping?
  {
  }

  lemma PushLogs(s: Machine)
    ensures PushPC(s).operands == s.operands && PushPC(s).loggedOpcode == s.loggedOpcode
    ensures PullPC(s).operands == s.operands && PullPC(s).loggedOpcode == s.loggedOpcode
    ensures PullPC(s).ram == s.ram && PullPC(s).rom == s.rom && PullPC(s).pc == WordOf(Top(s), Top(Pull(s)))
  {
  }

  /** RTS logs the byte that it skips, behind the call; BRK and RTI log nothing. */
  lemma ReturnLogs(d: Machine, op: Mnemonic, mode: Mode)
    requires (op.RTS? || op.RTI?) && d.loggedOpcode != 0 && d.operands == []
    ensures Exec(d, op, mode).operands == if op.RTS? then [Read(d, WordOf(Top(d), Top(Pull(d))))] else []
  {
    hide KindOf, ClassOf, Exec, Jump, PullPC, Top, Next, FlagsOf;
    JumpIs(d, mode);
    JumpsAreJumping();
    ExecOfKind(d, op, mode);
    ExecOfClass(d, op, mode);
    PushLogs(d);
    PushLogs(Pull(d).(flags := FlagsOf(Top(d))));
  }

  lemma StepOperands(s: Machine)
    requires Implemented(Opcode(s))
    ensures Step(s).operands == Exec(Decoded(s), Table(Opcode(s)).mnemonic, Table(Opcode(s)).mode).operands
  {
    hide Implemented, Table, Exec, Decoded, Opcode;
  }

  /** The instructions that change the flow of control, and their modes. */
  lemma ControlEntry(opcode: Byte)
    requires Implemented(opcode)
    requires ClassOf(Table(opcode).mnemonic).BranchClass? || ClassOf(Table(opcode).mnemonic).JumpClass?
    ensures var e := Table(opcode); var op := e.mnemonic;
      && (op.BRK? || op.RTI? || op.RTS? || op.JSR? || op.JMP? || (KindOf(op).Branching? && e.mode.Relative?))
      && (op.JSR? || op.JMP? ==> OperandBytes(e.mode) == 2) && (opcode == 0 ==> op.BRK?)
  {
    ImplementedSuits(opcode);
    if opcode == 0 {
      assert Table(0).mnemonic.BRK?;
    }
    hide Table, Implemented, OperandBytes;
    ControlKinds(Table(opcode).mnemonic);
  }

  lemma ControlKinds(op: Mnemonic)
    ensures ClassOf(op).BranchClass? ==> KindOf(op).Branching?
    ensures ClassOf(op).JumpClass? ==> op.BRK? || op.RTI? || op.RTS? || op.JSR? || op.JMP?
  {
  }

  lemma DecodedReads(s: Machine)
    ensures var d := Decoded(s);
      && d.operands == [] && Top(d) == Top(s) && Top(Pull(d)) == Top(Pull(s))
      && Read(d, d.pc) == Read(s, Advance(s.pc, 1)) && Read(d, Next(d.pc)) == Read(s, Advance(s.pc, 2))
      && forall at: Word :: Read(d, at) == Read(s, at)
  {
    DecodedFacts(s);
    assert Decoded(s).operands == [] && Decoded(s).sp == s.sp;
    hide Decoded;
  }

  /** The operand bytes of branches and jumps are the bytes behind the opcode; RTS has logged the byte that it skips, BRK
      and RTI have none. */
  lemma ControlOperands(s: Machine)
    requires Implemented(Opcode(s))
    requires ClassOf(Table(Opcode(s)).mnemonic).BranchClass? || ClassOf(Table(Opcode(s)).mnemonic).JumpClass?
    ensures var op := Table(Opcode(s)).mnemonic;
      RecordOf(s).operands ==
        if op.BRK? || op.RTI? then [0, 0]
        else if op.RTS? then [Read(s, WordOf(Top(s), Top(Pull(s)))), 0]
        else if op.JSR? || op.JMP? then [Read(s, Advance(s.pc, 1)), Read(s, Advance(s.pc, 2))]
        else [Read(s, Advance(s.pc, 1)), 0]
  {
    hide Implemented, Table, ClassOf, KindOf, Exec, Step, Top, Opcode, Advance;
    var d, e := Decoded(s), Table(Opcode(s));
    ControlEntry(Opcode(s));
    StepOperands(s);
    DecodedReads(s);
    DecodedFacts(s);
    hide Decoded, Read, OperandBytes, Next, Pull;
    if e.mnemonic.BRK? {
      BreakLogsNothing(d, e.mode);
    } else if e.mnemonic.RTS? || e.mnemonic.RTI? {
      ReturnLogs(d, e.mnemonic, e.mode);
    } else if e.mnemonic.JSR? || e.mnemonic.JMP? {
      JumpLogs(d, e.mnemonic, e.mode);
    } else {
      BranchLogs(d, e.mnemonic);
    }
  }
}

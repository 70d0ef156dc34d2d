/** Where the emulator departs from the processor it emulates, and exactly when the two agree. */
module CpuDeviations {
  import opened Bits
  import opened OpcodeTable
  import opened Cpu

  /** A byte as a signed number. */
  function Signed(b: Byte): int {
    if b >= 0x80 then b - 0x100 else b
  }

  /** The sum does not fit in a signed byte: what the overflow flag of an addition stands for. */
  predicate SumOverflows(s: Machine, v: Byte) {
    !(-0x80 <= Signed(s.a) + Signed(v) + Bit(s.flags.c, 1) <= 0x7F)
  }

  predicate DifferenceOverflows(s: Machine, v: Byte) {
    !(-0x80 <= Signed(s.a) - Signed(v) - Bit(!s.flags.c, 1) <= 0x7F)
  }

  /** ADC computes its overflow flag with an A that has already been changed, so the flag is right
      unless both operands are negative, and then it is always wrong. */
  lemma AdcOverflowFlag(s: Machine, v: Byte)
    ensures (Adc(s, v).flags.v <==> SumOverflows(s, v)) <==> !(Negative(s.a) && Negative(v))
  {
    XorOfSigns(s.a, v);
    XorOfSigns(Xor8(s.a, v), Wrap8(s.a + v + Bit(s.flags.c, 1)));
  }

  /** SBC's overflow flag is right unless A is not negative and the operand is, and then it is always
      wrong. */
  lemma SbcOverflowFlag(s: Machine, v: Byte)
    ensures (Sbc(s, v).flags.v <==> DifferenceOverflows(s, v)) <==> !(!Negative(s.a) && Negative(v))
  {
    XorOfSigns(s.a, v);
    XorOfSigns(Xor8(s.a, v), Wrap8(s.a - v - Bit(!s.flags.c, 1)));
  }

  lemma XorOfSigns(x: Byte, y: Byte)
    ensures Negative(Xor8(x, y)) <==> Negative(x) != Negative(y)
  {
    assert Pow2(7) == 0x80;
    XorSign(x, y, 7);
  }

  /** A compare sets N from the untruncated difference. It is bit 7 of the difference byte unless
      the difference is -128 to -1. */
  lemma CompareNegativeFlag(s: Machine, register: Byte, v: Byte)
    ensures (Compare(s, register, v).flags.n <==> Negative(Wrap8(register - v))) <==> !(-0x80 <= register - v < 0)
  {
  }

  /** LSR on the accumulator puts bit 0 into the carry only if the bit or the old carry decides so. */
  lemma LsrAccumulatorCarry(s: Machine)
    ensures (ShiftA(s, LSR).flags.c <==> Odd(s.a)) <==> (Odd(s.a) || !s.flags.c)
  {
  }

  /** DEY takes one from X and leaves Y alone, so no run of it counts Y down. */
  lemma DeyCountsX(s: Machine)
    ensures RegisterOp(s, DEY) == RegisterOp(s, DEX)
    ensures RegisterOp(s, DEY).y == s.y != Wrap8(s.y - 1)
  {
  }

  /** ORA, EOR and AND write their result over their memory operand. Memory is kept exactly if the operand is
      not in RAM, or has every bit of A (ORA), or A is 0 (EOR), or A has every bit of it (AND). */
  lemma LogicOpsOverwriteMemory(s: Machine, op: Mnemonic, mode: Mode)
    requires KindOf(op).Logical? && !mode.Immediate?
    ensures var at := Address(s, mode);
      LogicOp(s, op, mode).ram == s.ram <==>
        at >= RAM_SIZE
        || (if op.ORA? then Within(s.a, s.ram[at]) else if op.EOR? then s.a == 0 else Within(s.ram[at], s.a))
  {
    hide Address, Or, And, Xor, Within;
    var at := Address(s, mode);
    LogicOpWrites(s, op, mode);
    if at < RAM_SIZE {
      OperandKept(s.a, s.ram[at]);
    }
  }

  lemma LogicOpWrites(s: Machine, op: Mnemonic, mode: Mode)
    requires KindOf(op).Logical? && !mode.Immediate?
    ensures var at := Address(s, mode);
      LogicOp(s, op, mode).ram == if at >= RAM_SIZE then s.ram else s.ram[at := Logic(op, s.a, s.ram[at])]
  {
    hide Address, Logic;
  }
}

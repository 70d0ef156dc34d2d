/** The table of all 256 opcodes: mnemonic, addressing mode, length and base cycle count. */
module OpcodeTable {
  import opened Bits

  datatype Mnemonic =
    | BRK | ORA | STP | SLO | NOP | ASL | PHP | ANC | BPL | KIL | CLC | JSR
    | AND | RLA | BIT | ROL | PLP | BMI | SEC | RTI | EOR | SRE | LSR | PHA
    | ALR | JMP | BVC | CLI | RTS | ADC | RRA | ROR | PLA | ARR | BVS | SEI
    | STA | SAX | STY | STX | DEY | TXA | XAA | BCC | AHX | TYA | TXS | TAS
    | SHY | SHX | LDY | LDA | LDX | LAX | TAY | TAX | BCS | CLV | TSX | LAS
    | CPY | CMP | DCP | DEC | INY | DEX | AXS | BNE | CLD | CPX | SBC | ISC
    | INC | INX | BEQ | SED

  datatype Mode =
    | Implied | Accumulator | Immediate | Absolute | ZeroPage | AbsoluteX | AbsoluteY
    | ZeroPageX | ZeroPageY | IndirectX | IndirectY | AbsIndirect | Relative | Unknown

  datatype Entry = Entry(mnemonic: Mnemonic, mode: Mode, numBytes: nat, cycles: nat)

  /** The operand bytes that an addressing mode takes. */
  function OperandBytes(mode: Mode): nat {
    if mode.Immediate? || mode.ZeroPage? || mode.ZeroPageX? || mode.ZeroPageY? ||
       mode.IndirectX? || mode.IndirectY? || mode.Relative? then 1
    else if mode.Absolute? || mode.AbsoluteX? || mode.AbsoluteY? || mode.AbsIndirect? then 2
    else 0
  }

  /** What sort of operation a mnemonic is. */
  datatype Kind =
    | Loading | Storing | Shifting | Logical | Counting | Adding | Comparing
    | Registering | Flagging | Stacking | Branching | Jumping | Unhandled

  function KindOf(op: Mnemonic): Kind {
    match op
    case LDA | LDX | LDY => Loading
    case STA | STX | STY => Storing
    case ASL | LSR | ROL | ROR => Shifting
    case ORA | EOR | AND => Logical
    case INC | DEC => Counting
    case ADC | SBC => Adding
    case CMP | CPX | CPY | BIT => Comparing
    case TAX | TAY | TXA | TYA | TSX | TXS | INX | DEX | INY | DEY => Registering
    case SEC | CLC | CLV | SEI | CLI | SED | STP | NOP => Flagging
    case PHA | PLA | PHP | PLP => Stacking
    case BNE | BEQ | BPL | BMI | BVC | BVS | BCC | BCS => Branching
    case JMP | JSR | RTS | BRK | RTI => Jumping
    case CLD | KIL | SLO | ANC | RLA | SRE | ALR | RRA | ARR | SAX | XAA | AHX | TAS | SHY | SHX | LAX | LAS
       | DCP | AXS | ISC => Unhandled
  }

  datatype Class = OperandClass | ImpliedClass | BranchClass | JumpClass | NoClass

  function ClassOf(op: Mnemonic): Class {
    match KindOf(op)
    case Loading | Storing | Shifting | Logical | Counting | Adding | Comparing => OperandClass
    case Registering | Flagging | Stacking => ImpliedClass
    case Branching => BranchClass
    case Jumping => JumpClass
    case Unhandled => NoClass
  }

  /** What every entry of the table keeps: a cost of 2 to 8 cycles, but none for KIL and at most 3
      for a branch, and, but for TAS, the length that its addressing mode implies. */
  predicate Regular(e: Entry) {
    && (if e.mnemonic.KIL? then e.cycles == 0 else 2 <= e.cycles <= 8)
    && (e.mode.Relative? ==> e.cycles <= 3)
    && (e.mnemonic.TAS? || e.numBytes == 1 + OperandBytes(e.mode))
  }

  /** The entry of an opcode, found by its high nibble and then by its low nibble. */
  function Table(opcode: Byte): Entry {
    if opcode < 0x10 then Row0(opcode - 0x00)
    else if opcode < 0x20 then Row1(opcode - 0x10)
    else if opcode < 0x30 then Row2(opcode - 0x20)
    else if opcode < 0x40 then Row3(opcode - 0x30)
    else if opcode < 0x50 then Row4(opcode - 0x40)
    else if opcode < 0x60 then Row5(opcode - 0x50)
    else if opcode < 0x70 then Row6(opcode - 0x60)
    else if opcode < 0x80 then Row7(opcode - 0x70)
    else if opcode < 0x90 then Row8(opcode - 0x80)
    else if opcode < 0xA0 then Row9(opcode - 0x90)
    else if opcode < 0xB0 then RowA(opcode - 0xA0)
    else if opcode < 0xC0 then RowB(opcode - 0xB0)
    else if opcode < 0xD0 then RowC(opcode - 0xC0)
    else if opcode < 0xE0 then RowD(opcode - 0xD0)
    else if opcode < 0xF0 then RowE(opcode - 0xE0)
    else RowF(opcode - 0xF0)
  }

  function Row0(low: int): Entry {
    match low
    case 0 => Entry(BRK, Unknown, 1, 7)
    case 1 => Entry(ORA, IndirectX, 2, 6)
    case 2 => Entry(STP, Unknown, 1, 2)
    case 3 => Entry(SLO, IndirectX, 2, 8)
    case 4 => Entry(NOP, ZeroPage, 2, 3)
    case 5 => Entry(ORA, ZeroPage, 2, 3)
    case 6 => Entry(ASL, ZeroPage, 2, 5)
    case 7 => Entry(SLO, ZeroPage, 2, 5)
    case 8 => Entry(PHP, Unknown, 1, 3)
    case 9 => Entry(ORA, Immediate, 2, 2)
    case 10 => Entry(ASL, Unknown, 1, 2)
    case 11 => Entry(ANC, Immediate, 2, 2)
    case 12 => Entry(NOP, Absolute, 3, 4)
    case 13 => Entry(ORA, Absolute, 3, 4)
    case 14 => Entry(ASL, Absolute, 3, 6)
    case _ => Entry(SLO, Absolute, 3, 6)
  }

  function Row1(low: int): Entry {
    match low
    case 0 => Entry(BPL, Relative, 2, 2)
    case 1 => Entry(ORA, IndirectY, 2, 5)
    case 2 => Entry(KIL, Unknown, 1, 0)
    case 3 => Entry(SLO, IndirectY, 2, 8)
    case 4 => Entry(NOP, ZeroPageX, 2, 4)
    case 5 => Entry(ORA, ZeroPageX, 2, 4)
    case 6 => Entry(ASL, ZeroPageX, 2, 6)
    case 7 => Entry(SLO, ZeroPageX, 2, 6)
    case 8 => Entry(CLC, Implied, 1, 2)
    case 9 => Entry(ORA, AbsoluteY, 3, 4)
    case 10 => Entry(NOP, Implied, 1, 2)
    case 11 => Entry(SLO, AbsoluteY, 3, 7)
    case 12 => Entry(NOP, AbsoluteX, 3, 4)
    case 13 => Entry(ORA, AbsoluteX, 3, 4)
    case 14 => Entry(ASL, AbsoluteX, 3, 7)
    case _ => Entry(SLO, AbsoluteX, 3, 7)
  }

  function Row2(low: int): Entry {
    match low
    case 0 => Entry(JSR, Absolute, 3, 6)
    case 1 => Entry(AND, IndirectX, 2, 6)
    case 2 => Entry(KIL, Unknown, 1, 0)
    case 3 => Entry(RLA, IndirectX, 2, 8)
    case 4 => Entry(BIT, ZeroPage, 2, 3)
    case 5 => Entry(AND, ZeroPage, 2, 3)
    case 6 => Entry(ROL, ZeroPage, 2, 5)
    case 7 => Entry(RLA, ZeroPage, 2, 5)
    case 8 => Entry(PLP, Unknown, 1, 4)
    case 9 => Entry(AND, Immediate, 2, 2)
    case 10 => Entry(ROL, Accumulator, 1, 2)
    case 11 => Entry(ANC, Immediate, 2, 2)
    case 12 => Entry(BIT, Absolute, 3, 4)
    case 13 => Entry(AND, Absolute, 3, 4)
    case 14 => Entry(ROL, Absolute, 3, 6)
    case _ => Entry(RLA, Absolute, 3, 6)
  }

  function Row3(low: int): Entry {
    match low
    case 0 => Entry(BMI, Relative, 2, 2)
    case 1 => Entry(AND, IndirectY, 2, 5)
    case 2 => Entry(KIL, Unknown, 1, 0)
    case 3 => Entry(RLA, IndirectY, 2, 8)
    case 4 => Entry(NOP, ZeroPageX, 2, 4)
    case 5 => Entry(AND, ZeroPageX, 2, 4)
    case 6 => Entry(ROL, ZeroPageX, 2, 6)
    case 7 => Entry(RLA, ZeroPageX, 2, 6)
    case 8 => Entry(SEC, Implied, 1, 2)
    case 9 => Entry(AND, AbsoluteY, 3, 4)
    case 10 => Entry(NOP, Implied, 1, 2)
    case 11 => Entry(RLA, AbsoluteY, 3, 7)
    case 12 => Entry(NOP, AbsoluteX, 3, 4)
    case 13 => Entry(AND, AbsoluteX, 3, 4)
    case 14 => Entry(ROL, AbsoluteX, 3, 7)
    case _ => Entry(RLA, AbsoluteX, 3, 7)
  }

  function Row4(low: int): Entry {
    match low
    case 0 => Entry(RTI, Implied, 1, 6)
    case 1 => Entry(EOR, IndirectX, 2, 6)
    case 2 => Entry(KIL, Unknown, 1, 0)
    case 3 => Entry(SRE, IndirectX, 2, 8)
    case 4 => Entry(NOP, ZeroPage, 2, 3)
    case 5 => Entry(EOR, ZeroPage, 2, 3)
    case 6 => Entry(LSR, ZeroPage, 2, 5)
    case 7 => Entry(SRE, ZeroPage, 2, 5)
    case 8 => Entry(PHA, Implied, 1, 3)
    case 9 => Entry(EOR, Immediate, 2, 2)
    case 10 => Entry(LSR, Accumulator, 1, 2)
    case 11 => Entry(ALR, Immediate, 2, 2)
    case 12 => Entry(JMP, Absolute, 3, 3)
    case 13 => Entry(EOR, Absolute, 3, 4)
    case 14 => Entry(LSR, Absolute, 3, 6)
    case _ => Entry(SRE, Absolute, 3, 6)
  }

  function Row5(low: int): Entry {
    match low
    case 0 => Entry(BVC, Relative, 2, 3)
    case 1 => Entry(EOR, IndirectY, 2, 5)
    case 2 => Entry(KIL, Unknown, 1, 0)
    case 3 => Entry(SRE, IndirectY, 2, 8)
    case 4 => Entry(NOP, ZeroPageX, 2, 4)
    case 5 => Entry(EOR, ZeroPageX, 2, 4)
    case 6 => Entry(LSR, ZeroPageX, 2, 6)
    case 7 => Entry(SRE, ZeroPageX, 2, 6)
    case 8 => Entry(CLI, Implied, 1, 2)
    case 9 => Entry(EOR, AbsoluteY, 3, 4)
    case 10 => Entry(NOP, Implied, 1, 2)
    case 11 => Entry(SRE, AbsoluteY, 3, 7)
    case 12 => Entry(NOP, AbsoluteX, 3, 4)
    case 13 => Entry(EOR, AbsoluteX, 3, 4)
    case 14 => Entry(LSR, AbsoluteX, 3, 7)
    case _ => Entry(SRE, AbsoluteX, 3, 7)
  }

  function Row6(low: int): Entry {
    match low
    case 0 => Entry(RTS, Implied, 1, 6)
    case 1 => Entry(ADC, IndirectX, 2, 6)
    case 2 => Entry(KIL, Unknown, 1, 0)
    case 3 => Entry(RRA, IndirectX, 2, 8)
    case 4 => Entry(NOP, ZeroPage, 2, 3)
    case 5 => Entry(ADC, ZeroPage, 2, 3)
    case 6 => Entry(ROR, ZeroPage, 2, 5)
    case 7 => Entry(RRA, ZeroPage, 2, 5)
    case 8 => Entry(PLA, Implied, 1, 4)
    case 9 => Entry(ADC, Immediate, 2, 2)
    case 10 => Entry(ROR, Accumulator, 1, 2)
    case 11 => Entry(ARR, Immediate, 2, 2)
    case 12 => Entry(JMP, AbsIndirect, 3, 5)
    case 13 => Entry(ADC, Absolute, 3, 4)
    case 14 => Entry(ROR, Absolute, 3, 6)
    case _ => Entry(RRA, Absolute, 3, 6)
  }

  function Row7(low: int): Entry {
    match low
    case 0 => Entry(BVS, Relative, 2, 2)
    case 1 => Entry(ADC, IndirectY, 2, 5)
    case 2 => Entry(KIL, Unknown, 1, 0)
    case 3 => Entry(RRA, IndirectY, 2, 8)
    case 4 => Entry(NOP, ZeroPageX, 2, 4)
    case 5 => Entry(ADC, ZeroPageX, 2, 4)
    case 6 => Entry(ROR, ZeroPageX, 2, 6)
    case 7 => Entry(RRA, ZeroPageX, 2, 6)
    case 8 => Entry(SEI, Implied, 1, 2)
    case 9 => Entry(ADC, AbsoluteY, 3, 4)
    case 10 => Entry(NOP, Implied, 1, 2)
    case 11 => Entry(RRA, AbsoluteY, 3, 7)
    case 12 => Entry(NOP, AbsoluteX, 3, 4)
    case 13 => Entry(ADC, AbsoluteX, 3, 4)
    case 14 => Entry(ROR, AbsoluteX, 3, 7)
    case _ => Entry(RRA, AbsoluteX, 3, 7)
  }

  function Row8(low: int): Entry {
    match low
    case 0 => Entry(NOP, Immediate, 2, 2)
    case 1 => Entry(STA, IndirectX, 2, 6)
    case 2 => Entry(NOP, Immediate, 2, 2)
    case 3 => Entry(SAX, IndirectX, 2, 6)
    case 4 => Entry(STY, ZeroPage, 2, 3)
    case 5 => Entry(STA, ZeroPage, 2, 3)
    case 6 => Entry(STX, ZeroPage, 2, 3)
    case 7 => Entry(SAX, ZeroPage, 2, 3)
    case 8 => Entry(DEY, Implied, 1, 2)
    case 9 => Entry(NOP, Immediate, 2, 2)
    case 10 => Entry(TXA, Implied, 1, 2)
    case 11 => Entry(XAA, Immediate, 2, 2)
    case 12 => Entry(STY, Absolute, 3, 4)
    case 13 => Entry(STA, Absolute, 3, 4)
    case 14 => Entry(STX, Absolute, 3, 4)
    case _ => Entry(SAX, Absolute, 3, 4)
  }

  function Row9(low: int): Entry {
    match low
    case 0 => Entry(BCC, Relative, 2, 3)
    case 1 => Entry(STA, IndirectY, 2, 6)
    case 2 => Entry(KIL, Unknown, 1, 0)
    case 3 => Entry(AHX, IndirectY, 2, 6)
    case 4 => Entry(STY, ZeroPageX, 2, 4)
    case 5 => Entry(STA, ZeroPageX, 2, 4)
    case 6 => Entry(STX, ZeroPageY, 2, 4)
    case 7 => Entry(SAX, ZeroPageY, 2, 4)
    case 8 => Entry(TYA, Implied, 1, 2)
    case 9 => Entry(STA, AbsoluteY, 3, 5)
    case 10 => Entry(TXS, Implied, 1, 2)
    case 11 => Entry(TAS, AbsoluteY, 1, 5)
    case 12 => Entry(SHY, AbsoluteX, 3, 5)
    case 13 => Entry(STA, AbsoluteX, 3, 5)
    case 14 => Entry(SHX, AbsoluteY, 3, 5)
    case _ => Entry(AHX, AbsoluteY, 3, 5)
  }

  function RowA(low: int): Entry {
    match low
    case 0 => Entry(LDY, Immediate, 2, 2)
    case 1 => Entry(LDA, IndirectX, 2, 6)
    case 2 => Entry(LDX, Immediate, 2, 2)
    case 3 => Entry(LAX, IndirectX, 2, 6)
    case 4 => Entry(LDY, ZeroPage, 2, 3)
    case 5 => Entry(LDA, ZeroPage, 2, 3)
    case 6 => Entry(LDX, ZeroPage, 2, 3)
    case 7 => Entry(LAX, ZeroPage, 2, 3)
    case 8 => Entry(TAY, Implied, 1, 2)
    case 9 => Entry(LDA, Immediate, 2, 2)
    case 10 => Entry(TAX, Implied, 1, 2)
    case 11 => Entry(LAX, Immediate, 2, 2)
    case 12 => Entry(LDY, Absolute, 3, 4)
    case 13 => Entry(LDA, Absolute, 3, 4)
    case 14 => Entry(LDX, Absolute, 3, 4)
    case _ => Entry(LAX, Absolute, 3, 4)
  }

  function RowB(low: int): Entry {
    match low
    case 0 => Entry(BCS, Relative, 2, 2)
    case 1 => Entry(LDA, IndirectY, 2, 5)
    case 2 => Entry(KIL, Unknown, 1, 0)
    case 3 => Entry(LAX, IndirectY, 2, 5)
    case 4 => Entry(LDY, ZeroPageX, 2, 4)
    case 5 => Entry(LDA, ZeroPageX, 2, 4)
    case 6 => Entry(LDX, ZeroPageY, 2, 4)
    case 7 => Entry(LAX, ZeroPageY, 2, 4)
    case 8 => Entry(CLV, Implied, 1, 2)
    case 9 => Entry(LDA, AbsoluteY, 3, 4)
    case 10 => Entry(TSX, Implied, 1, 2)
    case 11 => Entry(LAS, AbsoluteY, 3, 4)
    case 12 => Entry(LDY, AbsoluteX, 3, 4)
    case 13 => Entry(LDA, AbsoluteX, 3, 4)
    case 14 => Entry(LDX, AbsoluteY, 3, 4)
    case _ => Entry(LAX, AbsoluteY, 3, 4)
  }

  function RowC(low: int): Entry {
    match low
    case 0 => Entry(CPY, Immediate, 2, 2)
    case 1 => Entry(CMP, IndirectX, 2, 6)
    case 2 => Entry(NOP, Immediate, 2, 2)
    case 3 => Entry(DCP, IndirectX, 2, 8)
    case 4 => Entry(CPY, ZeroPage, 2, 3)
    case 5 => Entry(CMP, ZeroPage, 2, 3)
    case 6 => Entry(DEC, ZeroPage, 2, 5)
    case 7 => Entry(DCP, ZeroPage, 2, 5)
    case 8 => Entry(INY, Implied, 1, 2)
    case 9 => Entry(CMP, Immediate, 2, 2)
    case 10 => Entry(DEX, Implied, 1, 2)
    case 11 => Entry(AXS, Immediate, 2, 2)
    case 12 => Entry(CPY, Absolute, 3, 4)
    case 13 => Entry(CMP, Absolute, 3, 4)
    case 14 => Entry(DEC, Absolute, 3, 6)
    case _ => Entry(DCP, Absolute, 3, 6)
  }

  function RowD(low: int): Entry {
    match low
    case 0 => Entry(BNE, Relative, 2, 2)
    case 1 => Entry(CMP, IndirectY, 2, 5)
    case 2 => Entry(KIL, Unknown, 1, 0)
    case 3 => Entry(DCP, IndirectY, 2, 8)
    case 4 => Entry(NOP, ZeroPageX, 2, 4)
    case 5 => Entry(CMP, ZeroPageX, 2, 4)
    case 6 => Entry(DEC, ZeroPageX, 2, 6)
    case 7 => Entry(DCP, ZeroPageX, 2, 6)
    case 8 => Entry(CLD, Implied, 1, 2)
    case 9 => Entry(CMP, AbsoluteY, 3, 4)
    case 10 => Entry(NOP, Implied, 1, 2)
    case 11 => Entry(DCP, AbsoluteY, 3, 7)
    case 12 => Entry(NOP, AbsoluteX, 3, 4)
    case 13 => Entry(CMP, AbsoluteX, 3, 4)
    case 14 => Entry(DEC, AbsoluteX, 3, 7)
    case _ => Entry(DCP, AbsoluteX, 3, 7)
  }

  function RowE(low: int): Entry {
    match low
    case 0 => Entry(CPX, Immediate, 2, 2)
    case 1 => Entry(SBC, IndirectX, 2, 6)
    case 2 => Entry(NOP, Immediate, 2, 2)
    case 3 => Entry(ISC, IndirectX, 2, 8)
    case 4 => Entry(CPX, ZeroPage, 2, 3)
    case 5 => Entry(SBC, ZeroPage, 2, 3)
    case 6 => Entry(INC, ZeroPage, 2, 5)
    case 7 => Entry(ISC, ZeroPage, 2, 5)
    case 8 => Entry(INX, Implied, 1, 2)
    case 9 => Entry(SBC, Immediate, 2, 2)
    case 10 => Entry(NOP, Implied, 1, 2)
    case 11 => Entry(SBC, Immediate, 2, 2)
    case 12 => Entry(CPX, Absolute, 3, 4)
    case 13 => Entry(SBC, Absolute, 3, 4)
    case 14 => Entry(INC, Absolute, 3, 6)
    case _ => Entry(ISC, Absolute, 3, 6)
  }

  function RowF(low: int): Entry {
    match low
    case 0 => Entry(BEQ, Relative, 2, 2)
    case 1 => Entry(SBC, IndirectY, 2, 5)
    case 2 => Entry(KIL, Unknown, 1, 0)
    case 3 => Entry(ISC, IndirectY, 2, 8)
    case 4 => Entry(NOP, ZeroPageX, 2, 4)
    case 5 => Entry(SBC, ZeroPageX, 2, 4)
    case 6 => Entry(INC, ZeroPageX, 2, 6)
    case 7 => Entry(ISC, ZeroPageX, 2, 6)
    case 8 => Entry(SED, Implied, 1, 2)
    case 9 => Entry(SBC, AbsoluteY, 3, 4)
    case 10 => Entry(NOP, Implied, 1, 2)
    case 11 => Entry(ISC, AbsoluteY, 3, 7)
    case 12 => Entry(NOP, AbsoluteX, 3, 4)
    case 13 => Entry(SBC, AbsoluteX, 3, 4)
    case 14 => Entry(INC, AbsoluteX, 3, 7)
    case _ => Entry(ISC, AbsoluteX, 3, 7)
  }

  lemma RegularFrom00(opcode: Byte)
    requires opcode < 0x20
    ensures Regular(Table(opcode))
  {
  }

  lemma RegularFrom20(opcode: Byte)
    requires 0x20 <= opcode < 0x40
    ensures Regular(Table(opcode))
  {
  }

  lemma RegularFrom40(opcode: Byte)
    requires 0x40 <= opcode < 0x60
    ensures Regular(Table(opcode))
  {
  }

  lemma RegularFrom60(opcode: Byte)
    requires 0x60 <= opcode < 0x80
    ensures Regular(Table(opcode))
  {
  }

  lemma RegularFrom80(opcode: Byte)
    requires 0x80 <= opcode < 0xA0
    ensures Regular(Table(opcode))
  {
  }

  lemma RegularFromA0(opcode: Byte)
    requires 0xA0 <= opcode < 0xC0
    ensures Regular(Table(opcode))
  {
  }

  lemma RegularFromC0(opcode: Byte)
    requires 0xC0 <= opcode < 0xE0
    ensures Regular(Table(opcode))
  {
  }

  lemma RegularFromE0(opcode: Byte)
    requires 0xE0 <= opcode
    ensures Regular(Table(opcode))
  {
  }

  lemma TableIsRegular(opcode: Byte)
    ensures Regular(Table(opcode))
  {
    if opcode < 0x20 { RegularFrom00(opcode); }
    else if opcode < 0x40 { RegularFrom20(opcode); }
    else if opcode < 0x60 { RegularFrom40(opcode); }
    else if opcode < 0x80 { RegularFrom60(opcode); }
    else if opcode < 0xA0 { RegularFrom80(opcode); }
    else if opcode < 0xC0 { RegularFromA0(opcode); }
    else if opcode < 0xE0 { RegularFromC0(opcode); }
    else { RegularFromE0(opcode); }
  }

  // ---------- the cost of the documented instructions ----------

  /** The mnemonics of the "MCS6500 Microcomputer Family Programming Manual". */
  predicate IsDocumented(op: Mnemonic) {
    match op
    case SLO | ANC | RLA | SRE | ALR | RRA | ARR | SAX | XAA | AHX | TAS | SHY | SHX | LAX | LAS | DCP | AXS | ISC | KIL | STP =>
      false
    case BRK | ORA | NOP | ASL | PHP | BPL | CLC | JSR | AND | BIT | ROL | PLP | BMI | SEC | RTI | EOR | LSR | PHA | JMP | BVC
       | CLI | RTS | ADC | ROR | PLA | BVS | SEI | STA | STY | STX | DEY | TXA | BCC | TYA | TXS | LDY | LDA | LDX | TAY | TAX
       | BCS | CLV | TSX | CPY | CMP | DEC | INY | DEX | BNE | CLD | CPX | SBC | INC | INX | BEQ | SED =>
      true
  }

  /** The cycles of reading an operand. */
  function ReadCycles(mode: Mode): nat {
    if mode.ZeroPage? then 3
    else if mode.ZeroPageX? || mode.ZeroPageY? || mode.Absolute? || mode.AbsoluteX? || mode.AbsoluteY? then 4
    else if mode.IndirectX? then 6
    else if mode.IndirectY? then 5
    else 2
  }

  predicate IsIndexed(mode: Mode) {
    mode.AbsoluteX? || mode.AbsoluteY? || mode.IndirectY?
  }

  /** The cycles of an instruction by the manual, without those for a branch that is taken or for an index that leads to
      another page: writing to an indexed address takes one more than reading, and changing memory two more. */
  function BaseCycles(op: Mnemonic, mode: Mode): nat {
    var k := KindOf(op);
    if op.PHA? || op.PHP? then 3
    else if op.PLA? || op.PLP? then 4
    else if op.RTS? || op.RTI? || op.JSR? then 6
    else if op.BRK? then 7
    else if op.JMP? then (if mode.Absolute? then 3 else 5)
    else if k.Storing? then ReadCycles(mode) + (if IsIndexed(mode) then 1 else 0)
    else if (k.Shifting? || k.Counting?) && OperandBytes(mode) > 0 then ReadCycles(mode) + (if IsIndexed(mode) then 3 else 2)
    else ReadCycles(mode)
  }

  /** The table has the documented cost, but for BVC and BCC, which cost one cycle too many. */
  predicate IsTimed(e: Entry) {
    IsDocumented(e.mnemonic) ==> e.cycles == BaseCycles(e.mnemonic, e.mode) + (if e.mnemonic.BVC? || e.mnemonic.BCC? then 1 else 0)
  }

  lemma InRow0(opcode: Byte)
    requires opcode < 0x10
    ensures Table(opcode) == Row0(opcode - 0x00)
  {
    hide Row0, Row1, Row2, Row3, Row4, Row5, Row6, Row7, Row8, Row9, RowA, RowB, RowC, RowD, RowE, RowF;
  }

  lemma TimedRow0(opcode: Byte)
    requires opcode < 0x10
    ensures IsTimed(Table(opcode))
  {
    InRow0(opcode);
    hide Table;
  }

  lemma InRow1(opcode: Byte)
    requires 0x10 <= opcode < 0x20
    ensures Table(opcode) == Row1(opcode - 0x10)
  {
    hide Row0, Row1, Row2, Row3, Row4, Row5, Row6, Row7, Row8, Row9, RowA, RowB, RowC, RowD, RowE, RowF;
  }

  lemma TimedRow1(opcode: Byte)
    requires 0x10 <= opcode < 0x20
    ensures IsTimed(Table(opcode))
  {
    InRow1(opcode);
    hide Table;
  }

  lemma InRow2(opcode: Byte)
    requires 0x20 <= opcode < 0x30
    ensures Table(opcode) == Row2(opcode - 0x20)
  {
    hide Row0, Row1, Row2, Row3, Row4, Row5, Row6, Row7, Row8, Row9, RowA, RowB, RowC, RowD, RowE, RowF;
  }

  lemma TimedRow2(opcode: Byte)
    requires 0x20 <= opcode < 0x30
    ensures IsTimed(Table(opcode))
  {
    InRow2(opcode);
    hide Table;
  }

  lemma InRow3(opcode: Byte)
    requires 0x30 <= opcode < 0x40
    ensures Table(opcode) == Row3(opcode - 0x30)
  {
    hide Row0, Row1, Row2, Row3, Row4, Row5, Row6, Row7, Row8, Row9, RowA, RowB, RowC, RowD, RowE, RowF;
  }

  lemma TimedRow3(opcode: Byte)
    requires 0x30 <= opcode < 0x40
    ensures IsTimed(Table(opcode))
  {
    InRow3(opcode);
    hide Table;
  }

  lemma InRow4(opcode: Byte)
    requires 0x40 <= opcode < 0x50
    ensures Table(opcode) == Row4(opcode - 0x40)
  {
    hide Row0, Row1, Row2, Row3, Row4, Row5, Row6, Row7, Row8, Row9, RowA, RowB, RowC, RowD, RowE, RowF;
  }

  lemma TimedRow4(opcode: Byte)
    requires 0x40 <= opcode < 0x50
    ensures IsTimed(Table(opcode))
  {
    InRow4(opcode);
    hide Table;
  }

  lemma InRow5(opcode: Byte)
    requires 0x50 <= opcode < 0x60
    ensures Table(opcode) == Row5(opcode - 0x50)
  {
    hide Row0, Row1, Row2, Row3, Row4, Row5, Row6, Row7, Row8, Row9, RowA, RowB, RowC, RowD, RowE, RowF;
  }

  lemma TimedRow5(opcode: Byte)
    requires 0x50 <= opcode < 0x60
    ensures IsTimed(Table(opcode))
  {
    InRow5(opcode);
    hide Table;
  }

  lemma InRow6(opcode: Byte)
    requires 0x60 <= opcode < 0x70
    ensures Table(opcode) == Row6(opcode - 0x60)
  {
    hide Row0, Row1, Row2, Row3, Row4, Row5, Row6, Row7, Row8, Row9, RowA, RowB, RowC, RowD, RowE, RowF;
  }

  lemma TimedRow6(opcode: Byte)
    requires 0x60 <= opcode < 0x70
    ensures IsTimed(Table(opcode))
  {
    InRow6(opcode);
    hide Table;
  }

  lemma InRow7(opcode: Byte)
    requires 0x70 <= opcode < 0x80
    ensures Table(opcode) == Row7(opcode - 0x70)
  {
    hide Row0, Row1, Row2, Row3, Row4, Row5, Row6, Row7, Row8, Row9, RowA, RowB, RowC, RowD, RowE, RowF;
  }

  lemma TimedRow7(opcode: Byte)
    requires 0x70 <= opcode < 0x80
    ensures IsTimed(Table(opcode))
  {
    InRow7(opcode);
    hide Table;
  }

  lemma InRow8(opcode: Byte)
    requires 0x80 <= opcode < 0x90
    ensures Table(opcode) == Row8(opcode - 0x80)
  {
    hide Row0, Row1, Row2, Row3, Row4, Row5, Row6, Row7, Row8, Row9, RowA, RowB, RowC, RowD, RowE, RowF;
  }

  lemma TimedRow8(opcode: Byte)
    requires 0x80 <= opcode < 0x90
    ensures IsTimed(Table(opcode))
  {
    InRow8(opcode);
    hide Table;
  }

  lemma InRow9(opcode: Byte)
    requires 0x90 <= opcode < 0xA0
    ensures Table(opcode) == Row9(opcode - 0x90)
  {
    hide Row0, Row1, Row2, Row3, Row4, Row5, Row6, Row7, Row8, Row9, RowA, RowB, RowC, RowD, RowE, RowF;
  }

  lemma TimedRow9(opcode: Byte)
    requires 0x90 <= opcode < 0xA0
    ensures IsTimed(Table(opcode))
  {
    InRow9(opcode);
    hide Table;
  }

  lemma InRowA(opcode: Byte)
    requires 0xA0 <= opcode < 0xB0
    ensures Table(opcode) == RowA(opcode - 0xA0)
  {
    hide Row0, Row1, Row2, Row3, Row4, Row5, Row6, Row7, Row8, Row9, RowA, RowB, RowC, RowD, RowE, RowF;
  }

  lemma TimedRowA(opcode: Byte)
    requires 0xA0 <= opcode < 0xB0
    ensures IsTimed(Table(opcode))
  {
    InRowA(opcode);
    hide Table;
  }

  lemma InRowB(opcode: Byte)
    requires 0xB0 <= opcode < 0xC0
    ensures Table(opcode) == RowB(opcode - 0xB0)
  {
    hide Row0, Row1, Row2, Row3, Row4, Row5, Row6, Row7, Row8, Row9, RowA, RowB, RowC, RowD, RowE, RowF;
  }

  lemma TimedRowB(opcode: Byte)
    requires 0xB0 <= opcode < 0xC0
    ensures IsTimed(Table(opcode))
  {
    InRowB(opcode);
    hide Table;
  }

  lemma InRowC(opcode: Byte)
    requires 0xC0 <= opcode < 0xD0
    ensures Table(opcode) == RowC(opcode - 0xC0)
  {
    hide Row0, Row1, Row2, Row3, Row4, Row5, Row6, Row7, Row8, Row9, RowA, RowB, RowC, RowD, RowE, RowF;
  }

  lemma TimedRowC(opcode: Byte)
    requires 0xC0 <= opcode < 0xD0
    ensures IsTimed(Table(opcode))
  {
    InRowC(opcode);
    hide Table;
  }

  lemma InRowD(opcode: Byte)
    requires 0xD0 <= opcode < 0xE0
    ensures Table(opcode) == RowD(opcode - 0xD0)
  {
    hide Row0, Row1, Row2, Row3, Row4, Row5, Row6, Row7, Row8, Row9, RowA, RowB, RowC, RowD, RowE, RowF;
  }

  lemma TimedRowD(opcode: Byte)
    requires 0xD0 <= opcode < 0xE0
    ensures IsTimed(Table(opcode))
  {
    InRowD(opcode);
    hide Table;
  }

  lemma InRowE(opcode: Byte)
    requires 0xE0 <= opcode < 0xF0
    ensures Table(opcode) == RowE(opcode - 0xE0)
  {
    hide Row0, Row1, Row2, Row3, Row4, Row5, Row6, Row7, Row8, Row9, RowA, RowB, RowC, RowD, RowE, RowF;
  }

  lemma TimedRowE(opcode: Byte)
    requires 0xE0 <= opcode < 0xF0
    ensures IsTimed(Table(opcode))
  {
    InRowE(opcode);
    hide Table;
  }

  lemma InRowF(opcode: Byte)
    requires 0xF0 <= opcode
    ensures Table(opcode) == RowF(opcode - 0xF0)
  {
    hide Row0, Row1, Row2, Row3, Row4, Row5, Row6, Row7, Row8, Row9, RowA, RowB, RowC, RowD, RowE, RowF;
  }

  lemma TimedRowF(opcode: Byte)
    requires 0xF0 <= opcode
    ensures IsTimed(Table(opcode))
  {
    InRowF(opcode);
    hide Table;
  }

  /** The cost of a documented instruction is that of the manual exactly if it is not BVC or BCC. */
  lemma TableIsTimed(opcode: Byte)
    ensures IsTimed(Table(opcode))
    ensures var e := Table(opcode);
      IsDocumented(e.mnemonic) ==> (e.cycles == BaseCycles(e.mnemonic, e.mode) <==> !e.mnemonic.BVC? && !e.mnemonic.BCC?)
  {
    hide Table, BaseCycles, IsDocumented;
    if opcode < 0x10 { TimedRow0(opcode); }
    else if opcode < 0x20 { TimedRow1(opcode); }
    else if opcode < 0x30 { TimedRow2(opcode); }
    else if opcode < 0x40 { TimedRow3(opcode); }
    else if opcode < 0x50 { TimedRow4(opcode); }
    else if opcode < 0x60 { TimedRow5(opcode); }
    else if opcode < 0x70 { TimedRow6(opcode); }
    else if opcode < 0x80 { TimedRow7(opcode); }
    else if opcode < 0x90 { TimedRow8(opcode); }
    else if opcode < 0xA0 { TimedRow9(opcode); }
    else if opcode < 0xB0 { TimedRowA(opcode); }
    else if opcode < 0xC0 { TimedRowB(opcode); }
    else if opcode < 0xD0 { TimedRowC(opcode); }
    else if opcode < 0xE0 { TimedRowD(opcode); }
    else if opcode < 0xF0 { TimedRowE(opcode); }
    else { TimedRowF(opcode); }
  }
}

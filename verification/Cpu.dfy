/** The 6502 machine as a value: what one instruction does, read off the opcode table. */
module Cpu {
  import opened Bits
  import opened OpcodeTable

  /** The status register, bit by bit; b4 and b5 are the two bits the processor leaves unused. */
  datatype Flags = Flags(c: bool, z: bool, i: bool, d: bool, b4: bool, b5: bool, v: bool, n: bool) {
    function ToByte(): Byte {
      Prepend(c, Prepend(z, Prepend(i, Prepend(d, Prepend(b4, Prepend(b5, Prepend(v, Prepend(n, 0))))))))
    }
  }

  function Bit(b: bool, weight: nat): nat {
    if b then weight else 0
  }

  /** Puts a bit below the bits of rest. */
  function Prepend(b: bool, rest: nat): nat {
    2 * rest + Bit(b, 1)
  }

  lemma PrependSplits(b: bool, rest: nat)
    ensures Prepend(b, rest) / 2 == rest && (Prepend(b, rest) % 2 == 1 <==> b)
  {
  }

  function FlagsOf(x: Byte): Flags {
    var x1 := x / 2; var x2 := x1 / 2; var x3 := x2 / 2; var x4 := x3 / 2;
    var x5 := x4 / 2; var x6 := x5 / 2; var x7 := x6 / 2;
    Flags(x % 2 == 1, x1 % 2 == 1, x2 % 2 == 1, x3 % 2 == 1, x4 % 2 == 1, x5 % 2 == 1, x6 % 2 == 1, x7 % 2 == 1)
  }

  /** Pushing the status register and pulling it again gives the same flags. */
  lemma FlagsRoundTrip(f: Flags)
    ensures FlagsOf(f.ToByte()) == f
  {
    hide Prepend;
    var r7 := Prepend(f.n, 0); var r6 := Prepend(f.v, r7); var r5 := Prepend(f.b5, r6);
    var r4 := Prepend(f.b4, r5); var r3 := Prepend(f.d, r4); var r2 := Prepend(f.i, r3);
    var r1 := Prepend(f.z, r2);
    assert f.ToByte() == Prepend(f.c, r1);
    PrependSplits(f.n, 0); PrependSplits(f.v, r7); PrependSplits(f.b5, r6); PrependSplits(f.b4, r5);
    PrependSplits(f.d, r4); PrependSplits(f.i, r3); PrependSplits(f.z, r2); PrependSplits(f.c, r1);
  }

  /** The status register in memory, bit by bit. */
  lemma ByteIsSum(f: Flags)
    ensures f.ToByte() == Bit(f.c, 1) + Bit(f.z, 2) + Bit(f.i, 4) + Bit(f.d, 8) + Bit(f.b4, 0x10) + Bit(f.b5, 0x20)
                          + Bit(f.v, 0x40) + Bit(f.n, 0x80)
  {
  }

  /** Registers, memories, cycle counter, and what the trace log has been told of the current
      instruction: its opcode byte (0 until one is logged) and its operand bytes. */
  datatype MachineState = MachineState(
    a: Byte, x: Byte, y: Byte, flags: Flags, sp: Byte, pc: Word,
    ram: seq<Byte>, rom: seq<Byte>, cycles: int, halted: bool,
    curOpcode: Byte, loggedOpcode: Byte, operands: seq<Byte>)

  const RAM_SIZE := 0x800
  const ROM_SIZE := 0x8000

  type Machine = s: MachineState | |s.ram| == RAM_SIZE && |s.rom| == ROM_SIZE
    witness MachineState(0, 0, 0, FlagsOf(0), 0, 0, seq(RAM_SIZE, _ => 0), seq(ROM_SIZE, _ => 0),
                         0, false, 0, 0, [])

  // ---------- machine integers ----------

  /** Truncation of an int to uint8_t, for ints that are out of range by at most one turn. */
  function Wrap8(x: int): Byte
    requires -0x100 <= x < 0x200
  {
    if x < 0 then x + 0x100 else if x < 0x100 then x else x - 0x100
  }

  /** Truncation of an int to uint16_t, for ints that are out of range by at most one turn. */
  function Wrap16(x: int): Word
    requires -0x1_0000 <= x < 0x2_0000
  {
    if x < 0 then x + 0x1_0000 else if x < 0x1_0000 then x else x - 0x1_0000
  }

  function Next(address: Word): Word {
    Wrap16(address + 1)
  }

  function WordOf(low: int, high: int): int {
    0x100 * high + low
  }

  function High(w: Word): Byte { w / 0x100 }

  function Low(w: Word): Byte { w % 0x100 }

  // ---------- memory ----------

  function Read(s: Machine, address: Word): Byte {
    if address < RAM_SIZE then s.ram[address]
    else if address >= 0x8000 then s.rom[address - 0x8000]
    else 0
  }

  function Write(s: Machine, address: Word, value: Byte): Machine {
    if address < RAM_SIZE then s.(ram := s.ram[address := value]) else s
  }

  function Read16(s: Machine, low: Word, high: Word): Word {
    WordOf(Read(s, low), Read(s, high))
  }

  function Push(s: Machine, value: Byte): Machine {
    Write(s, 0x100 + s.sp, value).(sp := Wrap8(s.sp - 1))
  }

  function Pull(s: Machine): Machine {
    s.(sp := Wrap8(s.sp + 1))
  }

  /** The byte that Pull takes off the stack. */
  function Top(s: Machine): Byte {
    Read(s, 0x100 + Wrap8(s.sp + 1))
  }

  function PushPC(s: Machine): Machine {
    Push(Push(s, High(s.pc)), Low(s.pc))
  }

  /** Pulls an address, low byte first, into the program counter. */
  function PullPC(s: Machine): Machine {
    var t := Pull(s);
    Pull(t).(pc := WordOf(Top(s), Top(t)))
  }

  // ---------- operands ----------

  function Log(s: Machine, b: Byte): Machine {
    if s.loggedOpcode == 0 then s.(loggedOpcode := b) else s.(operands := s.operands + [b])
  }

  /** Reads the byte at the program counter and moves past it. */
  function Fetch(s: Machine): Machine {
    Log(s.(pc := Next(s.pc)), Read(s, s.pc))
  }

  function FetchOperands(s: Machine, mode: Mode): Machine {
    if OperandBytes(mode) == 0 then s
    else if OperandBytes(mode) == 1 then Fetch(s)
    else Fetch(Fetch(s))
  }

  /** The address an instruction works on, given the state in which its operands are next.
      An immediate operand is its own address. */
  function Address(s: Machine, mode: Mode): Word {
    var byte := Read(s, s.pc);
    var word := Read16(s, s.pc, Next(s.pc));
    if mode.ZeroPage? then byte
    else if mode.ZeroPageX? then Wrap8(byte + s.x)
    else if mode.ZeroPageY? then Wrap8(byte + s.y)
    else if mode.Absolute? then word
    else if mode.AbsoluteX? then Wrap16(word + s.x)
    else if mode.AbsoluteY? then Wrap16(word + s.y)
    else if mode.IndirectX? then
      var p := Wrap8(byte + s.x);
      Read16(s, p, p + 1)
    else if mode.IndirectY? then Wrap16(Read16(s, byte, byte + 1) + s.y)
    else if mode.AbsIndirect? then Read16(s, word, Next(word))
    else if mode.Relative? then Wrap16(Next(s.pc) + (if byte >= 0x80 then byte - 0x100 else byte))
    else s.pc
  }

  // ---------- operations ----------

  /** t differs from s in data only: control, cost and log are the same. */
  predicate DataOnly(s: Machine, t: Machine) {
    t.pc == s.pc && t.cycles == s.cycles && t.rom == s.rom &&
    t.loggedOpcode == s.loggedOpcode && t.operands == s.operands && t.curOpcode == s.curOpcode
  }

  predicate Negative(b: Byte) { b >= 0x80 }

  predicate Odd(b: Byte) { b % 2 == 1 }

  function ZN(f: Flags, result: Byte): Flags {
    f.(z := result == 0, n := Negative(result))
  }

  function SetZN(s: Machine, result: Byte): Machine {
    s.(flags := ZN(s.flags, result))
  }

  function LoadA(s: Machine, v: Byte): Machine { SetZN(s.(a := v), v) }
  function LoadX(s: Machine, v: Byte): Machine { SetZN(s.(x := v), v) }
  function LoadY(s: Machine, v: Byte): Machine { SetZN(s.(y := v), v) }

  function Store(s: Machine, address: Word, v: Byte): Machine {
    SetZN(Write(s, address, v), v)
  }

  function WithCarry(s: Machine, c: bool): Machine {
    s.(flags := s.flags.(c := c))
  }

  /** The emulator's overflow flags, from A xor the operand and from that xor the result. */
  predicate AdcOverflow(first: Byte, second: Byte) {
    first < 0x80 && second >= 0x80
  }

  predicate SbcOverflow(first: Byte, second: Byte) {
    first >= 0x80 && second >= 0x80
  }

  function Adc(s: Machine, v: Byte): Machine {
    var sum := s.a + v + Bit(s.flags.c, 1);
    var first := Xor8(s.a, v);
    var second := Xor8(first, Wrap8(sum));
    LoadA(s.(flags := s.flags.(v := AdcOverflow(first, second), c := sum > 0xFF)), Wrap8(sum))
  }

  function Sbc(s: Machine, v: Byte): Machine {
    var sum := s.a - v - Bit(!s.flags.c, 1);
    var first := Xor8(s.a, v);
    var second := Xor8(first, Wrap8(sum));
    LoadA(s.(flags := s.flags.(v := SbcOverflow(first, second), c := sum >= 0)), Wrap8(sum))
  }

  function Compare(s: Machine, register: Byte, v: Byte): Machine {
    s.(flags := s.flags.(c := register >= v, z := register == v, n := register - v > 127))
  }

  function TestBits(s: Machine, v: Byte): Machine {
    s.(flags := s.flags.(z := And8(s.a, v) == 0, n := Negative(v), v := v / 0x40 % 2 == 1))
  }

  /** The value and the carry that a shift or rotation makes of a byte and a carry. */
  function Shift(op: Mnemonic, v: Byte, carry: bool): (Byte, bool) {
    if op.ASL? then (Wrap8(2 * v), Negative(v))
    else if op.ROL? then (Wrap8(2 * v) + Bit(carry, 1), Negative(v))
    else if op.LSR? then (v / 2, Odd(v))
    else (v / 2 + Bit(carry, 0x80), Odd(v))
  }

  /** A shift of a byte, whose result goes to an address. */
  function ShiftInto(s: Machine, op: Mnemonic, v: Byte, address: Word): (t: Machine)
    ensures DataOnly(s, t)
  {
    var (r, c) := Shift(op, v, s.flags.c);
    Store(WithCarry(s, c), address, r)
  }

  function ShiftMemory(s: Machine, op: Mnemonic, address: Word): (t: Machine)
    ensures DataOnly(s, t)
  {
    ShiftInto(s, op, Read(s, address), address)
  }

  /** On the accumulator LSR can set the carry but never clears it. */
  function ShiftA(s: Machine, op: Mnemonic): (t: Machine)
    ensures DataOnly(s, t) && t.ram == s.ram && t.sp == s.sp
  {
    var (r, c) := Shift(op, s.a, s.flags.c);
    LoadA(WithCarry(s, if op.LSR? then c || s.flags.c else c), r)
  }

  function Logic(op: Mnemonic, a: Byte, v: Byte): Byte {
    if op.ORA? then Or8(a, v)
    else if op.EOR? then Xor8(a, v)
    else And8(a, v)
  }

  /** A logical operation with a memory operand also writes the result back to memory. */
  function LogicOp(s: Machine, op: Mnemonic, mode: Mode): (t: Machine)
    ensures DataOnly(FetchOperands(s, mode), t)
  {
    var at := Address(s, mode);
    var t := FetchOperands(s, mode);
    var r := Logic(op, t.a, Read(t, at));
    var u := t.(a := r);
    SetZN(if mode.Immediate? then u else Write(u, at, r), r)
  }

  function Taken(f: Flags, op: Mnemonic): bool {
    if op.BNE? then !f.z
    else if op.BEQ? then f.z
    else if op.BPL? then !f.n
    else if op.BMI? then f.n
    else if op.BVC? then !f.v
    else if op.BVS? then f.v
    else if op.BCC? then !f.c
    else f.c
  }

  function Branch(s: Machine, op: Mnemonic): (t: Machine)
    ensures t.ram == s.ram && t.sp == s.sp && t.operands == Fetch(s).operands
    ensures t.cycles == if Taken(s.flags, op) then s.cycles + 1 else s.cycles
  {
    if Taken(s.flags, op) then Fetch(s).(pc := Address(s, Relative), cycles := s.cycles + 1)
    else Fetch(s)
  }

  /** JSR logs its second operand byte without moving past it, so the address it pushes is that
      of its last byte. */
  function CallSubroutine(s: Machine): Machine {
    var t := Fetch(s);
    PushPC(Log(t, Read(t, t.pc))).(pc := Address(s, Absolute))
  }

  function Break(s: Machine): Machine {
    var t := PushPC(s.(pc := Next(s.pc)));
    var u := Push(t, t.flags.ToByte());
    u.(pc := Read16(u, 0xFFFE, 0xFFFF))
  }

  // Each group below takes the state in which the operand bytes are next.

  function Load(s: Machine, op: Mnemonic, mode: Mode): (t: Machine)
    ensures DataOnly(FetchOperands(s, mode), t) && t.ram == s.ram && t.sp == s.sp
  {
    var t := FetchOperands(s, mode);
    var v := Read(t, Address(s, mode));
    if op.LDA? then LoadA(t, v)
    else if op.LDX? then LoadX(t, v)
    else LoadY(t, v)
  }

  function StoreRegister(s: Machine, op: Mnemonic, mode: Mode): (t: Machine)
    ensures DataOnly(FetchOperands(s, mode), t)
  {
    var t := FetchOperands(s, mode);
    Write(t, Address(s, mode), if op.STA? then t.a else if op.STX? then t.x else t.y)
  }

  /** DEY works on X. */
  function RegisterOp(s: Machine, op: Mnemonic): (t: Machine)
    ensures DataOnly(s, t) && t.ram == s.ram
  {
    if op.TAX? then LoadX(s, s.a)
    else if op.TAY? then LoadY(s, s.a)
    else if op.TXA? then LoadA(s, s.x)
    else if op.TYA? then LoadA(s, s.y)
    else if op.TSX? then LoadX(s, s.sp)
    else if op.TXS? then s.(sp := s.x)
    else if op.INX? then LoadX(s, Wrap8(s.x + 1))
    else if op.INY? then LoadY(s, Wrap8(s.y + 1))
    else LoadX(s, Wrap8(s.x - 1))
  }

  function FlagOp(s: Machine, op: Mnemonic): (t: Machine)
    ensures DataOnly(s, t) && t.ram == s.ram && t.sp == s.sp
  {
    if op.SEC? then WithCarry(s, true)
    else if op.CLC? then WithCarry(s, false)
    else if op.CLV? then s.(flags := s.flags.(v := false))
    else if op.SEI? then s.(flags := s.flags.(i := true))
    else if op.CLI? then s.(flags := s.flags.(i := false))
    else if op.SED? then s.(flags := s.flags.(d := true))
    else if op.STP? then s.(halted := true)
    else s
  }

  function StackOp(s: Machine, op: Mnemonic): (t: Machine)
    ensures DataOnly(s, t)
  {
    if op.PHA? then Push(s, s.a)
    else if op.PLA? then LoadA(Pull(s), Top(s))
    else if op.PHP? then Push(s, s.flags.(b4 := true, b5 := true).ToByte())
    else Pull(s).(flags := FlagsOf(Top(s)))
  }

  function Return(s: Machine): Machine {
    Fetch(PullPC(s))
  }

  function ReturnFromInterrupt(s: Machine): Machine {
    PullPC(Pull(s).(flags := FlagsOf(Top(s))))
  }

  function JumpTo(s: Machine, mode: Mode): Machine {
    FetchOperands(s, mode).(pc := Address(s, mode))
  }

  function Jump(s: Machine, op: Mnemonic, mode: Mode): (t: Machine)
    ensures t.cycles == s.cycles && |t.operands| <= |s.operands| + 2
  {
    if op.JSR? then CallSubroutine(s)
    else if op.RTS? then Return(s)
    else if op.BRK? then Break(s)
    else if op.RTI? then ReturnFromInterrupt(s)
    else JumpTo(s, mode)
  }

  function IncDec(s: Machine, op: Mnemonic, mode: Mode): (t: Machine)
    ensures DataOnly(FetchOperands(s, mode), t)
  {
    var at := Address(s, mode);
    var t := FetchOperands(s, mode);
    var v := Read(t, at);
    Store(t, at, if op.INC? then Wrap8(v + 1) else Wrap8(v - 1))
  }

  function AddSubtract(s: Machine, op: Mnemonic, mode: Mode): (t: Machine)
    ensures DataOnly(FetchOperands(s, mode), t) && t.ram == s.ram && t.sp == s.sp
  {
    var t := FetchOperands(s, mode);
    var v := Read(t, Address(s, mode));
    if op.ADC? then Adc(t, v) else Sbc(t, v)
  }

  function CompareOp(s: Machine, op: Mnemonic, mode: Mode): (t: Machine)
    ensures DataOnly(FetchOperands(s, mode), t) && t.ram == s.ram && t.sp == s.sp
  {
    var t := FetchOperands(s, mode);
    var v := Read(t, Address(s, mode));
    if op.CMP? then Compare(t, t.a, v)
    else if op.CPX? then Compare(t, t.x, v)
    else if op.CPY? then Compare(t, t.y, v)
    else TestBits(t, v)
  }

  /** Operations on an operand in memory or in the accumulator. */
  function ExecOperand(s: Machine, op: Mnemonic, mode: Mode): (t: Machine)
    ensures DataOnly(FetchOperands(s, mode), t)
  {
    var k := KindOf(op);
    if k.Loading? then Load(s, op, mode)
    else if k.Storing? then StoreRegister(s, op, mode)
    else if k.Shifting? then
      if OperandBytes(mode) == 0 then ShiftA(s, op)
      else ShiftMemory(FetchOperands(s, mode), op, Address(s, mode))
    else if k.Logical? then LogicOp(s, op, mode)
    else if k.Counting? then IncDec(s, op, mode)
    else if k.Adding? then AddSubtract(s, op, mode)
    else CompareOp(s, op, mode)
  }

  /** Operations without an operand. */
  function ExecImplied(s: Machine, op: Mnemonic): (t: Machine)
    ensures DataOnly(s, t)
  {
    var k := KindOf(op);
    if k.Stacking? then StackOp(s, op) else if k.Flagging? then FlagOp(s, op) else RegisterOp(s, op)
  }

  /** One operation, from the state in which its operand bytes are next to the state after it. */
  function Exec(s: Machine, op: Mnemonic, mode: Mode): (t: Machine)
    ensures t.cycles == if ClassOf(op).BranchClass? && Taken(s.flags, op) then s.cycles + 1 else s.cycles
    ensures |t.operands| <= |s.operands| + 2
  {
    match ClassOf(op)
    case OperandClass => ExecOperand(s, op, mode)
    case ImpliedClass => ExecImplied(s, op)
    case BranchClass => Branch(s, op)
    case JumpClass => Jump(s, op, mode)
    case NoClass => s
  }

  // ---------- one step ----------

  /** The opcodes that the switch of emulate_CPU has a case for. */
  predicate Implemented(opcode: Byte) {
    if opcode < 0x10 then opcode == 0x00 || opcode == 0x02 || opcode == 0x05 || opcode == 0x06 || opcode == 0x08 ||
        opcode == 0x09 || opcode == 0x0A || opcode == 0x0D || opcode == 0x0E
    else if opcode < 0x20 then opcode == 0x10 || opcode == 0x18
    else if opcode < 0x30 then opcode == 0x20 || opcode == 0x24 || opcode == 0x25 || opcode == 0x26 ||
        opcode == 0x28 || opcode == 0x29 || opcode == 0x2A || opcode == 0x2C || opcode == 0x2D || opcode == 0x2E
    else if opcode < 0x40 then opcode == 0x30 || opcode == 0x38
    else if opcode < 0x50 then opcode == 0x40 || opcode == 0x45 || opcode == 0x46 || opcode == 0x48 ||
        opcode == 0x49 || opcode == 0x4A || opcode == 0x4C || opcode == 0x4D || opcode == 0x4E
    else if opcode < 0x60 then opcode == 0x50 || opcode == 0x58
    else if opcode < 0x70 then opcode == 0x60 || opcode == 0x65 || opcode == 0x66 || opcode == 0x68 ||
        opcode == 0x69 || opcode == 0x6C || opcode == 0x6D || opcode == 0x6E
    else if opcode < 0x80 then opcode == 0x70 || opcode == 0x75 || opcode == 0x78
    else if opcode < 0x90 then opcode == 0x81 || opcode == 0x84 || opcode == 0x85 || opcode == 0x86 ||
        opcode == 0x88 || opcode == 0x8A || opcode == 0x8C || opcode == 0x8D || opcode == 0x8E
    else if opcode < 0xA0 then opcode == 0x90 || opcode == 0x91 || opcode == 0x95 || opcode == 0x98 ||
        opcode == 0x9A || opcode == 0x9D
    else if opcode < 0xB0 then opcode == 0xA0 || opcode == 0xA2 || opcode == 0xA5 || opcode == 0xA8 ||
        opcode == 0xA9 || opcode == 0xAA || opcode == 0xAD
    else if opcode < 0xC0 then opcode == 0xB0 || opcode == 0xB5 || opcode == 0xB8 || opcode == 0xBA || opcode == 0xBD
    else if opcode < 0xD0 then opcode == 0xC0 || opcode == 0xC4 || opcode == 0xC5 || opcode == 0xC6 ||
        opcode == 0xC8 || opcode == 0xC9 || opcode == 0xCA || opcode == 0xCC || opcode == 0xCD || opcode == 0xCE
    else if opcode < 0xE0 then opcode == 0xD0
    else if opcode < 0xF0 then opcode == 0xE0 || opcode == 0xE4 || opcode == 0xE5 || opcode == 0xE6 ||
        opcode == 0xE8 || opcode == 0xE9 || opcode == 0xEA || opcode == 0xEC || opcode == 0xED || opcode == 0xEE
    else opcode == 0xF0 || opcode == 0xF8 || opcode == 0xFE
  }

  /** The state in which the operand bytes of the next instruction are next: a fresh log entry
      has its opcode. */
  function Decoded(s: Machine): Machine {
    var t := Fetch(s.(loggedOpcode := 0, operands := []));
    t.(curOpcode := Opcode(s))
  }

  function Opcode(s: Machine): Byte {
    Read(s, s.pc)
  }

  /** One instruction. An opcode without a case is skipped: one byte, at its cost in the table. */
  function Step(s: Machine): Machine {
    var e := Table(Opcode(s));
    var t := if Implemented(Opcode(s)) then Exec(Decoded(s), e.mnemonic, e.mode) else Decoded(s);
    t.(cycles := t.cycles + e.cycles)
  }
}

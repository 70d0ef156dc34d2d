/** The documented instructions of the MOS 6502, without decimal mode, by the "MCS6500 Microcomputer Family Programming
    Manual": written down in plain arithmetic, independently of the emulator, on what a program can see. A step of the
    emulator is compared with it, for every state and every instruction that the emulator has. */
module Mos6502 {
  import opened Bits
  import opened OpcodeTable
  import opened Cpu
  import opened CpuDeviations

  function One(b: bool): nat {
    if b then 1 else 0
  }

  /** What a program can see of the processor: registers, flags, and the memory that it is connected to. */
  datatype MosState = Mos(a: Byte, x: Byte, y: Byte, sp: Byte, pc: Word,
                          c: bool, z: bool, i: bool, d: bool, v: bool, n: bool, ram: seq<Byte>, rom: seq<Byte>) {
    // ---------- memory ----------

    predicate Valid() {
      |ram| == 0x800 && |rom| == 0x8000
    }

    /** RAM at the bottom of the address space, ROM in its upper half, nothing in between. */
    function At(address: Word): Byte
      requires Valid()
    {
      if address <= 0x7FF then ram[address] else if address <= 0x7FFF then 0 else rom[address - 0x8000]
    }

    function With(address: Word, value: Byte): (m: MosState)
      requires Valid()
      ensures m.Valid()
    {
      if address <= 0x7FF then this.(ram := ram[address := value]) else this
    }

    /** A word whose bytes are at two addresses. */
    function Pair(low: Word, high: Word): Word
      requires Valid()
    {
      At(low) as int + 256 * At(high) as int
    }

    // ---------- addresses ----------

    /** The address that an instruction works on. The two bytes of a pointer are in the same page, unless pages are
        ignored. */
    function Target(mode: Mode, paged: bool): Word
      requires Valid()
    {
      var b: int := At((pc + 1) % 65536);
      var w := Pair((pc + 1) % 65536, (pc + 2) % 65536);
      if mode.ZeroPage? then b
      else if mode.ZeroPageX? then (b + x) % 256
      else if mode.ZeroPageY? then (b + y) % 256
      else if mode.Absolute? then w
      else if mode.AbsoluteX? then (w + x) % 65536
      else if mode.AbsoluteY? then (w + y) % 65536
      else if mode.IndirectX? then Pointer((b + x) % 256, paged)
      else if mode.IndirectY? then (Pointer(b, paged) + y) % 65536
      else if mode.AbsIndirect? then Pointer(w, paged)
      else if mode.Relative? then (pc + 2 + Signed(b)) % 65536
      else (pc + 1) % 65536
    }

    function Pointer(at: Word, paged: bool): Word
      requires Valid()
    {
      Pair(at, if paged && at % 256 == 255 then at - 255 else (at + 1) % 65536)
    }

    /** The program counter behind an instruction. */
    function Past(mode: Mode): MosState {
      this.(pc := (pc + 1 + OperandBytes(mode)) % 65536)
    }

    // ---------- instructions ----------

    function Result(r: Byte): MosState {
      this.(z := r == 0, n := r >= 128)
    }

    function Loaded(op: Mnemonic, mode: Mode): MosState
      requires Valid()
    {
      var v := At(Target(mode, true));
      (if op.LDA? then Past(mode).(a := v) else if op.LDX? then Past(mode).(x := v) else Past(mode).(y := v)).Result(v)
    }

    function Stored(op: Mnemonic, mode: Mode, paged: bool): MosState
      requires Valid()
    {
      Past(mode).With(Target(mode, paged), if op.STA? then a else if op.STX? then x else y)
    }

    /** A byte shifted or rotated through the carry, and the bit that leaves it. */
    function Shifted(op: Mnemonic, v: Byte): (Byte, bool) {
      if op.ASL? then (2 * v % 256, v >= 128)
      else if op.ROL? then ((2 * v + One(c)) % 256, v >= 128)
      else if op.LSR? then (v / 2, v % 2 == 1)
      else (v / 2 + 128 * One(c), v % 2 == 1)
    }

    function ShiftedA(op: Mnemonic, mode: Mode): MosState {
      var (r, out) := Shifted(op, a);
      Past(mode).(a := r, c := out).Result(r)
    }

    function ShiftedMemory(op: Mnemonic, mode: Mode): MosState
      requires Valid()
    {
      var at := Target(mode, true);
      var (r, out) := Shifted(op, At(at));
      Past(mode).With(at, r).(c := out).Result(r)
    }

    function Combined(op: Mnemonic, mode: Mode): MosState
      requires Valid()
    {
      var v := At(Target(mode, true));
      var r := if op.ORA? then Or8(a, v) else if op.EOR? then Xor8(a, v) else And8(a, v);
      Past(mode).(a := r).Result(r)
    }

    function Counted(op: Mnemonic, mode: Mode): MosState
      requires Valid()
    {
      var at := Target(mode, true);
      var r := (At(at) + if op.INC? then 1 else 255) % 256;
      Past(mode).With(at, r).Result(r)
    }

    function Added(mode: Mode): MosState
      requires Valid()
    {
      var v: int := At(Target(mode, true));
      var sum := a + v + One(c);
      Past(mode).(a := sum % 256, c := sum >= 256, v := !(-128 <= Signed(a) + Signed(v) + One(c) <= 127)).Result(sum % 256)
    }

    function Subtracted(mode: Mode): MosState
      requires Valid()
    {
      var v: int := At(Target(mode, true));
      var rest := a - v - One(!c);
      Past(mode).(a := rest % 256, c := rest >= 0,
                  v := !(-128 <= Signed(a) - Signed(v) - One(!c) <= 127)).Result(rest % 256)
    }

    function Register(op: Mnemonic): Byte {
      if op.CMP? then a else if op.CPX? then x else y
    }

    function Compared(op: Mnemonic, mode: Mode): MosState
      requires Valid()
    {
      var v: int := At(Target(mode, true));
      Past(mode).(c := Register(op) >= v).Result((Register(op) - v) % 256)
    }

    function Tested(mode: Mode): MosState
      requires Valid()
    {
      var v := At(Target(mode, true));
      Past(mode).(z := And8(a, v) == 0, n := v >= 128, v := v / 64 % 2 == 1)
    }

    function Registered(op: Mnemonic): MosState {
      var m := Past(Implied);
      if op.TAX? then m.(x := a).Result(a)
      else if op.TAY? then m.(y := a).Result(a)
      else if op.TXA? then m.(a := x).Result(x)
      else if op.TYA? then m.(a := y).Result(y)
      else if op.TSX? then m.(x := sp).Result(sp)
      else if op.TXS? then m.(sp := x)
      else if op.INX? then m.(x := (x + 1) % 256).Result((x + 1) % 256)
      else if op.INY? then m.(y := (y + 1) % 256).Result((y + 1) % 256)
      else if op.DEX? then m.(x := (x + 255) % 256).Result((x + 255) % 256)
      else m.(y := (y + 255) % 256).Result((y + 255) % 256)
    }

    function Flagged(op: Mnemonic): MosState {
      var m := Past(Implied);
      if op.SEC? then m.(c := true)
      else if op.CLC? then m.(c := false)
      else if op.CLV? then m.(v := false)
      else if op.SEI? then m.(i := true)
      else if op.CLI? then m.(i := false)
      else if op.SED? then m.(d := true)
      else m
    }

    // ---------- the stack ----------

    function Push(value: Byte): (m: MosState)
      requires Valid()
      ensures m.Valid()
    {
      With(256 + sp, value).(sp := (sp + 255) % 256)
    }

    /** The k-th byte from the top of the stack, from 1 on. */
    function Top(k: nat): Byte
      requires Valid()
    {
      At(256 + (sp + k) % 256)
    }

    function Drop(k: nat): MosState {
      this.(sp := (sp + k) % 256)
    }

    /** The status register in memory: bits 4 and 5 are not flags and are written as ones. */
    function Status(): Byte {
      One(c) + 2 * One(z) + 4 * One(i) + 8 * One(d) + 16 + 32 + 64 * One(v) + 128 * One(n)
    }

    function WithStatus(s: Byte): MosState {
      this.(c := s % 2 == 1, z := s / 2 % 2 == 1, i := s / 4 % 2 == 1, d := s / 8 % 2 == 1,
            v := s / 64 % 2 == 1, n := s / 128 % 2 == 1)
    }

    function PushWord(w: Word): (m: MosState)
      requires Valid()
      ensures m.Valid()
    {
      Push(w / 256).Push(w % 256)
    }

    function Stacked(op: Mnemonic): MosState
      requires Valid()
    {
      var m := Past(Implied);
      if op.PHA? then m.Push(a)
      else if op.PLA? then m.Drop(1).(a := Top(1)).Result(Top(1))
      else if op.PHP? then m.Push(Status())
      else m.Drop(1).WithStatus(Top(1))
    }

    // ---------- the flow of control ----------

    predicate Branches(op: Mnemonic) {
      if op.BEQ? then z else if op.BNE? then !z
      else if op.BCS? then c else if op.BCC? then !c
      else if op.BMI? then n else if op.BPL? then !n
      else if op.BVS? then v else !v
    }

    function Branched(op: Mnemonic): MosState
      requires Valid()
    {
      if Branches(op) then this.(pc := Target(Relative, true)) else Past(Relative)
    }

    function Called(): MosState
      requires Valid()
    {
      PushWord((pc + 2) % 65536).(pc := Target(Absolute, true))
    }

    function Returned(): MosState
      requires Valid()
    {
      Drop(2).(pc := (Top(1) + 256 * Top(2) + 1) % 65536)
    }

    function Broken(): MosState
      requires Valid()
    {
      PushWord((pc + 2) % 65536).Push(Status()).(i := true, pc := Pair(0xFFFE, 0xFFFF))
    }

    function Resumed(): MosState
      requires Valid()
    {
      Drop(3).WithStatus(Top(1)).(pc := Top(2) + 256 * Top(3))
    }

    function Jumped(op: Mnemonic, mode: Mode, paged: bool): MosState
      requires Valid()
    {
      if op.JSR? then Called()
      else if op.RTS? then Returned()
      else if op.BRK? then Broken()
      else if op.RTI? then Resumed()
      else this.(pc := Target(mode, paged))
    }

    /** One instruction. */
    function Next(op: Mnemonic, mode: Mode): MosState
      requires Valid()
    {
      var k := KindOf(op);
      if k.Loading? then Loaded(op, mode)
      else if k.Storing? then Stored(op, mode, true)
      else if k.Shifting? then (if OperandBytes(mode) == 0 then ShiftedA(op, mode) else ShiftedMemory(op, mode))
      else if k.Logical? then Combined(op, mode)
      else if k.Counting? then Counted(op, mode)
      else if k.Adding? then (if op.ADC? then Added(mode) else Subtracted(mode))
      else if k.Comparing? then (if op.BIT? then Tested(mode) else Compared(op, mode))
      else if k.Registering? then Registered(op)
      else if k.Flagging? then Flagged(op)
      else if k.Stacking? then Stacked(op)
      else if k.Branching? then Branched(op)
      else Jumped(op, mode, true)
    }
  }

  /** What a program can see of the emulated machine. */
  function Seen(s: Machine): (m: MosState)
    ensures m.Valid()
  {
    Mos(s.a, s.x, s.y, s.sp, s.pc, s.flags.c, s.flags.z, s.flags.i, s.flags.d, s.flags.v, s.flags.n, s.ram, s.rom)
  }
}

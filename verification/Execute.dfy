/**
 Instruction dispatch (run.c, execute_instruction): one function per group of
 translated opcodes, each giving the machine state after the instruction's body.
 */
module Execute {
  import opened Words
  import opened Flags
  import opened State
  import opened Alu
  import opened Strings
  import opened Decode
  import Shift

  /** The state after the body, DecodeContext.ip_changed, and the final inst_length. */
  datatype Outcome = Outcome(s: State, jumped: bool, length: u8)

  function Falls(s: State, d: Decoded): Outcome { Outcome(s, false, d.length) }
  function Jumps(s: State): Outcome { Outcome(s, true, 0) }

  /** IP of the next instruction. */
  function NextIp(s: State, d: Decoded): u16 { U16(s.ip as int + d.length as int) }

  function JumpShort(s: State, d: Decoded): Outcome {
    Jumps(s.(ip := U16(s.ip as int + d.length as int + S8(Lo(d.data0)))))
  }

  /** Divide errors and INT n: IP moves to the next instruction before it is pushed. */
  function Int(s: State, d: Decoded, vector: u8): Outcome {
    Jumps(Interrupt(s.(ip := NextIp(s, d)), vector))
  }

  // ----- arithmetic

  /** exec_alu_imm; operation 8 is MOV, higher numbers do nothing. */
  function AluImm(s: State, d: Decoded, op: nat, imm: u16): State
    requires AddressInRange(d)
  {
    var src := And(imm, Mask(d.wide));
    if op > 8 then s
    else if op == 8 then WriteRm(s, d, src)
    else
      var r := Compute(AluOpOf(op), s.flags, ReadRm(s, d), src, d.wide);
      var t := s.(flags := r.flags);
      if r.writes then WriteRm(t, d, r.value) else t
  }

  /** The main ALU dispatch; operation 8 is MOV. */
  function AluReg(s: State, d: Decoded, op: nat): State
    requires AddressInRange(d)
  {
    if op > 8 then s
    else if op == 8 then WriteDest(s, d, ReadSrc(s, d))
    else
      var r := Compute(AluOpOf(op), s.flags, ReadDest(s, d), ReadSrc(s, d), d.wide);
      var t := s.(flags := r.flags);
      if r.writes then WriteDest(t, d, r.value) else t
  }

  function IncDec(s: State, d: Decoded, dec: bool): State
    requires AddressInRange(d)
  {
    var r := if dec then Dec(s.flags, ReadRm(s, d), d.wide) else Inc(s.flags, ReadRm(s, d), d.wide);
    WriteRm(s.(flags := r.flags), d, r.value)
  }

  /** A memory or register operand of a byte instruction is a byte. */
  lemma ReadRmFits(s: State, d: Decoded)
    requires AddressInRange(d)
    ensures ReadRm(s, d) <= Mask(d.wide)
  {}

  function Divide(s: State, d: Decoded, q: Quotient): Outcome {
    if q.DivideError? then Int(s, d, 0)
    else Falls(SetReg(SetReg(s, AX, q.ax), DX, q.dx), d)
  }

  function SetProduct(s: State, p: Product): State {
    SetReg(SetReg(s, AX, p.ax), DX, p.dx).(flags := p.flags)
  }

  /** F6/F7: TEST, NOT, NEG, MUL, IMUL, DIV, IDIV. */
  function GroupF6(s: State, d: Decoded): Outcome
    requires AddressInRange(d)
  {
    ReadRmFits(s, d);
    var v, ax, dx := ReadRm(s, d), s.regs[AX], s.regs[DX];
    match d.reg
    case 0 => Outcome(s.(flags := SetLogic(s.flags, And(v, And(d.data2, Mask(d.wide))), d.wide)), false,
                      U8(d.length as int + (if d.wide then 2 else 1)))
    case 2 => Falls(WriteRm(s, d, Mask(d.wide) - v), d)
    case 3 => var r := Neg(s.flags, v, d.wide); Falls(WriteRm(s.(flags := r.flags), d, r.value), d)
    case 4 => Falls(SetProduct(s, Mul(s.flags, ax, dx, v, d.wide)), d)
    case 5 => Falls(SetProduct(s, Imul(s.flags, ax, dx, v, d.wide)), d)
    case 6 => Divide(s, d, Div(ax, dx, v, d.wide))
    case 7 => Divide(s, d, Idiv(ax, dx, v, d.wide))
    case _ => Falls(s, d)
  }

  /** FE/FF: INC, DEC, CALL, JMP, PUSH. The pushes come before the target is read. */
  function GroupFf(s: State, d: Decoded): Outcome
    requires AddressInRange(d)
  {
    var d16 := d.(wide := true);
    match d.reg
    case 0 => Falls(IncDec(s, d, false), d)
    case 1 => Falls(IncDec(s, d, true), d)
    case 2 => var p := Push(s, NextIp(s, d)); Jumps(p.(ip := ReadRm(p, d16)))
    case 3 => Jumps(FarJump(Push(Push(s, s.sregs[CS]), NextIp(s, d)), d))
    case 4 => Jumps(s.(ip := ReadRm(s, d16)))
    case 5 => Jumps(FarJump(s, d))
    case 6 => Falls(Push(s, ReadRm(s, d16)), d)
    case _ => Falls(s, d)
  }

  function FarJump(s: State, d: Decoded): State
    requires AddressInRange(d)
  {
    SetSReg(s, CS, Read16(s.mem, d.rmAddr + 2)).(ip := Read16(s.mem, d.rmAddr))
  }

  /** 80-83: the immediate is sign-extended from a byte for byte operands and for 83. */
  function AluRmImm(s: State, d: Decoded): Outcome
    requires AddressInRange(d)
  {
    var byteImm := d.direction || !d.wide;
    var imm := if byteImm then SignExtend(Lo(d.data2)) else d.data2;
    Outcome(AluImm(s, d, d.reg, imm), false,
            U8(d.length as int + (if byteImm then 1 else 2) - (if d.wide then 2 else 1)))
  }

  function AccumulatorTest(s: State, d: Decoded): State {
    s.(flags := SetLogic(s.flags, And(Accumulator(s, d.wide), And(d.data0, Mask(d.wide))), d.wide))
  }

  function SetAl(s: State, v: u8): State { SetReg(s, AX, Word(v, Hi(s.regs[AX]))) }

  /** DAA, DAS, AAA, AAS */
  function AdjustDecimal(s: State, sub: bool): State {
    var r := if sub then Das(s.flags, Lo(s.regs[AX])) else Daa(s.flags, Lo(s.regs[AX]));
    SetAl(s, r.1).(flags := r.0)
  }

  function AdjustAscii(s: State, sub: bool): State {
    var adjust := Rem(Lo(s.regs[AX]), 0x10) > 9 || s.flags.af;
    var ax := if adjust then Add16(s.regs[AX], if sub then -0x106 else 0x106) else s.regs[AX];
    SetReg(s, AX, Word(Rem(Lo(ax), 0x10), Hi(ax))).(flags := s.flags.(af := adjust, cf := adjust))
  }

  function Aam(s: State, base: u8): State
    requires base != 0
  {
    var al := Lo(s.regs[AX]);
    QuotLe(al, base);
    SetReg(s, AX, Word(Rem(al, base), Quot(al, base))).(flags := SetSzp(s.flags, Rem(al, base), false))
  }

  function Aad(s: State, base: u8): State {
    var al := U8(Multiple(Hi(s.regs[AX]), base) + Lo(s.regs[AX]) as int);
    SetReg(s, AX, al).(flags := SetSzp(s.flags, al, false))
  }

  function Rotate(s: State, d: Decoded): State
    requires AddressInRange(d)
  {
    ReadRmFits(s, d);
    var count := if d.extra != 0 then Lo(d.data1) else if d.direction then Lo(s.regs[CX]) else 1;
    var r := Shift.ShiftRotate(d.reg, s.flags, ReadRm(s, d), count, d.wide);
    if count == 0 then s else WriteRm(s.(flags := r.flags), d, r.value)
  }

  /** Translated opcodes 2, 5-9, 12, 15, 28, 29, 41, 42, 47. */
  function Arithmetic(s: State, d: Decoded): Outcome
    requires AddressInRange(d)
  {
    match d.xlat
    case 2 => Falls(IncDec(s, d.(wide := true, mod := 3, rm := d.reg4bit), d.extra != 0), d)
    case 5 => GroupFf(s, d)
    case 6 => GroupF6(s, d)
    case 7 => Falls(AluImm(s, d.(mod := 3, rm := AX), d.extra, d.data0), d)
    case 8 => AluRmImm(s, d)
    case 9 => Falls(AluReg(s, d, d.extra), d)
    case 12 => Falls(Rotate(s, d), d)
    case 15 => Falls(s.(flags := SetLogic(s.flags, And(ReadDest(s, d), ReadSrc(s, d)), d.wide)), d)
    case 28 => Falls(AdjustDecimal(s, d.extra != 0), d)
    case 29 => Falls(AdjustAscii(s, d.extra != 0), d)
    case 41 => if Lo(d.data0) == 0 then Int(s, d, 0) else Falls(Aam(s, Lo(d.data0)), d)
    case 42 => Falls(Aad(s, Lo(d.data0)), d)
    case 47 => Falls(AccumulatorTest(s, d), d)
    case _ => Falls(s, d)
  }

  // ----- data transfer

  /** 8C/8E: MOV with a segment register. The source indexes past the array for a reg
      field above 3; the model then leaves the segment registers alone and reads 0. */
  function MovSreg(s: State, d: Decoded): State
    requires AddressInRange(d)
  {
    var d16 := d.(wide := true);
    if d.direction then (if d.reg < 4 then SetSReg(s, d.reg, ReadRm(s, d16)) else s)
    else WriteRm(s, d16, SRegAt(s, d.reg))
  }

  /** 8D: LEA takes the segment off the decoded address again, and sets seg_override_en. */
  function Lea(s: State, t: Tables, d: Decoded): State {
    var r := if d.mod < 3
             then SetReg(s, d.reg, U16(d.rmAddr - 0x10 * EffectiveSegment(s, t, d.mod, d.rm)))
             else s;
    r.(prefix := r.prefix.(segEn := 1))
  }

  function MoffsAddress(s: State, d: Decoded): nat { Linear(SourceSegment(s), d.data0) }

  function Xchg(s: State, d: Decoded): State
    requires AddressInRange(d)
  {
    WriteReg(WriteRm(s, d, ReadReg(s, d)), d, ReadRm(s, d))
  }

  /** LES (even opcode) and LDS: a far pointer into a register and a segment register. */
  function LoadFar(s: State, d: Decoded): State
    requires AddressInRange(d)
  {
    SetSReg(SetReg(s, d.reg, Read16(s.mem, d.rmAddr)), if Rem(d.opcode, 2) == 0 then ES else DS,
            Read16(s.mem, d.rmAddr + 2))
  }

  /** Tables number the segment registers 8 to 11. */
  function SRegIndex(d: Decoded): u8 { U8(d.extra as int - 8) }

  function PopSreg(s: State, i: nat): State {
    if i < 4 then SetSReg(Drop(s), i, Top(s)) else Drop(s)
  }

  function Xlat(s: State): State {
    SetAl(s, s.mem[Linear(SourceSegment(s), Add16(s.regs[BX], Lo(s.regs[AX])))])
  }

  function MovRegImm(s: State, t: Tables, d: Decoded): Outcome {
    var wide := Rem(Quot(d.opcode, 8), 2) == 1;
    Outcome(WriteRegister(s, d.reg4bit, d.data0, wide), false,
            U8(At(t, BASE_INST_SIZE, d.opcode) as int + ImmediateSize(t, d.opcode, wide) as int))
  }

  function Sahf(s: State): State {
    var f := OfBytes(Hi(s.regs[AX]), HighByte(s.flags));
    s.(flags := f.(r1 := true, r3 := false, r5 := false))
  }

  /** Translated opcodes 1, 3, 4, 10, 11, 16, 20, 24-26, 30, 31, 33-37, 44. */
  function Transfer(s: State, t: Tables, d: Decoded): Outcome
    requires AddressInRange(d)
  {
    match d.xlat
    case 1 => MovRegImm(s, t, d)
    case 3 => Falls(Push(s, s.regs[d.reg4bit]), d)
    case 4 => Falls(SetReg(Drop(s), d.reg4bit, Top(s)), d)
    case 10 =>
      Falls(if !d.wide then MovSreg(s, d)
            else if !d.direction then Lea(s, t, d)
            else WriteRm(Drop(s), d.(wide := true), Top(s)), d)
    case 11 =>
      Falls(if d.direction then s.(mem := Store(s.mem, MoffsAddress(s, d), s.regs[AX], d.wide))
            else SetAccumulator(s, Load(s.mem, MoffsAddress(s, d), d.wide), d.wide), d)
    case 16 => Falls(SetReg(SetReg(s, AX, s.regs[d.reg4bit]), d.reg4bit, s.regs[AX]), d)
    case 20 => Falls(WriteRm(s, d, d.data2), d)
    case 24 => Falls(Xchg(s, d), d)
    case 25 => Falls(Push(s, SRegAt(s, SRegIndex(d))), d)
    case 26 => Falls(PopSreg(s, SRegIndex(d)), d)
    case 30 => Falls(SetReg(s, AX, SignExtend(Lo(s.regs[AX]))), d)
    case 31 => Falls(SetReg(s, DX, if s.regs[AX] >= 0x8000 then 0xFFFF else 0), d)
    case 33 => Falls(Push(s, Pack(s.flags)), d)
    case 34 => Falls(Drop(s).(flags := Unpack(Top(s))), d)
    case 35 => Falls(Sahf(s), d)
    case 36 => Falls(SetReg(s, AX, Word(Lo(s.regs[AX]), LowByte(s.flags))), d)
    case 37 => Falls(LoadFar(s, d), d)
    case 44 => Falls(Xlat(s), d)
    case _ => Falls(s, d)
  }

  // ----- control flow

  /** LOOPNZ, LOOPZ, LOOP, JCXZ */
  function Loops(s: State, d: Decoded): Outcome {
    if d.reg4bit > 3 then Falls(s, d)
    else if d.reg4bit == 3 then (if s.regs[CX] == 0 then JumpShort(s, d) else Falls(s, d))
    else
      var t := DecCx(s);
      var taken := t.regs[CX] != 0 && (d.reg4bit == 0 ==> !t.flags.zf) && (d.reg4bit == 1 ==> t.flags.zf);
      if taken then JumpShort(t, d) else Falls(t, d)
  }

  /** E8-EB, whose length is 3 - i_d. */
  function JumpOrCall(s: State, d0: Decoded): Outcome {
    var d := d0.(length := if d0.direction then 2 else 3);
    if d.direction && d.wide then JumpShort(s, d)
    else if !d.direction && !d.wide then
      Jumps(Push(s, NextIp(s, d)).(ip := Add16(NextIp(s, d), d.data0)))
    else if !d.direction then Jumps(s.(ip := Add16(NextIp(s, d), d.data0)))
    else Jumps(SetSReg(s, CS, d.data2).(ip := d.data0))
  }

  /** RET, RETF, IRET; the byte forms add an immediate to SP. */
  function Returns(s: State, d: Decoded): Outcome {
    if Rem(Quot(d.extra, 2), 2) == 1 then Jumps(Iret(s))
    else
      var s1 := Drop(s).(ip := Top(s));
      var s2 := if d.extra != 0 then SetSReg(Drop(s1), CS, Top(s1)) else s1;
      Jumps(if d.wide then s2 else SetReg(s2, SP, Add16(s2.regs[SP], d.data0)))
  }

  /** Translated opcodes 0, 13, 14, 19, 32, 38-40. */
  function ControlFlow(s: State, d: Decoded): Outcome {
    match d.xlat
    case 0 => if Condition(s.flags, Rem(d.opcode, 16)) then JumpShort(s, d) else Falls(s, d)
    case 13 => Loops(s, d)
    case 14 => JumpOrCall(s, d)
    case 19 => Returns(s, d)
    case 32 => Jumps(SetSReg(Push(Push(s, s.sregs[CS]), NextIp(s, d)), CS, d.data2).(ip := d.data0))
    case 38 => Int(s, d.(length := 1), 3)
    case 39 => Int(s, d.(length := 2), Lo(d.data0))
    case 40 => if s.flags.of then Int(s, d.(length := 1), 4) else Outcome(s, false, 1)
    case _ => Falls(s, d)
  }

  // ----- strings, ports, flags, prefixes

  /** The string operation of an opcode, if it has one. */
  function StringOpOf(opcode: u8): seq<StringOp> {
    match Quot(opcode, 2)
    case 0x52 => [MOVS]
    case 0x53 => [CMPS]
    case 0x55 => [STOS]
    case 0x56 => [LODS]
    case 0x57 => [SCAS]
    case _ => []
  }

  /** Without an operation the REP loop only counts CX down. */
  function StringInstruction(s: State, d: Decoded): State {
    var op := StringOpOf(d.opcode);
    if op != [] then ExecString(s, op[0], d.wide)
    else if s.prefix.repEn > 0 then SetReg(s, CX, 0)
    else s
  }

  /** The port above a port. The source indexes past the array above 0xFFFF; the model wraps. */
  function PortAfter(port: u16): u16 { U16(port as int + 1) }

  function PortOf(s: State, d: Decoded): u16 { if d.extra != 0 then s.regs[DX] else Lo(d.data0) }

  /** IN: reading any port also steps the PIT and CGA placeholders. */
  function In(s: State, d: Decoded): State {
    var port := PortOf(s, d);
    var pit := U8(s.io[0x40] as int - 1);
    var io1 := s.io[0x20 := 0][0x40 := pit][0x42 := pit];
    var io2 := io1[0x3DA := Xor8(io1[0x3DA], 9)];
    var io3 := if port == 0x60 then io2[0x64 := 0] else io2;
    SetAccumulator(s.(io := io3), Word(io3[port], io3[PortAfter(port)]), d.wide)
  }

  /** OUT, with the speaker and PIT side effects. */
  function Out(s: State, d: Decoded): State {
    var port, al := PortOf(s, d), Lo(s.regs[AX]);
    var io1 := s.io[port := al];
    var io2 := if d.wide then io1[PortAfter(port) := Hi(s.regs[AX])] else io1;
    var spkr := if port == 0x61 then Or8(s.devices.spkrEn, Rem(al, 4)) else s.devices.spkrEn;
    var t := s.(io := io2, devices := s.devices.(spkrEn := spkr));
    if (port == 0x40 || port == 0x42) && Rem(Quot(io2[0x43], 2), 4) != 0 then
      var pit := Xor8(s.devices.pitLobyte, 1);
      t.(devices := t.devices.(pitLobyte := pit), mem := t.mem[0x469 + port - pit := al])
    else t
  }

  /** CLC .. STD: table entries 2 * 40 + value to 2 * 48 + value. */
  function SetFlag(f: Flags, extra: u8): Flags {
    var v := Rem(extra, 2) == 1;
    match Quot(extra, 2)
    case 40 => f.(cf := v)
    case 41 => f.(pf := v)
    case 42 => f.(af := v)
    case 43 => f.(zf := v)
    case 44 => f.(sf := v)
    case 45 => f.(tf := v)
    case 46 => f.(intf := v)
    case 47 => f.(df := v)
    case 48 => f.(of := v)
    case _ => f
  }

  /** exec_rep_prefix, keeping an active segment override alive. */
  function RepPrefix(p: Prefix, wide: bool): Prefix {
    Prefix(if p.segEn > 0 then U8(p.segEn as int + 1) else 0, p.seg, 2, if wide then 1 else 0)
  }

  /** exec_segment_override, keeping an active REP alive. */
  function SegmentPrefix(p: Prefix, seg: u8): Prefix {
    Prefix(2, seg, if p.repEn > 0 then U8(p.repEn as int + 1) else 0, p.repMode)
  }

  function Zeroes(m: Memory, a: nat, n: nat): Memory
    requires a + n <= MEM_SIZE
    decreases n
  {
    if n == 0 then m else Zeroes(m[a := 0], a + 1, n - 1)
  }

  /** BIOS call 1 on a platform without a clock writes a zero time of day at ES:BX. Where
      the 38 bytes would end behind the memory array, the model writes nothing. */
  function GetRtc(s: State): State {
    var a := Linear(s.sregs[ES], s.regs[BX]);
    if a + 38 <= MEM_SIZE then s.(mem := Zeroes(s.mem, a, 38)) else s
  }

  /** Translated opcodes 17, 18, 21-23, 27, 43, 45, 46, 48, 53. */
  function Other(s: State, d: Decoded): Outcome {
    match d.xlat
    case 17 | 18 => Falls(StringInstruction(s, d), d)
    case 21 => Falls(In(s, d), d)
    case 22 => Falls(Out(s, d), d)
    case 23 => Falls(s.(prefix := RepPrefix(s.prefix, d.wide)), d)
    case 27 => Falls(s.(prefix := SegmentPrefix(s.prefix, SRegIndex(d))), d)
    case 43 => Falls(SetAl(s, if s.flags.cf then 0xFF else 0), d)
    case 45 => Falls(s.(flags := s.flags.(cf := !s.flags.cf)), d)
    case 46 => Falls(s.(flags := SetFlag(s.flags, d.extra)), d)
    case 48 => Falls(if Lo(d.data0) == 1 then GetRtc(s) else s, d)
    case 53 => Falls(if d.opcode == 0xF4 then s.(ctl := s.ctl.(halted := 1)) else s, d)
    case _ => Falls(s, d)
  }

  predicate IsArithmetic(x: u8) { x in {2, 5, 6, 7, 8, 9, 12, 15, 28, 29, 41, 42, 47} }
  predicate IsTransfer(x: u8) { x in {1, 3, 4, 10, 11, 16, 20, 24, 25, 26, 30, 31, 33, 34, 35, 36, 37, 44} }
  predicate IsControl(x: u8) { x in {0, 13, 14, 19, 32, 38, 39, 40} }

  /** execute_instruction. (PUTCHAR, which only writes the console ring, is added in Run.) */
  function Body(s: State, t: Tables, d: Decoded): Outcome
    requires AddressInRange(d)
  {
    if IsArithmetic(d.xlat) then Arithmetic(s, d)
    else if IsTransfer(d.xlat) then Transfer(s, t, d)
    else if IsControl(d.xlat) then ControlFlow(s, d)
    else Other(s, d)
  }
}

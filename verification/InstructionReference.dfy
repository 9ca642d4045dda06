/**
 Whole decoded instructions of the ALU, F6/F7 and shift groups as the reference emulator runs
 them (reference/8086tiny.c, cases 6 to 9 and 12, and the end of its main loop): operands in a
 byte-addressed register file or in memory, flags and length by the tables of the BIOS image.
 The register file is kept apart from memory, where the reference has it at 0xF0000.
 */
module InstructionReference {
  import opened Words
  import opened Flags
  import opened State
  import opened Strings
  import opened Alu
  import opened Decode
  import opened Execute
  import opened Run
  import opened AluReference
  import Shift
  import ShiftReference
  import MulDivReference

  // ----- the register file

  /** regs16[i]: the general registers, the segment registers from 8 on, and REG_ZERO. */
  function Regs16(s: State, i: nat): u16 { if i < 8 then s.regs[i] else if i < 12 then s.sregs[i - 8] else 0 }

  function SetRegs16(s: State, i: nat, v: u16): State
    requires i < 12
  {
    if i < 8 then SetReg(s, i, v) else SetSReg(s, i - 8, v)
  }

  /** regs8[k]: the register file is a little-endian image of the registers. */
  function FileByte(s: State, k: nat): u8
    requires k < 24
  {
    if k % 2 == 0 then Lo(Regs16(s, k / 2)) else Hi(Regs16(s, k / 2))
  }

  function SetFileByte(s: State, k: nat, v: u8): State
    requires k < 24
  {
    var r := Regs16(s, k / 2);
    SetRegs16(s, k / 2, if k % 2 == 0 then Word(v, Hi(r)) else Word(Lo(r), v))
  }

  // ----- decoding

  /** CAST(short)mem[a], of which only the low 16 bits are ever used. */
  function StreamWord(m: Memory, a: nat): u16
    requires a + 1 < MEM_SIZE
  {
    m[a] as int + 0x100 * m[a + 1] as int
  }

  /** SEGREG with the registers and the displacement that the tables name for a mode. */
  function ModeAddress(s: State, t: Tables, mod: u2, rm: u3, data1: u16): nat {
    var b := if mod == 0 then 4 else 0;
    var seg := if s.prefix.segEn > 0 then 8 + s.prefix.seg else At(t, b + 3, rm);
    0x10 * Regs16(s, seg)
    + (Regs16(s, At(t, b, rm)) as int + Regs16(s, At(t, b + 1, rm)) as int + At(t, b + 2, rm) as int * data1 as int)
      % 0x1_0000
  }

  /** The fields of the main loop before its switch. For mod 3 rmAddr is the number of the
      register. Without ModRM the fields of an earlier instruction stay, which nothing reads; they
      are 0 here. */
  function RefFields(s: State, t: Tables): Decoded {
    var (m, a) := (s.mem, 0x10 * s.sregs[CS] + s.ip);
    var raw := m[a];
    var reg4bit := raw % 8;
    var (data0, data1, data2) := (StreamWord(m, a + 1), StreamWord(m, a + 2), StreamWord(m, a + 3));
    var d := Decoded(raw, At(t, XLAT_OPCODE, raw), At(t, XLAT_SUBFUNCTION, raw), At(t, I_MOD_SIZE, raw) != 0,
                     reg4bit % 2 == 1, reg4bit / 2 % 2 == 1, 0, 0, 0, reg4bit, 0, data0, data1, data2, 0);
    if !d.hasModrm then d
    else
      var (mod, rm, reg) := (data0 % 0x100 / 0x40, data0 % 8, data0 / 8 % 8);
      var i2 := if (mod == 0 && rm == 6) || mod == 2 then StreamWord(m, a + 4) else if mod != 1 then data1 else data2;
      var i1 := if mod != 1 then data1 else (S8(data1 % 0x100) + 0x1_0000) % 0x1_0000;
      d.(mod := mod, rm := rm, reg := reg, data1 := i1, data2 := i2,
         rmAddr := if mod < 3 then ModeAddress(s, t, mod, rm, i1) else rm)
  }

  /** With the length that the end of the main loop finds, unless a case changes opcode or width. */
  function RefDecode(s: State, t: Tables): Decoded {
    var d := RefFields(s, t);
    d.(length := U8(RefLength(t, d, d.opcode)))
  }

  // ----- operands

  /** op_to_addr and op_from_addr: an offset from REGS_BASE, or any other address. */
  datatype Operand = InFile(offset: nat) | InMemory(address: nat)

  type Place = p: Operand | match p { case InFile(k) => k + 1 < 24 case InMemory(a) => a + 1 < MEM_SIZE }
    witness InFile(0)

  /** GET_REG_ADDR */
  function RegPlace(reg: u3, wide: bool): Place {
    InFile(if wide then 2 * reg else (2 * reg + reg / 4) % 8)
  }

  /** GET_REG_ADDR(8 + sreg) */
  function SegPlace(sreg: u2): Place { InFile(16 + 2 * sreg) }

  /** rm_addr */
  function RmPlace(d: Decoded): Place
    requires AddressInRange(d)
  {
    if d.mod < 3 then InMemory(d.rmAddr) else RegPlace(d.rm, d.wide)
  }

  /** CAST(unsigned short)mem[p] or mem[p] */
  function Fetch(s: State, p: Place, wide: bool): u16 {
    match p
    case InFile(k) => if wide then Word(FileByte(s, k), FileByte(s, k + 1)) else FileByte(s, k)
    case InMemory(a) => Load(s.mem, a, wide)
  }

  function Put(s: State, p: Place, v: u16, wide: bool): State {
    match p
    case InFile(k) =>
      var t := SetFileByte(s, k, Lo(v));
      if wide then SetFileByte(t, k + 1, Hi(v)) else t
    case InMemory(a) => s.(mem := Store(s.mem, a, v, wide))
  }

  // ----- FLAGS, the stack and interrupts

  const FLAGS_BITFIELDS := 19

  /** regs8[FLAG_CF + i] */
  predicate FlagByte(f: Flags, i: nat) {
    match i
    case 0 => f.cf
    case 1 => f.pf
    case 2 => f.af
    case 3 => f.zf
    case 4 => f.sf
    case 5 => f.tf
    case 6 => f.intf
    case 7 => f.df
    case 8 => f.of
    case _ => false
  }

  function SetFlagByte(f: Flags, i: nat, v: bool): Flags {
    match i
    case 0 => f.(cf := v)
    case 1 => f.(pf := v)
    case 2 => f.(af := v)
    case 3 => f.(zf := v)
    case 4 => f.(sf := v)
    case 5 => f.(tf := v)
    case 6 => f.(intf := v)
    case 7 => f.(df := v)
    case 8 => f.(of := v)
    case _ => f
  }

  /** The loop of make_flags, and scratch_uint after it as the word it is pushed as. */
  function FlagSum(t: Tables, f: Flags, n: nat): nat {
    if n == 0 then 0xF002
    else FlagSum(t, f, n - 1) + if FlagByte(f, n - 1) then Pow2(At(t, FLAGS_BITFIELDS, U8(n - 1))) else 0
  }

  function MakeFlags(t: Tables, f: Flags): u16 { U16(FlagSum(t, f, 9)) }

  /** The bit that TABLE_FLAGS_BITFIELDS names for the i-th flag. */
  predicate FieldBit(t: Tables, w: u16, i: u8) { Bit(w, At(t, FLAGS_BITFIELDS, i)) }

  /** set_flags, its loop unrolled. The reserved bits, which the reference does not have, are as
      flags_unpack leaves them. */
  function SetFlags(t: Tables, f: Flags, w: u16): Flags {
    Normalised(f.(cf := FieldBit(t, w, 0), pf := FieldBit(t, w, 1), af := FieldBit(t, w, 2), zf := FieldBit(t, w, 3),
                  sf := FieldBit(t, w, 4), tf := FieldBit(t, w, 5), intf := FieldBit(t, w, 6),
                  df := FieldBit(t, w, 7), of := FieldBit(t, w, 8)))
  }

  /** R_M_PUSH evaluates its address twice, and so counts SP down by two. */
  function RefPush(s: State, v: u16): State {
    var sp := U16(U16(s.regs[SP] as int - 1) as int - 1);
    SetReg(s, SP, sp).(mem := Store(s.mem, 0x10 * s.sregs[SS] + sp, v, true))
  }

  /** R_M_POP adds two to SP first, and reads below it. */
  function RefDropped(s: State): State { SetReg(s, SP, U16(s.regs[SP] as int + 2)) }

  function RefPopped(s: State): u16 {
    Load(s.mem, 0x10 * s.sregs[SS] + U16(RefDropped(s).regs[SP] as int - 2), true)
  }

  /** pc_interrupt */
  function PcInterrupt(s: State, t: Tables, n: u8): State {
    var s1 := RefPush(RefPush(RefPush(s, MakeFlags(t, s.flags)), s.sregs[CS]), s.ip);
    var s2 := SetRegs16(s1, 9, Load(s1.mem, 4 * n + 2, true));
    s2.(ip := Load(s2.mem, 4 * n, true), flags := s2.flags.(tf := false, intf := false))
  }

  // ----- the end of the main loop

  const STD_FLAGS := 10

  /** The length by the tables' entry of raw_opcode_id, which set_opcode may have changed. */
  function RefLength(t: Tables, d: Decoded, opcode: u8): int {
    var disp := (if d.mod != 3 then d.mod else 0) + (if d.mod == 0 && d.rm == 6 then 2 else 0);
    Multiple(At(t, I_MOD_SIZE, opcode), disp) + At(t, BASE_INST_SIZE, opcode) as int
      + Multiple(At(t, I_W_SIZE, opcode), if d.wide then 2 else 1)
  }

  /** The flags that set_flags_type asks for: SZP, AF and OF by the operands, CF and OF clear. */
  function StdFlags(kind: u8, f: Flags, o: RefOp, wide: bool): Flags {
    if Rem(kind, 2) == 0 then f
    else
      var f1 := SetSzpRef(f, o.result, wide);
      var f2 := if Rem(Quot(kind, 2), 2) == 1 then SetAfOfArith(f1, o, wide) else f1;
      if Rem(Quot(kind, 4), 2) == 1 then f2.(cf := false, of := false) else f2
  }

  /** IP and flags behind the switch. */
  function Tail(s: State, t: Tables, d: Decoded, opcode: u8, o: RefOp): State {
    s.(ip := U16(s.ip as int + RefLength(t, d, opcode)),
       flags := StdFlags(At(t, STD_FLAGS, opcode), s.flags, o, d.wide))
  }

  const SHIFTED_OPCODE: u8 := 0x10
  const TEST_OPCODE: u8 := 0x20
  const NEG_OPCODE: u8 := 0x28
  const INT_OPCODE: u8 := 0xCD
  const FAR_OPCODE: u8 := 0x9A

  // ----- cases 7, 8 and 9

  /** What an operation leaves: CF (and, for ADC and SBB, AF and OF), the three op_ variables,
      and the value if one is stored. */
  datatype Switched = Switched(flags: Flags, op: RefOp, value: u16, stored: bool)

  /** ADD, OR, ADC, SBB, AND, SUB, XOR, CMP, MOV */
  function AluSwitch(extra: nat, f: Flags, a: u16, b: u16, wide: bool): Switched
    requires extra <= 8
  {
    match extra
    case 0 => var v := Low(a as int + b as int, wide); Switched(f.(cf := v < a), RefOp(b, a, v), v, true)
    case 1 => var v := Low(Or16(a, b), wide); Switched(f, RefOp(b, a, v), v, true)
    case 2 =>
      var v := Low(a as int + (Carry(f) + b), wide);
      var o := RefOp(b, a, v);
      Switched(SetAfOfArith(f.(cf := (f.cf && v == a) || v < a), o, wide), o, v, true)
    case 3 =>
      var v := Low(U32(a as int - (Carry(f) + b)), wide);
      var o := RefOp(b, a, v);
      Switched(SetAfOfArith(f.(cf := (f.cf && v == a) || -(v as int) < -(a as int)), o, wide), o, v, true)
    case 4 => var v := Low(And(a, b), wide); Switched(f, RefOp(b, a, v), v, true)
    case 5 => var v := Low(U32(a as int - b as int), wide); Switched(f.(cf := v > a), RefOp(b, a, v), v, true)
    case 6 => var v := Low(Xor16(a, b), wide); Switched(f, RefOp(b, a, v), v, true)
    case 7 =>
      var r := a as int - b as int;
      Switched(f.(cf := U32(r) > a), RefOp(b, a, r), Low(U32(r), wide), false)
    case _ => Switched(f, RefOp(b, a, b), b, true)
  }

  function Stored(s: State, to: Place, r: Switched, wide: bool): State {
    if r.stored then Put(s.(flags := r.flags), to, r.value, wide) else s.(flags := r.flags)
  }

  /** Case 9 on its two operands. */
  function RefAlu(s: State, t: Tables, d: Decoded, extra: nat, to: Place, b: u16, opcode: u8): State
    requires extra <= 8
  {
    var r := AluSwitch(extra, s.flags, Fetch(s, to, d.wide), b, d.wide);
    Tail(Stored(s, to, r, d.wide), t, d, opcode, r.op)
  }

  function RefAluReg(s: State, t: Tables, d: Decoded): State
    requires AddressInRange(d) && d.extra <= 8
  {
    var (reg, rm) := (RegPlace(d.reg, d.wide), RmPlace(d));
    var (to, from) := if d.direction then (reg, rm) else (rm, reg);
    RefAlu(s, t, d, d.extra, to, Fetch(s, from, d.wide), d.opcode)
  }

  /** Case 8: the immediate goes through a scratch register, and the opcode becomes that of
      the operation's r/m form. */
  function RefAluImm(s: State, t: Tables, d: Decoded, extra: nat, data: u16): State
    requires AddressInRange(d) && extra < 8
  {
    var byteImm := d.direction || !d.wide;
    var scratch := if byteImm then U16(S8(Lo(data))) else data;
    var s1 := s.(ip := U16(s.ip as int + if byteImm then 1 else 2));
    RefAlu(s1, t, d, extra, RmPlace(d), if d.wide then scratch else Lo(scratch), 8 * extra)
  }

  /** Case 7 falls into case 8 with AL or AX as the operand and IP one back. */
  function RefAluAcc(s: State, t: Tables, d: Decoded): State
    requires AddressInRange(d) && d.extra < 8
  {
    RefAluImm(s.(ip := U16(s.ip as int - 1)), t, d.(mod := 3, rm := AX), d.extra, d.data0)
  }

  // ----- case 6

  /** MUL_MACRO: both halves of the product, and CF and OF. */
  function RefMultiply(s: State, t: Tables, d: Decoded, v: u16, signed: bool): State {
    var ax, dx := s.regs[AX], s.regs[DX];
    var result := S32(U32(Times(MulDivReference.Cast(ax, d.wide, signed), MulDivReference.Cast(v, d.wide, signed))));
    var over := result != MulDivReference.Cast(result, d.wide, signed);
    var p := SetReg(SetReg(s, AX, U16(result)), DX, if d.wide then U16(result / 0x1_0000) else dx);
    Tail(p.(flags := s.flags.(cf := over, of := over)), t, d, SHIFTED_OPCODE, RefOp(0, 0, result))
  }

  /** DIV_MACRO: on an error pc_interrupt(0), with IP still at the instruction itself. */
  function RefDivide(s: State, t: Tables, d: Decoded, q: Quotient): State {
    if q.DivideError? then Tail(PcInterrupt(s, t, 0), t, d.(wide := true), INT_OPCODE, RefOp(0, 0, 0))
    else Tail(SetReg(SetReg(s, AX, q.ax), DX, q.dx), t, d, d.opcode, RefOp(0, 0, 0))
  }

  function RefGroupF6(s: State, t: Tables, d: Decoded): State
    requires AddressInRange(d)
  {
    var to := if d.direction then RmPlace(d) else RegPlace(d.reg, d.wide);
    var v, ax, dx := Fetch(s, to, d.wide), s.regs[AX], s.regs[DX];
    match d.reg
    case 0 =>
      var (imm, s1) := (Low(d.data2, d.wide), s.(ip := U16(s.ip as int + if d.wide then 2 else 1)));
      Tail(s1, t, d, TEST_OPCODE, RefOp(imm, v, And(v, imm)))
    case 2 => Tail(Put(s, to, Low(U32(-1 - (v as int)), d.wide), d.wide), t, d, d.opcode, RefOp(v, v, 0))
    case 3 =>
      var r := Low(U32(-(v as int)), d.wide);
      Tail(Put(s.(flags := s.flags.(cf := r > 0)), to, r, d.wide), t, d, NEG_OPCODE, RefOp(v, 0, r))
    case 4 => RefMultiply(s, t, d, v, false)
    case 5 => RefMultiply(s, t, d, v, true)
    case 6 => RefDivide(s, t, d, MulDivReference.DivRef(ax, dx, v, d.wide))
    case 7 => RefDivide(s, t, d, MulDivReference.IdivRef(ax, dx, v, d.wide))
    case _ => Tail(s, t, d, d.opcode, RefOp(0, 0, 0))
  }

  // ----- case 12

  /** scratch_uint: a signed byte, CL modulo 32, or 1. */
  function RefCount(s: State, d: Decoded): int {
    if d.extra != 0 then S8(Lo(d.data1)) else if d.direction then Rem(Lo(s.regs[CX]), 32) else 1
  }

  /** The count of ours, which does not mask CL; below 32 it is the same. */
  function Count(s: State, d: Decoded): u8 {
    if d.extra != 0 then Lo(d.data1) else if d.direction then Lo(s.regs[CX]) else 1
  }

  function RefShift(s: State, t: Tables, d: Decoded): State
    requires AddressInRange(d) && RefCount(s, d) >= 0 && ShiftReference.Comparable(d.reg, RefCount(s, d), d.wide)
  {
    var to := RmPlace(d);
    var r := ShiftReference.ShiftRotateRef(d.reg, s.flags, Fetch(s, to, d.wide), RefCount(s, d), d.wide);
    var s1 := s.(ip := if d.extra != 0 then U16(s.ip as int + 1) else s.ip, flags := r.flags);
    Tail(Put(s1, to, r.value, d.wide), t, d, if d.reg > 3 then SHIFTED_OPCODE else d.opcode, RefOp(0, 0, r.value))
  }

  // ----- the tables of the BIOS image

  /** set_flags_type of the ALU operations. */
  function AluKind(extra: nat): u8 {
    match extra
    case 0 => 3
    case 1 => 5
    case 2 => 1
    case 3 => 1
    case 4 => 5
    case 5 => 3
    case 6 => 5
    case 7 => 3
    case _ => 0
  }

  predicate Entry(t: Tables, op: u8, kind: u8, size: u8, immediate: u8, modrm: u8) {
    && At(t, STD_FLAGS, op) == kind && At(t, BASE_INST_SIZE, op) == size
    && At(t, I_W_SIZE, op) == immediate && At(t, I_MOD_SIZE, op) == modrm
  }

  /** What the shipped tables hold for an opcode of these groups. */
  predicate ShippedEntry(t: Tables, op: u8) {
    var (x, e) := (At(t, XLAT_OPCODE, op), At(t, XLAT_SUBFUNCTION, op));
    && (x == 6 ==> (op == 0xF6 || op == 0xF7) && Entry(t, op, 0, 2, 0, 1))
    && (x == 7 ==> e < 8 && (op == 8 * e + 4 || op == 8 * e + 5) && At(t, BASE_INST_SIZE, op) == 1
                   && At(t, I_W_SIZE, op) == 1 && At(t, I_MOD_SIZE, op) == 0)
    && (x == 8 ==> At(t, BASE_INST_SIZE, op) == 2 && At(t, I_W_SIZE, op) == 1 && At(t, I_MOD_SIZE, op) == 1)
    && (x == 9 ==> e <= 8 && Entry(t, op, AluKind(e), 2, 0, 1))
    && (x == 12 ==> Entry(t, op, 0, if e != 0 then 3 else 2, 0, 1))
  }

  /** For every opcode: short lengths, in which groups set_flags_type is not 0, and in which there
      is an immediate. */
  predicate ShippedSizes(t: Tables, op: u8) {
    var (x, f) := (At(t, XLAT_OPCODE, op), At(t, STD_FLAGS, op));
    && At(t, BASE_INST_SIZE, op) <= 4 && At(t, I_W_SIZE, op) <= 1 && At(t, I_MOD_SIZE, op) <= 1
    && (if x == 2 || x == 28 || x == 29 then f == 1
        else if x == 15 || x == 41 || x == 42 || x == 47 then f == 5
        else x == 7 || x == 8 || x == 9 || f == 0)
    && (At(t, I_W_SIZE, op) != 0 ==> x == 1 || x == 7 || x == 8 || x == 20 || x == 47 || x == 55)
  }

  /** The operations, directions and lengths that the other groups rest on. */
  predicate ShippedGroup(t: Tables, op: u8) {
    var (x, e) := (At(t, XLAT_OPCODE, op), At(t, XLAT_SUBFUNCTION, op));
    && (x == 1 ==> At(t, I_MOD_SIZE, op) == 0)
    && (x == 2 ==> e <= 1 && 0x40 <= op < 0x50)
    && (x == 5 ==> (op == 0xFE || op == 0xFF) && Entry(t, op, 0, 2, 0, 1))
    && (x == 10 ==> 0x8C <= op < 0x90 && At(t, I_MOD_SIZE, op) == 1)
    && (x == 11 ==> 0xA0 <= op < 0xA4 && Entry(t, op, 0, 3, 0, 0))
    && (x == 13 ==> 0xE0 <= op < 0xE4)
    && (x == 14 ==> 0xE8 <= op < 0xEC && Entry(t, op, 0, 0, 0, 0))
    && (x == 17 ==> if op == 0xA4 || op == 0xA5 then e == 0 else if op == 0xAA || op == 0xAB then e == 1
                    else (op == 0xAC || op == 0xAD) && e == 2)
    && (x == 18 ==> if op == 0xA6 || op == 0xA7 then e == 0 else (op == 0xAE || op == 0xAF) && e == 1)
    && (x == 19 ==> Entry(t, op, 0, 0, 0, 0))
    && (x == 20 ==> op == 0xC6 || op == 0xC7)
    && ((x == 25 || x == 26 || x == 27) ==> 8 <= e < 12)
    && (x == 28 ==> e <= 1 && op == 0x27 + 8 * e)
    && (x == 29 ==> (op == 0x37 && e == 2) || (op == 0x3F && e == 0))
    && (x == 30 ==> op == 0x98) && (x == 31 ==> op == 0x99)
    && ((x == 32 || x == 38 || x == 39 || x == 40) ==> Entry(t, op, 0, 0, 0, 0))
    && (x == 37 ==> ((op == 0xC4 && e == 16) || (op == 0xC5 && e == 22)))
    && (x == 41 ==> op == 0xD4 && Entry(t, op, 5, 2, 0, 0)) && (x == 46 ==> 80 <= e < 98)
  }

  /** Rows 15 to 18: the flags that a pair of condition codes tests, by their place in regs8,
      where 49 stands for none. */
  function JumpFlag(row: nat, pair: nat): u8
    requires row < 4 && pair < 8
  {
    match row
    case 0 => [48, 40, 43, 40, 44, 41, 49, 49][pair]
    case 1 => [49, 49, 49, 43, 49, 49, 49, 43][pair]
    case 2 => [49, 49, 49, 49, 49, 49, 44, 44][pair]
    case _ => [49, 49, 49, 49, 49, 49, 48, 48][pair]
  }

  /** Row 19: the bits of the nine flags. */
  function FlagBit(i: nat): u8
    requires i < 9
  {
    [0, 2, 4, 6, 7, 8, 9, 10, 11][i]
  }

  const JUMP_DECODE := 15

  predicate ShippedTables(t: Tables) {
    && (forall op: u8 :: ShippedEntry(t, op) && ShippedSizes(t, op) && ShippedGroup(t, op))
    && (forall e: nat :: e < 8 ==> Entry(t, 8 * e, AluKind(e), 2, 0, 1))
    && Entry(t, INT_OPCODE, 0, 0, 0, 0) && Entry(t, FAR_OPCODE, 0, 0, 0, 0)
    && (forall row: nat, pair: u8 :: row < 4 && pair < 8 ==> At(t, JUMP_DECODE + row, pair) == JumpFlag(row, pair))
    && (forall i: u8 :: i < 9 ==> At(t, FLAGS_BITFIELDS, i) == FlagBit(i))
  }
}

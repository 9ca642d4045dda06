/**
 Instruction decoding and operand access (decode.h, tables.h). The decode tables
 come from the BIOS image, which is data; they are a parameter here.
 */
module Decode {
  import opened Words
  import opened State
  import opened Strings

  type u2 = x: int | 0 <= x < 4
  type u3 = x: int | 0 <= x < 8

  /** Emu86Tables.data[20][256], row after row. */
  type Tables = t: seq<u8> | |t| == 20 * 256 witness seq(20 * 256, _ => 0)

  function At(t: Tables, row: nat, i: u8): u8
    requires row < 20
  {
    t[256 * row + i]
  }

  const XLAT_OPCODE := 8
  const XLAT_SUBFUNCTION := 9
  const BASE_INST_SIZE := 12
  const I_W_SIZE := 13
  const I_MOD_SIZE := 14

  /** DecodeContext: the fields that execution reads. data0, data1 and data2 keep the low
      16 bits of the sign-extended words, which is all that is ever used of them. */
  datatype Decoded = Decoded(
    opcode: u8, xlat: u8, extra: u8, hasModrm: bool,
    wide: bool, direction: bool, mod: u2, reg: u3, rm: u3, reg4bit: u3,
    length: u8, data0: u16, data1: u16, data2: u16, rmAddr: nat)

  /** (uint16_t)(int8_t) */
  function SignExtend(b: u8): u16 { if b < 0x80 then b else b + 0xFF00 }

  /** read_table_reg: index 12 stands for zero. */
  function TableReg(s: State, i: u8): u16 { if i < 8 then s.regs[i] else 0 }

  /** read_table_sreg: ES, CS, SS, DS are 8 to 11. */
  function TableSReg(s: State, i: u8): u16 { if 8 <= i < 12 then s.sregs[i - 8] else 0 }

  function TableSet(mod: u2): nat { if mod == 0 then 4 else 0 }

  /** The 16-bit offset of a memory operand. */
  function EffectiveOffset(s: State, t: Tables, mod: u2, rm: u3, disp: u16): u16 {
    var b := TableSet(mod);
    U16(TableReg(s, At(t, b, rm)) as int + TableReg(s, At(t, b + 1, rm)) as int + Multiple(At(t, b + 2, rm), disp))
  }

  /** Its segment: the override if one is active, else the default of the addressing mode. */
  function EffectiveSegment(s: State, t: Tables, mod: u2, rm: u3): u16 {
    if s.prefix.segEn > 0 then SRegAt(s, s.prefix.seg) else TableSReg(s, At(t, TableSet(mod) + 3, rm))
  }

  function EffectiveAddress(s: State, t: Tables, mod: u2, rm: u3, disp: u16): nat {
    if mod < 3 then Linear(EffectiveSegment(s, t, mod, rm), EffectiveOffset(s, t, mod, rm, disp)) else rm
  }

  /** Bytes that ModRM's displacement takes. */
  function DisplacementSize(mod: u2, rm: u3): u8 {
    if mod == 0 && rm == 6 then 2 else if mod == 3 then 0 else mod
  }

  /** Bytes of the immediate: i_w_size, doubled for words. */
  function ImmediateSize(t: Tables, op: u8, wide: bool): nat {
    if wide then At(t, I_W_SIZE, op) + At(t, I_W_SIZE, op) else At(t, I_W_SIZE, op)
  }

  /** The upper two bits of ModRM. */
  function ModOf(modrm: u8): u2 { ModFits(modrm); Quot(modrm, 64) }

  lemma ModFits(modrm: u8)
    ensures Quot(modrm, 64) < 4
  {
    hide Wrap, Rem, Quot;
    OperatorsAre();
  }

  /** Address of the instruction. */
  function FetchAddress(s: State): nat { Linear(s.sregs[CS], s.ip) }

  /** decode_instruction */
  function DecodeAt(s: State, t: Tables): Decoded {
    var a := FetchAddress(s);
    var op := s.mem[a];
    var hasModrm := At(t, I_MOD_SIZE, op) != 0;
    var wide, dir := Rem(op, 2) == 1, Rem(Quot(op, 2), 2) == 1;
    var data0, word1, word2 := Read16(s.mem, a + 1), Read16(s.mem, a + 2), Read16(s.mem, a + 3);
    var modrm := if hasModrm then Lo(data0) else 0;
    var mod, reg, rm := ModOf(modrm), Rem(Quot(modrm, 8), 8), Rem(modrm, 8);
    var data1 := if hasModrm && mod == 1 then SignExtend(Lo(word1)) else word1;
    var data2 := if !hasModrm || mod == 1 then word2
                 else if (mod == 0 && rm == 6) || mod == 2 then Read16(s.mem, a + 4)
                 else word1;
    Decoded(op, At(t, XLAT_OPCODE, op), At(t, XLAT_SUBFUNCTION, op), hasModrm, wide, dir, mod, reg, rm, Rem(op, 8),
            U8(At(t, BASE_INST_SIZE, op) as int + (if hasModrm then DisplacementSize(mod, rm) else 0) as int
               + ImmediateSize(t, op, wide) as int),
            data0, data1, data2,
            if hasModrm then EffectiveAddress(s, t, mod, rm, data1) else 0)
  }

  /** The decoder computes addresses that leave room for a far pointer. */
  predicate AddressInRange(d: Decoded) { d.rmAddr + 4 < MEM_SIZE }

  lemma DecodedInRange(s: State, t: Tables)
    ensures AddressInRange(DecodeAt(s, t))
  {}

  // ----- operands

  function ReadReg8(s: State, i: u3): u8 { if i < 4 then Lo(s.regs[i]) else Hi(s.regs[i - 4]) }

  function WriteReg8(s: State, i: u3, v: u8): State {
    if i < 4 then SetReg(s, i, Word(v, Hi(s.regs[i]))) else SetReg(s, i - 4, Word(Lo(s.regs[i - 4]), v))
  }

  function ReadRegister(s: State, i: u3, wide: bool): u16 { if wide then s.regs[i] else ReadReg8(s, i) }

  function WriteRegister(s: State, i: u3, v: u16, wide: bool): State {
    if wide then SetReg(s, i, v) else WriteReg8(s, i, Lo(v))
  }

  /** read_reg / write_reg */
  function ReadReg(s: State, d: Decoded): u16 { ReadRegister(s, d.reg, d.wide) }
  function WriteReg(s: State, d: Decoded, v: u16): State { WriteRegister(s, d.reg, v, d.wide) }

  /** read_rm / write_rm */
  function ReadRm(s: State, d: Decoded): u16
    requires AddressInRange(d)
  {
    if d.mod == 3 then ReadRegister(s, d.rm, d.wide) else Load(s.mem, d.rmAddr, d.wide)
  }

  function WriteRm(s: State, d: Decoded, v: u16): State
    requires AddressInRange(d)
  {
    if d.mod == 3 then WriteRegister(s, d.rm, v, d.wide) else s.(mem := Store(s.mem, d.rmAddr, v, d.wide))
  }

  /** read_dest, read_src, write_dest: the direction bit selects which operand is which. */
  function ReadDest(s: State, d: Decoded): u16
    requires AddressInRange(d)
  {
    if d.direction then ReadReg(s, d) else ReadRm(s, d)
  }

  function ReadSrc(s: State, d: Decoded): u16
    requires AddressInRange(d)
  {
    if d.direction then ReadRm(s, d) else ReadReg(s, d)
  }

  function WriteDest(s: State, d: Decoded, v: u16): State
    requires AddressInRange(d)
  {
    if d.direction then WriteReg(s, d, v) else WriteRm(s, d, v)
  }
}

/**
 What both emulators do alike around an instruction: they decode the same fields from its bytes
 and move IP by the same length.
 */
module DecodeAgreement {
  import opened Words
  import opened Flags
  import opened State
  import opened Strings
  import opened Alu
  import opened Decode
  import opened Execute
  import opened Run
  import opened AluReference
  import opened InstructionReference
  import opened InstructionAgreement
  import opened ReferenceCases
  import Addressing
  import opened StackAgreement

  // ----- decoding

  lemma RegsRead(s: State, i: u8)
    ensures i < 8 || i == 12 ==> Regs16(s, i) == TableReg(s, i)
    ensures 8 <= i < 12 ==> Regs16(s, i) == TableSReg(s, i)
    ensures Regs16(s, 8 + i as nat) == SRegAt(s, i)
  {}

  lemma ModeTables(t: Tables, mod: u2, rm: u3)
    requires Addressing.WellFormedAddressing(t)
    ensures var b := TableSet(mod);
      var (x, y, z) := (At(t, b, rm), At(t, b + 1, rm), At(t, b + 3, rm));
      (x < 8 || x == 12) && (y < 8 || y == 12) && 8 <= z < 12
  {
    assert Addressing.WellFormedMode(t, mod, rm);
    hide At;
  }

  lemma {:induction false} AddressesAgree(s: State, t: Tables, mod: u2, rm: u3, data1: u16)
    requires Addressing.WellFormedAddressing(t) && mod < 3
    ensures EffectiveAddress(s, t, mod, rm, data1) == ModeAddress(s, t, mod, rm, data1)
  {
    hide At, Regs16, TableReg, TableSReg, SRegAt, Addressing.WellFormedAddressing;
    var b := TableSet(mod);
    ModeTables(t, mod, rm);
    RegsRead(s, At(t, b, rm));
    RegsRead(s, At(t, b + 1, rm));
    RegsRead(s, At(t, b + 3, rm));
    RegsRead(s, s.prefix.seg);
    OffsetsAgree(TableReg(s, At(t, b, rm)), TableReg(s, At(t, b + 1, rm)), At(t, b + 2, rm), data1);
  }

  lemma OffsetsAgree(x: u16, y: u16, k: u8, data1: u16)
    ensures U16(x as int + y as int + Multiple(k, data1))
         == (x as int + y as int + k as int * data1 as int) % 0x1_0000
  {
    hide Wrap, Multiple;
    MultipleIs(k, data1);
    WrapIs(x as int + y as int + Multiple(k, data1), 0x1_0000);
  }

  lemma ModrmFields(v: u8, w: u16)
    requires w % 0x100 == v
    ensures w % 0x100 / 0x40 == ModOf(v) && w % 8 == Rem(v, 8) && w / 8 % 8 == Rem(Quot(v, 8), 8)
  {
    hide Wrap, Rem, Quot;
    OperatorsAre();
    LowBits(v, w / 0x100, w);
  }

  lemma LowBits(v: int, h: int, w: int)
    requires w == 0x100 * h + v && 0 <= v < 0x100
    ensures w % 8 == v % 8 && w / 8 % 8 == v / 8 % 8
  {
    DivUnique(w, 8, 32 * h + v / 8, v % 8);
    DivUnique(32 * h + v / 8, 8, 4 * h + v / 8 / 8, v / 8 % 8);
  }

  lemma SignsAgree(b: u8)
    ensures SignExtend(b) == (S8(b) + 0x1_0000) % 0x1_0000
  {}

  lemma {:induction false} FieldsAgree(s: State, t: Tables)
    requires Addressing.WellFormedAddressing(t)
    ensures DecodeAt(s, t) == RefFields(s, t).(length := DecodeAt(s, t).length)
  {
    hide Rem, Quot, At, U8, Lo, ModOf, EffectiveAddress, ModeAddress, ImmediateSize, DisplacementSize, SignExtend, S8,
      Addressing.WellFormedAddressing;
    var (m, a) := (s.mem, FetchAddress(s));
    Addressing.OpcodeBits(m[a]);
    OpcodeParts(m[a]);
    SplitWord(m[a + 1], m[a + 2]);
    SplitWord(m[a + 2], m[a + 3]);
    var (data0, data1) := (StreamWord(m, a + 1), StreamWord(m, a + 2));
    LowOfWord(m[a + 1], m[a + 2]);
    LowOfWord(m[a + 2], m[a + 3]);
    ModrmFields(m[a + 1], data0);
    ModrmFields(0, 0);
    SignsAgree(m[a + 2]);
    var d := RefFields(s, t);
    if d.hasModrm && d.mod < 3 { AddressesAgree(s, t, d.mod, d.rm, d.data1); }
    if d.hasModrm && d.mod == 3 { RegisterAddress(s, t, d.rm, d.data1); }
  }

  /** Both emulators decode the same fields from the same bytes. */
  lemma {:induction false} RefDecodes(s: State, t: Tables)
    requires ShippedTables(t) && Addressing.WellFormedAddressing(t)
    ensures RefDecode(s, t) == DecodeAt(s, t)
  {
    hide ShippedTables, Addressing.WellFormedAddressing, DecodedBy, DecodeAt, RefFields, RefLength, U8, At;
    var (d, r) := (DecodeAt(s, t), RefFields(s, t));
    FieldsAgree(s, t);
    DecodedByTables(s, t);
    LengthsAgreeFor(t, d, r);
    SmallLength(d.length);
  }

  lemma RegisterAddress(s: State, t: Tables, rm: u3, data1: u16)
    ensures EffectiveAddress(s, t, 3, rm, data1) == rm
  {}

  lemma LowOfWord(l: u8, h: u8)
    ensures (l as int + 0x100 * h as int) % 0x100 == l
  {}

  lemma OpcodeParts(v: u8)
    ensures v % 8 % 2 == v % 2 && v % 8 / 2 % 2 == v / 2 % 2
  {}

  // ----- the end of an instruction

  /** IP moves by the length that the decoder took from the tables. */
  lemma {:induction false} LengthsAgreeFor(t: Tables, d: Decoded, e: Decoded)
    requires ShippedTables(t) && DecodedBy(t, d) && e.mod == d.mod && e.rm == d.rm
    requires e.wide == d.wide || At(t, I_W_SIZE, d.opcode) == 0
    ensures RefLength(t, e, d.opcode) == d.length as int
  {
    hide At, U8, Rem, Quot, ShippedEntry, ShippedGroup, JumpFlag, FlagBit;
    assert ShippedSizes(t, d.opcode);
    var n := At(t, BASE_INST_SIZE, d.opcode) as int + 4;
    SmallLength(At(t, BASE_INST_SIZE, d.opcode) as nat
                + (if At(t, I_MOD_SIZE, d.opcode) != 0 then DisplacementSize(d.mod, d.rm) else 0) as nat
                + ImmediateSize(t, d.opcode, d.wide));
  }

  /** A case without flags ends with IP moved on, and nothing else. */
  lemma {:induction false} PlainlyMovesOn(s: State, t: Tables, d: Decoded, e: Decoded)
    requires ShippedTables(t) && DecodedBy(t, d) && At(t, STD_FLAGS, d.opcode) == 0
    requires e.opcode == d.opcode && e.mod == d.mod && e.rm == d.rm
    requires e.wide == d.wide || At(t, I_W_SIZE, d.opcode) == 0
    ensures Plainly(s, t, e) == s.(ip := U16(s.ip as int + d.length as int))
  {
    hide ShippedTables, DecodedBy, At, StdFlags, RefLength, U16;
    LengthsAgreeFor(t, d, e);
    StdFlagsIs(0, s.flags, NO_OP, e.wide);
  }

  /** Behind pc_interrupt and far calls there is nothing to add. */
  lemma {:induction false} NothingBehind(s: State, t: Tables, d: Decoded, opcode: u8)
    requires ShippedTables(t) && (opcode == INT_OPCODE || opcode == FAR_OPCODE)
    ensures Tail(s, t, d, opcode, NO_OP) == s
  {
    hide At, StdFlags, Wrap, Rem, Quot, ShippedEntry, ShippedSizes, ShippedGroup, JumpFlag, FlagBit;
    StdFlagsIs(0, s.flags, NO_OP, d.wide);
    assert RefLength(t, d, opcode) == 0;
    WrapNear(s.ip, 0x1_0000);
  }
}

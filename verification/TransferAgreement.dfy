/**
 Moves, the stack, exchanges, address loads and the moves of FLAGS, as decoded: the emulator and
 the reference leave the same state, but for LAHF while bit 1 of FLAGS is clear.
 */
module TransferAgreement {
  import opened Words
  import opened Flags
  import opened State
  import opened Strings
  import opened Alu
  import opened Decode
  import opened Execute
  import opened Run
  import opened InstructionReference
  import opened InstructionAgreement
  import opened ReferenceCases
  import opened StackAgreement
  import opened DecodeAgreement
  import Addressing
  import Frames

  /** The groups that are no arithmetic, no jump and none of RefOther. */
  predicate InTransfer(x: u8) { !InArithmetic(x) && !InControl(x) && !InOther(x) }

  lemma TransferPerformed(s: State, t: Tables, d: Decoded)
    requires AddressInRange(d) && IsTransfer(d.xlat)
    ensures var o := Transfer(s, t, d);
      Perform(s, t, d) == if o.jumped then o.s else o.s.(ip := U16(o.s.ip as int + o.length as int))
  {
    hide ControlFlow, Arithmetic, Transfer, Other;
  }

  lemma TransferEntry(t: Tables, d: Decoded)
    requires ShippedTables(t) && DecodedBy(t, d) && InTransfer(d.xlat)
    ensures AddressInRange(d) && At(t, STD_FLAGS, d.opcode) == 0
    ensures ShippedGroup(t, d.opcode)
    ensures d.xlat != 1 && d.xlat != 20 && d.xlat != 55 ==> At(t, I_W_SIZE, d.opcode) == 0
  {
    hide At, U8, Rem, Quot, ShippedEntry, JumpFlag, FlagBit, ImmediateSize, ShippedGroup;
    assert ShippedSizes(t, d.opcode) && ShippedGroup(t, d.opcode);
  }

  /** Ours moves IP by the table's length behind every body of this group. */
  lemma {:induction false} BodiesAgree(s: State, t: Tables, d: Decoded, e: Decoded, r: State)
    requires ShippedTables(t) && DecodedBy(t, d) && InTransfer(d.xlat) && IsTransfer(d.xlat)
    requires Transfer(s, t, d) == Falls(r, d)
    requires e.opcode == d.opcode && e.mod == d.mod && e.rm == d.rm
    requires e.wide == d.wide || At(t, I_W_SIZE, d.opcode) == 0
    ensures Perform(s, t, d) == Plainly(r, t, e)
  {
    hide ShippedTables, DecodedBy, At, Transfer, Perform, Plainly, U16;
    TransferEntry(t, d);
    TransferPerformed(s, t, d);
    PlainlyMovesOn(r, t, d, e);
  }

  // ----- registers and memory

  lemma {:induction false} MovRegImmAgrees(s: State, t: Tables, d: Decoded)
    requires ShippedTables(t) && DecodedBy(t, d) && d.xlat == 1
    ensures Perform(s, t, d) == RefMovRegImm(s, t, d)
  {
    hide ShippedTables, At, Perform, U16, U8, Rem, Quot, StdFlags, RefLength, WriteRegister, Put, RegPlace;
    TransferEntry(t, d);
    NoModrm(t, d);
    TransferPerformed(s, t, d);
    WidthBit(d.opcode);
    var wide := d.opcode / 8 % 2 == 1;
    RegPlaceWrites(s, d.reg4bit, d.data0, wide);
    var r := Put(s, RegPlace(d.reg4bit, wide), d.data0, wide);
    StdFlagsIs(0, r.flags, NO_OP, wide);
    RegisterLength(t, d, d.(wide := wide));
  }

  lemma NoModrm(t: Tables, d: Decoded)
    requires d.xlat == 1 && d.xlat == At(t, XLAT_OPCODE, d.opcode) && ShippedGroup(t, d.opcode)
    ensures At(t, I_MOD_SIZE, d.opcode) == 0
  {
    hide At;
  }

  lemma WidthBit(op: u8)
    ensures Rem(Quot(op, 8), 2) == op / 8 % 2
  {
    hide Wrap, Rem, Quot;
    OperatorsAre();
  }

  lemma RegisterLength(t: Tables, d: Decoded, e: Decoded)
    requires ShippedTables(t) && DecodedBy(t, d) && d.xlat == 1 && e.mod == d.mod && e.rm == d.rm
    requires At(t, I_MOD_SIZE, d.opcode) == 0
    ensures RefLength(t, e, d.opcode)
         == U8(At(t, BASE_INST_SIZE, d.opcode) as int + ImmediateSize(t, d.opcode, e.wide) as int) as int
  {
    hide At, U8, Rem, Quot, ShippedEntry, ShippedGroup, JumpFlag, FlagBit;
    assert ShippedSizes(t, d.opcode);
    SmallLength(At(t, BASE_INST_SIZE, d.opcode) as nat + ImmediateSize(t, d.opcode, e.wide));
  }

  lemma {:induction false} PushAgrees(s: State, t: Tables, d: Decoded, v: u16)
    requires ShippedTables(t) && DecodedBy(t, d) && InTransfer(d.xlat) && IsTransfer(d.xlat)
    requires Transfer(s, t, d) == Falls(Push(s, v), d) && d.xlat != 1 && d.xlat != 20
    ensures Perform(s, t, d) == Plainly(RefPush(s, v), t, d.(wide := true))
  {
    hide ShippedTables, DecodedBy, At, Transfer, Perform, Plainly, Push, RefPush;
    TransferEntry(t, d);
    PushesAgree(s, v);
    BodiesAgree(s, t, d, d.(wide := true), Push(s, v));
  }

  /** POP of a register, of an operand and into a segment register. */
  lemma {:induction false} PopToAgrees(s: State, t: Tables, d: Decoded, p: Place, r: State)
    requires ShippedTables(t) && DecodedBy(t, d) && InTransfer(d.xlat) && IsTransfer(d.xlat)
    requires Transfer(s, t, d) == Falls(r, d) && d.xlat != 1 && d.xlat != 20
    requires r == Put(Drop(s), p, Top(s), true)
    ensures Perform(s, t, d) == RefPopTo(s, t, d, p)
  {
    hide ShippedTables, DecodedBy, At, Transfer, Perform, Plainly, Drop, Top, Put, RefDropped, RefPopped;
    TransferEntry(t, d);
    PopsAgree(s);
    BodiesAgree(s, t, d, d.(wide := true), r);
  }

  lemma {:induction false} PopsRegister(s: State, t: Tables, d: Decoded)
    requires ShippedTables(t) && DecodedBy(t, d) && d.xlat == 4
    ensures Perform(s, t, d) == RefPopTo(s, t, d, RegPlace(d.reg4bit, true))
  {
    hide ShippedTables, DecodedBy, Perform, RefPopTo, Drop, Top, Put, RegPlace;
    RegPlaceWrites(Drop(s), d.reg4bit, Top(s), true);
    PopToAgrees(s, t, d, RegPlace(d.reg4bit, true), SetReg(Drop(s), d.reg4bit, Top(s)));
  }

  lemma {:induction false} PopsOperand(s: State, t: Tables, d: Decoded)
    requires ShippedTables(t) && DecodedBy(t, d) && d.xlat == 10 && d.wide && d.direction
    ensures Perform(s, t, d) == RefPopTo(s, t, d, RmPlace(d))
  {
    hide ShippedTables, DecodedBy, Perform, RefPopTo, Drop, Top, Put, RmPlace, WriteRm;
    TransferEntry(t, d);
    PlacesAgree(Drop(s), Drop(s), d, Top(s));
    assert d.(wide := true) == d;
    PopToAgrees(s, t, d, RmPlace(d), WriteRm(Drop(s), d, Top(s)));
  }

  // ----- segment registers

  lemma SegmentPlace(s: State, sreg: u2, v: u16)
    ensures Fetch(s, SegPlace(sreg), true) == s.sregs[sreg] && Put(s, SegPlace(sreg), v, true) == SetSReg(s, sreg, v)
  {
    hide Lo, Hi, Word;
    WordOfHalves(s.sregs[sreg]);
    WordOfHalves(v);
    HalvesOfWord(Lo(v), Hi(s.sregs[sreg]));
  }

  lemma {:induction false} MovSregAgrees(s: State, t: Tables, d: Decoded)
    requires ShippedTables(t) && DecodedBy(t, d) && d.xlat == 10 && !d.wide && d.reg < 4
    ensures Perform(s, t, d) == RefMovSreg(s, t, d)
  {
    hide ShippedTables, DecodedBy, Perform, Plainly, RmPlace, Fetch, Put, ReadRm, WriteRm;
    TransferEntry(t, d);
    var e := d.(wide := true);
    var v := if d.direction then ReadRm(s, e) else s.sregs[d.reg];
    PlacesAgree(s, s, e, v);
    SegmentPlace(s, d.reg, v);
    BodiesAgree(s, t, d, e, MovSreg(s, d));
  }

  lemma {:induction false} PushSregAgrees(s: State, t: Tables, d: Decoded)
    requires ShippedTables(t) && DecodedBy(t, d) && d.xlat == 25
    ensures 8 <= d.extra < 12 && Perform(s, t, d) == Plainly(RefPush(s, Regs16(s, d.extra)), t, d.(wide := true))
  {
    hide ShippedTables, DecodedBy, Perform, Plainly, Push, RefPush, Wrap;
    TransferEntry(t, d);
    SegmentNumber(t, d);
    PushAgrees(s, t, d, Regs16(s, d.extra));
  }

  lemma SegmentNumber(t: Tables, d: Decoded)
    requires DecodedBy(t, d) && (d.xlat == 25 || d.xlat == 26 || d.xlat == 27) && ShippedGroup(t, d.opcode)
    ensures 8 <= d.extra < 12 && SRegIndex(d) == d.extra - 8
  {
    hide At, Rem, Quot, Wrap;
    WrapNear(d.extra as int - 8, 0x100);
  }

  lemma {:induction false} PopSregAgrees(s: State, t: Tables, d: Decoded)
    requires ShippedTables(t) && DecodedBy(t, d) && d.xlat == 26
    ensures 8 <= d.extra < 12
    ensures Perform(s, t, d) == Plainly(SetRegs16(RefDropped(s), d.extra, RefPopped(s)), t, d.(wide := true))
  {
    hide ShippedTables, DecodedBy, Perform, Plainly, Drop, Top, RefDropped, RefPopped, Wrap;
    TransferEntry(t, d);
    SegmentNumber(t, d);
    PopsAgree(s);
    BodiesAgree(s, t, d, d.(wide := true), SetSReg(Drop(s), d.extra - 8, Top(s)));
  }

  // ----- moves with the accumulator, immediates, LEA, LES and LDS

  lemma DirectBit(op: u8)
    requires 0xA0 <= op < 0xA4 || 0x8C <= op < 0x90
    ensures Rem(op, 2) == op % 2 && Rem(Quot(op, 2), 2) == op / 2 % 2
  {
    Addressing.OpcodeBits(op);
    hide Rem, Quot;
  }

  lemma {:induction false} DirectAddress(s: State, t: Tables, data: u16)
    requires Addressing.WellFormedAddressing(t)
    ensures ModeAddress(s, t, 0, 6, data) == Linear(SourceSegment(s), data)
  {
    assert Addressing.WellFormedMode(t, 0, 6);
    hide Addressing.WellFormedAddressing, At;
    RegsRead(s, s.prefix.seg);
    hide SRegAt;
  }

  lemma AccumulatorPlace(s: State, v: u16, wide: bool)
    requires wide || v < 0x100
    ensures Fetch(s, RegPlace(0, wide), wide) == Accumulator(s, wide)
    ensures Put(s, RegPlace(0, wide), v, wide) == SetAccumulator(s, v, wide)
  {
    RegPlaceReads(s, 0, wide);
    RegPlaceWrites(s, 0, v, wide);
    hide Lo, Hi, Word, Fetch, Put, RegPlace;
  }

  lemma LoadFits(m: Memory, a: nat, wide: bool)
    requires a + 1 < MEM_SIZE
    ensures wide || Load(m, a, wide) < 0x100
  {}

  lemma StoresLow(m: Memory, a: nat, v: u16)
    requires a + 1 < MEM_SIZE
    ensures Store(m, a, Lo(v), false) == Store(m, a, v, false)
  {
    LowTwice(v);
    hide Lo;
  }

  lemma LowTwice(v: u16)
    ensures Lo(Lo(v)) == Lo(v)
  {
    hide Wrap, Rem, Quot;
    OperatorsAre();
  }

  lemma {:induction false} MovAccAgrees(s: State, t: Tables, d: Decoded)
    requires ShippedTables(t) && Addressing.WellFormedAddressing(t) && DecodedBy(t, d) && d.xlat == 11
    ensures ModeAddress(s, t, 0, 6, d.data0) + 1 < MEM_SIZE
    ensures Perform(s, t, d) == RefMovAcc(s, t, d)
  {
    hide ShippedTables, Addressing.WellFormedAddressing, DecodedBy, Perform, Plainly, RegPlace, Load, Store, Lo, Hi, Word,
      ModeAddress, SourceSegment, At;
    TransferEntry(t, d);
    DirectAddress(s, t, d.data0);
    var a := Linear(SourceSegment(s), d.data0);
    hide Linear;
    LoadFits(s.mem, a, d.wide);
    AccumulatorPlace(s, if d.direction then 0 else Load(s.mem, a, d.wide), d.wide);
    StoresLow(s.mem, a, s.regs[AX]);
    BodiesAgree(s, t, d, d,
      if d.direction then s.(mem := Store(s.mem, a, s.regs[AX], d.wide))
      else SetAccumulator(s, Load(s.mem, a, d.wide), d.wide));
  }

  /** LEA under REG_ZERO reads the offset alone, as ours does by taking the segment off again. */
  lemma {:induction false} LeaAgrees(s: State, t: Tables, d: Decoded)
    requires ShippedTables(t) && Addressing.WellFormedAddressing(t) && d == DecodeAt(s, t)
    requires DecodedBy(t, d) && Frames.IsLea(d) && d.mod < 3
    ensures Perform(s, t, d) == RefLea(s, t, d)
  {
    hide ShippedTables, Addressing.WellFormedAddressing, DecodedBy, DecodeAt, Perform, Plainly, RegPlace, Put, ModeAddress,
      EffectiveOffset, EffectiveSegment, U16, Linear;
    TransferEntry(t, d);
    HasModrm(t, d);
    DecodedAddressIs(s, t);
    var under := s.(prefix := s.prefix.(segEn := 1, seg := 4));
    AddressesAgree(under, t, d.mod, d.rm, d.data1);
    UnderZero(s, t, d);
    SegmentCancelled(EffectiveSegment(s, t, d.mod, d.rm), EffectiveOffset(s, t, d.mod, d.rm, d.data1));
    RegPlaceWrites(s, d.reg, EffectiveOffset(s, t, d.mod, d.rm, d.data1), true);
    var r := SetReg(s, d.reg, EffectiveOffset(s, t, d.mod, d.rm, d.data1));
    BodiesAgree(s, t, d, d, r.(prefix := r.prefix.(segEn := 1)));
  }

  lemma HasModrm(t: Tables, d: Decoded)
    requires DecodedBy(t, d) && d.xlat == 10 && ShippedGroup(t, d.opcode)
    ensures At(t, I_MOD_SIZE, d.opcode) == 1
  {
    hide At, U8, Rem, Quot;
  }

  lemma DecodedAddressIs(s: State, t: Tables)
    ensures var d := DecodeAt(s, t);
      && d.hasModrm == (At(t, I_MOD_SIZE, d.opcode) != 0)
      && (d.hasModrm ==> d.rmAddr == EffectiveAddress(s, t, d.mod, d.rm, d.data1))
  {
    hide Rem, Quot, At, U8, Lo, ModOf, EffectiveAddress, ImmediateSize, DisplacementSize, SignExtend, Read16;
  }

  lemma UnderZero(s: State, t: Tables, d: Decoded)
    requires d.mod < 3
    ensures EffectiveAddress(s.(prefix := s.prefix.(segEn := 1, seg := 4)), t, d.mod, d.rm, d.data1)
         == EffectiveOffset(s, t, d.mod, d.rm, d.data1)
    ensures EffectiveAddress(s, t, d.mod, d.rm, d.data1)
         == 0x10 * EffectiveSegment(s, t, d.mod, d.rm) + EffectiveOffset(s, t, d.mod, d.rm, d.data1)
  {
    hide At, U16, Multiple;
  }

  lemma SegmentCancelled(seg: u16, off: u16)
    ensures U16(0x10 * seg + off - 0x10 * seg) == off && U16(off) == off
  {
    hide Wrap;
    WrapNear(off, 0x1_0000);
  }

  lemma {:induction false} LoadFarAgrees(s: State, t: Tables, d: Decoded)
    requires ShippedTables(t) && DecodedBy(t, d) && d.xlat == 37 && d.mod < 3
    ensures d.extra < 23 && Perform(s, t, d) == RefLoadFar(s, t, d)
  {
    hide ShippedTables, DecodedBy, Perform, Plainly, RegPlace, Lo, Hi, Word, Put, Fetch, Rem;
    TransferEntry(t, d);
    FarRegister(t, d);
    var (v, w) := (Read16(s.mem, d.rmAddr), Read16(s.mem, d.rmAddr + 2));
    MemoryPlace(s, d.rmAddr);
    var s1 := SetReg(s, d.reg, v);
    RegPlaceWrites(s, d.reg, v, true);
    MemoryPlace(s1, d.rmAddr + 2);
    var sreg: u2 := if d.extra == 16 then ES else DS;
    SegmentPlace(s1, sreg, w);
    BodiesAgree(s, t, d, d.(wide := true), SetSReg(s1, sreg, w));
  }

  lemma MemoryPlace(s: State, a: nat)
    requires a + 1 < MEM_SIZE
    ensures Fetch(s, InMemory(a), true) == Read16(s.mem, a)
  {}

  lemma FarRegister(t: Tables, d: Decoded)
    requires DecodedBy(t, d) && d.xlat == 37 && ShippedGroup(t, d.opcode)
    ensures (Rem(d.opcode, 2) == 0 && d.extra == 16) || (Rem(d.opcode, 2) != 0 && d.extra == 22)
  {
    Addressing.OpcodeBits(d.opcode);
    hide At, Rem, Quot;
  }

  lemma {:induction false} MovRmImmAgrees(s: State, t: Tables, d: Decoded)
    requires ShippedTables(t) && DecodedBy(t, d) && d.xlat == 20
    ensures Perform(s, t, d) == RefMovRmImm(s, t, d)
  {
    hide ShippedTables, DecodedBy, Perform, Plainly, RmPlace, RegPlace, Put, WriteRm, Fetch, ReadRm;
    TransferEntry(t, d);
    ImmediateDirection(t, d);
    PlacesAgree(s, s, d, d.data2);
    BodiesAgree(s, t, d, d, WriteRm(s, d, d.data2));
  }

  lemma ImmediateDirection(t: Tables, d: Decoded)
    requires DecodedBy(t, d) && d.xlat == 20 && ShippedGroup(t, d.opcode)
    ensures d.direction
  {
    Addressing.OpcodeBits(d.opcode);
    hide At, Rem, Quot;
  }

  lemma {:induction false} XlatAgrees(s: State, t: Tables, d: Decoded)
    requires ShippedTables(t) && DecodedBy(t, d) && d.xlat == 44
    ensures Perform(s, t, d) == RefXlat(s, t, d)
  {
    hide ShippedTables, DecodedBy, Perform, Plainly, Lo, Hi, Word, Wrap;
    TransferEntry(t, d);
    RegsRead(s, s.prefix.seg);
    WrapIs(s.regs[BX] as int + Lo(s.regs[AX]) as int, 0x1_0000);
    BodiesAgree(s, t, d, d, Execute.Xlat(s));
  }

  // ----- conversions and FLAGS

  lemma SignBits(b: u8, w: u16)
    ensures Bit(b, 7) == (b >= 0x80) && Bit(w, 15) == (w >= 0x8000)
    ensures SignExtend(b) == Word(b, if b >= 0x80 then 0xFF else 0)
  {
    FlagBits(b);
    FlagBits(w);
    hide Bit;
  }

  lemma {:induction false} SignsAgreed(s: State, t: Tables, d: Decoded)
    requires ShippedTables(t) && DecodedBy(t, d) && (d.xlat == 30 || d.xlat == 31)
    ensures d.xlat == 30 ==> Perform(s, t, d) == Plainly(SetFileByte(s, 1, if Bit(FileByte(s, 0), 7) then 0xFF else 0), t, d)
    ensures d.xlat == 31 ==> Perform(s, t, d) == Plainly(SetReg(s, DX, if Bit(s.regs[AX], 15) then 0xFFFF else 0), t, d)
  {
    hide ShippedTables, DecodedBy, Perform, Plainly, Lo, Hi, Word, Bit, SignExtend;
    TransferEntry(t, d);
    SignBits(Lo(s.regs[AX]), s.regs[AX]);
    BodiesAgree(s, t, d, d,
      if d.xlat == 30 then SetReg(s, AX, SignExtend(Lo(s.regs[AX])))
      else SetReg(s, DX, if s.regs[AX] >= 0x8000 then 0xFFFF else 0));
  }

  lemma {:induction false} PushfAgrees(s: State, t: Tables, d: Decoded)
    requires ShippedTables(t) && DecodedBy(t, d) && d.xlat == 33 && Plain(s.flags)
    ensures Perform(s, t, d) == Plainly(RefPush(s, MakeFlags(t, s.flags)), t, d.(wide := true))
  {
    hide ShippedTables, DecodedBy, Perform, Plainly, Push, RefPush, MakeFlags, Pack;
    MakesPacked(t, s.flags);
    PushAgrees(s, t, d, Pack(s.flags));
  }

  lemma {:induction false} PopfAgrees(s: State, t: Tables, d: Decoded)
    requires ShippedTables(t) && DecodedBy(t, d) && d.xlat == 34
    ensures Perform(s, t, d) == Plainly(RefDropped(s).(flags := SetFlags(t, s.flags, RefPopped(s))), t, d.(wide := true))
  {
    hide ShippedTables, DecodedBy, Perform, Plainly, RefDropped, RefPopped, Drop, Top, SetFlags, Unpack;
    TransferEntry(t, d);
    PopsAgree(s);
    SetsUnpacked(t, s.flags, Top(s));
    BodiesAgree(s, t, d, d.(wide := true), Drop(s).(flags := Unpack(Top(s))));
  }

  /** The bytes of the pushed word. */
  lemma {:induction false} PackedBytes(f: Flags)
    ensures Lo(Pack(f)) == LowByte(WithReservedSet(f)) && Hi(Pack(f)) == HighByte(WithReservedSet(f))
  {
    hide Lo, Hi, LowByte, HighByte, WithReservedSet;
    SplitWord(LowByte(WithReservedSet(f)), HighByte(WithReservedSet(f)));
  }

  /** Unpacking a new low byte under the old high byte keeps the high flags. */
  lemma {:induction false} SahfFlags(f: Flags, ah: u8)
    requires Plain(f)
    ensures Unpack(Word(ah, Hi(Pack(f)))) == OfBytes(ah, HighByte(f)).(r1 := true, r3 := false, r5 := false)
  {
    hide Lo, Hi, LowByte, HighByte, BitsOf, Pack;
    PackedBytes(f);
    SplitWord(ah, Hi(Pack(f)));
    HighBits(f);
    HighBits(WithReservedSet(f));
  }

  lemma HighBits(f: Flags)
    ensures BitsOf(HighByte(f)) == ByteBits(f.tf, f.intf, f.df, f.of, f.r12, f.r13, f.r14, f.r15)
  {
    hide ByteOf, BitsOf;
    BitsOfByte(ByteBits(f.tf, f.intf, f.df, f.of, f.r12, f.r13, f.r14, f.r15));
  }

  lemma {:induction false} SahfAgrees(s: State, t: Tables, d: Decoded)
    requires ShippedTables(t) && DecodedBy(t, d) && d.xlat == 35 && Plain(s.flags)
    ensures Perform(s, t, d)
         == Plainly(s.(flags := SetFlags(t, s.flags, Word(FileByte(s, 1), Hi(MakeFlags(t, s.flags))))), t, d)
  {
    hide ShippedTables, DecodedBy, Perform, Plainly, SetFlags, Unpack, MakeFlags, Pack, OfBytes, HighByte, Lo, Hi, Word;
    TransferEntry(t, d);
    MakesPacked(t, s.flags);
    SahfFlags(s.flags, Hi(s.regs[AX]));
    SetsUnpacked(t, s.flags, Word(Hi(s.regs[AX]), Hi(Pack(s.flags))));
    BodiesAgree(s, t, d, d, Sahf(s));
  }

  lemma LowByteWithReserved(f: Flags)
    ensures LowByte(WithReservedSet(f)) == LowByte(f) <==> f.r1
  {}

  /** LAHF reads bit 1 of FLAGS as it is in ours, and as 1 in the reference. */
  lemma {:induction false} LahfAgreesIff(s: State, t: Tables, d: Decoded)
    requires ShippedTables(t) && DecodedBy(t, d) && d.xlat == 36 && Plain(s.flags)
    ensures Perform(s, t, d) == Plainly(SetFileByte(s, 1, Lo(MakeFlags(t, s.flags))), t, d) <==> s.flags.r1
  {
    hide ShippedTables, DecodedBy, Perform, MakeFlags, Pack, LowByte, WithReservedSet, Lo, Hi, Word, Plainly, U16;
    TransferEntry(t, d);
    MakesPacked(t, s.flags);
    PackedBytes(s.flags);
    LowByteWithReserved(s.flags);
    var (x, y) := (LowByte(s.flags), LowByte(WithReservedSet(s.flags)));
    var r := SetReg(s, AX, Word(Lo(s.regs[AX]), x));
    BodiesAgree(s, t, d, d, r);
    PlainlyMovesOn(r, t, d, d);
    PlainlyMovesOn(SetFileByte(s, 1, y), t, d, d);
    HalvesOfWord(Lo(s.regs[AX]), x);
    HalvesOfWord(Lo(s.regs[AX]), y);
    assert SetFileByte(s, 1, y).regs[AX] == Word(Lo(s.regs[AX]), y);
  }

  // ----- XCHG by exclusive ors

  lemma {:induction false} XorCancels(a: nat, b: nat)
    ensures Xor(Xor(a, b), b) == a && Xor(b, Xor(a, b)) == a && Xor(Xor(a, b), a) == b
  {
    if a == 0 || b == 0 {
      XorSelf(a);
      XorSelf(b);
    } else {
      var x := Xor(a, b);
      XorCancels(a / 2, b / 2);
      assert x / 2 == Xor(a / 2, b / 2) && x % 2 == (if a % 2 == b % 2 then 0 else 1);
      XorHalves(x, b);
      XorHalves(b, x);
      XorHalves(x, a);
    }
  }

  lemma {:induction false} XorSelf(a: nat)
    ensures Xor(a, a) == 0
  {
    if a != 0 { XorSelf(a / 2); }
  }

  lemma XorHalves(a: nat, b: nat)
    ensures Xor(a, b) == 2 * Xor(a / 2, b / 2) + if a % 2 == b % 2 then 0 else 1
  {}

  /** Two operands of one width that share no byte. */
  predicate Disjoint(p: Place, q: Place, wide: bool) {
    match (p, q)
    case (InFile(j), InFile(k)) => if wide then j % 2 == 0 && k % 2 == 0 && j != k else j != k
    case (InMemory(a), InMemory(b)) => a + 1 < b || b + 1 < a
    case _ => true
  }

  /** A place of a word is read and written as a whole. */
  predicate Aligned(p: Place, wide: bool) { wide && p.InFile? ==> p.offset % 2 == 0 }

  predicate Fits(v: u16, wide: bool) { v <= Mask(wide) }

  lemma {:induction false} PutFetch(s: State, p: Place, v: u16, wide: bool)
    requires Aligned(p, wide) && Fits(v, wide)
    ensures Fetch(Put(s, p, v, wide), p, wide) == v
  {
    hide Lo, Hi, Word;
    WordOfHalves(v);
    LowOfByte(v);
    match p
    case InFile(k) =>
      var r := Regs16(s, k / 2);
      HalvesOfWord(Lo(v), Hi(r));
      HalvesOfWord(Lo(r), Lo(v));
      HalvesOfWord(Lo(v), Hi(v));
    case InMemory(a) =>
  }

  lemma LowOfByte(v: u16)
    ensures v < 0x100 ==> Lo(v) == v
  {
    hide Wrap, Rem, Quot;
    OperatorsAre();
  }

  lemma {:induction false} PutElsewhere(s: State, p: Place, v: u16, q: Place, wide: bool)
    requires Aligned(p, wide) && Aligned(q, wide) && Disjoint(p, q, wide)
    ensures Fetch(Put(s, p, v, wide), q, wide) == Fetch(s, q, wide)
  {
    hide Lo, Hi, Word;
    match p
    case InFile(k) =>
      var r := Regs16(s, k / 2);
      HalvesOfWord(Lo(v), Hi(r));
      HalvesOfWord(Lo(r), Lo(v));
      HalvesOfWord(Lo(v), Hi(v));
    case InMemory(a) =>
  }

  lemma {:induction false} PutTwice(s: State, p: Place, u: u16, v: u16, wide: bool)
    requires Aligned(p, wide)
    ensures Put(Put(s, p, u, wide), p, v, wide) == Put(s, p, v, wide)
  {
    hide Lo, Hi, Word;
    match p
    case InFile(k) =>
      var r := Regs16(s, k / 2);
      HalvesOfWord(Lo(u), Hi(r));
      HalvesOfWord(Lo(r), Lo(u));
      HalvesOfWord(Lo(u), Hi(u));
      HalvesOfWord(Lo(v), Hi(u));
      HalvesOfWord(Lo(v), Hi(r));
      RegsTwice(s, k / 2);
    case InMemory(a) => StoresTwice(s.mem, a, u, v, wide);
  }

  lemma RegsTwice(s: State, i: nat)
    requires i < 12
    ensures forall x: u16, y: u16 :: SetRegs16(SetRegs16(s, i, x), i, y) == SetRegs16(s, i, y)
  {}

  lemma StoresTwice(m: Memory, a: nat, u: u16, v: u16, wide: bool)
    requires a + 1 < MEM_SIZE
    ensures Store(Store(m, a, u, wide), a, v, wide) == Store(m, a, v, wide)
  {
    hide Lo, Hi;
  }

  lemma {:induction false} PutsCommute(s: State, p: Place, u: u16, q: Place, v: u16, wide: bool)
    requires Aligned(p, wide) && Aligned(q, wide) && Disjoint(p, q, wide)
    ensures Put(Put(s, p, u, wide), q, v, wide) == Put(Put(s, q, v, wide), p, u, wide)
  {
    hide Lo, Hi, Word, Store, SetFileByte;
    match (p, q)
    case (InFile(j), InFile(k)) =>
      if wide {
        WordsCommute(s, j, Lo(u), Hi(u), k, Lo(v), Hi(v));
      } else {
        BytesCommute(s, j, Lo(u), k, Lo(v));
      }
    case (InMemory(a), InMemory(b)) => StoresCommute(s.mem, a, u, b, v, wide);
    case (InFile(j), InMemory(b)) => FileKeepsMemory(s, j, u, Store(s.mem, b, v, wide), wide);
    case (InMemory(a), InFile(k)) => FileKeepsMemory(s, k, v, Store(s.mem, a, u, wide), wide);
  }

  lemma FileKeepsMemory(s: State, k: nat, v: u16, m: Memory, wide: bool)
    requires k + 1 < 24
    ensures Put(s.(mem := m), InFile(k), v, wide) == Put(s, InFile(k), v, wide).(mem := m)
    ensures Put(s, InFile(k), v, wide).mem == s.mem
  {
    hide Lo, Hi, Word;
  }

  lemma StoresCommute(m: Memory, a: nat, u: u16, b: nat, v: u16, wide: bool)
    requires a + 1 < MEM_SIZE && b + 1 < MEM_SIZE && (a + 1 < b || b + 1 < a)
    ensures Store(Store(m, a, u, wide), b, v, wide) == Store(Store(m, b, v, wide), a, u, wide)
  {
    hide Lo, Hi;
  }

  lemma {:induction false} BytesCommute(s: State, j: nat, x: u8, k: nat, y: u8)
    requires j < 24 && k < 24 && j != k
    ensures SetFileByte(SetFileByte(s, j, x), k, y) == SetFileByte(SetFileByte(s, k, y), j, x)
  {
    hide Lo, Hi, Word;
    if j / 2 == k / 2 {
      var r := Regs16(s, j / 2);
      HalvesOfWord(x, Hi(r));
      HalvesOfWord(Lo(r), x);
      HalvesOfWord(y, Hi(r));
      HalvesOfWord(Lo(r), y);
      RegsTwice(s, j / 2);
    } else {
      RegsCommute(s, j / 2, k / 2);
    }
  }

  lemma RegsCommute(s: State, i: nat, j: nat)
    requires i < 12 && j < 12 && i != j
    ensures forall x: u16, y: u16 :: SetRegs16(SetRegs16(s, i, x), j, y) == SetRegs16(SetRegs16(s, j, y), i, x)
    ensures forall x: u16 :: Regs16(SetRegs16(s, i, x), j) == Regs16(s, j)
    ensures forall x: u16 :: Regs16(SetRegs16(s, j, x), i) == Regs16(s, i)
  {}

  lemma {:induction false} WordsCommute(s: State, j: nat, x0: u8, x1: u8, k: nat, y0: u8, y1: u8)
    requires j + 1 < 24 && k + 1 < 24 && j % 2 == 0 && k % 2 == 0 && j != k
    ensures SetFileByte(SetFileByte(SetFileByte(SetFileByte(s, j, x0), j + 1, x1), k, y0), k + 1, y1)
         == SetFileByte(SetFileByte(SetFileByte(SetFileByte(s, k, y0), k + 1, y1), j, x0), j + 1, x1)
  {
    hide SetFileByte;
    var a := SetFileByte(s, j, x0);
    BytesCommute(a, j + 1, x1, k, y0);
    BytesCommute(s, j, x0, k, y0);
    var b := SetFileByte(SetFileByte(s, k, y0), j, x0);
    BytesCommute(b, j + 1, x1, k + 1, y1);
    BytesCommute(SetFileByte(s, k, y0), j, x0, k + 1, y1);
  }

  /** Three exclusive ors exchange two disjoint operands. */
  lemma {:induction false} XorsExchange(s: State, a: Place, b: Place, wide: bool)
    requires Aligned(a, wide) && Aligned(b, wide) && Disjoint(a, b, wide) && a != b
    ensures RefXchg(s, a, b, wide) == Put(Put(s, a, Fetch(s, b, wide), wide), b, Fetch(s, a, wide), wide)
  {
    hide Fetch, Put, Disjoint, Aligned, Low, Xor16;
    var (va, vb) := (Fetch(s, a, wide), Fetch(s, b, wide));
    FetchFits(s, a, wide);
    FetchFits(s, b, wide);
    XorOfOperands(va, vb, wide);
    var x := Xor16(va, vb);
    DisjointBoth(a, b, wide);
    var s1 := Put(s, a, x, wide);
    PutFetch(s, a, x, wide);
    PutElsewhere(s, a, x, b, wide);
    var s2 := Put(s1, b, va, wide);
    PutElsewhere(s1, b, va, a, wide);
    PutFetch(s1, b, va, wide);
    PutsCommute(s, a, x, b, va, wide);
    PutTwice(Put(s, b, va, wide), a, x, vb, wide);
    PutsCommute(s, a, vb, b, va, wide);
  }

  lemma DisjointBoth(a: Place, b: Place, wide: bool)
    requires Disjoint(a, b, wide)
    ensures Disjoint(b, a, wide)
  {}

  lemma {:induction false} XorOfOperands(a: u16, b: u16, wide: bool)
    requires Fits(a, wide) && Fits(b, wide)
    ensures var x := Xor16(a, b);
      Low(x, wide) == x && Fits(x, wide) && Low(Xor16(b, x), wide) == a && Low(Xor16(x, a), wide) == b
  {
    hide Low, Xor;
    LogicFits(a, b, wide);
    XorCancels(a, b);
    LowOfOperand(Xor16(a, b), wide);
    LowOfOperand(a, wide);
    LowOfOperand(b, wide);
  }

  /** Registers of one width are one place or share no byte. */
  lemma RegistersApart(i: u3, j: u3, wide: bool)
    ensures Aligned(RegPlace(i, wide), wide)
    ensures i == j || (RegPlace(i, wide) != RegPlace(j, wide)
      && Disjoint(RegPlace(i, wide), RegPlace(j, wide), wide))
  {}

  lemma {:induction false} XchgAccumulatorAgrees(s: State, t: Tables, d: Decoded)
    requires ShippedTables(t) && DecodedBy(t, d) && d.xlat == 16
    ensures Perform(s, t, d)
         == Plainly(RefXchg(s, RegPlace(0, true), RegPlace(d.reg4bit, true), true), t, d.(wide := true))
  {
    hide ShippedTables, DecodedBy, Perform, Plainly, RefXchg, RegPlace, Fetch, Put;
    TransferEntry(t, d);
    var (a, b) := (RegPlace(0, true), RegPlace(d.reg4bit, true));
    var (va, vb) := (s.regs[0], s.regs[d.reg4bit]);
    RegPlaceReads(s, 0, true);
    RegPlaceReads(s, d.reg4bit, true);
    RegPlaceWrites(s, 0, vb, true);
    RegPlaceWrites(SetReg(s, 0, vb), d.reg4bit, va, true);
    RegistersApart(0, d.reg4bit, true);
    RegistersApart(d.reg4bit, 0, true);
    var r := SetReg(SetReg(s, AX, vb), d.reg4bit, va);
    if d.reg4bit == 0 {
      SamePlace(s, a, true);
      assert s.regs[0 := va][0 := va] == s.regs;
    } else {
      XorsExchange(s, a, b, true);
    }
    BodiesAgree(s, t, d, d.(wide := true), r);
  }

  lemma SamePlace(s: State, a: Place, wide: bool)
    ensures RefXchg(s, a, a, wide) == s
  {}

  lemma {:induction false} XchgAgrees(s: State, t: Tables, d: Decoded)
    requires ShippedTables(t) && DecodedBy(t, d) && d.xlat == 24
    ensures var (reg, rm) := (RegPlace(d.reg, d.wide), RmPlace(d));
      Perform(s, t, d)
      == Plainly(if d.direction then RefXchg(s, reg, rm, d.wide) else RefXchg(s, rm, reg, d.wide), t, d)
  {
    hide ShippedTables, DecodedBy, Perform, Plainly, RefXchg, RegPlace, RmPlace, Fetch, Put, ReadReg, ReadRm, WriteReg,
      WriteRm, Aligned, Disjoint;
    TransferEntry(t, d);
    var (reg, rm) := (RegPlace(d.reg, d.wide), RmPlace(d));
    var (x, y) := (ReadReg(s, d), ReadRm(s, d));
    PlacesAgree(s, s, d, x);
    PlacesAgree(s, WriteRm(s, d, x), d, y);
    OperandsApart(d);
    if reg == rm {
      SamePlace(s, reg, d.wide);
      WritesBack(s, d);
    } else {
      DisjointBoth(rm, reg, d.wide);
      XorsExchange(s, rm, reg, d.wide);
      XorsExchange(s, reg, rm, d.wide);
      PutsCommute(s, rm, x, reg, y, d.wide);
    }
    BodiesAgree(s, t, d, d, Xchg(s, d));
  }

  lemma OperandsApart(d: Decoded)
    requires AddressInRange(d)
    ensures var (reg, rm) := (RegPlace(d.reg, d.wide), RmPlace(d));
      && Aligned(reg, d.wide) && Aligned(rm, d.wide)
      && if reg == rm then d.mod == 3 && d.rm == d.reg else Disjoint(rm, reg, d.wide)
  {
    hide RegPlace;
    RegistersApart(d.reg, d.rm, d.wide);
    RegistersApart(d.rm, d.reg, d.wide);
    InRegisterFile(d.reg, d.wide);
  }

  lemma InRegisterFile(i: u3, wide: bool)
    ensures RegPlace(i, wide).InFile?
  {}

  lemma WritesBack(s: State, d: Decoded)
    requires AddressInRange(d) && d.mod == 3 && d.rm == d.reg
    ensures Xchg(s, d) == s
  {
    hide Lo, Hi, Word;
    WordOfHalves(s.regs[d.reg]);
    LowOfByte(Lo(s.regs[d.reg % 4]));
    LowOfByte(Hi(s.regs[d.reg % 4]));
    WordOfHalves(s.regs[d.reg % 4]);
  }

  // ----- the group

  lemma {:induction false} Executes(s: State, t: Tables, d: Decoded)
    requires ShippedTables(t) && Addressing.WellFormedAddressing(t) && DecodedBy(t, d) && Covered(s, d)
    ensures Executable(s, t, d)
  {
    hide ShippedSizes, At, U8, Rem, Quot, JumpFlag, FlagBit, ImmediateSize, Addressing.WellFormedAddressing, ModeAddress,
      Covered;
    assert ShippedGroup(t, d.opcode) && ShippedEntry(t, d.opcode);
    DirectAddress(s, t, d.data0);
    CountedAlike(s, d);
    hide SourceSegment, Count, RefCount;
  }

  lemma CountedAlike(s: State, d: Decoded)
    requires Covered(s, d)
    ensures d.xlat == 12 ==> RefCount(s, d) == Count(s, d) as int
  {
    hide RefCount, Count, RefPort;
    if d.xlat == 12 { CountsAgree(s, d); }
  }

  predicate IsHlt(d: Decoded) { d.xlat == 53 && d.opcode == 0xF4 }

  /** Opcodes without a body: nothing but IP moves, and HLT sets `halted` in ours. */
  lemma {:induction false} NothingElse(s: State, t: Tables, d: Decoded)
    requires ShippedTables(t) && DecodedBy(t, d) && InTransfer(d.xlat) && !IsTransfer(d.xlat)
    ensures Perform(s, t, d) == Plainly(s, t, d) <==> !(IsHlt(d) && s.ctl.halted != 1)
  {
    hide ShippedTables, DecodedBy, Plainly, U16, Arithmetic, Transfer, ControlFlow, In, Out, GetRtc, StringInstruction;
    TransferEntry(t, d);
    PlainlyMovesOn(s, t, d, d);
  }

  /** Every covered instruction of the group leaves the same state exactly if it is neither LAHF
      with bit 1 of FLAGS clear nor HLT. */
  lemma {:induction false} TransferAgreesIff(s: State, t: Tables, d: Decoded)
    requires ShippedTables(t) && Addressing.WellFormedAddressing(t) && d == DecodeAt(s, t)
    requires InTransfer(d.xlat) && Covered(s, d) && Plain(s.flags)
    ensures Executable(s, t, d)
    ensures Perform(s, t, d) == RefTransfer(s, t, d)
      <==> !(d.xlat == 36 && !s.flags.r1) && !(IsHlt(d) && s.ctl.halted != 1)
  {
    hide ShippedTables, Addressing.WellFormedAddressing, DecodeAt, DecodedBy, Perform, RefTransfer, Covered, Executable,
      Plain, Plainly;
    DecodedByTables(s, t);
    Executes(s, t, d);
    if d.xlat == 36 {
      LahfAgreesIff(s, t, d);
      RefIs36(s, t, d);
    } else if !IsTransfer(d.xlat) {
      NothingElse(s, t, d);
      RefIsNothing(s, t, d);
    } else if d.xlat == 1 || d.xlat == 3 || d.xlat == 4 || d.xlat == 10 || d.xlat == 11 || d.xlat == 16 {
      MovesAgree(s, t, d);
    } else if d.xlat == 20 || d.xlat == 24 || d.xlat == 25 || d.xlat == 26 || d.xlat == 37 || d.xlat == 44 {
      OthersAgree(s, t, d);
    } else {
      ConversionsAgree(s, t, d);
    }
  }

  lemma RefIs36(s: State, t: Tables, d: Decoded)
    requires Executable(s, t, d) && d.xlat == 36
    ensures RefTransfer(s, t, d) == Plainly(SetFileByte(s, 1, Lo(MakeFlags(t, s.flags))), t, d) && !IsHlt(d)
  {
    hide Plainly, SetFileByte, MakeFlags, Lo;
  }

  lemma RefIsNothing(s: State, t: Tables, d: Decoded)
    requires Executable(s, t, d) && !IsTransfer(d.xlat)
    ensures RefTransfer(s, t, d) == Plainly(s, t, d)
  {
    hide Plainly;
  }

  lemma {:induction false} MovesAgree(s: State, t: Tables, d: Decoded)
    requires ShippedTables(t) && Addressing.WellFormedAddressing(t) && d == DecodeAt(s, t) && DecodedBy(t, d)
    requires Covered(s, d) && Executable(s, t, d)
    requires d.xlat == 1 || d.xlat == 3 || d.xlat == 4 || d.xlat == 10 || d.xlat == 11 || d.xlat == 16
    ensures Perform(s, t, d) == RefTransfer(s, t, d)
  {
    hide ShippedTables, Addressing.WellFormedAddressing, DecodedBy, DecodeAt, Perform, Plainly, RefMovRegImm, RefPopTo,
      RefMovSreg, RefLea, RefMovAcc, RefXchg, Push, RefPush, RegPlace, RmPlace, RefCount, ModeAddress;
    match d.xlat
    case 1 => MovRegImmAgrees(s, t, d);
    case 3 => PushAgrees(s, t, d, s.regs[d.reg4bit]);
    case 4 => PopsRegister(s, t, d);
    case 10 =>
      if !d.wide { MovSregAgrees(s, t, d); }
      else if !d.direction { LeaAgrees(s, t, d); }
      else { PopsOperand(s, t, d); }
    case 11 => MovAccAgrees(s, t, d);
    case _ => XchgAccumulatorAgrees(s, t, d);
  }

  lemma {:induction false} OthersAgree(s: State, t: Tables, d: Decoded)
    requires ShippedTables(t) && DecodedBy(t, d) && Covered(s, d) && Executable(s, t, d)
    requires d.xlat == 20 || d.xlat == 24 || d.xlat == 25 || d.xlat == 26 || d.xlat == 37 || d.xlat == 44
    ensures Perform(s, t, d) == RefTransfer(s, t, d)
  {
    hide ShippedTables, DecodedBy, Perform, Plainly, RefXchg, RefPush, RegPlace, RmPlace, RefCount, ModeAddress,
      RefMovRmImm, RefLoadFar, RefXlat, RefDropped, RefPopped, SetRegs16, Regs16;
    match d.xlat
    case 20 => MovRmImmAgrees(s, t, d);
    case 24 => XchgAgrees(s, t, d);
    case 25 => PushSregAgrees(s, t, d);
    case 26 => PopSregAgrees(s, t, d);
    case 37 => LoadFarAgrees(s, t, d);
    case _ => XlatAgrees(s, t, d);
  }

  lemma {:induction false} ConversionsAgree(s: State, t: Tables, d: Decoded)
    requires ShippedTables(t) && DecodedBy(t, d) && Executable(s, t, d) && Plain(s.flags)
    requires d.xlat == 30 || d.xlat == 31 || d.xlat == 33 || d.xlat == 34 || d.xlat == 35
    ensures Perform(s, t, d) == RefTransfer(s, t, d)
  {
    hide ShippedTables, DecodedBy, Perform, Plainly, RefPush, MakeFlags, SetFlags, RefDropped, RefPopped, SetFileByte,
      FileByte, Bit, Covered, Plain;
    match d.xlat
    case 30 => SignsAgreed(s, t, d);
    case 31 => SignsAgreed(s, t, d);
    case 33 => PushfAgrees(s, t, d);
    case 34 => PopfAgrees(s, t, d);
    case _ => SahfAgrees(s, t, d);
  }
}

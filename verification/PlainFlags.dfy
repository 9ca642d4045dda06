/**
 The reserved bits of FLAGS: no instruction, interrupt or run sets one that the reference cannot
 hold, so every run from a fresh machine keeps FLAGS a word that make_flags can build.
 */
module PlainFlags {
  import opened Words
  import opened Flags
  import opened State
  import opened Strings
  import opened Alu
  import opened Decode
  import opened Execute
  import opened Run
  import opened Ring
  import opened BatchLoop
  import opened AluReference
  import opened StackAgreement
  import InstructionAgreement
  import ArithmeticAgreement
  import StringCompares
  import StringMoves
  import Shift
  import BitShift

  lemma RestPlain(g: Flags, f: Flags)
    requires SameRest(g, f) && Plain(f)
    ensures Plain(g)
  {}

  lemma SetsPlain(f: Flags, v: u32, wide: bool)
    requires Plain(f)
    ensures Plain(SetLogic(f, v, wide)) && Plain(SetSzp(f, v, wide))
  {
    hide Low, SignOf, Parity8, Lo;
  }

  lemma UnpackPlain(w: u16)
    ensures Plain(Unpack(w))
  {
    hide OfWord;
  }

  lemma ComputePlain(op: AluOp, f: Flags, a: u16, b: u16, wide: bool)
    requires Plain(f)
    ensures Plain(Compute(op, f, a, b, wide).flags)
  {
    hide Compute, SameRest;
    InstructionAgreement.ComputeKeepsOthers(op, f, a, b, wide);
    RestPlain(Compute(op, f, a, b, wide).flags, f);
  }

  lemma StepPlain(f: Flags, a: u16, wide: bool)
    requires Plain(f)
    ensures Plain(Inc(f, a, wide).flags) && Plain(Dec(f, a, wide).flags) && Plain(Neg(f, a, wide).flags)
  {
    hide Inc, Dec, Neg, SameRest;
    ArithmeticAgreement.IncDecKeepsOthers(f, a, 0, wide);
    ArithmeticAgreement.IncDecKeepsOthers(f, a, 1, wide);
    InstructionAgreement.NegKeepsOthers(f, a, wide);
    RestPlain(Inc(f, a, wide).flags, f);
    RestPlain(Dec(f, a, wide).flags, f);
    RestPlain(Neg(f, a, wide).flags, f);
  }

  lemma MulPlain(f: Flags, ax: u16, dx: u16, v: u16, wide: bool)
    requires Plain(f) && v <= Mask(wide)
    ensures Plain(Mul(f, ax, dx, v, wide).flags) && Plain(Imul(f, ax, dx, v, wide).flags)
  {
    hide SignOf, Parity8, Lo, Hi, Quot, Times, Times16, Times8, S8, S16, U8, U16, U32;
  }

  lemma DecimalPlain(f: Flags, al: u8)
    requires Plain(f)
    ensures Plain(Daa(f, al).0) && Plain(Das(f, al).0)
  {
    hide SetSzp, Daa, Das;
    var a, b := ArithmeticAgreement.DaaShape(f, al);
    var c, d := ArithmeticAgreement.DasShape(f, al);
    SetsPlain(f.(af := a, cf := b), Daa(f, al).1, false);
    SetsPlain(f.(af := c, cf := d), Das(f, al).1, false);
  }

  lemma RotatePlainly(f: Flags, v: u16, count: u8, wide: bool)
    requires Plain(f)
    ensures Plain(Shift.ExecRol(f, v, count, wide).flags) && Plain(Shift.ExecRor(f, v, count, wide).flags)
  {
    hide Low, SignOf, Bit, Or, Shift.FullCount;
  }

  lemma RotateCarryPlainly(f: Flags, v: u16, count: u8, wide: bool)
    requires Plain(f)
    ensures Plain(Shift.ExecRcl(f, v, count, wide).flags) && Plain(Shift.ExecRcr(f, v, count, wide).flags)
  {
    hide SignOf, Bit, Shift.CarryWord, Shift.CarryOf, Shift.ValueOf, BitShift.RotL;
  }

  lemma SetsShifted(f: Flags, cf: bool, of: bool, v: u32, wide: bool)
    requires Plain(f)
    ensures Plain(SetSzp(f.(cf := cf, of := of), v, wide))
  {
    hide Low, SignOf, Parity8, Lo;
  }

  lemma ShiftPlainly(f: Flags, v: u16, count: u8, wide: bool)
    requires Plain(f)
    ensures Plain(Shift.ExecShl(f, v, count, wide).flags) && Plain(Shift.ExecShr(f, v, count, wide).flags)
  {
    hide Low, SignOf, Bit, SetSzp, Plain, Shift.Sar, Signed, U32, BitShift.Shl, BitShift.Shr;
    if count > 0 {
      var left := Shift.ExecShl(f, v, count, wide).value;
      var cf := count <= Bits(wide) && Bit(v, Bits(wide) - count);
      SetsShifted(f, cf, cf != SignOf(left, wide), left, wide);
      SetsShifted(f, Bit(v, count - 1), SignOf(v, wide), Shift.ExecShr(f, v, count, wide).value, wide);
    }
  }

  lemma ShiftPlainSigned(f: Flags, v: u16, count: u8, wide: bool)
    requires Plain(f) && v <= Mask(wide)
    ensures Plain(Shift.ExecSar(f, v, count, wide).flags)
  {
    hide Low, SignOf, Bit, SetSzp, Plain, Shift.Sar, Signed, U32, BitShift.Shl, BitShift.Shr;
    if count > 0 {
      SetsShifted(f, Shift.Sar(Signed(v, wide), count - 1) % 2 == 1, false, Shift.ExecSar(f, v, count, wide).value, wide);
    }
  }

  lemma ShiftPlain(reg: nat, f: Flags, v: u16, count: u8, wide: bool)
    requires Plain(f) && v <= Mask(wide)
    ensures Plain(Shift.ShiftRotate(reg, f, v, count, wide).flags)
  {
    hide Plain, Shift.ExecRol, Shift.ExecRor, Shift.ExecRcl, Shift.ExecRcr, Shift.ExecShl, Shift.ExecShr, Shift.ExecSar;
    RotatePlainly(f, v, count, wide);
    RotateCarryPlainly(f, v, count, wide);
    ShiftPlainly(f, v, count, wide);
    ShiftPlainSigned(f, v, count, wide);
  }

  /** f.flags is plain again. */
  predicate StaysPlain(s: State, r: State) { Plain(s.flags) ==> Plain(r.flags) }

  // ----- bodies

  lemma WritesKeepFlags(s: State, d: Decoded, v: u16)
    requires AddressInRange(d)
    ensures WriteRm(s, d, v).flags == s.flags && WriteDest(s, d, v).flags == s.flags && WriteReg(s, d, v).flags == s.flags
  {
    hide Store, Lo, Hi, Word;
  }

  lemma StackKeepsFlags(s: State, v: u16)
    ensures Push(s, v).flags == s.flags && Drop(s).flags == s.flags
  {}

  lemma StackFlags()
    ensures forall s: State, v: u16 :: Push(s, v).flags == s.flags
    ensures forall s: State :: Drop(s).flags == s.flags
  {}

  lemma InterruptPlain(s: State, v: u8)
    ensures StaysPlain(s, Interrupt(s, v))
  {
    hide Pack, Write16, Read16, Linear, Add16;
  }

  lemma IntPlain(s: State, d: Decoded, v: u8)
    ensures StaysPlain(s, Int(s, d, v).s)
  {
    hide Interrupt, U16;
    InterruptPlain(s.(ip := NextIp(s, d)), v);
  }

  lemma {:induction false} AluPlain(s: State, d: Decoded, op: nat, imm: u16)
    requires AddressInRange(d)
    ensures StaysPlain(s, AluImm(s, d, op, imm)) && StaysPlain(s, AluReg(s, d, op))
  {
    hide Compute, ReadRm, WriteRm, ReadDest, ReadSrc, WriteDest, And;
    if Plain(s.flags) {
      var src := And(imm, Mask(d.wide));
      var (r, q) := (Compute(AluOpOf(op), s.flags, ReadRm(s, d), src, d.wide),
                     Compute(AluOpOf(op), s.flags, ReadDest(s, d), ReadSrc(s, d), d.wide));
      ComputePlain(AluOpOf(op), s.flags, ReadRm(s, d), src, d.wide);
      ComputePlain(AluOpOf(op), s.flags, ReadDest(s, d), ReadSrc(s, d), d.wide);
      WritesKeepFlags(s.(flags := r.flags), d, r.value);
      WritesKeepFlags(s.(flags := q.flags), d, q.value);
      WritesKeepFlags(s, d, src);
      WritesKeepFlags(s, d, ReadSrc(s, d));
    }
  }

  lemma {:induction false} IncDecPlain(s: State, d: Decoded, dec: bool)
    requires AddressInRange(d)
    ensures StaysPlain(s, IncDec(s, d, dec))
  {
    hide Inc, Dec, ReadRm, WriteRm;
    if Plain(s.flags) {
      StepPlain(s.flags, ReadRm(s, d), d.wide);
      var r := if dec then Dec(s.flags, ReadRm(s, d), d.wide) else Inc(s.flags, ReadRm(s, d), d.wide);
      WritesKeepFlags(s.(flags := r.flags), d, r.value);
    }
  }

  lemma ProductsPlain(s: State, v: u16, wide: bool)
    requires v <= Mask(wide)
    ensures StaysPlain(s, SetProduct(s, Mul(s.flags, s.regs[AX], s.regs[DX], v, wide)))
    ensures StaysPlain(s, SetProduct(s, Imul(s.flags, s.regs[AX], s.regs[DX], v, wide)))
  {
    hide Mul, Imul, Plain;
    if Plain(s.flags) { MulPlain(s.flags, s.regs[AX], s.regs[DX], v, wide); }
  }

  lemma DividePlain(s: State, d: Decoded, q: Quotient)
    ensures StaysPlain(s, Divide(s, d, q).s)
  {
    hide Int, Plain;
    IntPlain(s, d, 0);
  }

  lemma {:induction false} NotNegPlain(s: State, d: Decoded, v: u16)
    requires AddressInRange(d) && v <= Mask(d.wide)
    ensures var r := Neg(s.flags, v, d.wide); StaysPlain(s, WriteRm(s.(flags := r.flags), d, r.value))
    ensures StaysPlain(s, WriteRm(s, d, Mask(d.wide) - v))
  {
    hide Neg, WriteRm, Plain;
    var r := Neg(s.flags, v, d.wide);
    WritesKeepFlags(s.(flags := r.flags), d, r.value);
    WritesKeepFlags(s, d, Mask(d.wide) - v);
    if Plain(s.flags) { StepPlain(s.flags, v, d.wide); }
  }

  lemma {:induction false} GroupF6Plain(s: State, d: Decoded)
    requires AddressInRange(d)
    ensures StaysPlain(s, GroupF6(s, d).s)
  {
    hide SetLogic, Neg, Mul, Imul, Div, Idiv, ReadRm, WriteRm, And, Divide, SetProduct, U8, Plain;
    ReadRmFits(s, d);
    var (v, ax, dx) := (ReadRm(s, d), s.regs[AX], s.regs[DX]);
    ProductsPlain(s, v, d.wide);
    DividePlain(s, d, Div(ax, dx, v, d.wide));
    DividePlain(s, d, Idiv(ax, dx, v, d.wide));
    NotNegPlain(s, d, v);
    if Plain(s.flags) { SetsPlain(s.flags, And(v, And(d.data2, Mask(d.wide))), d.wide); }
  }

  lemma {:induction false} GroupFfPlain(s: State, d: Decoded)
    requires AddressInRange(d)
    ensures StaysPlain(s, GroupFf(s, d).s)
  {
    hide IncDec, ReadRm, Read16, Push, U16;
    IncDecPlain(s, d, false);
    IncDecPlain(s, d, true);
    StackKeepsFlags(s, NextIp(s, d));
    StackKeepsFlags(s, s.sregs[CS]);
    StackKeepsFlags(Push(s, s.sregs[CS]), NextIp(s, d));
    StackKeepsFlags(s, ReadRm(s, d.(wide := true)));
  }

  lemma {:induction false} RotatePlain(s: State, d: Decoded)
    requires AddressInRange(d)
    ensures StaysPlain(s, Rotate(s, d))
  {
    hide Shift.ShiftRotate, ReadRm, WriteRm, Lo;
    ReadRmFits(s, d);
    if Plain(s.flags) {
      var count := if d.extra != 0 then Lo(d.data1) else if d.direction then Lo(s.regs[CX]) else 1;
      var r := Shift.ShiftRotate(d.reg, s.flags, ReadRm(s, d), count, d.wide);
      ShiftPlain(d.reg, s.flags, ReadRm(s, d), count, d.wide);
      WritesKeepFlags(s.(flags := r.flags), d, r.value);
    }
  }

  lemma {:induction false} AdjustPlain(s: State, sub: bool, base: u8)
    ensures StaysPlain(s, AdjustDecimal(s, sub)) && StaysPlain(s, AdjustAscii(s, sub)) && StaysPlain(s, Aad(s, base))
    ensures base != 0 ==> StaysPlain(s, Aam(s, base))
  {
    hide Daa, Das, SetSzp, Lo, Hi, Word, Rem, Add16, Multiple, U8;
    if Plain(s.flags) {
      DecimalPlain(s.flags, Lo(s.regs[AX]));
      SetsPlain(s.flags, U8(Multiple(Hi(s.regs[AX]), base) + Lo(s.regs[AX]) as int), false);
      if base != 0 { SetsPlain(s.flags, Rem(Lo(s.regs[AX]), base), false); }
    }
  }

  lemma {:induction false} TestsPlain(s: State, d: Decoded)
    requires AddressInRange(d) && Plain(s.flags)
    ensures Plain(SetLogic(s.flags, And(ReadDest(s, d), ReadSrc(s, d)), d.wide)) && Plain(AccumulatorTest(s, d).flags)
  {
    hide SetLogic, ReadDest, ReadSrc, Accumulator, And;
    SetsPlain(s.flags, And(ReadDest(s, d), ReadSrc(s, d)), d.wide);
    SetsPlain(s.flags, And(Accumulator(s, d.wide), And(d.data0, Mask(d.wide))), d.wide);
  }

  lemma {:induction false} ArithmeticPlain(s: State, d: Decoded)
    requires AddressInRange(d)
    ensures StaysPlain(s, Arithmetic(s, d).s)
  {
    hide IncDec, GroupFf, GroupF6, AluImm, AluReg, Rotate, SetLogic, ReadDest, ReadSrc, And, AdjustDecimal, AdjustAscii,
      Aam, Aad, AccumulatorTest, Int, SignExtend, Lo, U8;
    IncDecPlain(s, d.(wide := true, mod := 3, rm := d.reg4bit), d.extra != 0);
    GroupFfPlain(s, d);
    GroupF6Plain(s, d);
    AluPlain(s, d.(mod := 3, rm := AX), d.extra, d.data0);
    AluPlain(s, d, d.extra, d.data0);
    AluPlain(s, d, d.reg, if d.direction || !d.wide then SignExtend(Lo(d.data2)) else d.data2);
    RotatePlain(s, d);
    AdjustPlain(s, d.extra != 0, Lo(d.data0));
    IntPlain(s, d, 0);
    if Plain(s.flags) { TestsPlain(s, d); }
  }

  lemma SahfPlain(s: State)
    ensures StaysPlain(s, Sahf(s))
  {
    hide LowByte, HighByte, Hi, BitsOf;
    HighBitsOf(s.flags);
  }

  lemma HighBitsOf(f: Flags)
    ensures BitsOf(HighByte(f)) == ByteBits(f.tf, f.intf, f.df, f.of, f.r12, f.r13, f.r14, f.r15)
  {
    hide ByteOf, BitsOf;
    BitsOfByte(ByteBits(f.tf, f.intf, f.df, f.of, f.r12, f.r13, f.r14, f.r15));
  }

  lemma {:induction false} TransferPlain(s: State, t: Tables, d: Decoded)
    requires AddressInRange(d)
    ensures StaysPlain(s, Transfer(s, t, d).s)
  {
    hide WriteRm, WriteReg, ReadRm, Push, Drop, Top, Pack, Unpack, Store, Load, Linear, Read16, Sahf, LowByte,
      EffectiveSegment, ReadReg, SignExtend, WriteRegister, Lo, Hi, Word, U8, U16;
    SahfPlain(s);
    UnpackPlain(Top(s));
    RegisterKeepsFlags(s, d.reg4bit, d.data0, Rem(Quot(d.opcode, 8), 2) == 1);
    hide Rem, Quot;
    forall t: State, e: Decoded, v: u16 | AddressInRange(e)
      ensures WriteRm(t, e, v).flags == t.flags
    {
      WritesKeepFlags(t, e, v);
    }
    forall t: State, e: Decoded, v: u16 | AddressInRange(e)
      ensures WriteReg(t, e, v).flags == t.flags
    {
      WritesKeepFlags(t, e, v);
    }
    StackFlags();
  }

  lemma RegisterKeepsFlags(s: State, i: u3, v: u16, wide: bool)
    ensures WriteRegister(s, i, v, wide).flags == s.flags
  {
    hide Lo, Hi, Word;
  }

  lemma {:induction false} ControlPlain(s: State, d: Decoded)
    ensures StaysPlain(s, ControlFlow(s, d).s)
  {
    hide Push, Drop, Top, Int, Condition, Unpack, Add16, Rem, Quot, U16, S8, Lo;
    IntPlain(s, d.(length := 1), 3);
    IntPlain(s, d.(length := 1), 4);
    IntPlain(s, d.(length := 2), Lo(d.data0));
    StackFlags();
    forall w: u16
      ensures Plain(Unpack(w))
    {
      UnpackPlain(w);
    }
  }

  lemma ComparePlain(s: State, op: StringOp, wide: bool)
    requires Plain(s.flags)
    ensures Plain(CompareFlags(s, op, wide))
  {
    hide Compute, LeftOperand, RightOperand;
    ComputePlain(CMP, s.flags, LeftOperand(s, op, wide), RightOperand(s, wide), wide);
  }

  lemma PassPlain(s: State, op: StringOp, wide: bool)
    ensures StaysPlain(s, Pass(s, op, wide)) && StaysPlain(s, StringStep(s, op, wide))
  {
    hide CompareFlags, Load, Store, Linear, Add16, Lo, Hi, Word;
    if Plain(s.flags) { ComparePlain(s, op, wide); }
  }

  lemma {:induction false} RepPlain(s: State, op: StringOp, wide: bool)
    ensures StaysPlain(s, Rep(s, op, wide))
    decreases s.regs[CX]
  {
    hide Pass, Plain;
    if s.regs[CX] > 0 {
      PassPlain(s, op, wide);
      PassCountsDown(s, op, wide);
      RepPlain(Pass(s, op, wide), op, wide);
    }
  }

  lemma {:induction false} OtherPlain(s: State, d: Decoded)
    ensures StaysPlain(s, Other(s, d).s)
  {
    hide StringInstruction, In, Out, GetRtc, RepPrefix, SegmentPrefix, SetFlag, Lo, Hi, Word, SRegIndex;
    StringPlain(s, d);
    PortsPlain(s, d);
    SetFlagPlain(s.flags, d.extra);
    ComplementPlain(s.flags, !s.flags.cf);
    hide Plain;
  }

  lemma ComplementPlain(f: Flags, v: bool)
    ensures Plain(f) ==> Plain(f.(cf := v))
  {}

  lemma {:induction false} StringPlain(s: State, d: Decoded)
    ensures StaysPlain(s, StringInstruction(s, d))
  {
    hide Rep, StringStep, StringOpOf, Plain;
    var op := StringOpOf(d.opcode);
    if op != [] {
      RepPlain(s, op[0], d.wide);
      PassPlain(s, op[0], d.wide);
    }
  }

  lemma PortsPlain(s: State, d: Decoded)
    ensures In(s, d).flags == s.flags && Out(s, d).flags == s.flags && GetRtc(s).flags == s.flags
  {
    hide Xor8, Or8, Zeroes, Linear, Lo, Hi, Word, U8, Rem, Quot, PortOf, PortAfter;
  }

  lemma OneFlagPlain(f: Flags, v: bool)
    requires Plain(f)
    ensures Plain(f.(cf := v)) && Plain(f.(pf := v)) && Plain(f.(af := v)) && Plain(f.(zf := v)) && Plain(f.(sf := v))
    ensures Plain(f.(tf := v)) && Plain(f.(intf := v)) && Plain(f.(df := v)) && Plain(f.(of := v))
  {}

  lemma SetFlagPlain(f: Flags, e: u8)
    ensures Plain(f) ==> Plain(SetFlag(f, e))
  {
    hide Rem, Quot, Plain;
    if Plain(f) { OneFlagPlain(f, Rem(e, 2) == 1); }
  }

  // ----- steps and runs

  lemma {:induction false} PerformPlain(s: State, t: Tables, d: Decoded)
    requires AddressInRange(d)
    ensures StaysPlain(s, Perform(s, t, d))
  {
    hide Arithmetic, Transfer, ControlFlow, Other, Plain, U16;
    ArithmeticPlain(s, d);
    TransferPlain(s, t, d);
    ControlPlain(s, d);
    OtherPlain(s, d);
  }

  lemma CountAndTrapPlain(s: State)
    ensures StaysPlain(s, CountAndTrap(s))
  {
    hide Interrupt, U64, Plain;
    InterruptPlain(s.(instCount := U64(s.instCount as int + 1)), 1);
  }

  lemma TimerPlain(m: Machine)
    ensures StaysPlain(m.s, TakeTimer(m).s)
  {
    hide Interrupt, Plain, Read;
    InterruptPlain(m.s, 0xA);
    var t := Interrupt(m.s, 0xA).(int8Asap := 0);
    match Read(m.consoleIn)
    case Empty =>
    case Got(ring, key) =>
      InterruptPlain(t.(mem := t.mem[0x4A6 := key], int8Asap := if key == 0x1B then 1 else t.int8Asap), 7);
  }

  lemma {:induction false} StepPlainly(m: Machine, t: Tables)
    ensures StaysPlain(m.s, StepBody(m, t).s)
  {
    hide Perform, CountAndTrap, TakeTimer, DecodeAt, Echo, Plain;
    var s := CountDown(m.s);
    var d := DecodeAt(s, t);
    DecodedInRange(s, t);
    PerformPlain(s, t, d);
    CountAndTrapPlain(Perform(s, t, d));
    TimerPlain(Machine(Tick(CountAndTrap(Perform(s, t, d))), m.consoleIn, Echo(m.consoleOut, s, d)));
  }

  lemma {:induction false} PassPlainly(m: Machine, t: Tables)
    ensures StaysPlain(m.s, OnePass(m, t).m.s)
  {
    hide StepBody, OutputWaiting, Plain, Interrupt;
    InterruptPlain(m.s, m.s.ctl.intVector);
    StepPlainly(m.(s := TakeHardware(m.s)), t);
  }

  /** Every run keeps the reserved bits 3, 5 and 12 to 15 clear. */
  lemma {:induction false} RunPlain(m: Machine, t: Tables, budget: u32, cycles: u32)
    requires budget <= LARGEST && Plain(m.s.flags)
    ensures Plain(RunFrom(m, t, budget, cycles).m.s.flags)
  {
    hide OnePass, Loop, Plain;
    forall x: Machine | Plain(x.s.flags)
      ensures Plain(Turns(t)(x).m.s.flags)
    {
      PassPlainly(x, t);
    }
    LoopKeeps(Turns(t), (x: Machine) => Plain(x.s.flags), m, budget, cycles);
  }
}

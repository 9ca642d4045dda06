/**
 What instruction bodies leave alone: the prefix countdowns change only in prefixes
 and in LEA, and the control fields, the timer latch and the instruction counter
 only where run.c itself changes them (HLT sets `halted`).
 */
module Frames {
  import opened Words
  import opened Flags
  import opened State
  import opened Alu
  import opened Strings
  import opened Decode
  import opened Execute

  /** r agrees with s on everything that is not registers, memory, flags, ports or devices. */
  predicate Kept(s: State, r: State) {
    r.prefix == s.prefix && r.ctl == s.ctl && r.instCount == s.instCount && r.int8Asap == s.int8Asap
  }

  lemma WriteRmKeeps(s: State, d: Decoded, v: u16)
    requires AddressInRange(d)
    ensures Kept(s, WriteRm(s, d, v))
  {}

  lemma PushKeeps(s: State, v: u16)
    ensures Kept(s, Push(s, v))
  {}

  lemma DropKeeps(s: State)
    ensures Kept(s, Drop(s))
  {}

  lemma InterruptKeeps(s: State, v: u8)
    ensures Kept(s, Interrupt(s, v))
  {
    hide Pack, Write16, Linear;
  }

  lemma IntKeeps(s: State, d: Decoded, v: u8)
    ensures Kept(s, Int(s, d, v).s)
  {}

  lemma StringStepKeeps(s: State, op: StringOp, wide: bool)
    ensures Kept(s, StringStep(s, op, wide))
  {
    hide Strings.CompareFlags, Load, Store, Linear, Add16;
  }

  lemma {:induction false} RepKeeps(s: State, op: StringOp, wide: bool)
    ensures Kept(s, Rep(s, op, wide))
    decreases s.regs[CX]
  {
    if s.regs[CX] > 0 {
      hide StringStep;
      PassCountsDown(s, op, wide);
      StringStepKeeps(s, op, wide);
      var t := Pass(s, op, wide);
      assert Kept(s, t);
      RepKeeps(t, op, wide);
    }
  }

  lemma {:induction false} StringInstructionKeeps(s: State, d: Decoded)
    ensures Kept(s, StringInstruction(s, d))
  {
    hide Rep, StringStep, StringOpOf;
    var op := StringOpOf(d.opcode);
    if op != [] {
      RepKeeps(s, op[0], d.wide);
      StringStepKeeps(s, op[0], d.wide);
    }
  }

  lemma {:induction false} AluKeeps(s: State, d: Decoded, op: nat, imm: u16)
    requires AddressInRange(d)
    ensures Kept(s, AluImm(s, d, op, imm)) && Kept(s, AluReg(s, d, op))
  {}

  lemma {:induction false} IncDecKeeps(s: State, d: Decoded, dec: bool)
    requires AddressInRange(d)
    ensures Kept(s, IncDec(s, d, dec))
  {}

  lemma DivideKeeps(s: State, d: Decoded, q: Quotient)
    ensures Kept(s, Divide(s, d, q).s)
  {}

  lemma ProductKeeps(s: State, p: Product)
    ensures Kept(s, SetProduct(s, p))
  {}

  lemma FlagsThenRmKeeps(s: State, d: Decoded, f: Flags, v: u16)
    requires AddressInRange(d)
    ensures Kept(s, s) && Kept(s, s.(flags := f)) && Kept(s, WriteRm(s.(flags := f), d, v))
  {}

  lemma {:induction false} GroupF6Keeps(s: State, d: Decoded)
    requires AddressInRange(d)
    ensures Kept(s, GroupF6(s, d).s)
  {
    ReadRmFits(s, d);
    hide Mul, Imul, Div, Idiv, Neg, SetLogic, And, ReadRm, WriteRm, Divide, SetProduct, Mask, U8, Kept;
    var v, ax, dx := ReadRm(s, d), s.regs[AX], s.regs[DX];
    match d.reg
    case 0 => FlagsThenRmKeeps(s, d, SetLogic(s.flags, And(v, And(d.data2, Mask(d.wide))), d.wide), v);
    case 2 => WriteRmKeeps(s, d, Mask(d.wide) - v);
    case 3 => FlagsThenRmKeeps(s, d, Neg(s.flags, v, d.wide).flags, Neg(s.flags, v, d.wide).value);
    case 4 => ProductKeeps(s, Mul(s.flags, ax, dx, v, d.wide));
    case 5 => ProductKeeps(s, Imul(s.flags, ax, dx, v, d.wide));
    case 6 => DivideKeeps(s, d, Div(ax, dx, v, d.wide));
    case 7 => DivideKeeps(s, d, Idiv(ax, dx, v, d.wide));
    case _ => FlagsThenRmKeeps(s, d, s.flags, v);
  }

  lemma {:induction false} GroupFfKeeps(s: State, d: Decoded)
    requires AddressInRange(d)
    ensures Kept(s, GroupFf(s, d).s)
  {
    hide IncDec, ReadRm, Push, Read16;
    IncDecKeeps(s, d, false);
    IncDecKeeps(s, d, true);
    PushKeeps(s, NextIp(s, d));
    PushKeeps(s, s.sregs[CS]);
    PushKeeps(Push(s, s.sregs[CS]), NextIp(s, d));
    PushKeeps(s, ReadRm(s, d.(wide := true)));
  }

  lemma {:induction false} RotateKeeps(s: State, d: Decoded)
    requires AddressInRange(d)
    ensures Kept(s, Rotate(s, d))
  {}

  lemma {:induction false} ArithmeticKeeps(s: State, t: Tables, d: Decoded)
    requires AddressInRange(d)
    ensures Kept(s, Arithmetic(s, d).s)
  {
    hide IncDec, GroupFf, GroupF6, AluImm, AluReg, Rotate, SetLogic, ReadDest, ReadSrc, And, Daa, Das, SetSzp,
      Int, SignExtend;
    IncDecKeeps(s, d.(wide := true, mod := 3, rm := d.reg4bit), d.extra != 0);
    GroupFfKeeps(s, d);
    GroupF6Keeps(s, d);
    AluKeeps(s, d.(mod := 3, rm := AX), d.extra, d.data0);
    AluKeeps(s, d, d.extra, d.data0);
    AluKeeps(s, d, d.reg, if d.direction || !d.wide then SignExtend(Lo(d.data2)) else d.data2);
    RotateKeeps(s, d);
    IntKeeps(s, d, 0);
  }

  lemma {:induction false} TransferKeeps(s: State, t: Tables, d: Decoded)
    requires AddressInRange(d)
    ensures var r := Transfer(s, t, d).s;
      if d.xlat == 10 && d.wide && !d.direction
      then r.prefix == s.prefix.(segEn := 1) && Kept(s, r.(prefix := s.prefix))
      else Kept(s, r)
  {
    hide WriteRm, ReadRm, Push, Drop, Top, Pack, Unpack, Store, Load, Linear, Read16, OfBytes, LowByte, HighByte,
      EffectiveSegment, ReadReg, SignExtend;
    DropKeeps(s);
    forall t: State, e: Decoded, v: u16 | AddressInRange(e)
      ensures Kept(t, WriteRm(t, e, v)) && Kept(t, Push(t, v))
    {
      WriteRmKeeps(t, e, v);
      PushKeeps(t, v);
    }
  }

  lemma {:induction false} ControlKeeps(s: State, d: Decoded)
    ensures Kept(s, ControlFlow(s, d).s)
  {
    hide Push, Iret, Int, Condition, Returns, JumpOrCall;
    IntKeeps(s, d.(length := 1), 3);
    IntKeeps(s, d.(length := 1), 4);
    IntKeeps(s, d.(length := 2), Lo(d.data0));
    PushKeeps(s, s.sregs[CS]);
    PushKeeps(Push(s, s.sregs[CS]), NextIp(s, d));
    ReturnsKeep(s, d);
    JumpOrCallKeeps(s, d);
  }

  lemma {:induction false} ReturnsKeep(s: State, d: Decoded)
    ensures Kept(s, Returns(s, d).s)
  {}

  lemma {:induction false} JumpOrCallKeeps(s: State, d: Decoded)
    ensures Kept(s, JumpOrCall(s, d).s)
  {}

  lemma PortsKeep(s: State, d: Decoded)
    ensures Kept(s, In(s, d)) && Kept(s, Out(s, d)) && Kept(s, GetRtc(s))
  {
    hide Xor8, Or8, Zeroes, Linear;
  }

  /** The decoded instruction is LEA. */
  predicate IsLea(d: Decoded) { d.xlat == 10 && d.wide && !d.direction }

  /** The prefix state after any instruction body. */
  function PrefixAfter(p: Prefix, d: Decoded): Prefix {
    if d.xlat == 23 then RepPrefix(p, d.wide)
    else if d.xlat == 27 then SegmentPrefix(p, SRegIndex(d))
    else if IsLea(d) then p.(segEn := 1)
    else p
  }

  /** For every state, table and instruction: what a body does to the prefix state and to
      the fields that the run loop owns. */
  lemma {:induction false} BodyKeeps(s: State, t: Tables, d: Decoded)
    requires AddressInRange(d)
    ensures var r := Body(s, t, d).s;
      && r.prefix == PrefixAfter(s.prefix, d)
      && r.ctl == (if d.xlat == 53 && d.opcode == 0xF4 then s.ctl.(halted := 1) else s.ctl)
      && r.instCount == s.instCount && r.int8Asap == s.int8Asap
  {
    hide Arithmetic, Transfer, ControlFlow, RepPrefix, SegmentPrefix, StringInstruction, In, Out, GetRtc, SetFlag,
      SRegIndex;
    ArithmeticKeeps(s, t, d);
    TransferKeeps(s, t, d);
    ControlKeeps(s, d);
    StringInstructionKeeps(s, d);
    PortsKeep(s, d);
  }
}

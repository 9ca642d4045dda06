/**
 Instruction execution on the machine object (run.c and the opcode headers): each method
 changes the machine in place and equals its function of module Execute.
 */
module ExecuteUnit {
  import opened Words
  import opened Flags
  import opened State
  import opened Alu
  import opened Strings
  import opened Decode
  import opened Execute
  import opened Emulator
  import opened Accessors
  import opened StringUnit
  import Shift

  // ----- arithmetic

  method ExecAluImm(e: Emu86State, d: Decoded, op: nat, imm: u16)
    requires e.Valid() && AddressInRange(d)
    modifies e, e.mem
    ensures e.View() == AluImm(old(e.View()), d, op, imm)
  {
    hide Compute, ReadRm, WriteRm, And;
    if op > 8 { return; }
    var src := And(imm, Mask(d.wide));
    if op == 8 {
      PutRm(e, d, src);
    } else {
      var dest := GetRm(e, d);
      var r := Compute(AluOpOf(op), e.flags, dest, src, d.wide);
      e.SetFlags(r.flags);
      if r.writes { PutRm(e, d, r.value); }
    }
  }

  method ExecAluReg(e: Emu86State, d: Decoded, op: nat)
    requires e.Valid() && AddressInRange(d)
    modifies e, e.mem
    ensures e.View() == AluReg(old(e.View()), d, op)
  {
    hide Compute, ReadDest, ReadSrc, WriteDest;
    if op > 8 { return; }
    var src := GetSrc(e, d);
    if op == 8 {
      PutDest(e, d, src);
    } else {
      var dest := GetDest(e, d);
      var r := Compute(AluOpOf(op), e.flags, dest, src, d.wide);
      e.SetFlags(r.flags);
      if r.writes { PutDest(e, d, r.value); }
    }
  }

  method ExecIncDec(e: Emu86State, d: Decoded, dec: bool)
    requires e.Valid() && AddressInRange(d)
    modifies e, e.mem
    ensures e.View() == IncDec(old(e.View()), d, dec)
  {
    hide Alu.Inc, Alu.Dec, ReadRm, WriteRm;
    var dest := GetRm(e, d);
    var r := if dec then Dec(e.flags, dest, d.wide) else Inc(e.flags, dest, d.wide);
    e.SetFlags(r.flags);
    PutRm(e, d, r.value);
  }

  /** IP moves to the next instruction, which the interrupt then pushes. */
  method Interrupts(e: Emu86State, d: Decoded, vector: u8) returns (jumped: bool, length: u8)
    requires e.Valid()
    modifies e, e.mem
    ensures Outcome(e.View(), jumped, length) == Int(old(e.View()), d, vector)
  {
    hide Interrupt;
    e.SetIp(U16(e.ip as int + d.length as int));
    e.PcInterrupt(vector);
    jumped, length := true, 0;
  }

  method ExecMultiply(e: Emu86State, p: Product)
    requires e.Valid()
    modifies e
    ensures e.View() == SetProduct(old(e.View()), p)
  {
    e.SetRegister(AX, p.ax);
    e.SetRegister(DX, p.dx);
    e.SetFlags(p.flags);
  }

  /** exec_div and exec_idiv, and the divide error that run.c raises for them. */
  method ExecDivide(e: Emu86State, d: Decoded, q: Quotient) returns (jumped: bool, length: u8)
    requires e.Valid()
    modifies e, e.mem
    ensures Outcome(e.View(), jumped, length) == Divide(old(e.View()), d, q)
  {
    hide Int;
    if q.DivideError? {
      jumped, length := Interrupts(e, d, 0);
    } else {
      e.SetRegister(AX, q.ax);
      e.SetRegister(DX, q.dx);
      jumped, length := false, d.length;
    }
  }

  method ExecGroupF6(e: Emu86State, d: Decoded) returns (jumped: bool, length: u8)
    requires e.Valid() && AddressInRange(d)
    modifies e, e.mem
    ensures Outcome(e.View(), jumped, length) == GroupF6(old(e.View()), d)
  {
    ReadRmFits(e.View(), d);
    hide Mul, Imul, Div, Idiv, Neg, SetLogic, And, ReadRm, WriteRm, Divide, SetProduct, Mask, U8;
    var v := GetRm(e, d);
    jumped, length := false, d.length;
    match d.reg
    case 0 =>
      e.SetFlags(SetLogic(e.flags, And(v, And(d.data2, Mask(d.wide))), d.wide));
      length := U8(d.length as int + (if d.wide then 2 else 1));
    case 2 => PutRm(e, d, Mask(d.wide) - v);
    case 3 =>
      var r := Neg(e.flags, v, d.wide);
      e.SetFlags(r.flags);
      PutRm(e, d, r.value);
    case 4 => ExecMultiply(e, Mul(e.flags, e.regs[AX], e.regs[DX], v, d.wide));
    case 5 => ExecMultiply(e, Imul(e.flags, e.regs[AX], e.regs[DX], v, d.wide));
    case 6 => jumped, length := ExecDivide(e, d, Div(e.regs[AX], e.regs[DX], v, d.wide));
    case 7 => jumped, length := ExecDivide(e, d, Idiv(e.regs[AX], e.regs[DX], v, d.wide));
    case _ =>
  }

  method ExecFarJump(e: Emu86State, d: Decoded)
    requires e.Valid() && AddressInRange(d)
    modifies e
    ensures e.View() == FarJump(old(e.View()), d)
  {
    hide Read16;
    var target := e.MemRead16(d.rmAddr);
    var segment := e.MemRead16(d.rmAddr + 2);
    e.SetIp(target);
    e.SetSegment(CS, segment);
  }

  method ExecGroupFf(e: Emu86State, d: Decoded) returns (jumped: bool, length: u8)
    requires e.Valid() && AddressInRange(d)
    modifies e, e.mem
    ensures Outcome(e.View(), jumped, length) == GroupFf(old(e.View()), d)
  {
    hide IncDec, ReadRm, Push, FarJump, U16;
    var d16 := d.(wide := true);
    var next := U16(e.ip as int + d.length as int);
    jumped, length := false, d.length;
    match d.reg
    case 0 => ExecIncDec(e, d, false);
    case 1 => ExecIncDec(e, d, true);
    case 2 =>
      e.StackPush(next);
      var target := GetRm(e, d16);
      e.SetIp(target);
      jumped, length := true, 0;
    case 3 =>
      e.StackPush(e.sregs[CS]);
      e.StackPush(next);
      ExecFarJump(e, d);
      jumped, length := true, 0;
    case 4 =>
      var target := GetRm(e, d16);
      e.SetIp(target);
      jumped, length := true, 0;
    case 5 =>
      ExecFarJump(e, d);
      jumped, length := true, 0;
    case 6 =>
      var v := GetRm(e, d16);
      e.StackPush(v);
    case _ =>
  }

  method ExecAluRmImm(e: Emu86State, d: Decoded) returns (jumped: bool, length: u8)
    requires e.Valid() && AddressInRange(d)
    modifies e, e.mem
    ensures Outcome(e.View(), jumped, length) == AluRmImm(old(e.View()), d)
  {
    hide AluImm, SignExtend, U8;
    jumped, length := false, U8(d.length as int - (if d.wide then 2 else 1));
    if d.direction || !d.wide {
      ExecAluImm(e, d, d.reg, SignExtend(Lo(d.data2)));
      length := U8(d.length as int + 1 - (if d.wide then 2 else 1));
    } else {
      ExecAluImm(e, d, d.reg, d.data2);
      length := U8(d.length as int + 2 - (if d.wide then 2 else 1));
    }
  }

  method ExecAdjustDecimal(e: Emu86State, sub: bool)
    requires e.Valid()
    modifies e
    ensures e.View() == AdjustDecimal(old(e.View()), sub)
  {
    hide Daa, Das;
    var r := if sub then Das(e.flags, Lo(e.regs[AX])) else Daa(e.flags, Lo(e.regs[AX]));
    e.SetRegister(AX, Word(r.1, Hi(e.regs[AX])));
    e.SetFlags(r.0);
  }

  method ExecAdjustAscii(e: Emu86State, sub: bool)
    requires e.Valid()
    modifies e
    ensures e.View() == AdjustAscii(old(e.View()), sub)
  {
    hide Add16;
    var adjust := Rem(Lo(e.regs[AX]), 0x10) > 9 || e.flags.af;
    if adjust {
      e.SetRegister(AX, Add16(e.regs[AX], if sub then -0x106 else 0x106));
    }
    e.SetFlags(e.flags.(af := adjust, cf := adjust));
    e.SetRegister(AX, Word(Rem(Lo(e.regs[AX]), 0x10), Hi(e.regs[AX])));
  }

  method ExecAam(e: Emu86State, base: u8)
    requires e.Valid() && base != 0
    modifies e
    ensures e.View() == Aam(old(e.View()), base)
  {
    hide SetSzp;
    var al := Lo(e.regs[AX]);
    QuotRemIs(al, base);
    e.SetRegister(AX, Word(al % base, al / base));
    e.SetFlags(SetSzp(e.flags, al % base, false));
  }

  method ExecAad(e: Emu86State, base: u8)
    requires e.Valid()
    modifies e
    ensures e.View() == Aad(old(e.View()), base)
  {
    hide SetSzp;
    MultipleIs(Hi(e.regs[AX]), base);
    var al := U8(Hi(e.regs[AX]) as int * base as int + Lo(e.regs[AX]) as int);
    e.SetRegister(AX, al);
    e.SetFlags(SetSzp(e.flags, al, false));
  }

  /** Shifts and rotates; RCL and RCR run their bit-at-a-time loops. */
  method ExecRotate(e: Emu86State, d: Decoded)
    requires e.Valid() && AddressInRange(d)
    modifies e, e.mem
    ensures e.View() == Rotate(old(e.View()), d)
  {
    ReadRmFits(e.View(), d);
    hide Shift.ExecRcl, Shift.ExecRcr, Shift.ExecRol, Shift.ExecRor, Shift.ExecShl, Shift.ExecShr, Shift.ExecSar,
      ReadRm, WriteRm;
    var count := if d.extra != 0 then Lo(d.data1) else if d.direction then Lo(e.regs[CX]) else 1;
    if count == 0 { return; }
    var v := GetRm(e, d);
    var r := Shift.ShiftRotate(d.reg, e.flags, v, count, d.wide);
    if d.reg == 2 {
      r := Shift.RotateCarryLeft(e.flags, v, count, d.wide);
    } else if d.reg == 3 {
      r := Shift.RotateCarryRight(e.flags, v, count, d.wide);
    }
    e.SetFlags(r.flags);
    PutRm(e, d, r.value);
  }

  method ExecArithmetic(e: Emu86State, d: Decoded) returns (jumped: bool, length: u8)
    requires e.Valid() && AddressInRange(d)
    modifies e, e.mem
    ensures Outcome(e.View(), jumped, length) == Arithmetic(old(e.View()), d)
  {
    hide IncDec, GroupFf, GroupF6, AluImm, AluReg, Rotate, SetLogic, ReadDest, ReadSrc, And, AdjustDecimal,
      AdjustAscii, Aam, Aad, Int, AluRmImm;
    jumped, length := false, d.length;
    match d.xlat
    case 2 => ExecIncDec(e, d.(wide := true, mod := 3, rm := d.reg4bit), d.extra != 0);
    case 5 => jumped, length := ExecGroupFf(e, d);
    case 6 => jumped, length := ExecGroupF6(e, d);
    case 7 => ExecAluImm(e, d.(mod := 3, rm := AX), d.extra, d.data0);
    case 8 => jumped, length := ExecAluRmImm(e, d);
    case 9 => ExecAluReg(e, d, d.extra);
    case 12 => ExecRotate(e, d);
    case 15 =>
      var dest := GetDest(e, d);
      var src := GetSrc(e, d);
      e.SetFlags(SetLogic(e.flags, And(dest, src), d.wide));
    case 28 => ExecAdjustDecimal(e, d.extra != 0);
    case 29 => ExecAdjustAscii(e, d.extra != 0);
    case 41 =>
      if Lo(d.data0) == 0 {
        jumped, length := Interrupts(e, d, 0);
      } else {
        ExecAam(e, Lo(d.data0));
      }
    case 42 => ExecAad(e, Lo(d.data0));
    case 47 =>
      var acc := if d.wide then e.regs[AX] else Lo(e.regs[AX]);
      e.SetFlags(SetLogic(e.flags, And(acc, And(d.data0, Mask(d.wide))), d.wide));
    case _ =>
  }

  // ----- data transfer

  method ExecMovSreg(e: Emu86State, d: Decoded)
    requires e.Valid() && AddressInRange(d)
    modifies e, e.mem
    ensures e.View() == MovSreg(old(e.View()), d)
  {
    hide ReadRm, WriteRm;
    var d16 := d.(wide := true);
    if d.direction {
      var v := GetRm(e, d16);
      if d.reg < 4 { e.SetSegment(d.reg, v); }
    } else {
      var v := GetSegment(e, d.reg);
      PutRm(e, d16, v);
    }
  }

  method ExecLea(e: Emu86State, t: Tables, d: Decoded)
    requires e.Valid()
    modifies e
    ensures e.View() == Lea(old(e.View()), t, d)
  {
    hide EffectiveSegment, U16;
    if d.mod < 3 {
      var seg := GetEffectiveSegment(e, t, d.mod, d.rm);
      e.SetRegister(d.reg, U16(d.rmAddr as int - 0x10 * seg as int));
    }
    e.SetPrefix(e.prefix.(segEn := 1));
  }

  method ExecPopRm(e: Emu86State, d: Decoded)
    requires e.Valid() && AddressInRange(d)
    modifies e, e.mem
    ensures e.View() == WriteRm(Drop(old(e.View())), d.(wide := true), Top(old(e.View())))
  {
    hide WriteRm, Drop, Top;
    var v := e.StackPop();
    PutRm(e, d.(wide := true), v);
  }

  method ExecMoffs(e: Emu86State, d: Decoded)
    requires e.Valid()
    modifies e, e.mem
    ensures var s := old(e.View());
      e.View() == if d.direction then s.(mem := Store(s.mem, MoffsAddress(s, d), s.regs[AX], d.wide))
                  else SetAccumulator(s, Load(s.mem, MoffsAddress(s, d), d.wide), d.wide)
  {
    hide Store, Load, SourceSegment;
    var seg := GetSourceSegment(e);
    if d.direction {
      MemWrite(e, Linear(seg, d.data0), e.regs[AX], d.wide);
    } else {
      var v := MemRead(e, Linear(seg, d.data0), d.wide);
      e.SetRegister(AX, if d.wide then v else Word(Lo(v), Hi(e.regs[AX])));
    }
  }

  method ExecXchg(e: Emu86State, d: Decoded)
    requires e.Valid() && AddressInRange(d)
    modifies e, e.mem
    ensures e.View() == Xchg(old(e.View()), d)
  {
    hide ReadRm, WriteRm, ReadRegister, WriteRegister;
    var rm := GetRm(e, d);
    var reg := GetRegister(e, d.reg, d.wide);
    PutRm(e, d, reg);
    PutRegister(e, d.reg, rm, d.wide);
  }

  method ExecLoadFar(e: Emu86State, d: Decoded)
    requires e.Valid() && AddressInRange(d)
    modifies e
    ensures e.View() == LoadFar(old(e.View()), d)
  {
    hide Read16;
    var offset := e.MemRead16(d.rmAddr);
    var segment := e.MemRead16(d.rmAddr + 2);
    e.SetRegister(d.reg, offset);
    e.SetSegment(if Rem(d.opcode, 2) == 0 then ES else DS, segment);
  }

  method ExecPopSreg(e: Emu86State, i: nat)
    requires e.Valid()
    modifies e
    ensures e.View() == PopSreg(old(e.View()), i)
  {
    hide Top, Drop;
    var v := e.StackPop();
    if i < 4 { e.SetSegment(i, v); }
  }

  method ExecXlat(e: Emu86State)
    requires e.Valid()
    modifies e
    ensures e.View() == Xlat(old(e.View()))
  {
    hide SourceSegment, Linear;
    var seg := GetSourceSegment(e);
    e.SetRegister(AX, Word(e.mem[Linear(seg, Add16(e.regs[BX], Lo(e.regs[AX])))], Hi(e.regs[AX])));
  }

  method ExecMovRegImm(e: Emu86State, t: Tables, d: Decoded) returns (jumped: bool, length: u8)
    requires e.Valid()
    modifies e
    ensures Outcome(e.View(), jumped, length) == MovRegImm(old(e.View()), t, d)
  {
    hide WriteRegister, At, ImmediateSize, U8;
    var wide := Rem(Quot(d.opcode, 8), 2) == 1;
    PutRegister(e, d.reg4bit, d.data0, wide);
    jumped := false;
    length := U8(At(t, BASE_INST_SIZE, d.opcode) as int + ImmediateSize(t, d.opcode, wide) as int);
  }

  method ExecTransfer(e: Emu86State, t: Tables, d: Decoded) returns (jumped: bool, length: u8)
    requires e.Valid() && AddressInRange(d)
    modifies e, e.mem
    ensures Outcome(e.View(), jumped, length) == Transfer(old(e.View()), t, d)
  {
    hide WriteRm, ReadRm, Push, Drop, Top, Pack, Unpack, Store, Load, MoffsAddress, OfBytes, LowByte, HighByte,
      MovSreg, Lea,
      Xchg, PopSreg, LoadFar, Xlat, MovRegImm, SignExtend, SetAccumulator, SRegAt, SRegIndex;
    jumped, length := false, d.length;
    match d.xlat
    case 1 => jumped, length := ExecMovRegImm(e, t, d);
    case 3 => e.StackPush(e.regs[d.reg4bit]);
    case 4 =>
      var v := e.StackPop();
      e.SetRegister(d.reg4bit, v);
    case 10 =>
      if !d.wide {
        ExecMovSreg(e, d);
      } else if !d.direction {
        ExecLea(e, t, d);
      } else {
        ExecPopRm(e, d);
      }
    case 11 => ExecMoffs(e, d);
    case 16 =>
      var ax := e.regs[AX];
      e.SetRegister(AX, e.regs[d.reg4bit]);
      e.SetRegister(d.reg4bit, ax);
    case 20 => PutRm(e, d, d.data2);
    case 24 => ExecXchg(e, d);
    case 25 =>
      var v := GetSegment(e, SRegIndex(d));
      e.StackPush(v);
    case 26 => ExecPopSreg(e, SRegIndex(d));
    case 30 => e.SetRegister(AX, SignExtend(Lo(e.regs[AX])));
    case 31 => e.SetRegister(DX, if e.regs[AX] >= 0x8000 then 0xFFFF else 0);
    case 33 => e.StackPush(Pack(e.flags));
    case 34 =>
      var word := e.StackPop();
      e.SetFlags(Unpack(word));
    case 35 =>
      var f := OfBytes(Hi(e.regs[AX]), HighByte(e.flags));
      e.SetFlags(f.(r1 := true, r3 := false, r5 := false));
    case 36 => e.SetRegister(AX, Word(Lo(e.regs[AX]), LowByte(e.flags)));
    case 37 => ExecLoadFar(e, d);
    case 44 => ExecXlat(e);
    case _ =>
  }

  // ----- control flow

  method ExecJumpShort(e: Emu86State, d: Decoded) returns (jumped: bool, length: u8)
    requires e.Valid()
    modifies e
    ensures Outcome(e.View(), jumped, length) == JumpShort(old(e.View()), d)
  {
    e.SetIp(U16(e.ip as int + d.length as int + S8(Lo(d.data0))));
    jumped, length := true, 0;
  }

  method ExecLoops(e: Emu86State, d: Decoded) returns (jumped: bool, length: u8)
    requires e.Valid()
    modifies e
    ensures Outcome(e.View(), jumped, length) == Loops(old(e.View()), d)
  {
    hide JumpShort, Add16;
    jumped, length := false, d.length;
    if d.reg4bit > 3 { return; }
    var taken: bool;
    if d.reg4bit == 3 {
      taken := e.regs[CX] == 0;
    } else {
      e.SetRegister(CX, Add16(e.regs[CX], -1));
      taken := e.regs[CX] != 0 && (d.reg4bit == 0 ==> !e.flags.zf) && (d.reg4bit == 1 ==> e.flags.zf);
    }
    if taken { jumped, length := ExecJumpShort(e, d); }
  }

  method ExecJumpOrCall(e: Emu86State, d0: Decoded) returns (jumped: bool, length: u8)
    requires e.Valid()
    modifies e, e.mem
    ensures Outcome(e.View(), jumped, length) == JumpOrCall(old(e.View()), d0)
  {
    hide Push, JumpShort, Add16, U16;
    var d := d0.(length := if d0.direction then 2 else 3);
    var next := U16(e.ip as int + d.length as int);
    jumped, length := true, 0;
    if d.direction && d.wide {
      jumped, length := ExecJumpShort(e, d);
    } else if !d.direction && !d.wide {
      e.StackPush(next);
      e.SetIp(Add16(next, d.data0));
    } else if !d.direction {
      e.SetIp(Add16(next, d.data0));
    } else {
      e.SetIp(d.data0);
      e.SetSegment(CS, d.data2);
    }
  }

  method ExecReturns(e: Emu86State, d: Decoded) returns (jumped: bool, length: u8)
    requires e.Valid()
    modifies e, e.mem
    ensures Outcome(e.View(), jumped, length) == Returns(old(e.View()), d)
  {
    hide Iret, Top, Drop, Add16;
    jumped, length := true, 0;
    if Rem(Quot(d.extra, 2), 2) == 1 {
      e.ExecIret();
    } else {
      var target := e.StackPop();
      e.SetIp(target);
      if d.extra != 0 {
        var segment := e.StackPop();
        e.SetSegment(CS, segment);
      }
      if !d.wide { e.SetRegister(SP, Add16(e.regs[SP], d.data0)); }
    }
  }

  method ExecCallFar(e: Emu86State, d: Decoded)
    requires e.Valid()
    modifies e, e.mem
    ensures var s := old(e.View());
      e.View() == SetSReg(Push(Push(s, s.sregs[CS]), NextIp(s, d)), CS, d.data2).(ip := d.data0)
  {
    hide Push;
    var next := U16(e.ip as int + d.length as int);
    e.StackPush(e.sregs[CS]);
    e.StackPush(next);
    e.SetIp(d.data0);
    e.SetSegment(CS, d.data2);
  }

  method ExecControlFlow(e: Emu86State, d: Decoded) returns (jumped: bool, length: u8)
    requires e.Valid()
    modifies e, e.mem
    ensures Outcome(e.View(), jumped, length) == ControlFlow(old(e.View()), d)
  {
    hide Push, Int, Condition, Returns, JumpOrCall, Loops, JumpShort, NextIp;
    jumped, length := false, d.length;
    match d.xlat
    case 0 => if Condition(e.flags, Rem(d.opcode, 16)) { jumped, length := ExecJumpShort(e, d); }
    case 13 => jumped, length := ExecLoops(e, d);
    case 14 => jumped, length := ExecJumpOrCall(e, d);
    case 19 => jumped, length := ExecReturns(e, d);
    case 32 =>
      ExecCallFar(e, d);
      jumped, length := true, 0;
    case 38 => jumped, length := Interrupts(e, d.(length := 1), 3);
    case 39 => jumped, length := Interrupts(e, d.(length := 2), Lo(d.data0));
    case 40 =>
      if e.flags.of {
        jumped, length := Interrupts(e, d.(length := 1), 4);
      } else {
        length := 1;
      }
    case _ =>
  }

  // ----- strings, ports, flags, prefixes

  method ExecStringInstruction(e: Emu86State, d: Decoded)
    requires e.Valid()
    modifies e, e.mem
    ensures e.View() == StringInstruction(old(e.View()), d)
  {
    hide ExecString, StringOpOf;
    var op := StringOpOf(d.opcode);
    if op != [] {
      ExecStringOp(e, op[0], d.wide);
    } else if e.prefix.repEn > 0 {
      e.SetRegister(CX, 0);
    }
  }

  method GetPort(e: Emu86State, d: Decoded) returns (port: u16)
    requires e.Valid()
    ensures port == PortOf(e.View(), d)
  {
    port := if d.extra != 0 then e.regs[DX] else Lo(d.data0);
  }

  method ExecIn(e: Emu86State, d: Decoded)
    requires e.Valid()
    modifies e, e.io
    ensures e.View() == In(old(e.View()), d)
  {
    hide Xor8, U8, PortAfter, PortOf, Word, Hi, Lo;
    var port := GetPort(e, d);
    var pit := U8(e.io[0x40] as int - 1);
    e.WritePort(0x20, 0);
    e.WritePort(0x40, pit);
    e.WritePort(0x42, pit);
    e.WritePort(0x3DA, Xor8(e.io[0x3DA], 9));
    if port == 0x60 { e.WritePort(0x64, 0); }
    SplitWord(e.io[port], e.io[PortAfter(port)]);
    e.SetRegister(AX, if d.wide then Word(e.io[port], e.io[PortAfter(port)]) else Word(e.io[port], Hi(e.regs[AX])));
  }

  method ExecOut(e: Emu86State, d: Decoded)
    requires e.Valid()
    modifies e, e.mem, e.io
    ensures e.View() == Out(old(e.View()), d)
  {
    hide Or8, Xor8, PortAfter;
    var port := GetPort(e, d);
    var al := Lo(e.regs[AX]);
    e.WritePort(port, al);
    if d.wide { e.WritePort(PortAfter(port), Hi(e.regs[AX])); }
    if port == 0x61 { e.SetDevices(e.devices.(spkrEn := Or8(e.devices.spkrEn, Rem(al, 4)))); }
    if (port == 0x40 || port == 0x42) && Rem(Quot(e.io[0x43], 2), 4) != 0 {
      e.SetDevices(e.devices.(pitLobyte := Xor8(e.devices.pitLobyte, 1)));
      e.MemWrite8(0x469 + port - e.devices.pitLobyte, al);
    }
  }

  /** The memset of exec_bios_get_rtc. */
  method ClearMemory(e: Emu86State, a: nat, n: nat)
    requires e.Valid() && a + n <= MEM_SIZE
    modifies e.mem
    ensures e.View() == old(e.View()).(mem := Zeroes(old(e.View()).mem, a, n))
  {
    var i := 0;
    while i < n
      invariant 0 <= i <= n
      invariant Zeroes(e.View().mem, a + i, n - i) == Zeroes(old(e.View()).mem, a, n)
      invariant e.View() == old(e.View()).(mem := e.View().mem)
    {
      e.MemWrite8(a + i, 0);
      i := i + 1;
    }
  }

  method ExecGetRtc(e: Emu86State)
    requires e.Valid()
    modifies e.mem
    ensures e.View() == GetRtc(old(e.View()))
  {
    hide Zeroes;
    var a := Linear(e.sregs[ES], e.regs[BX]);
    if a + 38 <= MEM_SIZE { ClearMemory(e, a, 38); }
  }

  method ExecOther(e: Emu86State, d: Decoded) returns (jumped: bool, length: u8)
    requires e.Valid()
    modifies e, e.mem, e.io
    ensures Outcome(e.View(), jumped, length) == Other(old(e.View()), d)
  {
    hide StringInstruction, In, Out, GetRtc, SetFlag, RepPrefix, SegmentPrefix, SRegIndex;
    jumped, length := false, d.length;
    match d.xlat
    case 17 | 18 => ExecStringInstruction(e, d);
    case 21 => ExecIn(e, d);
    case 22 => ExecOut(e, d);
    case 23 => e.SetPrefix(RepPrefix(e.prefix, d.wide));
    case 27 => e.SetPrefix(SegmentPrefix(e.prefix, SRegIndex(d)));
    case 43 => e.SetRegister(AX, Word(if e.flags.cf then 0xFF else 0, Hi(e.regs[AX])));
    case 45 => e.SetFlags(e.flags.(cf := !e.flags.cf));
    case 46 => e.SetFlags(SetFlag(e.flags, d.extra));
    case 48 => if Lo(d.data0) == 1 { ExecGetRtc(e); }
    case 53 => if d.opcode == 0xF4 { e.SetControl(e.ctl.(halted := 1)); }
    case _ =>
  }

  /** execute_instruction */
  method ExecuteInstruction(e: Emu86State, t: Tables, d: Decoded) returns (jumped: bool, length: u8)
    requires e.Valid() && AddressInRange(d)
    modifies e, e.mem, e.io
    ensures Outcome(e.View(), jumped, length) == Body(old(e.View()), t, d)
  {
    hide Arithmetic, Transfer, ControlFlow, Other;
    if IsArithmetic(d.xlat) {
      jumped, length := ExecArithmetic(e, d);
    } else if IsTransfer(d.xlat) {
      jumped, length := ExecTransfer(e, t, d);
    } else if IsControl(d.xlat) {
      jumped, length := ExecControlFlow(e, d);
    } else {
      jumped, length := ExecOther(e, d);
    }
  }
}

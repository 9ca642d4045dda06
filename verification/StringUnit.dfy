/**
 The string instructions on the machine object (string.h): the ten single iterations
 and the REP loop, which change memory, SI, DI, CX and flags in place.
 */
module StringUnit {
  import opened Words
  import opened State
  import opened Alu
  import opened Strings
  import opened Emulator
  import opened Accessors

  method IndexAdvance(e: Emu86State, r: nat, wide: bool)
    requires e.Valid() && r < 8
    modifies e`regs
    ensures e.View() == Advance(old(e.View()), r, wide)
  {
    var delta := if wide then 2 else 1;
    e.SetRegister(r, Add16(e.regs[r], if e.flags.df then -delta else delta));
  }

  method LoadSource(e: Emu86State, wide: bool) returns (v: u16)
    requires e.Valid()
    ensures v == Load(e.View().mem, SourceAddress(e.View()), wide)
  {
    var seg := GetSourceSegment(e);
    v := MemRead(e, Linear(seg, e.regs[SI]), wide);
  }

  method LoadTarget(e: Emu86State, wide: bool) returns (v: u16)
    requires e.Valid()
    ensures v == RightOperand(e.View(), wide)
  {
    v := MemRead(e, Linear(e.sregs[ES], e.regs[DI]), wide);
  }

  method StoreTarget(e: Emu86State, v: u16, wide: bool)
    requires e.Valid()
    modifies e.mem
    ensures e.View() == old(e.View()).(mem := Store(old(e.View()).mem, TargetAddress(old(e.View())), v, wide))
  {
    MemWrite(e, Linear(e.sregs[ES], e.regs[DI]), v, wide);
  }

  method ExecMovs(e: Emu86State, wide: bool)
    requires e.Valid()
    modifies e, e.mem
    ensures e.View() == StringStep(old(e.View()), MOVS, wide)
  {
    hide Store, Load, Linear, Add16;
    var v := LoadSource(e, wide);
    StoreTarget(e, v, wide);
    IndexAdvance(e, SI, wide);
    IndexAdvance(e, DI, wide);
  }

  method ExecStos(e: Emu86State, wide: bool)
    requires e.Valid()
    modifies e, e.mem
    ensures e.View() == StringStep(old(e.View()), STOS, wide)
  {
    hide Store, Load, Linear, Add16;
    StoreTarget(e, e.regs[AX], wide);
    IndexAdvance(e, DI, wide);
  }

  method ExecLods(e: Emu86State, wide: bool)
    requires e.Valid()
    modifies e, e.mem
    ensures e.View() == StringStep(old(e.View()), LODS, wide)
  {
    hide Store, Load, Linear, Add16;
    var v := LoadSource(e, wide);
    e.SetRegister(AX, if wide then v else Word(Lo(v), Hi(e.regs[AX])));
    IndexAdvance(e, SI, wide);
  }

  method ExecCmps(e: Emu86State, wide: bool)
    requires e.Valid()
    modifies e, e.mem
    ensures e.View() == StringStep(old(e.View()), CMPS, wide)
  {
    hide Load, Linear, Add16, Compute;
    var left := LoadSource(e, wide);
    var right := LoadTarget(e, wide);
    e.SetFlags(Compute(CMP, e.flags, left, right, wide).flags);
    IndexAdvance(e, SI, wide);
    IndexAdvance(e, DI, wide);
  }

  method ExecScas(e: Emu86State, wide: bool)
    requires e.Valid()
    modifies e, e.mem
    ensures e.View() == StringStep(old(e.View()), SCAS, wide)
  {
    hide Load, Linear, Add16, Compute;
    var left := if wide then e.regs[AX] else Lo(e.regs[AX]);
    var right := LoadTarget(e, wide);
    e.SetFlags(Compute(CMP, e.flags, left, right, wide).flags);
    IndexAdvance(e, DI, wide);
  }

  method ExecOne(e: Emu86State, op: StringOp, wide: bool)
    requires e.Valid()
    modifies e, e.mem
    ensures e.View() == StringStep(old(e.View()), op, wide)
  {
    hide StringStep;
    match op
    case MOVS => ExecMovs(e, wide);
    case CMPS => ExecCmps(e, wide);
    case STOS => ExecStos(e, wide);
    case LODS => ExecLods(e, wide);
    case SCAS => ExecScas(e, wide);
  }

  /** exec_string_op */
  method ExecStringOp(e: Emu86State, op: StringOp, wide: bool)
    requires e.Valid()
    modifies e, e.mem
    ensures e.View() == ExecString(old(e.View()), op, wide)
  {
    hide StringStep;
    if e.prefix.repEn == 0 {
      ExecOne(e, op, wide);
      return;
    }
    while e.regs[CX] != 0
      invariant Rep(e.View(), op, wide) == Rep(old(e.View()), op, wide)
      decreases e.regs[CX]
    {
      PassCountsDown(e.View(), op, wide);
      ExecOne(e, op, wide);
      e.SetRegister(CX, Add16(e.regs[CX], -1));
      if IsCompare(op) && e.regs[CX] > 0 {
        if e.prefix.repMode == 1 && !e.flags.zf { return; }
        if e.prefix.repMode == 0 && e.flags.zf { return; }
      }
    }
  }
}

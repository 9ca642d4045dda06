/**
 String operations and the REP loop (string.h), on machine states.
 */
module Strings {
  import opened Words
  import opened Flags
  import opened State
  import opened Alu

  datatype StringOp = MOVS | CMPS | STOS | LODS | SCAS

  function Width(wide: bool): int { if wide then 2 else 1 }

  /** What index_advance adds to SI or DI. */
  function Delta(f: Flags, wide: bool): int { if f.df then -Width(wide) else Width(wide) }

  /** The segment register named by an override; the source reads past the array for an
      index above 3, which the model takes as 0. */
  function SRegAt(s: State, i: nat): u16 { if i < 4 then s.sregs[i] else 0 }

  /** string_src_seg */
  function SourceSegment(s: State): u16 {
    if s.prefix.segEn > 0 then SRegAt(s, s.prefix.seg) else s.sregs[DS]
  }

  function SourceAddress(s: State): nat { Linear(SourceSegment(s), s.regs[SI]) }
  function TargetAddress(s: State): nat { Linear(s.sregs[ES], s.regs[DI]) }

  /** An element of a string: one byte, or one little-endian word. */
  function Load(m: Memory, a: nat, wide: bool): u16
    requires a + 1 < MEM_SIZE
  {
    if wide then Read16(m, a) else m[a]
  }

  function Store(m: Memory, a: nat, v: u16, wide: bool): Memory
    requires a + 1 < MEM_SIZE
  {
    if wide then Write16(m, a, v) else m[a := Lo(v)]
  }

  function Advance(s: State, r: nat, wide: bool): State
    requires r < 8
  {
    SetReg(s, r, Add16(s.regs[r], Delta(s.flags, wide)))
  }

  function Accumulator(s: State, wide: bool): u16 { if wide then s.regs[AX] else Lo(s.regs[AX]) }

  function SetAccumulator(s: State, v: u16, wide: bool): State {
    SetReg(s, AX, if wide then v else Word(Lo(v), Hi(s.regs[AX])))
  }

  /** The two values that CMPS and SCAS compare. */
  function LeftOperand(s: State, op: StringOp, wide: bool): u16 {
    if op == SCAS then Accumulator(s, wide) else Load(s.mem, SourceAddress(s), wide)
  }

  function RightOperand(s: State, wide: bool): u16 { Load(s.mem, TargetAddress(s), wide) }

  /** One iteration of a string operation. */
  function StringStep(s: State, op: StringOp, wide: bool): State {
    match op
    case MOVS =>
      Advance(Advance(s.(mem := Store(s.mem, TargetAddress(s), Load(s.mem, SourceAddress(s), wide), wide)), SI,
        wide), DI, wide)
    case STOS =>
      Advance(s.(mem := Store(s.mem, TargetAddress(s), s.regs[AX], wide)), DI, wide)
    case LODS =>
      Advance(SetAccumulator(s, Load(s.mem, SourceAddress(s), wide), wide), SI, wide)
    case CMPS =>
      Advance(Advance(s.(flags := CompareFlags(s, op, wide)), SI, wide), DI, wide)
    case SCAS =>
      Advance(s.(flags := CompareFlags(s, op, wide)), DI, wide)
  }

  /** CMPS and SCAS set the flags of a subtraction. */
  function CompareFlags(s: State, op: StringOp, wide: bool): Flags {
    Compute(CMP, s.flags, LeftOperand(s, op, wide), RightOperand(s, wide), wide).flags
  }

  predicate IsCompare(op: StringOp) { op == CMPS || op == SCAS }

  function DecCx(s: State): State { SetReg(s, CX, Add16(s.regs[CX], -1)) }

  /** REPZ stops when ZF is clear, REPNZ when ZF is set; only CMPS and SCAS are tested. */
  predicate Stops(s: State, op: StringOp) {
    IsCompare(op) && ((s.prefix.repMode == 1 && !s.flags.zf) || (s.prefix.repMode == 0 && s.flags.zf))
  }

  lemma StepKeepsCx(s: State, op: StringOp, wide: bool)
    ensures StringStep(s, op, wide).regs[CX] == s.regs[CX]
  {
    hide Compute;
  }

  /** One pass of the REP loop: an iteration, then CX--. */
  function Pass(s: State, op: StringOp, wide: bool): State {
    DecCx(StringStep(s, op, wide))
  }

  lemma PassCountsDown(s: State, op: StringOp, wide: bool)
    requires s.regs[CX] > 0
    ensures Pass(s, op, wide).regs[CX] == s.regs[CX] - 1
  {
    hide StringStep;
    StepKeepsCx(s, op, wide);
  }

  /** The REP loop of exec_string_op. */
  function Rep(s: State, op: StringOp, wide: bool): State
    decreases s.regs[CX]
  {
    if s.regs[CX] == 0 then s
    else
      PassCountsDown(s, op, wide);
      var t := Pass(s, op, wide);
      if t.regs[CX] > 0 && Stops(t, op) then t else Rep(t, op, wide)
  }

  /** exec_string_op */
  function ExecString(s: State, op: StringOp, wide: bool): State {
    if s.prefix.repEn > 0 then Rep(s, op, wide) else StringStep(s, op, wide)
  }
}

/**
 What the table-driven decoder computes (decode.h): the addressing modes of the 8086,
 LEA, and where emu86_step_single decodes differently from emu86_run.
 */
module Addressing {
  import opened Words
  import opened State
  import opened Strings
  import opened Decode
  import opened Execute
  import opened Frames
  import opened Run
  import opened BatchLoop
  import opened RunTheorems
  import opened Yields

  const ZERO := 12

  predicate SamePair(a: u8, b: u8, x: u8, y: u8) {
    (a == x && b == y) || (a == y && b == x)
  }

  /** The table indices of the base and index registers of a ModRM operand. */
  function TableBase(rm: u3): (u8, u8) {
    match rm
    case 0 => (BX, SI)
    case 1 => (BX, DI)
    case 2 => (BP, SI)
    case 3 => (BP, DI)
    case 4 => (SI, ZERO)
    case 5 => (DI, ZERO)
    case 6 => (BP, ZERO)
    case 7 => (BX, ZERO)
  }

  predicate DirectMode(mod: u2, rm: u3) { mod == 0 && rm == 6 }
  predicate UsesBp(mod: u2, rm: u3) { rm == 2 || rm == 3 || (rm == 6 && mod != 0) }

  /** The addressing tables list, for each mode, the registers, whether a displacement is
      added, and the default segment (tables 0-3 if mod is not 0, tables 4-7 if it is). */
  predicate WellFormedMode(t: Tables, mod: u2, rm: u3) {
    var (b, pair) := (TableSet(mod), TableBase(rm));
    && (if DirectMode(mod, rm) then At(t, b, rm) == ZERO && At(t, b + 1, rm) == ZERO
        else SamePair(At(t, b, rm), At(t, b + 1, rm), pair.0, pair.1))
    && At(t, b + 2, rm) == (if mod != 0 || rm == 6 then 1 else 0)
    && At(t, b + 3, rm) == 8 + (if UsesBp(mod, rm) then SS else DS)
  }

  predicate WellFormedAddressing(t: Tables) {
    forall mod: u2, rm: u3 :: WellFormedMode(t, mod, rm)
  }

  // ----- the fields of an instruction, from its bytes

  /** Bytes of displacement behind ModRM. */
  function DisplacementBytes(mod: int, rm: int): nat {
    if mod == 1 then 1 else if mod == 2 || (mod == 0 && rm == 6) then 2 else 0
  }

  /** The little-endian word at a. */
  function WordAt(m: Memory, a: nat): int
    requires a + 1 < MEM_SIZE
  {
    m[a] as int + 0x100 * m[a + 1] as int
  }

  /** Opcode bits, ModRM and data words, as the instruction's bytes at CS:IP hold them: data2
      lies behind the displacement. */
  predicate FieldsOf(s: State, t: Tables, d: Decoded) {
    var (m, a) := (s.mem, FetchAddress(s));
    && a == 0x10 * s.sregs[CS] + s.ip
    && d.opcode == m[a] && d.reg4bit as int == m[a] as int % 8
    && (d.wide <==> m[a] % 2 == 1) && (d.direction <==> m[a] / 2 % 2 == 1)
    && (d.hasModrm <==> At(t, I_MOD_SIZE, m[a]) != 0)
    && d.data0 as int == WordAt(m, a + 1)
    && if d.hasModrm then
         && m[a + 1] as int == 64 * d.mod as int + 8 * d.reg as int + d.rm as int
         && d.data1 as int == (if d.mod != 1 then WordAt(m, a + 2)
                               else m[a + 2] as int + if m[a + 2] < 0x80 then 0 else 0xFF00)
         && d.data2 as int == WordAt(m, a + 2 + DisplacementBytes(d.mod, d.rm))
       else
         d.data1 as int == WordAt(m, a + 2) && d.data2 as int == WordAt(m, a + 3)
  }

  lemma ModrmSplits(v: u8)
    ensures v as int == 64 * ModOf(v) as int + 8 * Rem(Quot(v, 8), 8) as int + Rem(v, 8) as int
  {
    hide Wrap, Rem, Quot;
    OperatorsAre();
  }

  lemma OpcodeBits(v: u8)
    ensures Rem(v, 8) as int == v as int % 8
    ensures Rem(v, 2) as int == v as int % 2 && Rem(Quot(v, 2), 2) as int == v as int / 2 % 2
  {
    hide Wrap, Rem, Quot;
    OperatorsAre();
  }

  lemma {:induction false} DecodedBytes(s: State, t: Tables)
    ensures FieldsOf(s, t, DecodeAt(s, t))
  {
    hide Rem, Quot, At, U8, Lo, ModOf, EffectiveAddress, ImmediateSize, DisplacementSize;
    var (m, a) := (s.mem, FetchAddress(s));
    Flags.SplitWord(m[a + 1], m[a + 2]);
    Flags.SplitWord(m[a + 2], m[a + 3]);
    OpcodeBits(m[a]);
    ModrmSplits(m[a + 1]);
  }

  // ----- the addressing modes, without tables

  function Base(s: State, rm: u3): int {
    match rm
    case 0 => s.regs[BX] as int + s.regs[SI] as int
    case 1 => s.regs[BX] as int + s.regs[DI] as int
    case 2 => s.regs[BP] as int + s.regs[SI] as int
    case 3 => s.regs[BP] as int + s.regs[DI] as int
    case 4 => s.regs[SI]
    case 5 => s.regs[DI]
    case 6 => s.regs[BP]
    case 7 => s.regs[BX]
  }

  /** The signed displacement behind the ModRM byte at address a + 1. */
  function Displacement(m: Memory, a: nat, mod: u2, rm: u3): int
    requires a + 3 < MEM_SIZE
  {
    if mod == 1 then S8(m[a + 2])
    else if mod == 2 || DirectMode(mod, rm) then S16(Read16(m, a + 2))
    else 0
  }

  function OperandOffset(s: State, mod: u2, rm: u3): u16 {
    U16((if DirectMode(mod, rm) then 0 else Base(s, rm)) + Displacement(s.mem, FetchAddress(s), mod, rm))
  }

  function OperandSegment(s: State, mod: u2, rm: u3): u16 {
    if s.prefix.segEn > 0 then SRegAt(s, s.prefix.seg)
    else s.sregs[if UsesBp(mod, rm) then SS else DS]
  }

  lemma {:induction false} TablesGiveOffset(s: State, t: Tables, mod: u2, rm: u3, disp: u16)
    requires WellFormedMode(t, mod, rm)
    ensures EffectiveOffset(s, t, mod, rm, disp)
         == U16((if DirectMode(mod, rm) then 0 else Base(s, rm)) + (if mod != 0 || rm == 6 then disp else 0))
  {
    assert Multiple(0, disp) == 0 && Multiple(1, disp) == disp;
    hide At, Multiple;
  }

  lemma TablesGiveSegment(s: State, t: Tables, mod: u2, rm: u3)
    requires WellFormedMode(t, mod, rm)
    ensures EffectiveSegment(s, t, mod, rm) == OperandSegment(s, mod, rm)
  {
    hide At;
  }

  lemma SignedWraps(x: int, b: u8, w: u16)
    ensures U16(x + S8(b)) == U16(x + SignExtend(b) as int) && U16(x + S16(w)) == U16(x + w as int)
  {
    WrapShift(x + S8(b), 0x1_0000);
    WrapShift(x + S16(w), 0x1_0000);
    hide Wrap;
  }

  /** The address of a memory operand, by the decoded mode. */
  lemma {:induction false} DecodedAddress(s: State, t: Tables)
    requires WellFormedAddressing(t)
    ensures var d := DecodeAt(s, t);
      d.hasModrm && d.mod < 3 ==>
        && d.rmAddr == 0x10 * OperandSegment(s, d.mod, d.rm) + OperandOffset(s, d.mod, d.rm)
        && EffectiveOffset(s, t, d.mod, d.rm, d.data1) == OperandOffset(s, d.mod, d.rm)
  {
    var d := DecodeAt(s, t);
    if d.hasModrm && d.mod < 3 {
      var a := FetchAddress(s);
      DecodedOperand(s, t);
      TablesGiveOffset(s, t, d.mod, d.rm, d.data1);
      TablesGiveSegment(s, t, d.mod, d.rm);
      SignedWraps(if DirectMode(d.mod, d.rm) then 0 else Base(s, d.rm), s.mem[a + 2], Read16(s.mem, a + 2));
      hide EffectiveOffset, EffectiveSegment, OperandSegment, At, S8, S16, SignExtend, Base, DecodeAt, Read16,
        FetchAddress, U16;
    }
  }

  /** Every memory operand, as its ModRM byte names it, decodes to segment * 16 + (base + index +
      displacement) mod 2^16, with the overriding segment if there is one, and the mode's default
      otherwise. */
  lemma {:induction false} OperandAddress(s: State, t: Tables)
    requires WellFormedAddressing(t)
    ensures var (m, a) := (s.mem, FetchAddress(s));
      At(t, I_MOD_SIZE, m[a]) != 0 && m[a + 1] < 0xC0 ==>
        var (mod, rm) := (m[a + 1] / 64, m[a + 1] % 8);
        DecodeAt(s, t).rmAddr == 0x10 * OperandSegment(s, mod, rm) + OperandOffset(s, mod, rm)
  {
    hide DecodeAt, OperandSegment, OperandOffset, At, WellFormedAddressing, EffectiveOffset, WordAt;
    DecodedBytes(s, t);
    DecodedAddress(s, t);
    var (v, d) := (s.mem[FetchAddress(s) + 1], DecodeAt(s, t));
    if d.hasModrm { ModrmParts(v, d.mod, d.reg, d.rm); }
  }

  lemma ModrmParts(v: u8, mod: u2, reg: u3, rm: u3)
    requires v as int == 64 * mod as int + 8 * reg as int + rm as int
    ensures v / 64 == mod && v / 8 % 8 == reg && v % 8 == rm
  {}

  /** The displacement word and the address as the decoder takes them from the tables. */
  lemma {:induction false} DecodedOperand(s: State, t: Tables)
    ensures var (a, d) := (FetchAddress(s), DecodeAt(s, t));
      d.hasModrm && d.mod < 3 ==>
        && d.data1 == (if d.mod == 1 then SignExtend(s.mem[a + 2]) else Read16(s.mem, a + 2))
        && d.rmAddr == 0x10 * EffectiveSegment(s, t, d.mod, d.rm) + EffectiveOffset(s, t, d.mod, d.rm, d.data1)
  {
    hide Wrap, Rem, Quot;
    OperatorsAre();
    hide EffectiveSegment, EffectiveOffset, At, SignExtend;
  }

  // ----- LEA

  lemma SegmentCancels(seg: u16, off: u16)
    ensures U16(0x10 * seg + off - 0x10 * seg) == off
  {}

  /** What a decoded LEA executes. */
  lemma LeaDispatched(s: State, t: Tables, d: Decoded)
    requires AddressInRange(d) && IsLea(d)
    ensures Body(s, t, d) == Falls(Lea(s, t, d), d)
  {
    hide Lea, Arithmetic, ControlFlow, Other;
  }

  /** The decoded instruction is an LEA with a memory operand. */
  predicate MemoryLea(d: Decoded) { IsLea(d) && d.hasModrm && d.mod < 3 }

  lemma {:induction false} LeaGivesOffset(s: State, t: Tables)
    requires WellFormedAddressing(t) && MemoryLea(DecodeAt(s, t))
    ensures var d := DecodeAt(s, t);
      Lea(s, t, d) == SetReg(s, d.reg, OperandOffset(s, d.mod, d.rm)).(prefix := s.prefix.(segEn := 1))
  {
    hide DecodeAt, OperandOffset, EffectiveSegment, EffectiveOffset, WellFormedAddressing, U16;
    var d := DecodeAt(s, t);
    DecodedAddress(s, t);
    DecodedOperand(s, t);
    SegmentCancels(EffectiveSegment(s, t, d.mod, d.rm), EffectiveOffset(s, t, d.mod, d.rm, d.data1));
  }

  /** In emu86_run, a decoded LEA writes exactly the operand's offset, whatever the segment
      registers and the override are, and changes no memory, flag or other register. */
  lemma {:induction false} LeaWritesOffset(s: State, t: Tables, d: Decoded)
    requires WellFormedAddressing(t) && d == DecodeAt(s, t) && MemoryLea(d)
    ensures AddressInRange(d)
    ensures Body(s, t, d)
         == Falls(SetReg(s, d.reg, OperandOffset(s, d.mod, d.rm)).(prefix := s.prefix.(segEn := 1)), d)
  {
    hide DecodeAt, OperandOffset, WellFormedAddressing, Lea, Body;
    DecodedInRange(s, t);
    LeaGivesOffset(s, t);
    LeaDispatched(s, t, d);
  }

  // ----- emu86_step_single, which decodes before it counts the prefixes down

  /** The segment that a default-segment operand uses. */
  function DefaultSegment(s: State, mod: u2, rm: u3): u16 { s.sregs[if UsesBp(mod, rm) then SS else DS] }

  /** seg_override_en is about to run out, and the decoded memory operand would lie
      elsewhere without the override. */
  predicate OverrideRunsOut(s: State, t: Tables) {
    var d := DecodeAt(s, t);
    s.prefix.segEn == 1 && d.hasModrm && d.mod < 3 && SRegAt(s, s.prefix.seg) != DefaultSegment(s, d.mod, d.rm)
  }

  lemma {:induction false} DecodedApart(s: State, t: Tables)
    ensures var (d, e) := (DecodeAt(s, t), DecodeAt(CountDown(s), t)); e.(rmAddr := d.rmAddr) == d
    ensures !DecodeAt(s, t).hasModrm || DecodeAt(s, t).mod == 3 ==> DecodeAt(CountDown(s), t) == DecodeAt(s, t)
    ensures FetchAddress(CountDown(s)) == FetchAddress(s)
  {
    hide EffectiveOffset, EffectiveSegment, At, SignExtend, Linear, Read16;
  }

  /** Counting down before or after decoding matters exactly when the override runs out. */
  lemma {:induction false} DecodeOrderIff(s: State, t: Tables)
    requires WellFormedAddressing(t)
    ensures DecodeAt(CountDown(s), t) == DecodeAt(s, t) <==> !OverrideRunsOut(s, t)
  {
    var d := DecodeAt(s, t);
    DecodedApart(s, t);
    if d.hasModrm && d.mod < 3 {
      DecodedAddress(s, t);
      DecodedAddress(CountDown(s), t);
      hide DecodeAt, OperandSegment, OperandOffset, SRegAt, DefaultSegment, CountDown, WellFormedAddressing,
        EffectiveOffset;
      var e := DecodeAt(CountDown(s), t);
      assert e == d <==> e.rmAddr == d.rmAddr;
    }
  }

  /** One step of emu86_run is emu86_step_single followed by the timer service, in every
      state where the override does not run out; so where no timer is due they are equal. */
  lemma {:induction false} StepIsSingle(m: Machine, t: Tables)
    requires WellFormedAddressing(t) && !OverrideRunsOut(m.s, t)
    ensures var r := StepSingle(m, t);
      && StepBody(m, t) == TakeTimer(r.(s := Tick(r.s)))
      && (r.s.instCount % 20000 != 0 && !TimerDue(r.s) ==> StepBody(m, t) == r)
  {
    DecodeOrderIff(m.s, t);
    hide OverrideRunsOut, DecodeAt, Perform, CountAndTrap, Echo, CountDown, Interrupt, WellFormedAddressing;
  }

  /** So where nothing is pending, a pass of emu86_run runs exactly emu86_step_single. */
  lemma {:induction false} PassIsSingle(m: Machine, t: Tables)
    requires WellFormedAddressing(t) && m.s.prefix.segEn != 1
    requires !AtExit(m.s) && !HardwareDue(m.s) && m.s.ctl.halted == 0
    requires var r := StepSingle(m, t); r.s.instCount % 20000 != 0 && !TimerDue(r.s)
    ensures OnePass(m, t) == Ran(StepSingle(m, t), Crowded(StepSingle(m, t).consoleOut))
  {
    StepIsSingle(m, t);
    WaitingIff(StepSingle(m, t).consoleOut);
    hide StepBody, StepSingle, TimerDue, OutputWaiting, Crowded, HardwareDue, WellFormedAddressing;
  }

  predicate IsPrefix(d: Decoded) { d.xlat == 23 || d.xlat == 27 }

  /** What emu86_step_single leaves of the override: counted down, or what LEA sets. */
  lemma {:induction false} SingleLeavesOverride(m: Machine, t: Tables)
    requires !IsPrefix(DecodeAt(m.s, t))
    ensures var p := StepSingle(m, t).s.prefix;
      && p.seg == m.s.prefix.seg
      && (p.segEn == 1 <==> IsLea(DecodeAt(m.s, t)) || m.s.prefix.segEn == 2)
  {
    hide Perform, CountAndTrap, DecodeAt;
    var d, s := DecodeAt(m.s, t), CountDown(m.s);
    DecodedInRange(m.s, t);
    PerformKeeps(s, t, d);
    CountAndTrapKeeps(Perform(s, t, d));
  }

  /** The addresses that a state in which one more instruction is counted decodes to. */
  lemma {:induction false} LastOverride(s: State, t: Tables)
    requires WellFormedAddressing(t) && s.prefix.segEn == 1
    ensures var (d, e) := (DecodeAt(s, t), DecodeAt(CountDown(s), t)); d.hasModrm && d.mod < 3 ==>
      var off := OperandOffset(s, d.mod, d.rm);
      && d.rmAddr == 0x10 * SRegAt(s, s.prefix.seg) + off
      && e.rmAddr == 0x10 * DefaultSegment(s, d.mod, d.rm) + off
  {
    var d := DecodeAt(s, t);
    DecodedApart(s, t);
    if d.hasModrm && d.mod < 3 {
      DecodedAddress(s, t);
      DecodedAddress(CountDown(s), t);
      hide DecodeAt, OperandSegment, OperandOffset, SRegAt, DefaultSegment, CountDown, WellFormedAddressing,
        EffectiveOffset;
    }
  }

  /** So emu86_step_single fails behind every instruction that a segment prefix preceded, and
      behind every LEA: a memory operand of the next instruction is taken from the segment of
      the stale override, where emu86_run takes it from the default segment. */
  lemma {:induction false} SingleMisdecodes(m: Machine, t: Tables)
    requires WellFormedAddressing(t)
    requires var d := DecodeAt(m.s, t); !IsPrefix(d) && (IsLea(d) || m.s.prefix.segEn == 2)
    ensures var s := StepSingle(m, t).s;
      var (d, e) := (DecodeAt(s, t), DecodeAt(CountDown(s), t)); d.hasModrm && d.mod < 3 ==>
      var off := OperandOffset(s, d.mod, d.rm);
      && d.rmAddr == 0x10 * SRegAt(s, m.s.prefix.seg) + off
      && e.rmAddr == 0x10 * DefaultSegment(s, d.mod, d.rm) + off
  {
    hide StepSingle, DecodeAt, WellFormedAddressing, OperandOffset, DefaultSegment, SRegAt, CountDown, IsLea;
    SingleLeavesOverride(m, t);
    LastOverride(StepSingle(m, t).s, t);
  }

  /** How far the segment in force lies above the one that is in force after counting down. */
  function SegmentShift(s: State, mod: u2, rm: u3): int {
    if s.prefix.segEn == 1 then SRegAt(s, s.prefix.seg) as int - DefaultSegment(s, mod, rm) as int else 0
  }

  /** LEA in emu86_step_single subtracts a segment that is counted down already, and so is
      off by 16 times the distance of override and default segment ... */
  lemma {:induction false} SingleLea(s: State, t: Tables)
    requires WellFormedAddressing(t) && MemoryLea(DecodeAt(s, t))
    ensures var d := DecodeAt(s, t);
      Lea(CountDown(s), t, d).regs[d.reg]
      == U16(OperandOffset(s, d.mod, d.rm) as int + 0x10 * SegmentShift(s, d.mod, d.rm))
  {
    hide *;
    var d := DecodeAt(s, t);
    assert d.mod < 3 && d.hasModrm by { MemoryOperand(d); }
    ModeOf(t, d.mod, d.rm);
    DecodedAddress(s, t);
    LeaIs(CountDown(s), t, d);
    ShiftIs(s, d.mod, d.rm);
    TablesGiveSegment(CountDown(s), t, d.mod, d.rm);
  }

  lemma MemoryOperand(d: Decoded)
    requires MemoryLea(d)
    ensures d.hasModrm && d.mod < 3
  {}

  lemma LeaIs(s: State, t: Tables, d: Decoded)
    requires d.mod < 3
    ensures Lea(s, t, d).regs[d.reg] == U16(d.rmAddr - 0x10 * EffectiveSegment(s, t, d.mod, d.rm))
  {
    hide U16, EffectiveSegment;
  }

  lemma ShiftIs(s: State, mod: u2, rm: u3)
    ensures OperandSegment(s, mod, rm) as int - OperandSegment(CountDown(s), mod, rm) as int
         == SegmentShift(s, mod, rm)
  {}

  /** ... and so right exactly if those agree modulo 2^12. */
  lemma {:induction false} SingleLeaIff(s: State, t: Tables)
    requires WellFormedAddressing(t) && MemoryLea(DecodeAt(s, t))
    ensures var d := DecodeAt(s, t);
      Lea(CountDown(s), t, d).regs[d.reg] == OperandOffset(s, d.mod, d.rm)
      <==> (s.prefix.segEn != 1 || SRegAt(s, s.prefix.seg) % 0x1000 == DefaultSegment(s, d.mod, d.rm) % 0x1000)
  {
    hide *;
    var d := DecodeAt(s, t);
    SingleLea(s, t);
    ShiftVanishes(s, d.mod, d.rm, OperandOffset(s, d.mod, d.rm));
  }

  lemma {:induction false} ShiftVanishes(s: State, mod: u2, rm: u3, off: u16)
    ensures U16(off as int + 0x10 * SegmentShift(s, mod, rm)) == off
      <==> (s.prefix.segEn != 1 || SRegAt(s, s.prefix.seg) % 0x1000 == DefaultSegment(s, mod, rm) % 0x1000)
  {
    hide SRegAt, DefaultSegment;
    SegmentsApart(SRegAt(s, s.prefix.seg), DefaultSegment(s, mod, rm), off);
  }

  lemma ModeOf(t: Tables, mod: u2, rm: u3)
    requires WellFormedAddressing(t)
    ensures WellFormedMode(t, mod, rm)
  {}

  lemma SegmentsApart(x: u16, y: u16, off: u16)
    ensures U16(off as int + 0x10 * (x as int - y as int)) == off <==> x % 0x1000 == y % 0x1000
  {
    hide Wrap, Rem, Quot;
    OperatorsAre();
    if x % 0x1000 == y % 0x1000 {
      assert 0x10 * (x as int - y as int) == 0x1_0000 * (x / 0x1000 - y / 0x1000);
    }
  }

  // ----- the override always names a segment register

  /** The tables number the segment registers of override prefixes 8 to 11. */
  predicate WellFormedOverrides(t: Tables) {
    forall op: u8 :: At(t, XLAT_OPCODE, op) == 27 ==> 8 <= At(t, XLAT_SUBFUNCTION, op) < 12
  }

  lemma {:induction false} StepKeepsOverride(m: Machine, t: Tables)
    requires WellFormedOverrides(t) && m.s.prefix.seg < 4
    ensures StepBody(m, t).s.prefix.seg < 4
  {
    OverrideDecoded(CountDown(m.s), t);
    hide StepBody, DecodeAt, WellFormedOverrides;
    StepKeeps(m, t);
  }

  lemma OverrideDecoded(s: State, t: Tables)
    requires WellFormedOverrides(t)
    ensures DecodeAt(s, t).xlat == 27 ==> SRegIndex(DecodeAt(s, t)) < 4
  {}

  lemma {:induction false} PassKeepsOverride(m: Machine, t: Tables)
    requires WellFormedOverrides(t) && m.s.prefix.seg < 4
    ensures OnePass(m, t).m.s.prefix.seg < 4
  {
    hide StepBody, TakeHardware, OutputWaiting, WellFormedOverrides;
    TakeHardwareKeeps(m.s);
    StepKeepsOverride(m.(s := TakeHardware(m.s)), t);
  }

  /** So in every state a run reaches, sregs[seg_override] is inside the array. */
  lemma {:induction false} RunKeepsOverride(m: Machine, t: Tables, budget: u32, cycles: u32)
    requires WellFormedOverrides(t) && budget <= LARGEST && m.s.prefix.seg < 4
    ensures RunFrom(m, t, budget, cycles).m.s.prefix.seg < 4
  {
    hide OnePass, Loop, WellFormedOverrides;
    forall x: Machine | x.s.prefix.seg < 4
      ensures Turns(t)(x).m.s.prefix.seg < 4
    {
      PassKeepsOverride(x, t);
    }
    LoopKeeps(Turns(t), (x: Machine) => x.s.prefix.seg < 4, m, budget, cycles);
  }
}

/**
 String instructions, ports, flag instructions and prefixes, as decoded: for which of them the
 emulator and the reference leave the same state.
 */
module OtherAgreement {
  import opened Words
  import opened Flags
  import opened State
  import opened Strings
  import opened Alu
  import opened Decode
  import opened Execute
  import opened Run
  import opened AluReference
  import opened InstructionReference
  import opened InstructionAgreement
  import opened ReferenceCases
  import opened StackAgreement
  import opened DecodeAgreement
  import Addressing
  import StringFills
  import StringCompares

  lemma OtherPerformed(s: State, t: Tables, d: Decoded)
    requires AddressInRange(d) && InOther(d.xlat)
    ensures var o := Other(s, d);
      Perform(s, t, d) == if o.jumped then o.s else o.s.(ip := U16(o.s.ip as int + o.length as int))
  {
    hide ControlFlow, Arithmetic, Transfer, Other;
  }

  lemma OtherEntry(t: Tables, d: Decoded)
    requires ShippedTables(t) && DecodedBy(t, d) && InOther(d.xlat)
    ensures AddressInRange(d) && At(t, STD_FLAGS, d.opcode) == 0 && ShippedGroup(t, d.opcode)
  {
    hide At, U8, Rem, Quot, ShippedEntry, JumpFlag, FlagBit, ImmediateSize, ShippedGroup;
    assert ShippedSizes(t, d.opcode) && ShippedGroup(t, d.opcode);
  }

  /** Ours moves IP by the table's length behind every body of this group. */
  lemma {:induction false} BodyIs(s: State, t: Tables, d: Decoded, r: State)
    requires ShippedTables(t) && DecodedBy(t, d) && InOther(d.xlat) && Other(s, d) == Falls(r, d)
    ensures Perform(s, t, d) == Plainly(r, t, d)
  {
    hide ShippedTables, DecodedBy, At, Other, Perform, Plainly, U16;
    OtherEntry(t, d);
    OtherPerformed(s, t, d);
    PlainlyMovesOn(r, t, d, d);
  }

  /** Bodies that differ give states that differ. */
  lemma {:induction false} BodiesDiffer(s: State, t: Tables, d: Decoded, r: State, q: State)
    requires ShippedTables(t) && DecodedBy(t, d) && InOther(d.xlat) && Other(s, d) == Falls(r, d)
    requires r.ip == q.ip
    ensures Perform(s, t, d) == Plainly(q, t, d) <==> r == q
  {
    hide ShippedTables, DecodedBy, At, Other, Perform, Plainly, U16;
    OtherEntry(t, d);
    BodyIs(s, t, d, r);
    PlainlyMovesOn(r, t, d, d);
    PlainlyMovesOn(q, t, d, d);
    assert r.(ip := U16(r.ip as int + d.length as int)).(ip := r.ip) == r;
    assert q.(ip := U16(r.ip as int + d.length as int)).(ip := q.ip) == q;
  }

  // ----- strings

  lemma StringOpcodes(op: u8)
    ensures op == 0xA4 || op == 0xA5 ==> StringOpOf(op) == [MOVS]
    ensures op == 0xA6 || op == 0xA7 ==> StringOpOf(op) == [CMPS]
    ensures op == 0xAA || op == 0xAB ==> StringOpOf(op) == [STOS]
    ensures op == 0xAC || op == 0xAD ==> StringOpOf(op) == [LODS]
    ensures op == 0xAE || op == 0xAF ==> StringOpOf(op) == [SCAS]
  {
    hide Rem, Quot;
    QuotRemIs(op, 2);
    var h := Quot(op, 2);
    assert 2 * h <= op <= 2 * h + 1;
  }

  /** The operation that `extra` chooses in case 17, and in case 18. */
  function MoveOp(extra: nat): StringOp { if extra == 0 then MOVS else if extra == 1 then STOS else LODS }
  function CompareOp(extra: nat): StringOp { if extra == 0 then CMPS else SCAS }

  lemma StringOperation(s: State, t: Tables, d: Decoded)
    requires DecodedBy(t, d) && (d.xlat == 17 || d.xlat == 18) && ShippedGroup(t, d.opcode)
    ensures d.extra <= 2
    ensures StringInstruction(s, d) == ExecString(s, if d.xlat == 17 then MoveOp(d.extra) else CompareOp(d.extra), d.wide)
    ensures Other(s, d) == Falls(StringInstruction(s, d), d)
  {
    StringOpcodes(d.opcode);
    hide At, Rem, Quot, StringOpOf, ExecString;
  }

  /** MOVS, STOS and LODS by their opcode: the state of case 17, which `extra` directs. */
  lemma {:induction false} StringMoveAgrees(s: State, t: Tables, d: Decoded)
    requires ShippedTables(t) && DecodedBy(t, d) && d.xlat == 17
    ensures Perform(s, t, d) == Plainly(StringFills.StringRef(s, d.extra, d.wide), t, d)
  {
    hide ShippedTables, DecodedBy, Perform, Plainly, StringFills.StringRef, ExecString, Other, ShippedGroup;
    OtherEntry(t, d);
    StringOperation(s, t, d);
    StringFills.StringAgrees(s, MoveOp(d.extra), d.wide);
    assert StringFills.ExtraOf(MoveOp(d.extra)) == d.extra;
    BodyIs(s, t, d, StringInstruction(s, d));
  }

  lemma AllFlags(f: Flags, g: Flags)
    requires SameSix(f, g) && SameRest(f, g)
    ensures f == g
  {}

  /** One element: CMPS or SCAS without REP. */
  lemma {:induction false} OneCompareAgrees(s: State, extra: nat, wide: bool)
    requires extra <= 1
    ensures StringStep(s, CompareOp(extra), wide) == RefCompareOnce(s, extra, wide)
  {
    hide Load, Linear, CmpRef, Compute, Strings.CompareFlags, SameSix, SameRest, StringFills.IndexInc, Advance, Fetch,
      Accumulator;
    var op := CompareOp(extra);
    SameItself(s.flags);
    StringCompares.RefPassFlags(s, s.flags, op, wide);
    var (g, h) := (CompareFlags(s, op, wide),
                   CmpRef(s.flags, LeftOperand(s, op, wide), RightOperand(s, wide), wide).flags);
    assert s.(flags := s.flags) == s;
    AllFlags(g, h);
    StringCompares.RestHasDf(g, s.flags);
    AccumulatorFetched(s, wide);
    StringFills.IndexIncAdvances(s, SI, wide);
    StringFills.IndexIncAdvances(s, DI, wide);
    StringFills.IndexIncAdvances(Advance(s, SI, wide), DI, wide);
    AdvanceKeepsFlags(s, SI, g, wide);
    AdvanceKeepsFlags(s, DI, g, wide);
    AdvanceKeepsFlags(Advance(s, SI, wide), DI, g, wide);
  }

  lemma AccumulatorFetched(s: State, wide: bool)
    ensures Fetch(s, InFile(0), wide) == Accumulator(s, wide)
  {
    RegPlaceReads(s, 0, wide);
    hide Lo, Hi, Word;
  }

  /** Advancing an index under flags with the same direction. */
  lemma AdvanceKeepsFlags(s: State, r: nat, g: Flags, wide: bool)
    requires r < 8 && g.df == s.flags.df
    ensures Advance(s.(flags := g), r, wide) == Advance(s, r, wide).(flags := g) && Advance(s, r, wide).flags == s.flags
  {
    hide Add16;
  }

  /** CMPS and SCAS by their opcode: the state of case 18 exactly if REP stops alike. */
  lemma {:induction false} StringCompareAgreesIff(s: State, t: Tables, d: Decoded)
    requires ShippedTables(t) && DecodedBy(t, d) && d.xlat == 18
    ensures Perform(s, t, d) == Plainly(RefCompare(s, d.extra, d.wide), t, d)
      <==> s.prefix.repEn == 0 || s.prefix.repMode <= 1 || s.regs[CX] <= 1
  {
    hide ShippedTables, DecodedBy, Perform, Plainly, Other, ShippedGroup, Rep, StringStep, StringCompares.RepRef,
      RefCompareOnce, SameSix, SameRest;
    OtherEntry(t, d);
    StringOperation(s, t, d);
    AtMostOne(t, d);
    var op := CompareOp(d.extra);
    if s.prefix.repEn > 0 {
      var (r, q) := (Rep(s, op, d.wide), StringCompares.RepRef(s, op, d.wide));
      StringCompares.RepAgreesIff(s, op, d.wide);
      LoopsKeepIp(s, op, d.wide);
      if SameSix(r.flags, q.flags) && SameRest(r.flags, q.flags) { AllFlags(r.flags, q.flags); }
      SameItself(r.flags);
      assert r.(flags := q.flags) == q && r.flags == q.flags ==> r == q;
      BodiesDiffer(s, t, d, r, q);
    } else {
      OneCompareAgrees(s, d.extra, d.wide);
      BodyIs(s, t, d, StringStep(s, op, d.wide));
    }
  }

  lemma AtMostOne(t: Tables, d: Decoded)
    requires DecodedBy(t, d) && d.xlat == 18 && ShippedGroup(t, d.opcode)
    ensures d.extra <= 1
  {
    hide At, Rem, Quot;
  }

  lemma SameItself(f: Flags)
    ensures SameSix(f, f) && SameRest(f, f)
  {}

  lemma StepKeepsIp(s: State, op: StringOp, wide: bool)
    ensures Pass(s, op, wide).ip == s.ip
  {
    hide Load, Store, Linear, Compute, Add16, Lo, Hi, Word;
  }

  lemma {:induction false} RepKeepsIp(s: State, op: StringOp, wide: bool)
    ensures Rep(s, op, wide).ip == s.ip
    decreases s.regs[CX]
  {
    hide Pass;
    if s.regs[CX] > 0 {
      StepKeepsIp(s, op, wide);
      PassCountsDown(s, op, wide);
      RepKeepsIp(Pass(s, op, wide), op, wide);
    }
  }

  lemma {:induction false} RepRefKeepsIp(s: State, op: StringOp, wide: bool)
    ensures StringCompares.RepRef(s, op, wide).ip == s.ip
    decreases s.regs[CX]
  {
    hide StringCompares.Equal, CmpRef, LeftOperand, RightOperand, Add16;
    if s.regs[CX] > 0 {
      var t := SetReg(StringCompares.Nth(s, op, wide, 1), CX, s.regs[CX] - 1);
      assert t.ip == s.ip && t.regs[CX] == s.regs[CX] - 1;
      RepRefKeepsIp(t, op, wide);
    }
  }

  lemma LoopsKeepIp(s: State, op: StringOp, wide: bool)
    ensures Rep(s, op, wide).ip == s.ip && StringCompares.RepRef(s, op, wide).ip == s.ip
  {
    hide Rep, StringCompares.RepRef;
    RepKeepsIp(s, op, wide);
    RepRefKeepsIp(s, op, wide);
  }

  // ----- ports

  lemma PortsAgree(s: State, d: Decoded)
    ensures RefPort(s, d) == PortOf(s, d)
    ensures PortOf(s, d) < 0xFFFF ==> PortAfter(PortOf(s, d)) == PortOf(s, d) + 1
  {
    hide Wrap;
    QuotRemIs(d.data0, 0x100);
    if PortOf(s, d) < 0xFFFF { WrapNear(PortOf(s, d) as int + 1, 0x1_0000); }
    hide Rem;
  }

  /** Reading two bytes into AL and AH, or one into AL. */
  lemma {:induction false} FileAccumulator(s: State, lo: u8, hi: u8, wide: bool)
    ensures var s1 := SetFileByte(s, 0, lo);
      (if wide then SetFileByte(s1, 1, hi) else s1) == SetAccumulator(s, Word(lo, hi), wide)
  {
    hide Lo, Hi, Word;
    HalvesOfWord(lo, hi);
    HalvesOfWord(lo, Hi(s.regs[AX]));
  }

  lemma {:induction false} InAgrees(s: State, t: Tables, d: Decoded)
    requires ShippedTables(t) && DecodedBy(t, d) && d.xlat == 21 && RefPort(s, d) < 0xFFFF
    ensures Perform(s, t, d) == RefIn(s, t, d)
  {
    hide ShippedTables, DecodedBy, Perform, Plainly, RefPort, PortOf, SetFileByte, SetAccumulator, Word, Xor8, U8;
    OtherEntry(t, d);
    PortsAgree(s, d);
    var port := PortOf(s, d);
    var pit := U8(s.io[0x40] as int - 1);
    var io1 := s.io[0x20 := 0][0x40 := pit][0x42 := pit];
    var io2 := io1[0x3DA := Xor8(io1[0x3DA], 9)];
    var io3 := if port == 0x60 then io2[0x64 := 0] else io2;
    FileAccumulator(s.(io := io3), io3[port], io3[port + 1], d.wide);
    BodyIs(s, t, d, In(s, d));
  }

  lemma TwoBits(v: u8)
    ensures Rem(v, 4) == v % 4 && Rem(Quot(v, 2), 4) == v / 2 % 4
  {
    hide Wrap, Rem, Quot;
    OperatorsAre();
  }

  /** OUT to port 0x61 clears the half that the PIT's next write goes to, in the reference. */
  lemma {:induction false} OutAgreesIff(s: State, t: Tables, d: Decoded)
    requires ShippedTables(t) && DecodedBy(t, d) && d.xlat == 22 && RefPort(s, d) < 0xFFFF
    ensures Perform(s, t, d) == RefOut(s, t, d) <==> !(RefPort(s, d) == 0x61 && s.devices.pitLobyte != 0)
  {
    hide ShippedTables, DecodedBy, Perform, Plainly, RefPort, PortOf, Lo, Hi, Word, Xor8, Or8, Rem, Quot;
    OtherEntry(t, d);
    PortsAgree(s, d);
    TwoBits(Lo(s.regs[AX]));
    var port := PortOf(s, d);
    var io1 := s.io[port := Lo(s.regs[AX])];
    var io2 := if d.wide then io1[port + 1 := Hi(s.regs[AX])] else io1;
    TwoBits(io2[0x43]);
    var q := RefOutDone(s, d);
    OutIs(s, t, d);
    BodiesDiffer(s, t, d, Out(s, d), q);
  }

  /** Case 22 before the end of the main loop: ours, but for the cleared half. */
  function RefOutDone(s: State, d: Decoded): State {
    if RefPort(s, d) == 0x61 then Out(s, d).(devices := Out(s, d).devices.(pitLobyte := 0)) else Out(s, d)
  }

  lemma {:induction false} OutIs(s: State, t: Tables, d: Decoded)
    requires RefPort(s, d) < 0xFFFF
    ensures RefOut(s, t, d) == Plainly(RefOutDone(s, d), t, d)
    ensures Out(s, d).ip == s.ip && (RefPort(s, d) == 0x61 ==> Out(s, d).devices.pitLobyte == s.devices.pitLobyte)
  {
    hide Plainly, RefPort, PortOf, Lo, Hi, Word, Xor8, Or8, Rem, Quot;
    PortsAgree(s, d);
    TwoBits(Lo(s.regs[AX]));
    var port := PortOf(s, d);
    var io1 := s.io[port := Lo(s.regs[AX])];
    TwoBits((if d.wide then io1[port + 1 := Hi(s.regs[AX])] else io1)[0x43]);
  }

  // ----- flags and prefixes

  lemma {:induction false} SetFlagIs(f: Flags, e: u8)
    requires 80 <= e < 98
    ensures SetFlag(f, e) == SetFlagByte(f, e / 2 - 40, e % 2 == 1)
  {
    QuotRemIs(e, 2);
    hide Rem, Quot;
  }

  lemma FlagNumber(t: Tables, d: Decoded)
    requires DecodedBy(t, d) && d.xlat == 46 && ShippedGroup(t, d.opcode)
    ensures 80 <= d.extra < 98
  {
    hide At, Rem, Quot;
  }

  lemma OverrideNumber(t: Tables, d: Decoded)
    requires DecodedBy(t, d) && d.xlat == 27 && ShippedGroup(t, d.opcode)
    ensures 8 <= d.extra < 12 && SRegIndex(d) == d.extra - 8
  {
    hide At, Rem, Quot, Wrap;
    WrapNear(d.extra as int - 8, 0x100);
  }

  lemma {:induction false} PrefixesAgree(s: State, t: Tables, d: Decoded)
    requires ShippedTables(t) && DecodedBy(t, d) && (d.xlat == 23 || d.xlat == 27)
    ensures d.xlat == 23 ==> Perform(s, t, d) == RefRep(s, t, d)
    ensures d.xlat == 27 ==> d.extra >= 8 && Perform(s, t, d) == RefOverride(s, t, d)
  {
    hide ShippedTables, DecodedBy, Perform, Plainly, U8;
    OtherEntry(t, d);
    if d.xlat == 27 { OverrideNumber(t, d); }
    BodyIs(s, t, d, s.(prefix := if d.xlat == 23 then RepPrefix(s.prefix, d.wide) else SegmentPrefix(s.prefix, SRegIndex(d))));
  }

  lemma {:induction false} FlagBodiesAgree(s: State, t: Tables, d: Decoded)
    requires ShippedTables(t) && DecodedBy(t, d)
    ensures d.xlat == 43 ==> Perform(s, t, d) == Plainly(SetFileByte(s, 0, if s.flags.cf then 0xFF else 0), t, d)
    ensures d.xlat == 45 ==> Perform(s, t, d) == Plainly(s.(flags := s.flags.(cf := !s.flags.cf)), t, d)
    ensures d.xlat == 46 ==> d.extra >= 80
    ensures d.xlat == 46 ==>
      Perform(s, t, d) == Plainly(s.(flags := SetFlagByte(s.flags, d.extra / 2 - 40, d.extra % 2 == 1)), t, d)
  {
    hide ShippedTables, DecodedBy, Perform, Plainly, SetFlag, SetFlagByte, Hi, Word;
    if d.xlat == 43 {
      BodyIs(s, t, d, SetAl(s, if s.flags.cf then 0xFF else 0));
    } else if d.xlat == 45 {
      BodyIs(s, t, d, s.(flags := s.flags.(cf := !s.flags.cf)));
    } else if d.xlat == 46 {
      OtherEntry(t, d);
      FlagNumber(t, d);
      SetFlagIs(s.flags, d.extra);
      BodyIs(s, t, d, s.(flags := SetFlag(s.flags, d.extra)));
    }
  }

  lemma {:induction false} CallsAgree(s: State, t: Tables, d: Decoded)
    requires ShippedTables(t) && DecodedBy(t, d) && d.xlat == 48 && (d.data0 % 0x100 == 0 || d.data0 % 0x100 > 3)
    ensures Perform(s, t, d) == Plainly(s, t, d)
  {
    hide ShippedTables, DecodedBy, Perform, Plainly, GetRtc, Rem;
    QuotRemIs(d.data0, 0x100);
    BodyIs(s, t, d, s);
  }

  // ----- the group

  /** A repeated compare that stops otherwise (see RepAgreesIff), and OUT to port 0x61 with half a
      PIT value pending. */
  predicate OtherDiffers(s: State, d: Decoded) {
    || (d.xlat == 18 && s.prefix.repEn > 0 && s.prefix.repMode > 1 && s.regs[CX] > 1)
    || (d.xlat == 22 && RefPort(s, d) == 0x61 && s.devices.pitLobyte != 0)
  }

  /** Every covered instruction of the group leaves the same state exactly if it is none of these. */
  lemma {:induction false} OtherAgreesIff(s: State, t: Tables, d: Decoded)
    requires ShippedTables(t) && DecodedBy(t, d) && InOther(d.xlat) && Executable(s, t, d)
    ensures Perform(s, t, d) == RefOther(s, t, d) <==> !OtherDiffers(s, d)
  {
    hide ShippedTables, DecodedBy, Perform, Plainly, StringFills.StringRef, RefCompare, RefIn, RefOut, RefRep, RefOverride,
      RefPort, ModeAddress, RefCount, SetFileByte, SetFlagByte;
    match d.xlat
    case 17 => StringMoveAgrees(s, t, d);
    case 18 => StringCompareAgreesIff(s, t, d);
    case 21 => InAgrees(s, t, d);
    case 22 => OutAgreesIff(s, t, d);
    case 23 => PrefixesAgree(s, t, d);
    case 27 => PrefixesAgree(s, t, d);
    case 48 => CallsAgree(s, t, d);
    case _ => FlagBodiesAgree(s, t, d);
  }
}

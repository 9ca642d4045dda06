/**
 INC, DEC and the FF group, TEST and the decimal adjustments, as decoded, and with them every
 instruction of the arithmetic cases: for which the emulator and the reference leave the same
 state.
 */
module ArithmeticAgreement {
  import opened Words
  import opened Flags
  import opened State
  import opened Strings
  import opened Alu
  import opened Decode
  import opened Execute
  import opened Run
  import opened AluReference
  import opened InstructionReference
  import opened InstructionAgreement
  import opened ReferenceCases
  import opened StackAgreement
  import opened DecodeAgreement
  import Addressing
  import AluMeaning
  import DecimalReference
  import ShiftReference
  import OtherAgreement

  lemma ArithmeticPerformed(s: State, t: Tables, d: Decoded)
    requires AddressInRange(d) && InArithmetic(d.xlat)
    ensures var o := Arithmetic(s, d);
      Perform(s, t, d) == if o.jumped then o.s else o.s.(ip := U16(o.s.ip as int + o.length as int))
  {
    hide ControlFlow, Arithmetic, Transfer, Other;
  }

  lemma ArithmeticEntry(t: Tables, d: Decoded)
    requires ShippedTables(t) && DecodedBy(t, d) && InArithmetic(d.xlat)
    ensures AddressInRange(d) && ShippedGroup(t, d.opcode)
    ensures d.xlat == 2 || d.xlat == 28 || d.xlat == 29 ==> At(t, STD_FLAGS, d.opcode) == 1
    ensures d.xlat == 15 || d.xlat == 41 || d.xlat == 42 || d.xlat == 47 ==> At(t, STD_FLAGS, d.opcode) == 5
    ensures d.xlat == 5 ==> At(t, STD_FLAGS, d.opcode) == 0
    ensures d.xlat != 7 && d.xlat != 8 && d.xlat != 47 ==> At(t, I_W_SIZE, d.opcode) == 0
  {
    hide At, U8, Rem, Quot, ShippedEntry, JumpFlag, FlagBit, ImmediateSize, ShippedGroup;
    assert ShippedSizes(t, d.opcode) && ShippedGroup(t, d.opcode);
  }

  /** The end of an instruction with flags. */
  lemma {:induction false} TailIs(s: State, t: Tables, d: Decoded, e: Decoded, o: RefOp, kind: u8)
    requires ShippedTables(t) && DecodedBy(t, d) && At(t, STD_FLAGS, d.opcode) == kind && (kind == 1 || kind == 5)
    requires e.opcode == d.opcode && e.mod == d.mod && e.rm == d.rm
    requires e.wide == d.wide || At(t, I_W_SIZE, d.opcode) == 0
    ensures var z := SetSzpRef(s.flags, o.result, e.wide);
      Tail(s, t, e, d.opcode, o)
      == s.(ip := U16(s.ip as int + d.length as int), flags := if kind == 1 then z else z.(cf := false, of := false))
  {
    hide ShippedTables, DecodedBy, At, StdFlags, RefLength, U16, SetSzpRef;
    LengthsAgreeFor(t, d, e);
    StdFlagsIs(kind, s.flags, o, e.wide);
  }

  // ----- INC and DEC

  lemma IncDecKeepsOthers(f: Flags, a: u16, reg: nat, wide: bool)
    requires reg <= 1
    ensures SameRest((if reg == 0 then Inc(f, a, wide) else Dec(f, a, wide)).flags, f)
    ensures SameRest(IncDecRef(f, a, reg, wide).flags, f)
  {
    hide Bit, SignOf, Parity8, AluMeaning.EvenOnes, Low, Lo, U8, U32, Xor;
  }

  /** Value and all flags. */
  lemma {:induction false} IncDecEqual(f: Flags, a: u16, reg: nat, wide: bool)
    requires reg <= 1 && a <= Mask(wide)
    ensures (if reg == 0 then Inc(f, a, wide) else Dec(f, a, wide)) == IncDecRef(f, a, reg, wide)
  {
    hide Inc, Dec, IncDecRef, SameRest;
    IncDecAgree(f, a, reg, wide);
    IncDecKeepsOthers(f, a, reg, wide);
    SameResult(if reg == 0 then Inc(f, a, wide) else Dec(f, a, wide), IncDecRef(f, a, reg, wide), f);
  }

  /** The state behind an INC or DEC of a place. */
  function Stepped(s: State, p: Place, reg: nat, wide: bool): State
    requires reg <= 1
  {
    var r := IncDecRef(s.flags, Fetch(s, p, wide), reg, wide);
    Put(s, p, r.value, wide).(flags := r.flags)
  }

  lemma {:induction false} RefIncDecIs(s: State, t: Tables, d: Decoded, p: Place, reg: nat, opcode: u8)
    requires reg <= 1 && At(t, STD_FLAGS, opcode) == 1
    ensures RefIncDec(s, t, d, p, reg, opcode)
         == Stepped(s, p, reg, d.wide).(ip := U16(s.ip as int + RefLength(t, d, opcode)))
  {
    hide At, StdFlags, RefLength, U16, SetSzpRef, SetAfOfArith, Fetch, Put, Low, U32;
    var a := Fetch(s, p, d.wide);
    var v := Low(U32(a as int + 1 - 2 * reg), d.wide);
    var g := SetAfOfArith(s.flags, RefOp(1, a, v), d.wide).(of := a as int + 1 - reg == Half(d.wide));
    StdFlagsIs(1, g, RefOp(1, a, v), d.wide);
    PutCommutes(s, p, v, d.wide, g, s.ip);
  }

  /** Ours, on the operand of an r/m field. */
  lemma {:induction false} IncDecIs(s: State, d: Decoded, dec: bool)
    requires AddressInRange(d)
    ensures IncDec(s, d, dec) == Stepped(s, RmPlace(d), if dec then 1 else 0, d.wide)
  {
    hide Inc, Dec, IncDecRef, Fetch, Put, ReadRm, WriteRm, RmPlace;
    var reg := if dec then 1 else 0;
    ReadRmFits(s, d);
    PlacesAgree(s, s, d, 0);
    IncDecEqual(s.flags, ReadRm(s, d), reg, d.wide);
    var r := IncDecRef(s.flags, ReadRm(s, d), reg, d.wide);
    PlacesAgree(s, s.(flags := r.flags), d, r.value);
    PutCommutes(s, RmPlace(d), r.value, d.wide, r.flags, s.ip);
  }

  lemma {:induction false} IncDecRegAgrees(s: State, t: Tables, d: Decoded)
    requires ShippedTables(t) && DecodedBy(t, d) && d.xlat == 2
    ensures d.extra <= 1 && Perform(s, t, d) == RefIncDecReg(s, t, d)
  {
    hide ShippedTables, DecodedBy, At, Perform, IncDec, Stepped, RefIncDec, RefLength, U16;
    ArithmeticEntry(t, d);
    ArithmeticPerformed(s, t, d);
    RegisterStep(t, d);
    var e := d.(wide := true, mod := 3, rm := d.reg4bit);
    IncDecIs(s, e, d.extra != 0);
    RefIncDecIs(s, t, d.(wide := true), RegPlace(d.reg4bit, true), d.extra, d.opcode);
    LengthsAgreeFor(t, d, d.(wide := true));
    SteppedKeepsIp(s, RegPlace(d.reg4bit, true), d.extra, true);
  }

  lemma RegisterStep(t: Tables, d: Decoded)
    requires DecodedBy(t, d) && d.xlat == 2 && ShippedGroup(t, d.opcode)
    ensures d.extra <= 1
  {
    hide At, Rem, Quot;
  }

  lemma SteppedKeepsIp(s: State, p: Place, reg: nat, wide: bool)
    requires reg <= 1
    ensures Stepped(s, p, reg, wide).ip == s.ip
  {
    hide Fetch, Put, IncDecRef;
    PutCommutes(s, p, IncDecRef(s.flags, Fetch(s, p, wide), reg, wide).value, wide, s.flags, s.ip);
  }

  // ----- the FE and FF group

  lemma {:induction false} FfEntry(t: Tables, d: Decoded)
    requires ShippedTables(t) && DecodedBy(t, d) && d.xlat == 5
    ensures AddressInRange(d) && d.direction && At(t, STD_FLAGS, SHIFTED_OPCODE) == 1
    ensures d.length == RefLength(t, d, d.opcode) == RefLength(t, d, SHIFTED_OPCODE)
    ensures d.length as int == 2 + DisplacementSize(d.mod, d.rm) as int
  {
    hide At, U8, Rem, Quot, RefLength, ShippedEntry, ShippedSizes, JumpFlag, FlagBit;
    assert ShippedGroup(t, d.opcode);
    LengthsAgree(t, d, d.opcode, 0, 0, 2);
    OpcodeLength(t, d, 2);
    Addressing.OpcodeBits(d.opcode);
  }

  lemma {:induction false} StepFfAgrees(s: State, t: Tables, d: Decoded)
    requires ShippedTables(t) && DecodedBy(t, d) && d.xlat == 5 && d.reg < 2
    ensures Perform(s, t, d) == RefGroupFf(s, t, d)
  {
    hide ShippedTables, DecodedBy, At, Perform, IncDec, Stepped, RefIncDec, RefLength, U16, RmPlace;
    FfEntry(t, d);
    ArithmeticPerformed(s, t, d);
    IncDecIs(s, d, d.reg == 1);
    RefIncDecIs(s, t, d, RmPlace(d), d.reg, SHIFTED_OPCODE);
    SteppedKeepsIp(s, RmPlace(d), d.reg, d.wide);
  }

  lemma {:induction false} PushFfAgrees(s: State, t: Tables, d: Decoded)
    requires ShippedTables(t) && DecodedBy(t, d) && d.xlat == 5 && d.reg == 6 && d.wide
    ensures Perform(s, t, d) == RefGroupFf(s, t, d)
  {
    hide ShippedTables, DecodedBy, At, Perform, Plainly, Push, RefPush, U16, RmPlace, Fetch, ReadRm;
    FfEntry(t, d);
    ArithmeticEntry(t, d);
    ArithmeticPerformed(s, t, d);
    assert d.(wide := true) == d;
    PlacesAgree(s, s, d, 0);
    PushesAgree(s, ReadRm(s, d));
    PlainlyMovesOn(Push(s, ReadRm(s, d)), t, d, d);
  }

  /** Indirect jumps and calls: the pushes come before the target is read. */
  lemma {:induction false} JumpFfAgrees(s: State, t: Tables, d: Decoded)
    requires ShippedTables(t) && DecodedBy(t, d) && d.xlat == 5 && 2 <= d.reg < 6 && d.wide
    requires d.reg == 3 || d.reg == 5 ==> d.mod < 3
    ensures Perform(s, t, d) == RefGroupFf(s, t, d)
  {
    hide ShippedTables, DecodedBy, At, Perform, Tail, Push, RefPush, U16, RmPlace, Fetch, ReadRm, Read16, RefLength;
    FfEntry(t, d);
    ArithmeticPerformed(s, t, d);
    assert d.(wide := true) == d;
    var next := U16(s.ip as int + d.length as int);
    var s1 := if d.reg == 3 then Push(s, s.sregs[CS]) else s;
    PushesAgree(s, s.sregs[CS]);
    PushKeepsOthers(s, s.sregs[CS]);
    var s2 := if d.reg == 2 || d.reg == 3 then Push(s1, next) else s1;
    PushesAgree(s1, next);
    PushKeepsOthers(s1, next);
    PlacesAgree(s2, s2, d, 0);
    if d.reg == 3 || d.reg == 5 {
      FarTarget(s2, d);
      NothingBehind(FarJump(s2, d), t, d, FAR_OPCODE);
    } else {
      NothingBehind(s2.(ip := ReadRm(s2, d)), t, d, FAR_OPCODE);
    }
    RegBits(d.reg);
  }

  lemma RegBits(reg: u3)
    ensures 2 <= reg < 6 ==> (reg / 2 % 2 == 1 <==> reg == 2 || reg == 3) && (reg % 2 == 1 <==> reg == 3 || reg == 5)
  {}

  /** CS:IP from a far pointer in memory, which loading CS does not change. */
  lemma FarTarget(s: State, d: Decoded)
    requires AddressInRange(d) && d.mod < 3 && d.wide
    ensures var s1 := SetRegs16(s, 9, Load(s.mem, d.rmAddr + 2, true));
      s1.(ip := Fetch(s1, RmPlace(d), true)) == FarJump(s, d)
  {
    hide Word;
  }

  lemma {:induction false} GroupFfAgrees(s: State, t: Tables, d: Decoded)
    requires ShippedTables(t) && DecodedBy(t, d) && d.xlat == 5 && Covered(s, d)
    ensures d.reg < 7 && Perform(s, t, d) == RefGroupFf(s, t, d)
  {
    hide ShippedTables, DecodedBy, Perform, RefPort;
    FfEntry(t, d);
    if d.reg < 2 { StepFfAgrees(s, t, d); }
    else if d.reg == 6 { PushFfAgrees(s, t, d); }
    else { JumpFfAgrees(s, t, d); }
  }

  // ----- TEST

  lemma {:induction false} AndCommutes(a: nat, b: nat)
    ensures And(a, b) == And(b, a)
  {
    if a != 0 && b != 0 { AndCommutes(a / 2, b / 2); }
  }

  /** Flags of a TEST and IP behind it. */
  function Tested(s: State, v: u16, wide: bool, length: int): State {
    s.(flags := SetLogic(s.flags, v, wide), ip := U16(s.ip as int + length))
  }

  lemma {:induction false} RefTestIs(s: State, t: Tables, d: Decoded, a: u16, b: u16)
    requires ShippedTables(t) && DecodedBy(t, d) && (d.xlat == 15 || d.xlat == 47) && a <= Mask(d.wide)
    ensures RefTest(s, t, d, a, b) == Tested(s, And(a, b), d.wide, d.length)
  {
    hide ShippedTables, DecodedBy, At, Tail, SetLogic, SetSzpRef, U16, And;
    ArithmeticEntry(t, d);
    TailIs(s, t, d, d, RefOp(b, a, And(a, b)), 5);
    LogicFlags(s.flags, And(a, b), d.wide);
  }

  lemma {:induction false} TestRegAgrees(s: State, t: Tables, d: Decoded)
    requires ShippedTables(t) && DecodedBy(t, d) && d.xlat == 15
    ensures Perform(s, t, d)
         == RefTest(s, t, d, Fetch(s, RegPlace(d.reg, d.wide), d.wide), Fetch(s, RmPlace(d), d.wide))
  {
    hide ShippedTables, DecodedBy, At, Perform, SetLogic, U16, And, Fetch, RegPlace, RmPlace, ReadReg, ReadRm, RefTest;
    ArithmeticEntry(t, d);
    ArithmeticPerformed(s, t, d);
    PlacesAgree(s, s, d, 0);
    var (a, b) := (ReadReg(s, d), ReadRm(s, d));
    AndCommutes(a, b);
    FetchFits(s, RegPlace(d.reg, d.wide), d.wide);
    RefTestIs(s, t, d, a, b);
  }

  lemma {:induction false} TestAccAgrees(s: State, t: Tables, d: Decoded)
    requires ShippedTables(t) && DecodedBy(t, d) && d.xlat == 47
    ensures Perform(s, t, d) == RefTest(s, t, d, Fetch(s, InFile(0), d.wide), Low(d.data0, d.wide))
  {
    hide ShippedTables, DecodedBy, At, Perform, SetLogic, U16, And, Fetch, Low, RefTest, Lo;
    ArithmeticEntry(t, d);
    ArithmeticPerformed(s, t, d);
    OtherAgreement.AccumulatorFetched(s, d.wide);
    MaskIsCast(d.data0, d.wide);
    LowIsCast(d.data0, d.wide);
    FetchFits(s, InFile(0), d.wide);
    RefTestIs(s, t, d, Accumulator(s, d.wide), Low(d.data0, d.wide));
  }

  // ----- DAA and DAS

  /** SF, ZF and PF of a byte that op_result gives. */
  predicate SzpAlike(x: int, al: u8) {
    && Bit(U32(x), 7) == Bit(U32(al), 7) && (x == 0) == (al == 0)
    && AluMeaning.EvenOnes(U8(x)) == AluMeaning.EvenOnes(U8(al))
  }

  lemma SzpSame(f: Flags, x: int, al: u8)
    ensures SetSzpRef(f, x, false) == SetSzpRef(f, al, false) <==> SzpAlike(x, al)
  {
    hide Bit, AluMeaning.EvenOnes, U32, U8;
  }

  /** The first half of DAA and DAS: AL, CF and AF, with SF, ZF and PF as a result gives them. */
  function AdjustedTo(s: State, r: DecimalReference.Adjusted, result: int): State {
    SetFileByte(s, 0, r.al).(flags := SetSzpRef(s.flags.(cf := r.cf, af := r.af), result, false))
  }

  lemma CarriesKept(f: Flags, g: Flags, r: u8, low: bool, cf: bool)
    requires g == SetSzp(f.(af := low, cf := cf), r, false)
    ensures g.af == low && g.cf == cf
  {
    hide Low, SignOf, Parity8, Lo;
  }

  lemma DaaShape(f: Flags, al: u8) returns (low: bool, cf: bool)
    ensures Daa(f, al).0 == SetSzp(f.(af := low, cf := cf), Daa(f, al).1, false)
  {
    hide SetSzp, Rem, Quot, U8, DaaByte;
    low := Rem(al, 0x10) > 9 || f.af;
    cf := (al > 0x99 || f.cf) || (low && (f.cf || U8(al + 6) < al));
  }

  lemma DasShape(f: Flags, al: u8) returns (low: bool, cf: bool)
    ensures Das(f, al).0 == SetSzp(f.(af := low, cf := cf), Das(f, al).1, false)
  {
    hide SetSzp, Rem, Quot, U8, DasByte;
    low := Rem(al, 0x10) > 9 || f.af;
    cf := (al > 0x99 || f.cf) || (low && (f.cf || U8(al as int - 6) > al));
  }

  lemma DecimalFlags(f: Flags, al: u8)
    ensures Daa(f, al).0 == SetSzp(f.(af := Daa(f, al).0.af, cf := Daa(f, al).0.cf), Daa(f, al).1, false)
    ensures Das(f, al).0 == SetSzp(f.(af := Das(f, al).0.af, cf := Das(f, al).0.cf), Das(f, al).1, false)
  {
    hide SetSzp, Daa, Das;
    var a, b := DaaShape(f, al);
    var c, d := DasShape(f, al);
    CarriesKept(f, Daa(f, al).0, Daa(f, al).1, a, b);
    CarriesKept(f, Das(f, al).0, Das(f, al).1, c, d);
  }

  /** Ours, by what it does to AL, CF and AF. */
  lemma {:induction false} OursAdjusts(s: State, sub: bool)
    ensures var r := DecimalReference.Ours(if sub then Das(s.flags, Lo(s.regs[AX])) else Daa(s.flags, Lo(s.regs[AX])));
      AdjustDecimal(s, sub) == AdjustedTo(s, r, r.al)
  {
    hide Daa, Das, SetSzp, SetSzpRef, Lo, Hi, Word;
    var al := Lo(s.regs[AX]);
    DecimalFlags(s.flags, al);
    var q := if sub then Das(s.flags, al) else Daa(s.flags, al);
    ShiftReference.SzpAgrees(s.flags.(af := q.0.af, cf := q.0.cf), q.1, false);
  }

  lemma {:induction false} RefAdjusts(s: State, t: Tables, d: Decoded, earlier: int)
    requires ShippedTables(t) && DecodedBy(t, d) && d.xlat == 28
    ensures var al := Lo(s.regs[AX]);
      var r := if d.extra != 0 then DecimalReference.DasRef(s.flags, al) else DecimalReference.DaaRef(s.flags, al);
      RefDecimal(s, t, d, earlier)
      == AdjustedTo(s, r, if r.cf || r.af then r.al else earlier).(ip := U16(s.ip as int + d.length as int))
  {
    hide ShippedTables, DecodedBy, At, Tail, SetSzpRef, U16, Lo, Hi, Word, DecimalReference.DasRef,
      DecimalReference.DaaRef;
    ArithmeticEntry(t, d);
    var al := Lo(s.regs[AX]);
    var r := if d.extra != 0 then DecimalReference.DasRef(s.flags, al) else DecimalReference.DaaRef(s.flags, al);
    var s1 := SetFileByte(s, 0, r.al).(flags := s.flags.(cf := r.cf, af := r.af));
    TailIs(s1, t, d, d.(wide := false), RefOp(0, 0, if r.cf || r.af then r.al else earlier), 1);
  }

  /** Two adjustments with the same CF and AF leave the same state exactly if AL and the flags of
      the result are the same. */
  lemma {:induction false} AdjustedSame(s: State, r: DecimalReference.Adjusted, q: DecimalReference.Adjusted, x: int)
    requires r.cf == q.cf && r.af == q.af
    ensures AdjustedTo(s, r, r.al) == AdjustedTo(s, q, x) <==> r.al == q.al && SzpAlike(x, r.al)
  {
    hide SetSzpRef, SzpAlike, Lo, Hi, Word;
    SzpSame(s.flags.(cf := r.cf, af := r.af), x, r.al);
    HalvesOfWord(r.al, Hi(s.regs[AX]));
    HalvesOfWord(q.al, Hi(s.regs[AX]));
    assert SetFileByte(s, 0, r.al).regs[AX] == Word(r.al, Hi(s.regs[AX]));
    assert SetFileByte(s, 0, q.al).regs[AX] == Word(q.al, Hi(s.regs[AX]));
  }

  lemma SzpItself(al: u8)
    ensures SzpAlike(al, al)
  {}

  /** DAA and DAS have nothing to adjust. */
  predicate NothingToAdjust(f: Flags, al: u8) { al % 0x10 <= 9 && !f.af && al <= 0x99 && !f.cf }

  /** DAS borrows in its first step; or nothing is adjusted, and the reference takes SF, ZF and PF
      from an earlier result with others. */
  predicate DecimalDiffers(s: State, d: Decoded, earlier: int) {
    var (f, al) := (s.flags, Lo(s.regs[AX]));
    || (d.extra != 0 && f.af && !f.cf && al < 6)
    || (NothingToAdjust(f, al) && !SzpAlike(earlier, al))
  }

  lemma {:induction false} Unadjusted(f: Flags, al: u8)
    ensures var r := DecimalReference.DaaRef(f, al); !(r.cf || r.af) <==> NothingToAdjust(f, al)
    ensures var r := DecimalReference.DasRef(f, al); !(r.cf || r.af) <==> NothingToAdjust(f, al)
    ensures NothingToAdjust(f, al) ==> DecimalReference.DaaRef(f, al).al == al == DecimalReference.DasRef(f, al).al
  {
    hide Wrap, Rem, Quot;
    QuotRemIs(al, 0x10);
    DecimalReference.DaaTests(al, al % 0x10 > 9 || f.af, f.cf);
  }

  lemma {:induction false} DecimalAgreesIff(s: State, t: Tables, d: Decoded, earlier: int)
    requires ShippedTables(t) && DecodedBy(t, d) && d.xlat == 28
    ensures Perform(s, t, d) == RefDecimal(s, t, d, earlier) <==> !DecimalDiffers(s, d, earlier)
  {
    hide ShippedTables, DecodedBy, At, Perform, AdjustDecimal, AdjustedTo, U16, Lo, Daa, Das, DecimalReference.DasRef,
      DecimalReference.DaaRef, SzpAlike, NothingToAdjust, RefDecimal;
    ArithmeticEntry(t, d);
    ArithmeticPerformed(s, t, d);
    var (f, al, sub) := (s.flags, Lo(s.regs[AX]), d.extra != 0);
    OursAdjusts(s, sub);
    RefAdjusts(s, t, d, earlier);
    DecimalReference.DaaAgrees(f, al);
    DecimalReference.DasAgreesIff(f, al);
    Unadjusted(f, al);
    var r := DecimalReference.Ours(if sub then Das(f, al) else Daa(f, al));
    var q := if sub then DecimalReference.DasRef(f, al) else DecimalReference.DaaRef(f, al);
    var x := if q.cf || q.af then q.al else earlier;
    AdjustedSame(s, r, q, x);
    SzpItself(al);
    SzpItself(r.al);
    AdjustedKeepsIp(s, r, r.al);
    AdjustedKeepsIp(s, q, x);
    MovedOn(s, t, d);
    var n := U16(s.ip as int + d.length as int);
    SameWithIp(AdjustedTo(s, r, r.al), AdjustedTo(s, q, x), n);
  }

  lemma MovedOn(s: State, t: Tables, d: Decoded)
    requires AddressInRange(d) && d.xlat == 28
    ensures Arithmetic(s, d) == Falls(AdjustDecimal(s, d.extra != 0), d)
  {
    hide AdjustDecimal;
  }

  lemma AdjustedKeepsIp(s: State, r: DecimalReference.Adjusted, x: int)
    ensures AdjustedTo(s, r, x).ip == s.ip
  {
    hide SetSzpRef, Lo, Hi, Word;
  }

  lemma SameWithIp(r: State, q: State, ip: u16)
    requires r.ip == q.ip
    ensures r.(ip := ip) == q.(ip := ip) <==> r == q
  {
    assert r.(ip := ip).(ip := r.ip) == r && q.(ip := ip).(ip := q.ip) == q;
  }

  // ----- AAA, AAS, AAM and AAD

  /** What AAA and AAS of the emulator leave alone: SF, ZF and PF, which the reference sets by the
      digit. With an adjustment both do the other's: the tables' `extra` is 2 for AAA and 0 for AAS. */
  predicate AsciiDiffers(s: State) {
    var (f, digit) := (s.flags, Lo(s.regs[AX]) % 0x10);
    digit > 9 || f.af || f.sf || f.zf != (digit == 0) || f.pf != AluMeaning.EvenOnes(digit)
  }

  lemma DigitFlags(f: Flags, digit: u8)
    requires digit < 0x10
    ensures SetSzpRef(f, digit, true) == f <==> !f.sf && f.zf == (digit == 0) && f.pf == AluMeaning.EvenOnes(digit)
  {
    hide AluMeaning.EvenOnes, Wrap, Bit;
    WrapNear(digit, 0x1_0000_0000);
    WrapNear(digit, 0x100);
    FlagBits(digit);
  }

  lemma AsciiEntry(t: Tables, d: Decoded)
    requires DecodedBy(t, d) && d.xlat == 29 && ShippedGroup(t, d.opcode)
    ensures d.wide && (d.extra == 0 || d.extra == 2)
  {
    Addressing.OpcodeBits(d.opcode);
    hide At, Rem, Quot;
  }

  /** AL's digit after adding or subtracting 262 differs. */
  lemma {:induction false} DigitsDiffer(ax: u16)
    ensures Rem(Lo(Add16(ax, 0x106)), 0x10) != Rem(Lo(Add16(ax, -0x106)), 0x10)
  {
    hide Wrap, Rem, Quot;
    OperatorsAre();
  }

  /** AX with the upper digit of AL cleared. */
  function OneDigit(s: State, ax: u16): State { SetReg(s, AX, Word(Rem(Lo(ax), 0x10), Hi(ax))) }

  lemma {:induction false} RefAsciiIs(s: State, t: Tables, d: Decoded, e: u8)
    requires ShippedTables(t) && DecodedBy(t, d) && d.xlat == 29 && (e == 0 || e == 2)
    ensures var adjust := Rem(Lo(s.regs[AX]), 0x10) > 9 || s.flags.af;
      var ax := U16(s.regs[AX] as int + if adjust then 262 * (e as int - 1) else 0);
      RefAscii(s, t, d.(extra := e)) == OneDigit(s, ax).(
        ip := U16(s.ip as int + d.length as int),
        flags := SetSzpRef(s.flags.(af := adjust, cf := adjust), Rem(Lo(ax), 0x10), true))
  {
    hide ShippedTables, DecodedBy, At, Tail, SetSzpRef, U16, Lo, Hi, Word, Rem;
    ArithmeticEntry(t, d);
    AsciiEntry(t, d);
    var adjust := Rem(Lo(s.regs[AX]), 0x10) > 9 || s.flags.af;
    var ax := U16(s.regs[AX] as int + if adjust then 262 * (e as int - 1) else 0);
    QuotRemIs(Lo(s.regs[AX]), 0x10);
    QuotRemIs(Lo(ax), 0x10);
    var digit := Rem(Lo(ax), 0x10);
    HalvesOfWord(digit, Hi(ax));
    var s2 := OneDigit(s, ax).(flags := s.flags.(af := adjust, cf := adjust));
    TailIs(s2, t, d, d.(extra := e), RefOp(0, 0, digit), 1);
    assert s.regs[AX := ax][AX := Word(digit, Hi(ax))] == s.regs[AX := Word(digit, Hi(ax))];
  }

  lemma OursAsciiIs(s: State, sub: bool)
    ensures var adjust := Rem(Lo(s.regs[AX]), 0x10) > 9 || s.flags.af;
      var ax := if adjust then Add16(s.regs[AX], if sub then -0x106 else 0x106) else s.regs[AX];
      AdjustAscii(s, sub) == OneDigit(s, ax).(flags := s.flags.(af := adjust, cf := adjust))
  {
    hide Add16, Lo, Hi, Word, Rem;
  }

  lemma {:induction false} AsciiAgreesIff(s: State, t: Tables, d: Decoded)
    requires ShippedTables(t) && DecodedBy(t, d) && d.xlat == 29
    ensures Perform(s, t, d) == RefAscii(s, t, d) <==> !AsciiDiffers(s)
  {
    hide ShippedTables, DecodedBy, At, Perform, RefAscii, AdjustAscii, SetSzpRef, U16, Lo, Hi, Word, Rem,
      AluMeaning.EvenOnes;
    ArithmeticEntry(t, d);
    AsciiEntry(t, d);
    ArithmeticPerformed(s, t, d);
    AsciiDispatched(s, d);
    OursAsciiIs(s, d.extra != 0);
    RefAsciiIs(s, t, d, d.extra);
    assert d.(extra := d.extra) == d;
    var (f, al) := (s.flags, Lo(s.regs[AX]));
    QuotRemIs(al, 0x10);
    if Rem(al, 0x10) > 9 || f.af {
      DigitsDiffer(s.regs[AX]);
      OneDigitTells(s, Add16(s.regs[AX], 0x106));
      OneDigitTells(s, Add16(s.regs[AX], -0x106));
    } else {
      Unmoved(s.regs[AX]);
      DigitFlags(f.(af := false, cf := false), al % 0x10);
    }
  }

  /** What ours does for AAA is what the reference does for AAS, and the other way round, but for
      SF, ZF and PF, which ours leaves alone. */
  lemma {:induction false} AsciiIsTheOther(s: State, t: Tables, d: Decoded)
    requires ShippedTables(t) && DecodedBy(t, d) && d.xlat == 29
    ensures d.extra == 0 || d.extra == 2
    ensures var r := RefAscii(s, t, d.(extra := 2 - d.extra));
      Perform(s, t, d) == r.(flags := r.flags.(sf := s.flags.sf, zf := s.flags.zf, pf := s.flags.pf))
  {
    hide ShippedTables, DecodedBy, At, Perform, RefAscii, AdjustAscii, U16, Lo, Hi, Word, Rem, SetSzpRef;
    ArithmeticEntry(t, d);
    AsciiEntry(t, d);
    ArithmeticPerformed(s, t, d);
    AsciiDispatched(s, d);
    OursAsciiIs(s, d.extra != 0);
    RefAsciiIs(s, t, d, 2 - d.extra);
    var adjust := Rem(Lo(s.regs[AX]), 0x10) > 9 || s.flags.af;
    var ax := U16(s.regs[AX] as int + if adjust then 262 * (1 - d.extra as int) else 0);
    Unmoved(s.regs[AX]);
    SzpRestored(s.flags.(af := adjust, cf := adjust), Rem(Lo(ax), 0x10), s.flags.sf, s.flags.zf, s.flags.pf);
  }

  lemma SzpRestored(f: Flags, digit: u8, sf: bool, zf: bool, pf: bool)
    requires sf == f.sf && zf == f.zf && pf == f.pf
    ensures SetSzpRef(f, digit, true).(sf := sf, zf := zf, pf := pf) == f
  {
    hide Bit, AluMeaning.EvenOnes, U32, U8;
  }

  lemma AsciiDispatched(s: State, d: Decoded)
    requires AddressInRange(d) && d.xlat == 29
    ensures Arithmetic(s, d) == Falls(AdjustAscii(s, d.extra != 0), d)
  {
    hide AdjustAscii;
  }

  lemma OneDigitTells(s: State, ax: u16)
    ensures Lo(OneDigit(s, ax).regs[AX]) == Rem(Lo(ax), 0x10)
  {
    hide Lo, Hi, Word, Rem;
    HalvesOfWord(Rem(Lo(ax), 0x10), Hi(ax));
  }

  lemma Unmoved(ax: u16)
    ensures U16(ax as int + 0) == ax
  {
    hide Wrap;
    WrapNear(ax, 0x1_0000);
  }

  // ----- AAM and AAD

  /** CF or OF set, which the reference clears; and a zero base of AAM, whose divide error saves the
      IP behind the instruction in ours, and that of the instruction in the reference. */
  predicate MultiplyDiffers(s: State, d: Decoded) {
    s.flags.cf || s.flags.of || (d.xlat == 41 && d.data0 % 0x100 == 0)
  }

  /** r with CF and OF as in s. */
  function CarriesOf(s: State, r: State): State { r.(flags := r.flags.(cf := s.flags.cf, of := s.flags.of)) }

  lemma CarriesStay(f: Flags, x: int)
    ensures var z := SetSzpRef(f, x, false); z.cf == f.cf && z.of == f.of
  {
    hide Bit, AluMeaning.EvenOnes, U32, U8;
  }

  /** States p and r that differ in CF and OF only, cleared in r and those of s in p. */
  lemma CarriesCleared(s: State, p: State, r: State)
    requires p.flags.cf == s.flags.cf && p.flags.of == s.flags.of
    requires r == p.(flags := p.flags.(cf := false, of := false))
    ensures p == r <==> !s.flags.cf && !s.flags.of
    ensures p == CarriesOf(s, r)
  {}

  lemma {:induction false} AamValue(s: State, base: u8)
    requires base != 0
    ensures var al := Lo(s.regs[AX]);
      && al / base < 0x100 && Quot(al, base) == al / base && Rem(al, base) == al % base && U8(al / base) == al / base
      && SetFileByte(SetFileByte(s, 1, al / base), 0, al % base) == SetReg(s, AX, Word(al % base, al / base))
  {
    hide Lo, Hi, Word, Wrap, Rem, Quot;
    var al := Lo(s.regs[AX]);
    QuotRemIs(al, base);
    QuotLe(al, base);
    WrapNear(al / base, 0x100);
    HalvesOfWord(al, al / base);
    HalvesOfWord(Lo(s.regs[AX]), al / base);
  }

  lemma {:induction false} AamAgreesIff(s: State, t: Tables, d: Decoded)
    requires ShippedTables(t) && DecodedBy(t, d) && d.xlat == 41
    ensures Perform(s, t, d) == RefAam(s, t, d) <==> !MultiplyDiffers(s, d)
    ensures if d.data0 % 0x100 == 0 then Perform(s, t, d) == Interrupt(s.(ip := NextIp(s, d)), 0)
            else Perform(s, t, d) == CarriesOf(s, RefAam(s, t, d))
  {
    hide ShippedTables, DecodedBy, At, Perform, Tail, SetSzp, SetSzpRef, U16, U8, Lo, Hi, Word, Rem, Quot, SetFileByte,
      Interrupt, PcInterrupt;
    ArithmeticEntry(t, d);
    ArithmeticPerformed(s, t, d);
    AamWidth(t, d);
    QuotRemIs(d.data0, 0x100);
    LowIs(d.data0);
    var base := Lo(d.data0);
    if base == 0 {
      NothingBehind(PcInterrupt(s, t, 0), t, d.(wide := true), INT_OPCODE);
      LengthMoves(t, s.ip, d);
      SavedIpsDiffer(s, t, NextIp(s, d));
    } else {
      var al := Lo(s.regs[AX]);
      AamValue(s, base);
      var r := SetReg(s, AX, Word(al % base, al / base));
      ShiftReference.SzpAgrees(s.flags, al % base, false);
      TailIs(r, t, d, d, RefOp(0, 0, al % base), 5);
      CarriesStay(s.flags, al % base);
      CarriesCleared(s, Perform(s, t, d), RefAam(s, t, d));
    }
  }

  lemma LowIs(w: u16)
    ensures Lo(w) == w % 0x100
  {
    QuotRemIs(w, 0x100);
    hide Rem;
  }

  lemma AamWidth(t: Tables, d: Decoded)
    requires DecodedBy(t, d) && d.xlat == 41 && ShippedGroup(t, d.opcode)
    ensures !d.wide
  {
    Addressing.OpcodeBits(d.opcode);
    hide At, Rem, Quot;
  }

  lemma LengthMoves(t: Tables, ip: u16, d: Decoded)
    requires ShippedTables(t) && DecodedBy(t, d) && d.xlat == 41
    ensures U16(ip as int + d.length as int) != ip
  {
    hide At, Rem, Quot, Wrap, ShippedEntry, ShippedSizes, JumpFlag, FlagBit;
    assert ShippedGroup(t, d.opcode);
    SmallLength(2);
    WrapNear(ip as int + 2, 0x1_0000);
  }

  lemma {:induction false} AadAgreesIff(s: State, t: Tables, d: Decoded)
    requires ShippedTables(t) && DecodedBy(t, d) && d.xlat == 42
    ensures Perform(s, t, d) == RefAad(s, t, d) <==> !MultiplyDiffers(s, d)
    ensures Perform(s, t, d) == CarriesOf(s, RefAad(s, t, d))
  {
    hide ShippedTables, DecodedBy, At, Perform, Tail, SetSzp, SetSzpRef, U16, U8, Lo, Hi, Rem, Quot, Multiple, CarriesOf;
    ArithmeticEntry(t, d);
    ArithmeticPerformed(s, t, d);
    var v := U8(Multiple(Hi(s.regs[AX]), Lo(d.data0)) + Lo(s.regs[AX]) as int);
    AadValue(Lo(s.regs[AX]), Hi(s.regs[AX]), d.data0);
    ShiftReference.SzpAgrees(s.flags, v, false);
    TailIs(SetReg(s, AX, v), t, d, d.(wide := false), RefOp(0, 0, v), 5);
    CarriesStay(s.flags, v);
    CarriesCleared(s, Perform(s, t, d), RefAad(s, t, d));
  }

  lemma {:induction false} AadValue(al: u8, ah: u8, data: u16)
    ensures U8(Multiple(ah, Lo(data)) + al as int) == (al as int + data as int * ah as int) % 0x100
  {
    hide Wrap, Rem, Quot, Multiple;
    LowIs(data);
    MultipleIs(ah, Lo(data));
    var q, l := data / 0x100, data % 0x100;
    WrapIs(ah * l + al, 0x100);
    assert data == 0x100 * q + l;
    Distributes(q, l, ah);
    var y := ah * l + al;
    DivUnique(al as int + data as int * ah as int, 0x100, q * ah + y / 0x100, y % 0x100);
  }

  lemma Distributes(q: int, l: int, h: int)
    ensures (0x100 * q + l) * h == 0x100 * (q * h) + h * l
  {}

  // ----- the group

  /** The instructions of this group that leave different states: a failing division, a rotate by an
      immediate, and decimal adjustments as above. */
  predicate ArithmeticDiffers(s: State, d: Decoded, earlier: int)
    requires AddressInRange(d)
  {
    || (d.xlat == 6 && DivideFails(s, d))
    || (d.xlat == 12 && d.extra != 0 && d.reg < 4)
    || (d.xlat == 28 && DecimalDiffers(s, d, earlier))
    || (d.xlat == 29 && AsciiDiffers(s))
    || ((d.xlat == 41 || d.xlat == 42) && MultiplyDiffers(s, d))
  }

  /** Every covered instruction of the group leaves the same state exactly if it is none of these. */
  lemma {:induction false} ArithmeticAgreesIff(s: State, t: Tables, d: Decoded, earlier: int)
    requires ShippedTables(t) && DecodedBy(t, d) && InArithmetic(d.xlat) && Executable(s, t, d)
    ensures Perform(s, t, d) == RefArithmetic(s, t, d, earlier) <==> !ArithmeticDiffers(s, d, earlier)
  {
    hide ShippedTables, DecodedBy, Perform, RefIncDecReg, RefGroupFf, RefGroupF6, RefAluAcc, RefAluImm, RefAluReg,
      RefShift, RefTest, RefDecimal, RefAscii, RefAam, RefAad, DivideFails, DecimalDiffers, AsciiDiffers,
      MultiplyDiffers, RefPort, ModeAddress, RefCount, Count, ShiftReference.Comparable, RmPlace, Fetch, Low;
    match d.xlat
    case 2 => IncDecRegAgrees(s, t, d);
    case 5 => GroupFfAgrees(s, t, d);
    case 6 => GroupAgreesIff(s, t, d);
    case 7 => AluAccAgrees(s, t, d);
    case 8 => AluImmAgrees(s, t, d);
    case 9 => AluRegAgrees(s, t, d);
    case 12 => ShiftAgreesIff(s, t, d);
    case 15 => TestRegAgrees(s, t, d);
    case 28 => DecimalAgreesIff(s, t, d, earlier);
    case 29 => AsciiAgreesIff(s, t, d);
    case 41 => AamAgreesIff(s, t, d);
    case 42 => AadAgreesIff(s, t, d);
    case _ => TestAccAgrees(s, t, d);
  }
}

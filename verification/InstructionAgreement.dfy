/**
 For which decoded instructions of the ALU, F6/F7 and shift groups the emulator and the
 reference (InstructionReference) leave the same state: registers, memory, flags and IP.
 */
module InstructionAgreement {
  import opened Words
  import opened Flags
  import opened State
  import opened Strings
  import opened Alu
  import opened Decode
  import opened Execute
  import opened Run
  import opened AluReference
  import opened InstructionReference
  import BitShift
  import Shift
  import ShiftReference
  import MulDivReference
  import Interrupts
  import StackAgreement
  import AluMeaning

  // ----- operands

  lemma WordOfHalves(w: u16)
    ensures Word(Lo(w), Hi(w)) == w
  {
    hide Wrap, Rem, Quot;
    OperatorsAre();
  }

  lemma HalvesOfWord(l: u8, h: u8)
    ensures Lo(Word(l, h)) == l && Hi(Word(l, h)) == h
  {
    hide Wrap, Rem, Quot;
    OperatorsAre();
    DivUnique(Word(l, h), 0x100, h, l);
  }

  lemma RegPlaceReads(s: State, reg: u3, wide: bool)
    ensures Fetch(s, RegPlace(reg, wide), wide) == ReadRegister(s, reg, wide)
  {
    hide Lo, Hi, Word;
    WordOfHalves(s.regs[reg]);
  }

  lemma RegPlaceWrites(s: State, reg: u3, v: u16, wide: bool)
    ensures Put(s, RegPlace(reg, wide), v, wide) == WriteRegister(s, reg, v, wide)
  {
    hide Lo, Hi, Word;
    WordOfHalves(v);
    HalvesOfWord(Lo(v), Hi(s.regs[reg]));
  }

  /** The places of the reference are the operands of ours. */
  lemma {:induction false} PlacesAgree(s: State, t: State, d: Decoded, v: u16)
    requires AddressInRange(d)
    ensures Fetch(s, RmPlace(d), d.wide) == ReadRm(s, d) && Put(t, RmPlace(d), v, d.wide) == WriteRm(t, d, v)
    ensures Fetch(s, RegPlace(d.reg, d.wide), d.wide) == ReadReg(s, d)
    ensures Put(t, RegPlace(d.reg, d.wide), v, d.wide) == WriteReg(t, d, v)
  {
    hide ReadRegister, WriteRegister, RegPlace;
    RegPlaceReads(s, d.rm, d.wide);
    RegPlaceReads(s, d.reg, d.wide);
    RegPlaceWrites(t, d.rm, v, d.wide);
    RegPlaceWrites(t, d.reg, v, d.wide);
  }

  // ----- flags

  lemma KindBits(kind: u8)
    ensures kind == 0 ==> Rem(kind, 2) == 0
    ensures kind == 1 ==> Rem(kind, 2) == 1 && Rem(Quot(kind, 2), 2) == 0 && Rem(Quot(kind, 4), 2) == 0
    ensures kind == 3 ==> Rem(kind, 2) == 1 && Rem(Quot(kind, 2), 2) == 1 && Rem(Quot(kind, 4), 2) == 0
    ensures kind == 5 ==> Rem(kind, 2) == 1 && Rem(Quot(kind, 2), 2) == 0 && Rem(Quot(kind, 4), 2) == 1
  {
    hide Wrap, Rem, Quot;
    OperatorsAre();
  }

  lemma StdFlagsIs(kind: u8, f: Flags, o: RefOp, wide: bool)
    requires kind == 0 || kind == 1 || kind == 3 || kind == 5
    ensures var z := SetSzpRef(f, o.result, wide);
      StdFlags(kind, f, o, wide) == match kind { case 0 => f case 1 => z case 3 => SetAfOfArith(z, o, wide)
                                                 case _ => z.(cf := false, of := false) }
  {
    hide SetSzpRef, SetAfOfArith, Rem, Quot;
    KindBits(kind);
  }

  lemma ComputeKeepsOthers(op: AluOp, f: Flags, a: u16, b: u16, wide: bool)
    ensures SameRest(Compute(op, f, a, b, wide).flags, f)
  {
    hide Bit, SignOf, Parity8, Low, Or16, Xor16, Lo, U32, Xor;
  }

  lemma RefKeepsOthers(op: AluOp, f: Flags, a: u16, b: u16, wide: bool)
    ensures SameRest(ComputeRef(op, f, a, b, wide).flags, f)
  {
    hide Bit, AluMeaning.EvenOnes, Low, U8, U32, Xor;
  }

  lemma LogicFits(a: u16, b: u16, wide: bool)
    requires a <= Mask(wide) && b <= Mask(wide)
    ensures Or16(a, b) <= Mask(wide) && Xor16(a, b) <= Mask(wide) && And(a, b) <= Mask(wide)
  {
    Pow2Values();
    OrBound(a, b, Bits(wide));
    XorBound(a, b, Bits(wide));
    hide Or, Xor, And;
  }

  lemma LowOfOperand(v: u16, wide: bool)
    requires v <= Mask(wide)
    ensures Low(v, wide) == v
  {
    hide Rem;
    RemNear(v, if wide then 0x1_0000 else 0x100);
  }

  /** SF, ZF and PF of a logical operation, CF and OF clear, AF as it was. */
  lemma {:induction false} LogicFlags(f: Flags, v: u16, wide: bool)
    requires v <= Mask(wide)
    ensures SetLogic(f, v, wide) == SetSzpRef(f, v, wide).(cf := false, of := false)
  {
    hide SetSzp, SetSzpRef;
    ShiftReference.SzpAgrees(f, v, wide);
  }

  predicate IsLogic(extra: nat) { extra == 1 || extra == 4 || extra == 6 }

  /** What an operation of the reference leaves, with the flags of the table's entry. */
  predicate Leaves(extra: nat, f: Flags, a: u16, b: u16, wide: bool, q: AluResult)
    requires extra < 8
  {
    var r := AluSwitch(extra, f, a, b, wide);
    && r.stored == q.writes && (r.stored ==> r.value == q.value)
    && StdFlags(AluKind(extra), r.flags, r.op, wide) == q.flags
  }

  lemma {:induction false} LogicLeaves(extra: nat, f: Flags, a: u16, b: u16, wide: bool)
    requires IsLogic(extra) && extra < 8 && a <= Mask(wide) && b <= Mask(wide)
    ensures Leaves(extra, f, a, b, wide, Compute(AluOpOf(extra), f, a, b, wide))
  {
    hide StdFlags, SetSzpRef, SetAfOfArith, SetLogic, AddWith, SubWith, Low, U32, Or16, Xor16, And;
    var v: u16 := if extra == 1 then Or16(a, b) else if extra == 4 then And(a, b) else Xor16(a, b);
    LogicFits(a, b, wide);
    LowOfOperand(v, wide);
    LogicFlags(f, v, wide);
    StdFlagsIs(5, f, RefOp(b, a, v), wide);
  }

  lemma {:induction false} AddLeaves(f: Flags, a: u16, b: u16, wide: bool)
    ensures Leaves(0, f, a, b, wide, ComputeRef(ADD, f, a, b, wide))
  {
    hide StdFlags, SetSzpRef, SetAfOfArith, Low, U32, Or16, Xor16, And;
    var r := AluSwitch(0, f, a, b, wide);
    StdFlagsIs(AluKind(0), r.flags, r.op, wide);
  }

  lemma {:induction false} AdcLeaves(f: Flags, a: u16, b: u16, wide: bool)
    ensures Leaves(2, f, a, b, wide, ComputeRef(ADC, f, a, b, wide))
  {
    hide StdFlags, SetSzpRef, SetAfOfArith, Low, U32, Or16, Xor16, And;
    var r := AluSwitch(2, f, a, b, wide);
    StdFlagsIs(AluKind(2), r.flags, r.op, wide);
  }

  lemma {:induction false} SbbLeaves(f: Flags, a: u16, b: u16, wide: bool)
    ensures Leaves(3, f, a, b, wide, ComputeRef(SBB, f, a, b, wide))
  {
    hide StdFlags, SetSzpRef, SetAfOfArith, Low, U32, Or16, Xor16, And;
    var r := AluSwitch(3, f, a, b, wide);
    StdFlagsIs(AluKind(3), r.flags, r.op, wide);
  }

  lemma {:induction false} SubLeaves(f: Flags, a: u16, b: u16, wide: bool)
    ensures Leaves(5, f, a, b, wide, ComputeRef(SUB, f, a, b, wide))
  {
    hide StdFlags, SetSzpRef, SetAfOfArith, Low, U32, Or16, Xor16, And;
    var r := AluSwitch(5, f, a, b, wide);
    StdFlagsIs(AluKind(5), r.flags, r.op, wide);
  }

  lemma {:induction false} CmpLeaves(f: Flags, a: u16, b: u16, wide: bool)
    ensures Leaves(7, f, a, b, wide, ComputeRef(CMP, f, a, b, wide))
  {
    hide StdFlags, SetSzpRef, SetAfOfArith, Low, U32, Or16, Xor16, And;
    var r := AluSwitch(7, f, a, b, wide);
    StdFlagsIs(AluKind(7), r.flags, r.op, wide);
  }

  lemma {:induction false} ArithmeticLeaves(extra: nat, f: Flags, a: u16, b: u16, wide: bool)
    requires !IsLogic(extra) && extra < 8
    ensures Leaves(extra, f, a, b, wide, ComputeRef(AluOpOf(extra), f, a, b, wide))
  {
    hide StdFlags, SetSzpRef, SetAfOfArith, Low, U32, Or16, Xor16, And, AluSwitch, ComputeRef;
    if extra == 0 { AddLeaves(f, a, b, wide); }
    else if extra == 2 { AdcLeaves(f, a, b, wide); }
    else if extra == 3 { SbbLeaves(f, a, b, wide); }
    else if extra == 5 { SubLeaves(f, a, b, wide); }
    else { CmpLeaves(f, a, b, wide); }
  }

  lemma SameResult(q: AluResult, r: AluResult, f: Flags)
    requires Agree(q, r) && SameRest(q.flags, f) && SameRest(r.flags, f)
    ensures q == r
  {}

  /** Operation by operation: the value, whether it is stored, and all flags. */
  lemma {:induction false} SwitchAgrees(extra: nat, f: Flags, a: u16, b: u16, wide: bool)
    requires extra < 8 && a <= Mask(wide) && b <= Mask(wide)
    ensures Leaves(extra, f, a, b, wide, Compute(AluOpOf(extra), f, a, b, wide))
  {
    hide Leaves, Compute, ComputeRef, Agree, SameRest;
    if IsLogic(extra) {
      LogicLeaves(extra, f, a, b, wide);
    } else {
      var op := AluOpOf(extra);
      ArithmeticLeaves(extra, f, a, b, wide);
      ComputeAgrees(op, f, a, b, wide);
      ComputeKeepsOthers(op, f, a, b, wide);
      RefKeepsOthers(op, f, a, b, wide);
      SameResult(Compute(op, f, a, b, wide), ComputeRef(op, f, a, b, wide), f);
    }
  }

  // ----- lengths

  /** What the decoder takes from the tables, and from the opcode's low bits. */
  predicate DecodedBy(t: Tables, d: Decoded) {
    && AddressInRange(d) && d.reg4bit == Rem(d.opcode, 8)
    && d.xlat == At(t, XLAT_OPCODE, d.opcode) && d.extra == At(t, XLAT_SUBFUNCTION, d.opcode)
    && d.wide == (Rem(d.opcode, 2) == 1) && d.direction == (Rem(Quot(d.opcode, 2), 2) == 1)
    && d.length == U8(At(t, BASE_INST_SIZE, d.opcode) as int
                      + (if At(t, I_MOD_SIZE, d.opcode) != 0 then DisplacementSize(d.mod, d.rm) else 0) as int
                      + ImmediateSize(t, d.opcode, d.wide) as int)
  }

  lemma DecodedByTables(s: State, t: Tables)
    ensures DecodedBy(t, DecodeAt(s, t))
  {
    hide At, Rem, Quot, U8, EffectiveAddress, Read16, ModOf, SignExtend;
    DecodedInRange(s, t);
  }

  lemma SmallLength(n: nat)
    requires n < 0x100
    ensures U8(n) == n
  {
    WrapNear(n, 0x100);
    hide Wrap;
  }

  /** An r/m form without immediate has one length in both. */
  lemma {:induction false} LengthsAgree(t: Tables, d: Decoded, opcode: u8, kind: u8, own: u8, size: u8)
    requires DecodedBy(t, d) && Entry(t, d.opcode, own, size, 0, 1) && size <= 3
    requires Entry(t, opcode, kind, 2, 0, 1)
    ensures d.length as int - size as int == RefLength(t, d, opcode) - 2 == DisplacementSize(d.mod, d.rm) as int
  {
    hide At, U8, Rem, Quot;
    SmallLength(size as int + DisplacementSize(d.mod, d.rm) as int);
  }

  // ----- ADD to MOV

  lemma PutCommutes(s: State, p: Place, v: u16, wide: bool, f: Flags, ip: u16)
    ensures Put(s.(flags := f, ip := ip), p, v, wide) == Put(s, p, v, wide).(flags := f, ip := ip)
    ensures Put(s.(flags := f), p, v, wide) == Put(s, p, v, wide).(flags := f)
    ensures Put(s, p, v, wide).flags == s.flags && Put(s, p, v, wide).ip == s.ip
  {
    hide Store, Lo, Hi, Word;
  }

  /** The state behind an operation on a place: ours. */
  function Performed(s: State, to: Place, q: AluResult, wide: bool, length: int): State {
    (if q.writes then Put(s, to, q.value, wide) else s).(flags := q.flags, ip := U16(s.ip as int + length))
  }

  lemma FetchFits(s: State, p: Place, wide: bool)
    ensures Fetch(s, p, wide) <= Mask(wide)
  {
    hide Lo, Hi, Read16;
  }

  /** Cases 7 to 9 perform the operation of arithmetic.h. */
  lemma {:induction false} RefAluPerforms(s: State, t: Tables, d: Decoded, extra: nat, to: Place, b: u16, opcode: u8)
    requires extra < 8 && b <= Mask(d.wide) && At(t, STD_FLAGS, opcode) == AluKind(extra)
    ensures RefAlu(s, t, d, extra, to, b, opcode) == Performed(s, to,
      Compute(AluOpOf(extra), s.flags, Fetch(s, to, d.wide), b, d.wide), d.wide, RefLength(t, d, opcode))
  {
    hide Fetch, Put, Compute, StdFlags, AluSwitch, RefLength, U16, At, AluKind;
    var a := Fetch(s, to, d.wide);
    var (r, q) := (AluSwitch(extra, s.flags, a, b, d.wide), Compute(AluOpOf(extra), s.flags, a, b, d.wide));
    FetchFits(s, to, d.wide);
    SwitchAgrees(extra, s.flags, a, b, d.wide);
    PutCommutes(s, to, r.value, d.wide, r.flags, s.ip);
  }

  lemma MovPerforms(s: State, t: Tables, d: Decoded, to: Place, b: u16, opcode: u8)
    requires At(t, STD_FLAGS, opcode) == 0
    ensures RefAlu(s, t, d, 8, to, b, opcode)
         == Performed(s, to, AluResult(s.flags, b, true), d.wide, RefLength(t, d, opcode))
  {
    hide Fetch, Put, RefLength, U16, At;
    StdFlagsIs(0, s.flags, RefOp(b, Fetch(s, to, d.wide), b), d.wide);
    PutCommutes(s, to, b, d.wide, s.flags, s.ip);
  }

  /** The body of ours for xlat 9, followed by the IP update. */
  lemma {:induction false} AluRegPerforms(s: State, t: Tables, d: Decoded)
    requires AddressInRange(d) && d.xlat == 9 && d.extra <= 8
    ensures var (reg, rm) := (RegPlace(d.reg, d.wide), RmPlace(d));
      var (to, from) := if d.direction then (reg, rm) else (rm, reg);
      var (a, b) := (Fetch(s, to, d.wide), Fetch(s, from, d.wide));
      Perform(s, t, d) == Performed(s, to,
        if d.extra == 8 then AluResult(s.flags, b, true) else Compute(AluOpOf(d.extra), s.flags, a, b, d.wide),
        d.wide, d.length)
  {
    hide ReadReg, ReadRm, WriteReg, WriteRm, Fetch, Put, Compute, RegPlace, RmPlace, U16;
    var (reg, rm) := (RegPlace(d.reg, d.wide), RmPlace(d));
    var (to, from) := if d.direction then (reg, rm) else (rm, reg);
    var (a, b) := (Fetch(s, to, d.wide), Fetch(s, from, d.wide));
    PlacesAgree(s, s, d, 0);
    var q := if d.extra == 8 then AluResult(s.flags, b, true) else Compute(AluOpOf(d.extra), s.flags, a, b, d.wide);
    PlacesAgree(s, s.(flags := q.flags), d, q.value);
    PutCommutes(s, to, q.value, d.wide, q.flags, s.ip);
  }

  lemma AluEntry(t: Tables, d: Decoded)
    requires ShippedTables(t) && DecodedBy(t, d) && d.xlat == 9
    ensures AddressInRange(d) && d.extra <= 8 && Entry(t, d.opcode, AluKind(d.extra), 2, 0, 1)
    ensures d.extra == 8 ==> At(t, STD_FLAGS, d.opcode) == 0
  {
    hide At, U8, Rem, Quot, ImmediateSize;
    assert ShippedEntry(t, d.opcode);
  }

  /** ADD, OR, ADC, SBB, AND, SUB, XOR, CMP and MOV between registers and memory, as decoded:
      both emulators leave the same state. */
  lemma {:induction false} AluRegAgrees(s: State, t: Tables, d: Decoded)
    requires ShippedTables(t) && DecodedBy(t, d) && d.xlat == 9
    ensures d.extra <= 8 && Perform(s, t, d) == RefAluReg(s, t, d)
  {
    hide At, AluKind, RefAlu, Perform, Compute, Performed, RegPlace, RmPlace, Fetch, RefLength, DecodedBy;
    AluEntry(t, d);
    var (reg, rm) := (RegPlace(d.reg, d.wide), RmPlace(d));
    var (to, from) := if d.direction then (reg, rm) else (rm, reg);
    var b := Fetch(s, from, d.wide);
    LengthsAgree(t, d, d.opcode, AluKind(d.extra), AluKind(d.extra), 2);
    AluRegPerforms(s, t, d);
    if d.extra == 8 {
      MovPerforms(s, t, d, to, b, d.opcode);
    } else {
      FetchFits(s, from, d.wide);
      RefAluPerforms(s, t, d, d.extra, to, b, d.opcode);
    }
  }

  // ----- the same with an immediate

  lemma HalfMod(x: nat, p: nat)
    requires p > 0
    ensures x % (2 * p) == 2 * (x / 2 % p) + x % 2
  {
    var q, r, b := x / 2 / p, x / 2 % p, x % 2;
    assert x / 2 == p * q + r && (2 * p) * q == 2 * (p * q);
    DivUnique(x, 2 * p, q, 2 * r + b);
  }

  lemma {:induction false} AndOnes(x: nat, n: nat)
    ensures And(x, Pow2(n) - 1) == x % Pow2(n)
    decreases n
  {
    if n == 0 {
      assert Pow2(n) == 1 && And(x, 0) == 0;
    } else {
      var h := Pow2(n - 1);
      AndOnes(x / 2, n - 1);
      OnesStep(x, h);
      assert Pow2(n) == 2 * h;
      hide *;
    }
  }

  lemma OnesStep(x: nat, h: nat)
    requires h > 0 && And(x / 2, h - 1) == x / 2 % h
    ensures And(x, 2 * h - 1) == x % (2 * h)
  {
    hide And;
    AndHalves(x, 2 * h - 1);
    HalfMod(x, h);
    assert (2 * h - 1) / 2 == h - 1;
  }

  lemma AndHalves(x: nat, y: nat)
    requires y % 2 == 1
    ensures And(x, y) == 2 * And(x / 2, y / 2) + x % 2
  {}

  lemma {:induction false} MaskIsCast(v: u16, wide: bool)
    ensures And(v, Mask(wide)) == if wide then v else Lo(v)
  {
    hide And, Rem;
    Pow2Values();
    AndOnes(v, Bits(wide));
    QuotRemIs(v, 0x100);
  }

  /** (uint16_t)(char) and its low byte. */
  lemma SignExtension(b: u8)
    ensures U16(S8(b)) == SignExtend(b) && Lo(SignExtend(b)) == b
  {
    hide Wrap, Rem, Quot;
    OperatorsAre();
  }

  /** The immediate of the reference, through its scratch register. */
  lemma {:induction false} ImmediatesAgree(data: u16, wide: bool, byteImm: bool)
    requires !wide ==> byteImm
    ensures var scratch := if byteImm then U16(S8(Lo(data))) else data;
      && (if wide then scratch else Lo(scratch)) == And(if byteImm then SignExtend(Lo(data)) else data, Mask(wide))
      && (!wide ==> Lo(scratch) == And(data, Mask(wide)))
  {
    hide And, U16, S8, SignExtend, Lo;
    SignExtension(Lo(data));
    MaskIsCast(data, wide);
    MaskIsCast(if byteImm then SignExtend(Lo(data)) else data, wide);
  }

  /** The body of ours on an r/m operand and an immediate. */
  lemma {:induction false} AluImmPerforms(s: State, d: Decoded, op: nat, imm: u16, length: int)
    requires AddressInRange(d) && op < 8
    ensures var r := AluImm(s, d, op, imm);
      r.(ip := U16(r.ip as int + length)) == Performed(s, RmPlace(d),
        Compute(AluOpOf(op), s.flags, Fetch(s, RmPlace(d), d.wide), And(imm, Mask(d.wide)), d.wide), d.wide, length)
  {
    hide ReadRm, WriteRm, Fetch, Put, Compute, RmPlace, U16, And;
    PlacesAgree(s, s, d, 0);
    var q := Compute(AluOpOf(op), s.flags, Fetch(s, RmPlace(d), d.wide), And(imm, Mask(d.wide)), d.wide);
    PlacesAgree(s, s.(flags := q.flags), d, q.value);
    PutCommutes(s, RmPlace(d), q.value, d.wide, q.flags, s.ip);
  }

  /** What is performed with IP already moved on. */
  lemma PerformedLater(s: State, to: Place, q: AluResult, wide: bool, m: int, n: int)
    ensures Performed(s.(ip := U16(s.ip as int + m)), to, q, wide, n) == Performed(s, to, q, wide, m + n)
  {
    hide U16, Put;
    Add16Twice(s.ip, m, n);
    PutCommutes(s, to, q.value, wide, s.flags, U16(s.ip as int + m));
  }

  lemma FetchIgnoresIp(s: State, p: Place, wide: bool, ip: u16)
    ensures Fetch(s.(ip := ip), p, wide) == Fetch(s, p, wide)
  {
    hide Lo, Hi, Read16;
  }

  /** Cases 7 and 8 of the reference. */
  lemma {:induction false} RefAluImmPerforms(s: State, t: Tables, d: Decoded, extra: nat, data: u16)
    requires ShippedTables(t) && AddressInRange(d) && extra < 8
    ensures var byteImm := d.direction || !d.wide;
      var scratch := if byteImm then U16(S8(Lo(data))) else data;
      RefAluImm(s, t, d, extra, data) == Performed(s, RmPlace(d),
        Compute(AluOpOf(extra), s.flags, Fetch(s, RmPlace(d), d.wide), if d.wide then scratch else Lo(scratch), d.wide),
        d.wide, (if byteImm then 1 else 2) + RefLength(t, d, 8 * extra))
  {
    hide Fetch, Compute, RmPlace, U16, S8, Lo, RefAlu, RefLength, Performed, At;
    var byteImm := d.direction || !d.wide;
    var scratch := if byteImm then U16(S8(Lo(data))) else data;
    var b := if d.wide then scratch else Lo(scratch);
    var to, n := RmPlace(d), if byteImm then 1 else 2;
    var s1 := s.(ip := U16(s.ip as int + n));
    FetchIgnoresIp(s, to, d.wide, s1.ip);
    RefAluPerforms(s1, t, d, extra, to, b, 8 * extra);
    PerformedLater(s, to, Compute(AluOpOf(extra), s.flags, Fetch(s, to, d.wide), b, d.wide), d.wide, n,
      RefLength(t, d, 8 * extra));
  }

  lemma {:induction false} OpcodeLength(t: Tables, d: Decoded, extra: nat)
    requires ShippedTables(t) && extra < 8
    ensures At(t, STD_FLAGS, 8 * extra) == AluKind(extra)
    ensures RefLength(t, d, 8 * extra) == 2 + DisplacementSize(d.mod, d.rm) as int
  {
    hide At, AluKind;
    assert Entry(t, 8 * extra, AluKind(extra), 2, 0, 1);
    hide ShippedEntry;
  }

  lemma {:induction false} ImmLength(t: Tables, d: Decoded)
    requires ShippedTables(t) && DecodedBy(t, d) && d.xlat == 8
    ensures var byteImm := d.direction || !d.wide;
      U8(d.length as int + (if byteImm then 1 else 2) - (if d.wide then 2 else 1))
        == (if byteImm then 1 else 2) + RefLength(t, d, 8 * d.reg)
  {
    hide At, U8, Rem, Quot, AluKind;
    assert ShippedEntry(t, d.opcode);
    OpcodeLength(t, d, d.reg);
    var n: nat := 2 + DisplacementSize(d.mod, d.rm);
    SmallLength(n + if d.wide then 2 else 1);
    SmallLength(n + if d.direction || !d.wide then 1 else 2);
  }

  /** The ALU group on an r/m operand and an immediate (80 to 83), as decoded. */
  lemma {:induction false} AluImmAgrees(s: State, t: Tables, d: Decoded)
    requires ShippedTables(t) && DecodedBy(t, d) && d.xlat == 8
    ensures Perform(s, t, d) == RefAluImm(s, t, d, d.reg, d.data2)
  {
    hide At, AluKind, AluImm, RefAluImm, Compute, Performed, Fetch, RefLength, ShippedTables, And, U16, U8, Lo, S8,
      SignExtend, RmPlace, Rem, Quot;
    var byteImm := d.direction || !d.wide;
    var imm := if byteImm then SignExtend(Lo(d.data2)) else d.data2;
    ImmLength(t, d);
    ImmediatesAgree(d.data2, d.wide, byteImm);
    AluImmPerforms(s, d, d.reg, imm, (if byteImm then 1 else 2) + RefLength(t, d, 8 * d.reg));
    RefAluImmPerforms(s, t, d, d.reg, d.data2);
  }

  lemma {:induction false} AccEntry(t: Tables, d: Decoded)
    requires ShippedTables(t) && DecodedBy(t, d) && d.xlat == 7
    ensures d.extra < 8 && !d.direction
    ensures var n := RefLength(t, d.(mod := 3, rm := AX), 8 * d.extra);
      d.length == (if d.wide then 3 else 2) == (if d.wide then 2 else 1) + n - 1
  {
    hide At, U8, AluKind, Rem, Quot;
    assert ShippedEntry(t, d.opcode);
    OpcodeLength(t, d.(mod := 3, rm := AX), d.extra);
    SmallLength(1 + if d.wide then 2 else 1);
    LowBitsOfAcc(d.opcode, d.extra);
  }

  lemma LowBitsOfAcc(op: u8, e: nat)
    requires op == 8 * e + 4 || op == 8 * e + 5
    ensures Rem(Quot(op, 2), 2) == 0
  {
    hide Wrap, Rem, Quot;
    OperatorsAre();
  }

  /** The ALU group on AL or AX and an immediate (04, 05 to 3C, 3D), as decoded. */
  lemma {:induction false} AluAccAgrees(s: State, t: Tables, d: Decoded)
    requires ShippedTables(t) && DecodedBy(t, d) && d.xlat == 7
    ensures d.extra < 8 && Perform(s, t, d) == RefAluAcc(s, t, d)
  {
    hide At, AluKind, AluImm, RefAluImm, Compute, Performed, Fetch, RefLength, ShippedTables, And, U16, U8, Lo, S8,
      SignExtend, RmPlace, Rem, Quot;
    AccEntry(t, d);
    var d1 := d.(mod := 3, rm := AX);
    var s1 := s.(ip := U16(s.ip as int - 1));
    ImmediatesAgree(d.data0, d.wide, !d.wide);
    AluImmPerforms(s, d1, d.extra, d.data0, d.length);
    RefAluImmPerforms(s1, t, d1, d.extra, d.data0);
    FetchIgnoresIp(s, RmPlace(d1), d.wide, s1.ip);
    PerformedLater(s, RmPlace(d1),
      Compute(AluOpOf(d.extra), s.flags, Fetch(s, RmPlace(d1), d.wide), And(d.data0, Mask(d.wide)), d.wide), d.wide, -1,
      d.length as int + 1);
  }

  // ----- TEST, NOT, NEG, MUL, IMUL, DIV, IDIV

  lemma {:induction false} GroupEntry(t: Tables, d: Decoded)
    requires ShippedTables(t) && DecodedBy(t, d) && d.xlat == 6
    ensures AddressInRange(d) && d.direction && 2 <= d.length <= 4
    ensures At(t, STD_FLAGS, d.opcode) == 0
    ensures d.length == RefLength(t, d, d.opcode)
         == RefLength(t, d, SHIFTED_OPCODE) == RefLength(t, d, TEST_OPCODE) == RefLength(t, d, NEG_OPCODE)
    ensures d.length + (if d.wide then 2 else 1) == U8(d.length as int + (if d.wide then 2 else 1))
    ensures At(t, STD_FLAGS, SHIFTED_OPCODE) == 1 && At(t, STD_FLAGS, TEST_OPCODE) == 5
    ensures At(t, STD_FLAGS, NEG_OPCODE) == 3
  {
    hide At, U8, Rem, Quot, RefLength;
    assert ShippedEntry(t, d.opcode);
    LengthsAgree(t, d, d.opcode, 0, 0, 2);
    OpcodeLength(t, d, 2);
    OpcodeLength(t, d, 4);
    OpcodeLength(t, d, 5);
    SmallLength(d.length as int + if d.wide then 2 else 1);
    GroupDirection(d.opcode);
  }

  lemma GroupDirection(op: u8)
    requires op == 0xF6 || op == 0xF7
    ensures Rem(Quot(op, 2), 2) == 1
  {
    hide Wrap, Rem, Quot;
    OperatorsAre();
  }

  /** What ours leaves for a body without a jump. */
  lemma FallsPerformed(s: State, t: Tables, d: Decoded)
    requires AddressInRange(d) && d.xlat == 6 && !GroupF6(s, d).jumped
    ensures var o := GroupF6(s, d); Perform(s, t, d) == o.s.(ip := U16(o.s.ip as int + o.length as int))
  {
    hide GroupF6;
  }

  lemma {:induction false} TestAgrees(s: State, t: Tables, d: Decoded)
    requires ShippedTables(t) && DecodedBy(t, d) && d.xlat == 6 && d.reg == 0
    ensures Perform(s, t, d) == RefGroupF6(s, t, d)
  {
    hide ShippedTables, DecodedBy, At, SetLogic, SetSzpRef, StdFlags, Fetch, ReadRm, RmPlace, RefLength, U16, U8, Low,
      Lo, And, Perform;
    GroupEntry(t, d);
    FallsPerformed(s, t, d);
    var v, n := ReadRm(s, d), if d.wide then 2 else 1;
    var imm := Low(d.data2, d.wide);
    PlacesAgree(s, s, d, 0);
    FetchFits(s, RmPlace(d), d.wide);
    MaskIsCast(d.data2, d.wide);
    LowIsCast(d.data2, d.wide);
    LogicFlags(s.flags, And(v, imm), d.wide);
    StdFlagsIs(5, s.flags, RefOp(imm, v, And(v, imm)), d.wide);
    Add16Twice(s.ip, n, RefLength(t, d, TEST_OPCODE));
  }

  lemma LowIsCast(v: u16, wide: bool)
    ensures Low(v, wide) == if wide then v else Lo(v)
  {
    hide Rem;
    RemNear(v, 0x1_0000);
  }

  lemma {:induction false} NotAgrees(s: State, t: Tables, d: Decoded)
    requires ShippedTables(t) && DecodedBy(t, d) && d.xlat == 6 && d.reg == 2
    ensures Perform(s, t, d) == RefGroupF6(s, t, d)
  {
    hide ShippedTables, DecodedBy, At, StdFlags, Fetch, Put, ReadRm, WriteRm, RmPlace, RefLength, U16, U8, U32, Low,
      Perform;
    GroupEntry(t, d);
    FallsPerformed(s, t, d);
    var v := ReadRm(s, d);
    ReadRmFits(s, d);
    PlacesAgree(s, s, d, Mask(d.wide) - v);
    Complement(v, d.wide);
    PutCommutes(s, RmPlace(d), Mask(d.wide) - v, d.wide, s.flags, s.ip);
    StdFlagsIs(0, s.flags, RefOp(v, v, 0), d.wide);
  }

  lemma Complement(v: u16, wide: bool)
    requires v <= Mask(wide)
    ensures Low(U32(-1 - (v as int)), wide) == Mask(wide) - v
  {
    hide Wrap, Rem, Quot;
    OperatorsAre();
    WrapNear(-1 - (v as int), 0x1_0000_0000);
  }

  lemma {:induction false} NegLeaves(f: Flags, v: u16, wide: bool)
    requires v <= Mask(wide)
    ensures var (q, r) := (Neg(f, v, wide), Low(U32(-(v as int)), wide));
      q.value == r && q.flags == StdFlags(3, f.(cf := r > 0), RefOp(v, 0, r), wide)
  {
    hide Neg, NegRef, StdFlags, Low, U32, Agree, SameRest;
    NegAgrees(f, v, wide);
    NegRefLeaves(f, v, wide);
    NegKeepsOthers(f, v, wide);
    SameResult(Neg(f, v, wide), NegRef(f, v, wide), f);
  }

  lemma {:induction false} NegRefLeaves(f: Flags, v: u16, wide: bool)
    ensures var (q, r) := (NegRef(f, v, wide), Low(U32(-(v as int)), wide));
      q.value == r && q.flags == StdFlags(3, f.(cf := r > 0), RefOp(v, 0, r), wide)
  {
    hide StdFlags, SetSzpRef, SetAfOfArith, Low, U32;
    var r := Low(U32(-(v as int)), wide);
    StdFlagsIs(3, f.(cf := r > 0), RefOp(v, 0, r), wide);
  }

  lemma NegKeepsOthers(f: Flags, v: u16, wide: bool)
    ensures SameRest(Neg(f, v, wide).flags, f) && SameRest(NegRef(f, v, wide).flags, f)
  {
    hide Bit, SignOf, Parity8, AluMeaning.EvenOnes, Low, Lo, U8, U32, Xor;
  }

  lemma {:induction false} NegInstructionAgrees(s: State, t: Tables, d: Decoded)
    requires ShippedTables(t) && DecodedBy(t, d) && d.xlat == 6 && d.reg == 3
    ensures Perform(s, t, d) == RefGroupF6(s, t, d)
  {
    hide ShippedTables, DecodedBy, At, StdFlags, Fetch, Put, ReadRm, WriteRm, RmPlace, RefLength, U16, U8, U32, Low,
      Neg, Perform;
    GroupEntry(t, d);
    FallsPerformed(s, t, d);
    var v := ReadRm(s, d);
    var q := Neg(s.flags, v, d.wide);
    var r := Low(U32(-(v as int)), d.wide);
    PlacesAgree(s, s.(flags := q.flags), d, r);
    FetchFits(s, RmPlace(d), d.wide);
    NegLeaves(s.flags, v, d.wide);
    PutCommutes(s, RmPlace(d), r, d.wide, q.flags, s.ip);
    PutCommutes(s, RmPlace(d), r, d.wide, s.flags.(cf := r > 0), s.ip);
  }

  lemma {:induction false} MultiplyLeaves(s: State, t: Tables, d: Decoded, v: u16, signed: bool)
    requires At(t, STD_FLAGS, SHIFTED_OPCODE) == 1
    ensures RefMultiply(s, t, d, v, signed)
         == SetProduct(s, MulDivReference.MulRef(s.flags, s.regs[AX], s.regs[DX], v, d.wide, signed))
              .(ip := U16(s.ip as int + RefLength(t, d, SHIFTED_OPCODE)))
  {
    hide At, StdFlags, SetSzpRef, RefLength, U16, U32, S32, Times, MulDivReference.Cast;
    var ax := s.regs[AX];
    var result := S32(U32(Times(MulDivReference.Cast(ax, d.wide, signed), MulDivReference.Cast(v, d.wide, signed))));
    var over := result != MulDivReference.Cast(result, d.wide, signed);
    StdFlagsIs(1, s.flags.(cf := over, of := over), RefOp(0, 0, result), d.wide);
  }

  lemma {:induction false} MultiplyAgrees(s: State, t: Tables, d: Decoded)
    requires ShippedTables(t) && DecodedBy(t, d) && d.xlat == 6 && (d.reg == 4 || d.reg == 5)
    ensures Perform(s, t, d) == RefGroupF6(s, t, d)
  {
    hide ShippedTables, DecodedBy, At, Fetch, ReadRm, RmPlace, RefLength, RefMultiply, U16, Mul, Imul, Perform,
      MulDivReference.MulRef;
    GroupEntry(t, d);
    FallsPerformed(s, t, d);
    ReadRmFits(s, d);
    PlacesAgree(s, s, d, 0);
    var v := ReadRm(s, d);
    MultiplyLeaves(s, t, d, v, d.reg == 5);
    if d.reg == 4 {
      MulDivReference.MulAgrees(s.flags, s.regs[AX], s.regs[DX], v, d.wide);
    } else {
      MulDivReference.ImulAgrees(s.flags, s.regs[AX], s.regs[DX], v, d.wide);
    }
  }

  /** The divisor is 0 or the quotient does not fit (see DivMeaning and IdivMeaning). */
  predicate DivideFails(s: State, d: Decoded)
    requires AddressInRange(d)
  {
    var v, ax, dx := ReadRm(s, d), s.regs[AX], s.regs[DX];
    (d.reg == 6 && Div(ax, dx, v, d.wide).DivideError?) || (d.reg == 7 && Idiv(ax, dx, v, d.wide).DivideError?)
  }

  /** INT 0 of the reference leaves the tail nothing to add. */
  lemma {:induction false} ErrorLeaves(s: State, t: Tables, d: Decoded)
    requires ShippedTables(t)
    ensures RefDivide(s, t, d, DivideError) == PcInterrupt(s, t, 0)
  {
    hide At, PcInterrupt, StdFlags, Wrap, Rem, Quot, ShippedSizes, ShippedGroup, JumpFlag, FlagBit;
    StdFlagsIs(0, PcInterrupt(s, t, 0).flags, RefOp(0, 0, 0), true);
    assert RefLength(t, d.(wide := true), INT_OPCODE) == 0 by { hide ShippedEntry; }
    WrapNear(PcInterrupt(s, t, 0).ip, 0x1_0000);
  }

  lemma {:induction false} QuotientLeaves(s: State, t: Tables, d: Decoded, q: Quotient)
    requires At(t, STD_FLAGS, d.opcode) == 0 && q.Quotient?
    ensures RefDivide(s, t, d, q) == SetReg(SetReg(s, AX, q.ax), DX, q.dx).(
      ip := U16(s.ip as int + RefLength(t, d, d.opcode)))
  {
    hide At, StdFlags, RefLength, U16;
    StdFlagsIs(0, s.flags, RefOp(0, 0, 0), d.wide);
  }

  /** The result of a division in both. */
  function DivisionOf(s: State, d: Decoded): Quotient
    requires AddressInRange(d)
  {
    var v, ax, dx := ReadRm(s, d), s.regs[AX], s.regs[DX];
    if d.reg == 6 then Div(ax, dx, v, d.wide) else Idiv(ax, dx, v, d.wide)
  }

  lemma {:induction false} RefDivides(s: State, t: Tables, d: Decoded)
    requires AddressInRange(d) && d.direction && (d.reg == 6 || d.reg == 7)
    ensures RefGroupF6(s, t, d) == RefDivide(s, t, d, DivisionOf(s, d))
  {
    hide Fetch, ReadRm, RmPlace, RefDivide, Div, Idiv, MulDivReference.DivRef, MulDivReference.IdivRef;
    ReadRmFits(s, d);
    PlacesAgree(s, s, d, 0);
    var v := ReadRm(s, d);
    if d.reg == 6 {
      MulDivReference.DivAgrees(s.regs[AX], s.regs[DX], v, d.wide);
    } else {
      MulDivReference.IdivAgrees(s.regs[AX], s.regs[DX], v, d.wide);
    }
  }

  lemma {:induction false} OursDivides(s: State, t: Tables, d: Decoded)
    requires AddressInRange(d) && d.xlat == 6 && (d.reg == 6 || d.reg == 7)
    ensures var q := DivisionOf(s, d);
      Perform(s, t, d) == if q.DivideError? then Interrupt(s.(ip := NextIp(s, d)), 0)
                          else SetReg(SetReg(s, AX, q.ax), DX, q.dx).(ip := U16(s.ip as int + d.length as int))
  {
    hide ReadRm, Div, Idiv, Interrupt, U16;
  }

  lemma {:induction false} SavedIpsDiffer(s: State, t: Tables, x: u16)
    requires x != s.ip
    ensures Interrupt(s.(ip := x), 0) != PcInterrupt(s, t, 0)
  {
    hide Interrupt, PcInterrupt, Interrupts.SameOutside, Interrupts.FrameWord, Pack, Read16, Add16;
    Interrupts.InterruptEffect(s.(ip := x), 0);
    StackAgreement.SavesIp(s, t, 0);
  }

  /** A divide error saves the IP behind the instruction in ours, and that of the instruction
      in the reference. */
  lemma {:induction false} DivideErrors(s: State, t: Tables, d: Decoded)
    requires ShippedTables(t) && DecodedBy(t, d) && d.xlat == 6 && DivideFails(s, d)
    ensures Perform(s, t, d) == Interrupt(s.(ip := NextIp(s, d)), 0)
    ensures RefGroupF6(s, t, d) == PcInterrupt(s, t, 0)
    ensures StackAgreement.Plain(s.flags) ==> RefGroupF6(s, t, d) == Interrupt(s, 0)
    ensures Perform(s, t, d) != RefGroupF6(s, t, d)
  {
    hide ShippedTables, DecodedBy, At, RefGroupF6, Perform, Interrupt, PcInterrupt, RefDivide, ReadRm, Div, Idiv,
      RefLength, U8;
    GroupEntry(t, d);
    RefDivides(s, t, d);
    OursDivides(s, t, d);
    ErrorLeaves(s, t, d);
    WrapNear(s.ip as int + d.length as int, 0x1_0000);
    SavedIpsDiffer(s, t, NextIp(s, d));
    if StackAgreement.Plain(s.flags) { StackAgreement.InterruptsAgree(s, t, 0); }
  }

  lemma {:induction false} DivideAgrees(s: State, t: Tables, d: Decoded)
    requires ShippedTables(t) && DecodedBy(t, d) && d.xlat == 6 && (d.reg == 6 || d.reg == 7) && !DivideFails(s, d)
    ensures Perform(s, t, d) == RefGroupF6(s, t, d)
  {
    hide ShippedTables, DecodedBy, At, RefGroupF6, Perform, Interrupt, RefDivide, ReadRm, Div, Idiv, RefLength, U8, U16;
    GroupEntry(t, d);
    RefDivides(s, t, d);
    OursDivides(s, t, d);
    QuotientLeaves(s, t, d, DivisionOf(s, d));
  }

  lemma {:induction false} NothingAgrees(s: State, t: Tables, d: Decoded)
    requires ShippedTables(t) && DecodedBy(t, d) && d.xlat == 6 && d.reg == 1
    ensures Perform(s, t, d) == RefGroupF6(s, t, d)
  {
    hide ShippedTables, DecodedBy, At, StdFlags, Fetch, ReadRm, RmPlace, RefLength, U8, U16, Perform;
    GroupEntry(t, d);
    FallsPerformed(s, t, d);
    StdFlagsIs(0, s.flags, RefOp(0, 0, 0), d.wide);
  }

  /** The F6/F7 group as decoded: the same state exactly when the instruction is not a
      division that fails. */
  lemma {:induction false} GroupAgreesIff(s: State, t: Tables, d: Decoded)
    requires ShippedTables(t) && DecodedBy(t, d) && d.xlat == 6
    ensures Perform(s, t, d) == RefGroupF6(s, t, d) <==> !DivideFails(s, d)
  {
    hide ShippedTables, RefGroupF6, Perform, ReadRm, Div, Idiv;
    if DivideFails(s, d) {
      DivideErrors(s, t, d);
    } else {
      match d.reg
      case 0 => TestAgrees(s, t, d);
      case 1 => NothingAgrees(s, t, d);
      case 2 => NotAgrees(s, t, d);
      case 3 => NegInstructionAgrees(s, t, d);
      case 4 => MultiplyAgrees(s, t, d);
      case 5 => MultiplyAgrees(s, t, d);
      case _ => DivideAgrees(s, t, d);
    }
  }

  // ----- shifts and rotates

  lemma {:induction false} ShiftEntry(t: Tables, d: Decoded)
    requires ShippedTables(t) && DecodedBy(t, d) && d.xlat == 12
    ensures AddressInRange(d) && At(t, STD_FLAGS, d.opcode) == 0 && At(t, STD_FLAGS, SHIFTED_OPCODE) == 1
    ensures d.length == RefLength(t, d, d.opcode)
    ensures RefLength(t, d, SHIFTED_OPCODE) == d.length as int - if d.extra != 0 then 1 else 0
  {
    hide At, U8, Rem, Quot;
    assert ShippedEntry(t, d.opcode);
    OpcodeLength(t, d, 2);
    LengthsAgree(t, d, SHIFTED_OPCODE, 1, 0, if d.extra != 0 then 3 else 2);
  }

  /** SF, ZF and PF describe v already. */
  predicate SzpDone(f: Flags, v: u16, wide: bool) {
    f.sf == Bit(U32(v), Bits(wide) - 1) && f.zf == (v == 0) && f.pf == AluMeaning.EvenOnes(U8(v))
  }

  lemma SzpAgain(f: Flags, v: u16, wide: bool)
    requires SzpDone(f, v, wide)
    ensures SetSzpRef(f, v, wide) == f
  {
    hide Bit, AluMeaning.EvenOnes, U32, U8;
  }

  lemma ShlSetsSzp(f: Flags, val: u16, n: nat, wide: bool)
    requires n > 0
    ensures var r := ShiftReference.ShlRef(f, val, n, wide); SzpDone(r.flags, r.value, wide)
  {
    hide Low, Bit, SignOf, AluMeaning.EvenOnes, U32, U8, BitShift.Shl;
  }

  lemma ShrSetsSzp(f: Flags, val: u16, n: nat, wide: bool)
    requires n > 0
    ensures var r := ShiftReference.ShrRef(f, val, n, wide); SzpDone(r.flags, r.value, wide)
  {
    hide Low, Bit, SignOf, AluMeaning.EvenOnes, U32, U8, BitShift.Shr;
  }

  lemma SarSetsSzp(f: Flags, val: u16, n: nat, wide: bool)
    requires n > 0
    ensures var r := ShiftReference.SarRef(f, val, n, wide); SzpDone(r.flags, r.value, wide)
  {
    hide Low, Bit, SignOf, AluMeaning.EvenOnes, U32, U8, BitShift.Shr;
  }

  lemma {:induction false} ShiftSetsSzp(reg: nat, f: Flags, val: u16, count: nat, wide: bool)
    requires ShiftReference.Comparable(reg, count, wide) && reg > 3
    ensures var r := ShiftReference.ShiftRotateRef(reg, f, val, count, wide);
      SetSzpRef(r.flags, r.value, wide) == r.flags
  {
    hide SzpDone, SetSzpRef, ShiftReference.ShlRef, ShiftReference.ShrRef, ShiftReference.SarRef;
    var r := ShiftReference.ShiftRotateRef(reg, f, val, count, wide);
    match reg
    case 4 => ShlSetsSzp(f, val, count, wide); SzpAgain(r.flags, r.value, wide);
    case 5 => ShrSetsSzp(f, val, count, wide); SzpAgain(r.flags, r.value, wide);
    case _ => SarSetsSzp(f, val, count, wide); SzpAgain(r.flags, r.value, wide);
  }

  lemma CountsAgree(s: State, d: Decoded)
    requires Count(s, d) <= 31
    ensures RefCount(s, d) == Count(s, d) as int
  {
    hide Lo, Rem;
    if d.extra == 0 && d.direction { RemNear(Lo(s.regs[CX]), 32); }
  }

  /** Ours for xlat 12 and a count that is not 0. */
  lemma {:induction false} RotatePerforms(s: State, t: Tables, d: Decoded)
    requires AddressInRange(d) && d.xlat == 12 && Count(s, d) > 0
    ensures Fetch(s, RmPlace(d), d.wide) <= Mask(d.wide)
    ensures var r := Shift.ShiftRotate(d.reg, s.flags, Fetch(s, RmPlace(d), d.wide), Count(s, d), d.wide);
      Perform(s, t, d) == Performed(s, RmPlace(d), AluResult(r.flags, r.value, true), d.wide, d.length)
  {
    hide ReadRm, WriteRm, Fetch, Put, RmPlace, U16, Lo, Shift.ShiftRotate;
    FetchFits(s, RmPlace(d), d.wide);
    PlacesAgree(s, s, d, 0);
    var r := Shift.ShiftRotate(d.reg, s.flags, Fetch(s, RmPlace(d), d.wide), Count(s, d), d.wide);
    PlacesAgree(s, s.(flags := r.flags), d, r.value);
    PutCommutes(s, RmPlace(d), r.value, d.wide, r.flags, s.ip);
  }

  /** How far the reference's IP is ahead of ours: `++reg_ip` for the immediate count is made up
      for by the shorter length of the opcode that a shift is given, but not for a rotate. */
  function IpAhead(d: Decoded): nat { if d.extra != 0 && d.reg < 4 then 1 else 0 }

  lemma {:induction false} RefShiftPerforms(s: State, t: Tables, d: Decoded)
    requires ShippedTables(t) && DecodedBy(t, d) && d.xlat == 12
    requires RefCount(s, d) >= 0 && ShiftReference.Comparable(d.reg, RefCount(s, d), d.wide)
    ensures var (p, n) := (RmPlace(d), d.length as int + IpAhead(d));
      var r := ShiftReference.ShiftRotateRef(d.reg, s.flags, Fetch(s, p, d.wide), RefCount(s, d), d.wide);
      RefShift(s, t, d) == Performed(s, p, AluResult(r.flags, r.value, true), d.wide, n)
  {
    hide ShippedTables, DecodedBy, At, Fetch, Put, RmPlace, U16, RefCount, StdFlags, SetSzpRef, RefLength,
      ShiftReference.Comparable, ShiftReference.ShiftRotateRef;
    ShiftEntry(t, d);
    var r := ShiftReference.ShiftRotateRef(d.reg, s.flags, Fetch(s, RmPlace(d), d.wide), RefCount(s, d), d.wide);
    if d.reg > 3 {
      ShiftSetsSzp(d.reg, s.flags, Fetch(s, RmPlace(d), d.wide), RefCount(s, d), d.wide);
      StdFlagsIs(1, r.flags, RefOp(0, 0, r.value), d.wide);
    } else {
      StdFlagsIs(0, r.flags, RefOp(0, 0, r.value), d.wide);
    }
    var opcode := if d.reg > 3 then SHIFTED_OPCODE else d.opcode;
    var ip := if d.extra != 0 then U16(s.ip as int + 1) else s.ip;
    PutCommutes(s, RmPlace(d), r.value, d.wide, r.flags, ip);
    Add16Twice(s.ip, 1, RefLength(t, d, opcode));
  }

  /** Shifts and rotates as decoded, on all comparable counts: the reference leaves the state
      of ours but for an IP that is one too far behind C0 and C1 rotates. */
  lemma {:induction false} ShiftAgreesUpToIp(s: State, t: Tables, d: Decoded)
    requires ShippedTables(t) && DecodedBy(t, d) && d.xlat == 12
    requires ShiftReference.Comparable(d.reg, Count(s, d), d.wide)
    ensures RefCount(s, d) == Count(s, d) as int
    ensures var p := Perform(s, t, d); RefShift(s, t, d) == p.(ip := U16(p.ip as int + IpAhead(d)))
  {
    hide ShippedTables, DecodedBy, At, Fetch, Put, RmPlace, U16, U8, RefCount, Count, Perform, RefShift,
      Shift.ShiftRotate, ShiftReference.ShiftRotateRef;
    ShiftEntry(t, d);
    CountsAgree(s, d);
    RotatePerforms(s, t, d);
    RefShiftPerforms(s, t, d);
    ShiftReference.ShiftRotateAgrees(d.reg, s.flags, Fetch(s, RmPlace(d), d.wide), Count(s, d), d.wide);
    Add16Twice(s.ip, d.length, IpAhead(d));
  }

  /** So they leave the same state exactly if it is not such a rotate. */
  lemma {:induction false} ShiftAgreesIff(s: State, t: Tables, d: Decoded)
    requires ShippedTables(t) && DecodedBy(t, d) && d.xlat == 12
    requires ShiftReference.Comparable(d.reg, Count(s, d), d.wide)
    ensures RefCount(s, d) == Count(s, d) as int
    ensures Perform(s, t, d) == RefShift(s, t, d) <==> !(d.extra != 0 && d.reg < 4)
  {
    hide ShippedTables, Count, RefCount, Perform, RefShift, ShiftReference.Comparable;
    ShiftAgreesUpToIp(s, t, d);
    var p := Perform(s, t, d);
    WrapNear(p.ip as int + IpAhead(d), 0x1_0000);
  }
}

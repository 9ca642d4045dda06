/**
 The reference emulator's arithmetic (reference/8086tiny.c), which derives
 carries by comparing truncated results and AF/OF in `set_AF_OF_arith`, and the
 proof that the formulas of helpers.h compute the same values and flags.
 */
module AluReference {
  import opened Words
  import opened Flags
  import opened Alu
  import opened AluMeaning

  /** op_source, op_dest and op_result after OP(...). */
  datatype RefOp = RefOp(source: u32, dest: u32, result: int)

  /** set_AF_OF_arith */
  function SetAfOfArith(f: Flags, o: RefOp, wide: bool): Flags {
    var x := Xor(o.source, Xor(o.dest, U32(o.result)));
    f.(af := Bit(x, 4),
       of := U32(o.result) != o.dest && f.cf != Bit(x, Bits(wide) - 1))
  }

  /** The SF, ZF and PF update after an instruction whose table entry asks for it. */
  function SetSzpRef(f: Flags, result: int, wide: bool): Flags {
    f.(sf := Bit(U32(result), Bits(wide) - 1), zf := result == 0, pf := EvenOnes(U8(result)))
  }

  function AddRef(f: Flags, a: u16, b: u16, wide: bool): AluResult {
    var v := Low(a as int + b as int, wide);
    AluResult(SetAfOfArith(SetSzpRef(f.(cf := v < a), v, wide), RefOp(b, a, v), wide), v, true)
  }

  /** The end of ADC_SBB_MACRO, and the SF, ZF and PF that the opcode's table entry asks for. */
  function CarryResult(f: Flags, cf: bool, a: u16, b: u16, v: u16, wide: bool): AluResult {
    AluResult(SetSzpRef(SetAfOfArith(f.(cf := cf), RefOp(b, a, v), wide), v, wide), v, true)
  }

  /** ADC_SBB_MACRO(+) */
  function AdcRef(f: Flags, a: u16, b: u16, wide: bool): AluResult {
    var v := Low(a as int + (Carry(f) + b), wide);
    CarryResult(f, (f.cf && v == a) || v < a, a, b, v, wide)
  }

  function SubRef(f: Flags, a: u16, b: u16, wide: bool): AluResult {
    var v := Low(U32(a as int - b as int), wide);
    AluResult(SetAfOfArith(SetSzpRef(f.(cf := v > a), v, wide), RefOp(b, a, v), wide), v, true)
  }

  /** ADC_SBB_MACRO(-) */
  function SbbRef(f: Flags, a: u16, b: u16, wide: bool): AluResult {
    var v := Low(U32(a as int - (Carry(f) + b)), wide);
    CarryResult(f, (f.cf && v == a) || -(v as int) < -(a as int), a, b, v, wide)
  }

  /** CMP keeps the untruncated difference in op_result. */
  function CmpRef(f: Flags, a: u16, b: u16, wide: bool): AluResult {
    var r := a as int - b as int;
    AluResult(SetAfOfArith(SetSzpRef(f.(cf := U32(r) > a), r, wide), RefOp(b, a, r), wide), Low(U32(r), wide), false)
  }

  function NegRef(f: Flags, a: u16, wide: bool): AluResult {
    var v := Low(U32(-(a as int)), wide);
    AluResult(SetAfOfArith(SetSzpRef(f.(cf := v > 0), v, wide), RefOp(a, 0, v), wide), v, true)
  }

  /** INC (reg == 0) and DEC (reg == 1) set OF by comparing with the sign bit. */
  function IncDecRef(f: Flags, a: u16, reg: nat, wide: bool): AluResult
    requires reg <= 1
  {
    var v := Low(U32(a as int + 1 - 2 * reg), wide);
    var g := SetAfOfArith(f, RefOp(1, a, v), wide);
    AluResult(SetSzpRef(g.(of := a as int + 1 - reg == Half(wide)), v, wide), v, true)
  }

  /** One operation of the reference, for the operations that do arithmetic. */
  function ComputeRef(op: AluOp, f: Flags, a: u16, b: u16, wide: bool): AluResult {
    match op
    case ADD => AddRef(f, a, b, wide)
    case ADC => AdcRef(f, a, b, wide)
    case SUB => SubRef(f, a, b, wide)
    case SBB => SbbRef(f, a, b, wide)
    case _   => CmpRef(f, a, b, wide)
  }

  /** The six flags that an operation of the group decides. */
  predicate SameSix(f: Flags, g: Flags) {
    f.cf == g.cf && f.pf == g.pf && f.af == g.af && f.zf == g.zf && f.sf == g.sf && f.of == g.of
  }

  /** The other flags. */
  predicate SameRest(f: Flags, g: Flags) {
    && f.r1 == g.r1 && f.r3 == g.r3 && f.r5 == g.r5 && f.tf == g.tf && f.intf == g.intf && f.df == g.df
    && f.r12 == g.r12 && f.r13 == g.r13 && f.r14 == g.r14 && f.r15 == g.r15
  }

  // ----- the reference formulas, in arithmetic

  lemma {:induction false} RefXorBits(o: RefOp, k: nat)
    ensures Bit(Xor(o.source, Xor(o.dest, U32(o.result))), k)
         == (Bit(o.source, k) != (Bit(o.dest, k) != Bit(U32(o.result), k)))
  {
    BitXor(o.source, Xor(o.dest, U32(o.result)), k);
    BitXor(o.dest, U32(o.result), k);
  }

  /** A truncated sum has the low bits of the sum. */
  lemma {:induction false} LowKeepsBits(x: nat, wide: bool)
    ensures Bit(Low(x, wide), 4) == Bit(x, 4)
    ensures SignOf(Low(x, wide), wide) == SignOf(x, wide)
  {
    FlagBits(x);
    FlagBits(Low(x, wide));
    LowDivision(x, wide);
  }

  lemma LowDivision(x: nat, wide: bool)
    ensures Low(x, wide) / 0x10 % 2 == x / 0x10 % 2
    ensures wide ==> Low(x, wide) / 0x8000 % 2 == x / 0x8000 % 2
    ensures !wide ==> Low(x, wide) / 0x80 % 2 == x / 0x80 % 2
  {
    hide Wrap, Rem, Quot;
    OperatorsAre();
    var q, l := if wide then x / 0x1_0000 else x / 0x100, Low(x, wide);
    assert x == (if wide then 0x1_0000 * q else 0x100 * q) + l;
    hide Low;
    if wide {
      DivUnique(x, 0x10, 0x1000 * q + l / 0x10, l % 0x10);
      DivUnique(x, 0x8000, 2 * q + l / 0x8000, l % 0x8000);
      EvenPlus(0x800 * q, l / 0x10);
      EvenPlus(q, l / 0x8000);
    } else {
      DivUnique(x, 0x10, 0x10 * q + l / 0x10, l % 0x10);
      DivUnique(x, 0x80, 2 * q + l / 0x80, l % 0x80);
      EvenPlus(8 * q, l / 0x10);
      EvenPlus(q, l / 0x80);
    }
  }

  /** Carry by comparison, and overflow as carry out of the top bit against carry
      into it, for v the truncated a + b + c. */
  lemma SumByComparison(a: nat, b: nat, c: nat, wide: bool)
    requires a <= Mask(wide) && b <= Mask(wide) && c <= 1
    ensures var h, v := Half(wide), Low(a + b + c, wide);
      var cf := a + b + c > Mask(wide);
      && cf == ((c == 1 && v == a) || v < a)
      && (v != a && cf != ((b >= h) != ((a >= h) != (v >= h))))
         == !(-h <= Signed(a, wide) + Signed(b, wide) + c < h)
  {
    hide Wrap, Rem, Quot;
    OperatorsAre();
  }

  lemma DifferenceByComparison(a: nat, b: nat, c: nat, wide: bool)
    requires a <= Mask(wide) && b <= Mask(wide) && c <= 1
    ensures var h, v := Half(wide), Low(U32(a - b - c), wide);
      && (a < b + c) == ((c == 1 && v == a) || v > a)
      && (v != a && (a < b + c) != ((b >= h) != ((a >= h) != (v >= h))))
         == !(-h <= Signed(a, wide) - Signed(b, wide) - c < h)
      && v <= Mask(wide)
  {
    DifferenceValue(a, b, c, wide);
    hide Low;
  }

  lemma {:induction false} RefFlags(f: Flags, a: u16, b: u16, v: u16, wide: bool)
    requires a <= Mask(wide) && b <= Mask(wide) && v <= Mask(wide)
    ensures var g := SetAfOfArith(f, RefOp(b, a, v), wide); var h := Half(wide);
      && g == f.(af := g.af, of := g.of)
      && g.af == (Bit(b, 4) != (Bit(a, 4) != Bit(v, 4)))
      && g.of == (v != a && f.cf != ((b >= h) != ((a >= h) != (v >= h))))
  {
    hide Xor, Bit, Signed;
    RefXorBits(RefOp(b, a, v), 4);
    RefXorBits(RefOp(b, a, v), Bits(wide) - 1);
    SignMeaning(a, wide);
    SignMeaning(b, wide);
    SignMeaning(v, wide);
    assert U32(v) == v;
  }

  lemma {:induction false} OurAf(a: u16, b: u16, r: u32, wide: bool)
    ensures Bit(Xor(Xor(a, b), r), 4) == (Bit(b, 4) != (Bit(a, 4) != Bit(Low(r, wide), 4)))
  {
    BitXor(Xor(a, b), r, 4);
    BitXor(a, b, 4);
    LowKeepsBits(r, wide);
  }

  /** The six flags of a sum, or of a difference, in arithmetic. */
  predicate SumFlags(g: Flags, a: u16, b: u16, c: int, v: u16, wide: bool)
    requires a <= Mask(wide) && b <= Mask(wide) && v <= Mask(wide)
  {
    && g.cf == (a as int + b as int + c > Mask(wide))
    && g.af == (a % 16 + b % 16 + c >= 16)
    && g.of == !(-Half(wide) <= Signed(a, wide) + Signed(b, wide) + c < Half(wide))
    && Describes(g, v, wide)
  }

  predicate DifferenceFlags(g: Flags, a: u16, b: u16, c: int, v: u16, wide: bool)
    requires a <= Mask(wide) && b <= Mask(wide) && v <= Mask(wide)
  {
    && g.cf == (a < b + c)
    && g.af == (a % 16 < b % 16 + c)
    && g.of == !(-Half(wide) <= Signed(a, wide) - Signed(b, wide) - c < Half(wide))
    && Describes(g, v, wide)
  }

  lemma OneSumFlags(f: Flags, g: Flags, a: u16, b: u16, c: int, v: u16, wide: bool)
    requires a <= Mask(wide) && b <= Mask(wide) && v <= Mask(wide)
    requires SumFlags(f, a, b, c, v, wide) && SumFlags(g, a, b, c, v, wide)
    ensures SameSix(f, g)
  {}

  lemma OneDifferenceFlags(f: Flags, g: Flags, a: u16, b: u16, c: int, v: u16, wide: bool)
    requires a <= Mask(wide) && b <= Mask(wide) && v <= Mask(wide)
    requires DifferenceFlags(f, a, b, c, v, wide) && DifferenceFlags(g, a, b, c, v, wide)
    ensures SameSix(f, g)
  {}

  lemma {:induction false} OurSumFlags(f: Flags, a: u16, b: u16, c: nat, wide: bool)
    requires a <= Mask(wide) && b <= Mask(wide) && c <= 1
    ensures var r := AddWith(f, a, b, c, wide);
      r.value == Low(a as int + b as int + c, wide) && r.value <= Mask(wide)
        && SumFlags(r.flags, a, b, c, r.value, wide)
  {
    hide Xor, Bit, SignOf, Parity8, EvenOnes, Describes;
    AddMeaning(f, a, b, c, wide);
  }

  lemma {:induction false} OurDifferenceFlags(f: Flags, a: u16, b: u16, c: nat, wide: bool)
    requires a <= Mask(wide) && b <= Mask(wide) && c <= 1
    ensures var r := SubWith(f, a, b, c, wide);
      && r.value == Low(U32(a as int - b as int - c), wide) && r.value <= Mask(wide)
      && DifferenceFlags(r.flags, a, b, c, r.value, wide)
  {
    hide Xor, Bit, SignOf, Parity8, EvenOnes, Describes;
    SubMeaning(f, a, b, c, wide);
  }

  /** v is the truncated sum (or difference) and CF already holds its carry. */
  predicate SummedTo(f: Flags, a: u16, b: u16, c: nat, v: u16, wide: bool) {
    && a <= Mask(wide) && b <= Mask(wide) && c <= 1 && v <= Mask(wide)
    && v == Low(a as int + b as int + c, wide)
    && f.cf == ((c == 1 && v == a) || v < a)
  }

  predicate DifferedTo(f: Flags, a: u16, b: u16, c: nat, v: u16, wide: bool) {
    && a <= Mask(wide) && b <= Mask(wide) && c <= 1 && v <= Mask(wide)
    && v == Low(U32(a as int - b as int - c), wide)
    && f.cf == ((c == 1 && v == a) || v > a)
  }

  lemma {:induction false} RefSumOf(f: Flags, a: u16, b: u16, c: nat, v: u16, wide: bool)
    requires SummedTo(f, a, b, c, v, wide)
    ensures var g := SetAfOfArith(f, RefOp(b, a, v), wide);
      && g.cf == (a as int + b as int + c > Mask(wide))
      && g.of == !(-Half(wide) <= Signed(a, wide) + Signed(b, wide) + c < Half(wide))
      && g.sf == f.sf && g.zf == f.zf && g.pf == f.pf
  {
    hide Low, Signed, SetAfOfArith;
    SumByComparison(a, b, c, wide);
    RefFlags(f, a, b, v, wide);
  }

  lemma {:induction false} RefSumAf(f: Flags, a: u16, b: u16, c: nat, v: u16, wide: bool)
    requires SummedTo(f, a, b, c, v, wide)
    ensures SetAfOfArith(f, RefOp(b, a, v), wide).af == (a % 16 + b % 16 + c >= 16)
  {
    hide Low, Xor, Bit, Signed, SetAfOfArith;
    RefFlags(f, a, b, v, wide);
    OurAf(a, b, a as int + b as int + c, wide);
    SumCarry(a, b, c);
  }

  lemma {:induction false} RefDifferenceOf(f: Flags, a: u16, b: u16, c: nat, v: u16, wide: bool)
    requires DifferedTo(f, a, b, c, v, wide)
    ensures var g := SetAfOfArith(f, RefOp(b, a, v), wide);
      && g.cf == (a < b + c)
      && g.of == !(-Half(wide) <= Signed(a, wide) - Signed(b, wide) - c < Half(wide))
      && g.sf == f.sf && g.zf == f.zf && g.pf == f.pf
  {
    hide Low, Signed, SetAfOfArith, U32;
    DifferenceByComparison(a, b, c, wide);
    RefFlags(f, a, b, v, wide);
  }

  lemma {:induction false} RefDifferenceAf(f: Flags, a: u16, b: u16, c: nat, v: u16, wide: bool)
    requires DifferedTo(f, a, b, c, v, wide)
    ensures SetAfOfArith(f, RefOp(b, a, v), wide).af == (a % 16 < b % 16 + c)
  {
    hide Low, Xor, Bit, Signed, SetAfOfArith, U32;
    RefFlags(f, a, b, v, wide);
    OurAf(a, b, U32(a as int - b as int - c), wide);
    DifferenceBorrow(a, b, c);
  }

  lemma {:induction false} RefSzp(f: Flags, v: u16, wide: bool)
    requires v <= Mask(wide)
    ensures Describes(SetSzpRef(f, v, wide), v, wide)
  {
    hide Bit, Wrap, Rem, Quot, EvenOnes;
    OperatorsAre();
    SignMeaning(v, wide);
  }

  // ----- agreement

  lemma SzpRefKeeps(f: Flags, v: int, wide: bool)
    ensures var g := SetSzpRef(f, v, wide); g.cf == f.cf && g.af == f.af && g.of == f.of
  {}

  /** SetSzpRef and SetAfOfArith in either order leave the six flags of the sum. */
  lemma {:induction false} RefSumSix(f: Flags, a: u16, b: u16, c: nat, v: u16, wide: bool)
    requires SummedTo(f, a, b, c, v, wide)
    ensures SumFlags(SetAfOfArith(SetSzpRef(f, v, wide), RefOp(b, a, v), wide), a, b, c, v, wide)
    ensures SumFlags(SetSzpRef(SetAfOfArith(f, RefOp(b, a, v), wide), v, wide), a, b, c, v, wide)
  {
    hide Low, Signed, SetAfOfArith, SetSzpRef, EvenOnes;
    var s := SetSzpRef(f, v, wide);
    SzpRefKeeps(f, v, wide);
    RefSzp(f, v, wide);
    RefSumOf(s, a, b, c, v, wide);
    RefSumAf(s, a, b, c, v, wide);
    var g := SetAfOfArith(f, RefOp(b, a, v), wide);
    RefSumOf(f, a, b, c, v, wide);
    RefSumAf(f, a, b, c, v, wide);
    SzpRefKeeps(g, v, wide);
    RefSzp(g, v, wide);
  }

  lemma {:induction false} RefDifferenceSix(f: Flags, a: u16, b: u16, c: nat, v: u16, wide: bool)
    requires DifferedTo(f, a, b, c, v, wide)
    ensures DifferenceFlags(SetAfOfArith(SetSzpRef(f, v, wide), RefOp(b, a, v), wide), a, b, c, v, wide)
    ensures DifferenceFlags(SetSzpRef(SetAfOfArith(f, RefOp(b, a, v), wide), v, wide), a, b, c, v, wide)
  {
    hide Low, Signed, SetAfOfArith, SetSzpRef, EvenOnes, U32;
    var s := SetSzpRef(f, v, wide);
    SzpRefKeeps(f, v, wide);
    RefSzp(f, v, wide);
    RefDifferenceOf(s, a, b, c, v, wide);
    RefDifferenceAf(s, a, b, c, v, wide);
    var g := SetAfOfArith(f, RefOp(b, a, v), wide);
    RefDifferenceOf(f, a, b, c, v, wide);
    RefDifferenceAf(f, a, b, c, v, wide);
    SzpRefKeeps(g, v, wide);
    RefSzp(g, v, wide);
  }

  /** CMP keeps the difference untruncated in op_result; the flags come out as for SUB. */
  lemma {:induction false} CmpRefIsSubRef(f: Flags, a: u16, b: u16, wide: bool)
    requires a <= Mask(wide) && b <= Mask(wide)
    ensures CmpRef(f, a, b, wide).flags == SubRef(f, a, b, wide).flags
  {
    hide Xor, Bit, SignOf, EvenOnes, Low, U8, U32, SetSzpRef, SetAfOfArith;
    var r := a as int - b as int;
    var v := Low(U32(r), wide);
    TruncatedDifference(a, b, wide);
    LowKeepsBits(U32(r), wide);
    var g := f.(cf := v > a);
    SameSzp(g, r, v, wide);
    SameAfOf(SetSzpRef(g, v, wide), RefOp(b, a, r), RefOp(b, a, v), wide);
  }

  lemma {:induction false} SameSzp(f: Flags, r: int, v: int, wide: bool)
    requires SignOf(U32(r), wide) == SignOf(U32(v), wide) && (r == 0) == (v == 0) && U8(r) == U8(v)
    ensures SetSzpRef(f, r, wide) == SetSzpRef(f, v, wide)
  {}

  /** set_AF_OF_arith looks at two bits of the result and at whether it equals op_dest. */
  lemma {:induction false} SameAfOf(f: Flags, o: RefOp, p: RefOp, wide: bool)
    requires o.source == p.source && o.dest == p.dest
    requires Bit(U32(o.result), 4) == Bit(U32(p.result), 4)
      && SignOf(U32(o.result), wide) == SignOf(U32(p.result), wide)
    requires (U32(o.result) == o.dest) == (U32(p.result) == p.dest)
    ensures SetAfOfArith(f, o, wide) == SetAfOfArith(f, p, wide)
  {
    hide Xor, Bit, U32;
    RefXorBits(o, 4);
    RefXorBits(o, Bits(wide) - 1);
    RefXorBits(p, 4);
    RefXorBits(p, Bits(wide) - 1);
  }

  lemma TruncatedDifference(a: u16, b: u16, wide: bool)
    requires a <= Mask(wide) && b <= Mask(wide)
    ensures var r := a as int - b as int; var v := Low(U32(r), wide);
      && U32(v) == v
      && (U32(r) > a) == (v > a)
      && (U32(r) == a) == (v == a)
      && (r == 0) == (v == 0)
      && U8(v) == U8(r)
  {
    var r := a as int - b as int;
    assert r == a as int - b as int - 0;
    DifferenceValue(a, b, 0, wide);
    ByteOfDifference(r, wide);
    hide Low, U8;
  }

  lemma ByteOfDifference(r: int, wide: bool)
    requires -0x1_0000 < r < 0x1_0000
    ensures U8(Low(U32(r), wide)) == U8(r)
  {
    hide Wrap, Rem, Quot;
    OperatorsAre();
    assert U32(r) == if r < 0 then r + 0x1_0000_0000 else r;
    var q, l := r / 0x100, r % 0x100;
    if r < 0 {
      DivUnique(r + 0x1_0000_0000, 0x100, q + 0x100_0000, l);
    }
    var x := U32(r);
    DivUnique(x % 0x1_0000, 0x100, x / 0x100 - 0x100 * (x / 0x1_0000), x % 0x100);
  }

  /** Our sum and the reference's sum leave the same six flags ... */
  lemma {:induction false} SumsAgree(f: Flags, g: Flags, a: u16, b: u16, c: nat, v: u16, wide: bool)
    requires SummedTo(g, a, b, c, v, wide)
    ensures var r := AddWith(f, a, b, c, wide);
      && r.value == v && r.writes
      && SameSix(r.flags, SetAfOfArith(SetSzpRef(g, v, wide), RefOp(b, a, v), wide))
      && SameSix(r.flags, SetSzpRef(SetAfOfArith(g, RefOp(b, a, v), wide), v, wide))
  {
    hide SetSzp, SetAdd, SetAfOfArith, SetSzpRef, SumFlags, Low, SameSix, Signed;
    var r := AddWith(f, a, b, c, wide);
    OurSumFlags(f, a, b, c, wide);
    RefSumSix(g, a, b, c, v, wide);
    OneSumFlags(r.flags, SetAfOfArith(SetSzpRef(g, v, wide), RefOp(b, a, v), wide), a, b, c, v, wide);
    OneSumFlags(r.flags, SetSzpRef(SetAfOfArith(g, RefOp(b, a, v), wide), v, wide), a, b, c, v, wide);
  }

  /** ... and so do the two differences. */
  lemma {:induction false} DifferencesAgree(f: Flags, g: Flags, a: u16, b: u16, c: nat, v: u16, wide: bool)
    requires DifferedTo(g, a, b, c, v, wide)
    ensures var r := SubWith(f, a, b, c, wide);
      && r.value == v && r.writes
      && SameSix(r.flags, SetAfOfArith(SetSzpRef(g, v, wide), RefOp(b, a, v), wide))
      && SameSix(r.flags, SetSzpRef(SetAfOfArith(g, RefOp(b, a, v), wide), v, wide))
  {
    hide SetSzp, SetSub, SetAfOfArith, SetSzpRef, DifferenceFlags, Low, U32, SameSix, Signed;
    var r := SubWith(f, a, b, c, wide);
    OurDifferenceFlags(f, a, b, c, wide);
    RefDifferenceSix(g, a, b, c, v, wide);
    OneDifferenceFlags(r.flags, SetAfOfArith(SetSzpRef(g, v, wide), RefOp(b, a, v), wide), a, b, c, v, wide);
    OneDifferenceFlags(r.flags, SetSzpRef(SetAfOfArith(g, RefOp(b, a, v), wide), v, wide), a, b, c, v, wide);
  }

  predicate Agree(r: AluResult, q: AluResult) {
    r.value == q.value && r.writes == q.writes && SameSix(r.flags, q.flags)
  }

  lemma {:induction false} AddAgrees(f: Flags, a: u16, b: u16, wide: bool)
    requires a <= Mask(wide) && b <= Mask(wide)
    ensures Agree(AddWith(f, a, b, 0, wide), AddRef(f, a, b, wide))
  {
    hide AddWith, SetAfOfArith, SetSzpRef, SameSix, Low;
    var v := Low(a as int + b as int, wide);
    assert v == Low(a as int + b as int + 0, wide) && v <= Mask(wide) by { SumValue(a, b, 0, wide); }
    SumsAgree(f, f.(cf := v < a), a, b, 0, v, wide);
  }

  lemma {:induction false} AdcAgrees(f: Flags, a: u16, b: u16, wide: bool)
    requires a <= Mask(wide) && b <= Mask(wide)
    ensures Agree(AddWith(f, a, b, Carry(f), wide), AdcRef(f, a, b, wide))
  {
    hide *;
    var c := Carry(f);
    var v := Low(a as int + (c + b), wide);
    var cf := (f.cf && v == a) || v < a;
    AdcRefIs(f, cf, a, b, c, v, wide);
    AdcOursIs(f, cf, a, b, c, v, wide);
  }

  lemma {:induction false} AdcRefIs(f: Flags, cf: bool, a: u16, b: u16, c: nat, v: u16, wide: bool)
    requires c == Carry(f) && v == Low(a as int + (c + b), wide) && cf == ((f.cf && v == a) || v < a)
    ensures AdcRef(f, a, b, wide) == CarryResult(f, cf, a, b, v, wide)
  {
    hide Low, U32, CarryResult;
  }

  lemma {:induction false} AdcOursIs(f: Flags, cf: bool, a: u16, b: u16, c: nat, v: u16, wide: bool)
    requires a <= Mask(wide) && b <= Mask(wide)
    requires c == Carry(f) && v == Low(a as int + (c + b), wide) && cf == ((f.cf && v == a) || v < a)
    ensures Agree(AddWith(f, a, b, c, wide), CarryResult(f, cf, a, b, v, wide))
  {
    hide AddWith, CarryResult, Agree, Low, U32;
    assert a as int + (c + b) == a as int + b as int + c;
    assert v <= Mask(wide) by { SumValue(a, b, c, wide); }
    CarryAgrees(f, cf, a, b, c, v, wide);
  }

  lemma {:induction false} CarryAgrees(f: Flags, cf: bool, a: u16, b: u16, c: nat, v: u16, wide: bool)
    requires SummedTo(f.(cf := cf), a, b, c, v, wide)
    ensures Agree(AddWith(f, a, b, c, wide), CarryResult(f, cf, a, b, v, wide))
  {
    hide AddWith, SetAfOfArith, SetSzpRef, SameSix, Low;
    SumsAgree(f, f.(cf := cf), a, b, c, v, wide);
  }

  lemma {:induction false} BorrowAgrees(f: Flags, cf: bool, a: u16, b: u16, c: nat, v: u16, wide: bool)
    requires DifferedTo(f.(cf := cf), a, b, c, v, wide)
    ensures Agree(SubWith(f, a, b, c, wide), CarryResult(f, cf, a, b, v, wide))
  {
    hide SubWith, SetAfOfArith, SetSzpRef, SameSix, Low, U32;
    DifferencesAgree(f, f.(cf := cf), a, b, c, v, wide);
  }

  lemma {:induction false} SubAgrees(f: Flags, a: u16, b: u16, wide: bool)
    requires a <= Mask(wide) && b <= Mask(wide)
    ensures Agree(SubWith(f, a, b, 0, wide), SubRef(f, a, b, wide))
  {
    hide SubWith, SetAfOfArith, SetSzpRef, SameSix, Low, U32;
    var v := Low(U32(a as int - b as int), wide);
    assert a as int - b as int == a as int - b as int - 0;
    assert v <= Mask(wide) by { DifferenceByComparison(a, b, 0, wide); }
    DifferencesAgree(f, f.(cf := v > a), a, b, 0, v, wide);
  }

  lemma {:induction false} SbbAgrees(f: Flags, a: u16, b: u16, wide: bool)
    requires a <= Mask(wide) && b <= Mask(wide)
    ensures Agree(SubWith(f, a, b, Carry(f), wide), SbbRef(f, a, b, wide))
  {
    hide *;
    var c := Carry(f);
    var v := Low(U32(a as int - (c + b)), wide);
    var cf := (f.cf && v == a) || -(v as int) < -(a as int);
    SbbRefIs(f, cf, a, b, c, v, wide);
    SbbOursIs(f, cf, a, b, c, v, wide);
  }

  lemma {:induction false} SbbRefIs(f: Flags, cf: bool, a: u16, b: u16, c: nat, v: u16, wide: bool)
    requires c == Carry(f) && v == Low(U32(a as int - (c + b)), wide) && cf == ((f.cf
      && v == a) || -(v as int) < -(a as int))
    ensures SbbRef(f, a, b, wide) == CarryResult(f, cf, a, b, v, wide)
  {
    hide Low, U32, CarryResult;
  }

  lemma {:induction false} SbbOursIs(f: Flags, cf: bool, a: u16, b: u16, c: nat, v: u16, wide: bool)
    requires a <= Mask(wide) && b <= Mask(wide)
    requires c == Carry(f) && v == Low(U32(a as int - (c + b)), wide) && cf == ((f.cf
      && v == a) || -(v as int) < -(a as int))
    ensures Agree(SubWith(f, a, b, c, wide), CarryResult(f, cf, a, b, v, wide))
  {
    hide SubWith, CarryResult, Agree, Low, U32;
    assert a as int - (c + b) == a as int - b as int - c;
    assert v <= Mask(wide) by { DifferenceByComparison(a, b, c, wide); }
    BorrowAgrees(f, cf, a, b, c, v, wide);
  }

  lemma {:induction false} CmpAgrees(f: Flags, a: u16, b: u16, wide: bool)
    requires a <= Mask(wide) && b <= Mask(wide)
    ensures Agree(SubWith(f, a, b, 0, wide).(writes := false), CmpRef(f, a, b, wide))
  {
    SubAgrees(f, a, b, wide);
    CmpRefIsSubRef(f, a, b, wide);
    assert SubRef(f, a, b, wide).value == CmpRef(f, a, b, wide).value && !CmpRef(f, a, b, wide).writes;
    hide *;
  }

  /** For all operands, carries and widths the reference's ADD, ADC, SUB, SBB and CMP
      compute the value, and the CF, AF, OF, SF, ZF and PF, of arithmetic.h. */
  lemma {:induction false} ComputeAgrees(op: AluOp, f: Flags, a: u16, b: u16, wide: bool)
    requires op in {ADD, ADC, SUB, SBB, CMP} && a <= Mask(wide) && b <= Mask(wide)
    ensures Agree(Compute(op, f, a, b, wide), ComputeRef(op, f, a, b, wide))
  {
    hide AddWith, SubWith, Logic, Agree, AddRef, AdcRef, SubRef, SbbRef, CmpRef;
    match op
    case ADD => AddAgrees(f, a, b, wide);
    case ADC => AdcAgrees(f, a, b, wide);
    case SUB => SubAgrees(f, a, b, wide);
    case SBB => SbbAgrees(f, a, b, wide);
    case CMP => CmpAgrees(f, a, b, wide);
    case _ =>
  }

  /** NEG */
  lemma {:induction false} NegAgrees(f: Flags, a: u16, wide: bool)
    requires a <= Mask(wide)
    ensures Agree(Neg(f, a, wide), NegRef(f, a, wide))
  {
    hide SetAfOfArith, SetSzpRef, Low, U32, SameSix, SubWith;
    SubAgrees(f, 0, a, wide);
    assert 0 - (a as int) == -(a as int);
    assert NegRef(f, a, wide) == SubRef(f, 0, a, wide);
  }

  /** INC and DEC: the reference finds the overflow by comparing with the sign bit. */
  lemma {:induction false} IncDecAgree(f: Flags, a: u16, reg: nat, wide: bool)
    requires a <= Mask(wide) && reg <= 1
    ensures Agree(if reg == 0 then Inc(f, a, wide) else Dec(f, a, wide), IncDecRef(f, a, reg, wide))
  {
    hide *;
    IncDecRest(f, a, reg, wide);
    IncDecAf(f, a, reg, wide);
    IncDecOf(f, a, reg, wide);
    IncDecSzp(f, a, reg, wide);
    SixOf(if reg == 0 then Inc(f, a, wide) else Dec(f, a, wide), IncDecRef(f, a, reg, wide));
  }

  lemma SixOf(r: AluResult, q: AluResult)
    requires r.value == q.value && r.writes == q.writes && r.flags.cf == q.flags.cf
    requires r.flags.af == q.flags.af && r.flags.of == q.flags.of
    requires r.flags.sf == q.flags.sf && r.flags.zf == q.flags.zf && r.flags.pf == q.flags.pf
    ensures Agree(r, q)
  {}

  lemma {:induction false} IncDecRest(f: Flags, a: u16, reg: nat, wide: bool)
    requires a <= Mask(wide) && reg <= 1
    ensures var (r, q) := (if reg == 0 then Inc(f, a, wide) else Dec(f, a, wide), IncDecRef(f, a, reg, wide));
      r.value == q.value && r.writes == q.writes && r.flags.cf == f.cf == q.flags.cf
  {
    hide Xor, Bit, SignOf, Parity8, EvenOnes, Low, U32;
    StepValue(a, reg, wide);
  }

  lemma {:induction false} IncDecAf(f: Flags, a: u16, reg: nat, wide: bool)
    requires a <= Mask(wide) && reg <= 1
    ensures (if reg == 0 then Inc(f, a, wide) else Dec(f, a, wide)).flags.af == IncDecRef(f, a, reg, wide).flags.af
  {
    hide Xor, Bit, SignOf, Parity8, EvenOnes, Low, U32;
    var r := U32(a as int + 1 - 2 * reg);
    assert r == if reg == 0 then a as int + 1 else U32(a as int - 1) by { StepValue(a, reg, wide); }
    var v := Low(r, wide);
    RefXorBits(RefOp(1, a, v), 4);
    OurAf(a, 1, r, wide);
    assert U32(v) == v by { StepValue(a, reg, wide); }
  }

  lemma StepValue(a: u16, reg: nat, wide: bool)
    requires a <= Mask(wide) && reg <= 1
    ensures var r := U32(a as int + 1 - 2 * reg);
      && r == (if reg == 0 then a as int + 1 else U32(a as int - 1))
      && Low(r, wide) <= Mask(wide)
      && U32(Low(r, wide)) == Low(r, wide)
      && U8(Low(r, wide)) == Lo(Low(r, wide))
  {}

  lemma {:induction false} IncDecOf(f: Flags, a: u16, reg: nat, wide: bool)
    requires a <= Mask(wide) && reg <= 1
    ensures (if reg == 0 then Inc(f, a, wide) else Dec(f, a, wide)).flags.of == IncDecRef(f, a, reg, wide).flags.of
  {
    hide Xor, Bit, SignOf, Parity8, EvenOnes, Low, U32, SetSzp, SetSzpRef, SetAfOfArith;
    IncDecTop(a, reg, wide);
    assert (if reg == 0 then Inc(f, a, wide) else Dec(f, a, wide)).flags.of == (a as int + 1 - reg == Half(wide)) by {
      SzpKeepsOf(f, a, reg, wide);
    }
    SzpRefKeeps(SetAfOfArith(f, RefOp(1, a, Low(U32(a as int + 1 - 2 * reg), wide)),
      wide).(of := a as int + 1 - reg == Half(wide)),
                Low(U32(a as int + 1 - 2 * reg), wide), wide);
  }

  lemma {:induction false} SzpKeepsOf(f: Flags, a: u16, reg: nat, wide: bool)
    requires a <= Mask(wide) && reg <= 1
    ensures reg == 0 ==>
      Inc(f, a, wide).flags.of == (SignOf(Xor(a, a as int + 1), wide) && SignOf(Xor(1, a as int + 1), wide))
    ensures reg == 1 ==>
      Dec(f, a, wide).flags.of == (SignOf(Xor(a, 1), wide) && SignOf(Xor(a, U32(a as int - 1)), wide))
  {
    hide Xor, Bit, SignOf, Parity8, Low, U32;
  }

  lemma {:induction false} IncDecTop(a: u16, reg: nat, wide: bool)
    requires a <= Mask(wide) && reg <= 1
    ensures reg == 0 ==>
      (SignOf(Xor(a, a as int + 1), wide) && SignOf(Xor(1, a as int + 1), wide)) == (a as int + 1 == Half(wide))
    ensures reg == 1 ==> (SignOf(Xor(a, 1), wide) && SignOf(Xor(a, U32(a as int - 1)), wide)) == (a == Half(wide))
  {
    hide Xor, Bit, SignOf, U32, Signed;
    SignedEnds(a, wide);
    if reg == 0 {
      SumOverflow(a, 1, 0, wide);
      assert a as int + 1 == a as int + 1 + 0;
    } else {
      DifferenceOverflow(a, 1, 0, wide);
      assert a as int - 1 == a as int - 1 - 0;
    }
  }

  lemma SignedEnds(a: u16, wide: bool)
    requires a <= Mask(wide)
    ensures var h := Half(wide);
      && Signed(1, wide) == 1
      && !(-h <= Signed(a, wide) + 1 < h) == (a as int + 1 == h)
      && !(-h <= Signed(a, wide) - 1 < h) == (a == h)
  {}

  lemma {:induction false} IncDecSzp(f: Flags, a: u16, reg: nat, wide: bool)
    requires a <= Mask(wide) && reg <= 1
    ensures var g := (if reg == 0 then Inc(f, a, wide) else Dec(f, a, wide)).flags;
      var h := IncDecRef(f, a, reg, wide).flags;
      g.sf == h.sf && g.zf == h.zf && g.pf == h.pf
  {
    hide Xor, Bit, Parity8, EvenOnes, Low, U32, U8;
    var r := U32(a as int + 1 - 2 * reg);
    StepValue(a, reg, wide);
    ParityCountsOnes(Lo(Low(r, wide)));
  }

}

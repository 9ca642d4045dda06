/**
 Shifts and rotates (shift.h) on operand values. Rotation through carry is
 specified as one rotation of the word CF:value, one bit wider than the operand;
 RotateCarryLeft and RotateCarryRight are the source's bit-at-a-time loops.
 */
module Shift {
  import opened Words
  import opened Flags
  import opened Alu
  import opened BitShift

  datatype Shifted = Shifted(flags: Flags, value: u16)

  function One(b: bool): nat { if b then 1 else 0 }

  lemma {:induction false} Shl4(h: nat)
    ensures Shl(h, 4) == 0x10 * h
  {
    assert Shl(h, 1) == 2 * h;
    assert Shl(h, 2) == 2 * Shl(h, 1);
    assert Shl(h, 3) == 2 * Shl(h, 2);
  }

  lemma {:induction false} ShlConst(h: nat, wide: bool)
    ensures Shl(h, Bits(wide)) == Size(wide) * h
  {
    Shl4(h);
    Shl4(0x10 * h);
    Shl4(0x100 * h);
    Shl4(0x1000 * h);
    ShlShl(h, 4, 4);
    ShlShl(h, 8, 4);
    ShlShl(h, 12, 4);
  }

  lemma {:induction false} ShlHalf(t: nat, wide: bool)
    ensures Shl(t, Bits(wide) - 1) == Half(wide) * t
  {
    ShlConst(t, wide);
    assert Shl(t, Bits(wide)) == 2 * Shl(t, Bits(wide) - 1);
  }

  lemma {:induction false} WidthPowers(wide: bool)
    ensures Pow2(Bits(wide)) == Size(wide) && Pow2(Bits(wide) - 1) == Half(wide)
      && Pow2(Bits(wide) + 1) == 2 * Size(wide)
  {
    Pow2Values();
  }

  lemma {:induction false} LowIsLowBits(x: nat, wide: bool)
    ensures Low(x, wide) == LowBits(x, Bits(wide)) < Size(wide)
  {
    hide Wrap, Rem, Quot;
    OperatorsAre();
    var n := Bits(wide);
    WidthPowers(wide);
    Recombine(x, n);
    LowBitsBound(x, n);
    ShlConst(Shr(x, n), wide);
    DivUnique(x, Size(wide), Shr(x, n), LowBits(x, n));
  }

  /** exec_shl. For a count above the operand width the C shift is undefined; CF is then
      taken as 0. */
  function ExecShl(f: Flags, val: u16, count: u8, wide: bool): Shifted {
    if count == 0 then Shifted(f, val)
    else
      var cf := count <= Bits(wide) && Bit(val, Bits(wide) - count);
      var result := Low(Shl(val, count), wide);
      Shifted(SetSzp(f.(cf := cf, of := cf != SignOf(result, wide)), result, wide), result)
  }

  /** exec_shr */
  function ExecShr(f: Flags, val: u16, count: u8, wide: bool): Shifted {
    if count == 0 then Shifted(f, val)
    else
      var result := Low(Shr(val, count), wide);
      Shifted(SetSzp(f.(of := SignOf(val, wide), cf := Bit(val, count - 1)), result, wide), result)
  }

  /** The arithmetic shift of an int32_t: division rounding down. */
  function Sar(x: int, n: nat): int
    decreases n
  {
    if n == 0 then x else Sar(x / 2, n - 1)
  }

  /** exec_sar */
  function ExecSar(f: Flags, val: u16, count: u8, wide: bool): Shifted
    requires val <= Mask(wide)
  {
    if count == 0 then Shifted(f, val)
    else
      var sval := Signed(val, wide);
      var cf := Sar(sval, count - 1) % 2 == 1;
      var result := if count >= Bits(wide) then (if sval < 0 then Mask(wide) else 0)
                    else Low(U32(Sar(sval, count)), wide);
      Shifted(SetSzp(f.(cf := cf, of := false), result, wide), result)
  }

  /** A rotation by a multiple of the width is done as a rotation by the whole width. */
  function FullCount(count: u8, wide: bool): nat {
    if count % Bits(wide) == 0 then Bits(wide) else count % Bits(wide)
  }

  /** exec_rol */
  function ExecRol(f: Flags, val: u16, count: u8, wide: bool): Shifted {
    if count == 0 then Shifted(f, val)
    else
      var n := FullCount(count, wide);
      var result := Low(Or(Shl(val, n), Shr(val, Bits(wide) - n)), wide);
      var cf := result % 2 == 1;
      Shifted(f.(cf := cf, of := SignOf(result, wide) != cf), result)
  }

  /** exec_ror */
  function ExecRor(f: Flags, val: u16, count: u8, wide: bool): Shifted {
    if count == 0 then Shifted(f, val)
    else
      var n := FullCount(count, wide);
      var result := Low(Or(Shr(val, n), Shl(val, Bits(wide) - n)), wide);
      Shifted(f.(cf := SignOf(result, wide), of := SignOf(result, wide) != Bit(result, Bits(wide) - 2)), result)
  }

  /** The word CF:value of an operand, and its two parts. */
  function CarryWord(cf: bool, val: nat, wide: bool): nat {
    (if cf then Size(wide) else 0) + val
  }

  predicate CarryOf(w: nat, wide: bool) { w >= Size(wide) }
  function ValueOf(w: nat, wide: bool): u16 { Low(w, wide) }

  function Rotated(f: Flags, val: u16, cf: bool, of: bool): Shifted { Shifted(f.(cf := cf, of := of), val) }

  /** exec_rcl: CF:value rotated left by count mod (bits + 1). */
  function ExecRcl(f: Flags, val: u16, count: u8, wide: bool): Shifted {
    if count == 0 then Shifted(f, val)
    else
      var N := Bits(wide) + 1;
      var w := RotL(CarryWord(f.cf, val, wide), count % N, N);
      var (cf, v) := (CarryOf(w, wide), ValueOf(w, wide));
      Rotated(f, v, cf, SignOf(v, wide) != cf)
  }

  /** exec_rcr: CF:value rotated right by count mod (bits + 1). */
  function ExecRcr(f: Flags, val: u16, count: u8, wide: bool): Shifted {
    if count == 0 then Shifted(f, val)
    else
      var N := Bits(wide) + 1;
      var w := RotL(CarryWord(f.cf, val, wide), N - count % N, N);
      var (cf, v) := (CarryOf(w, wide), ValueOf(w, wide));
      Rotated(f, v, cf, SignOf(v, wide) != Bit(v, Bits(wide) - 2))
  }

  /** exec_shift_rotate: the reg field of ModRM selects the operation. */
  function ShiftRotate(reg: nat, f: Flags, val: u16, count: u8, wide: bool): Shifted
    requires val <= Mask(wide)
  {
    match reg
    case 0 => ExecRol(f, val, count, wide)
    case 1 => ExecRor(f, val, count, wide)
    case 2 => ExecRcl(f, val, count, wide)
    case 3 => ExecRcr(f, val, count, wide)
    case 5 => ExecShr(f, val, count, wide)
    case 7 => ExecSar(f, val, count, wide)
    case _ => ExecShl(f, val, count, wide)
  }

  // ----- the loops of exec_rcl and exec_rcr

  lemma {:induction false} CarryWordBound(cf: bool, val: nat, wide: bool)
    requires val <= Mask(wide)
    ensures CarryWord(cf, val, wide) < Pow2(Bits(wide) + 1)
    ensures CarryOf(CarryWord(cf, val, wide), wide) == cf && ValueOf(CarryWord(cf, val, wide), wide) == val
  {
    hide Wrap, Rem, Quot;
    OperatorsAre();
    WidthPowers(wide);
  }

  /** The bit that leaves an operand on the left. */
  lemma {:induction false} TopBit(val: nat, wide: bool)
    requires val <= Mask(wide)
    ensures Shr(val, Bits(wide) - 1) == One(val >= Half(wide))
    ensures LowBits(val, Bits(wide) - 1) == if val >= Half(wide) then val - Half(wide) else val
  {
    var t := One(val >= Half(wide));
    WidthPowers(wide);
    ShlHalf(t, wide);
    Parts(val, Bits(wide) - 1, t, val - Half(wide) * t);
  }

  lemma {:induction false} CarryWordParts(cf: bool, val: nat, wide: bool)
    requires val <= Mask(wide)
    ensures Shr(CarryWord(cf, val, wide), Bits(wide)) == One(cf) && LowBits(CarryWord(cf, val, wide), Bits(wide)) == val
  {
    WidthPowers(wide);
    ShlConst(One(cf), wide);
    Parts(CarryWord(cf, val, wide), Bits(wide), One(cf), val);
  }

  /** One pass of the left loop: shift in CF, and let the top bit become CF. */
  lemma {:induction false} LeftPass(cf: bool, val: nat, wide: bool)
    requires val <= Mask(wide)
    ensures var v, c := Low(Or(Shl(val, 1), One(cf)), wide), Shr(val, Bits(wide) - 1) % 2 == 1;
      v <= Mask(wide) && CarryWord(c, v, wide) == RotL1(CarryWord(cf, val, wide), Bits(wide) + 1)
  {
    hide Shr, LowBits, Or, Shl, Low;
    OrDisjoint(val, One(cf), 1);
    assert Shl(val, 1) == 2 * val by { ShlByOne(val); }
    assert Pow2(1) == 2;
    TopBit(val, wide);
    CarryWordParts(cf, val, wide);
    LowDouble(val, One(cf), wide);
  }

  lemma ShlByOne(x: nat)
    ensures Shl(x, 1) == 2 * x
  {}

  lemma LowDouble(val: nat, c: nat, wide: bool)
    requires val <= Mask(wide) && c <= 1
    ensures Low(2 * val + c, wide) == if val >= Half(wide) then 2 * val + c - Size(wide) else 2 * val + c
  {
    RemNear(2 * val + c, Size(wide));
  }

  /** One pass of the right loop. */
  lemma {:induction false} RightPass(cf: bool, val: nat, wide: bool)
    requires val <= Mask(wide)
    ensures var v, c := Low(Or(Shl(One(cf), Bits(wide) - 1), val / 2), wide), val % 2 == 1;
      v <= Mask(wide) && CarryWord(c, v, wide) == RotR1(CarryWord(cf, val, wide), Bits(wide) + 1)
  {
    hide Shr, LowBits, Or, Shl;
    WidthPowers(wide);
    ShlHalf(One(cf), wide);
    OrDisjoint(One(cf), val / 2, Bits(wide) - 1);
    ShlConst(val % 2, wide);
    ShlConst(CarryWord(cf, val, wide) % 2, wide);
  }

  method RotateCarryLeft(f: Flags, value: u16, count: u8, wide: bool) returns (r: Shifted)
    requires value <= Mask(wide)
    ensures r == ExecRcl(f, value, count, wide)
  {
    hide RotL, RotL1, RotR1, CarryWord, CarryOf, ValueOf, Low, Shr, Shl, Or, Bit, LowBits, Rotated, SignOf;
    if count == 0 { return Shifted(f, value); }
    var bits := Bits(wide);
    var val: u16, cf := value, f.cf;
    var n := count % (bits + 1);
    ghost var w := CarryWord(f.cf, value, wide);
    CarryWordBound(cf, val, wide);
    RotZero(w, bits + 1);
    for i := 0 to n
      invariant val <= Mask(wide) && w < Pow2(bits + 1)
      invariant CarryWord(cf, val, wide) == RotL(w, i, bits + 1)
    {
      LeftPass(cf, val, wide);
      RotStep(w, i, bits + 1);
      var newCf := Shr(val, bits - 1) % 2 == 1;
      val := Low(Or(Shl(val, 1), One(cf)), wide);
      cf := newCf;
    }
    CarryWordBound(cf, val, wide);
    r := Rotated(f, val, cf, SignOf(val, wide) != cf);
  }

  method RotateCarryRight(f: Flags, value: u16, count: u8, wide: bool) returns (r: Shifted)
    requires value <= Mask(wide)
    ensures r == ExecRcr(f, value, count, wide)
  {
    hide RotL, RotL1, RotR1, CarryWord, CarryOf, ValueOf, Low, Shr, Shl, Or, Bit, LowBits, Rotated, SignOf;
    if count == 0 { return Shifted(f, value); }
    var bits := Bits(wide);
    var val: u16, cf := value, f.cf;
    var n := count % (bits + 1);
    ghost var w := CarryWord(f.cf, value, wide);
    CarryWordBound(cf, val, wide);
    RotZero(w, bits + 1);
    for i := 0 to n
      invariant val <= Mask(wide) && w < Pow2(bits + 1)
      invariant CarryWord(cf, val, wide) == RotL(w, bits + 1 - i, bits + 1)
    {
      RightPass(cf, val, wide);
      RotBack(w, bits - i, bits + 1);
      var newCf := val % 2 == 1;
      val := Low(Or(Shl(One(cf), bits - 1), val / 2), wide);
      cf := newCf;
    }
    CarryWordBound(cf, val, wide);
    r := Rotated(f, val, cf, SignOf(val, wide) != Bit(val, bits - 2));
  }

  /** RCL by any count, then RCR by the same count, restores the operand and CF. */
  lemma {:induction false} RclThenRcr(f: Flags, val: u16, count: u8, wide: bool)
    requires val <= Mask(wide)
    ensures var r := ExecRcl(f, val, count, wide);
      var s := ExecRcr(r.flags, r.value, count, wide);
      s.value == val && s.flags.cf == f.cf
  {
    hide RotL, CarryWord, CarryOf, ValueOf, ExecRcl, ExecRcr;
    if count == 0 {
      RotateByZero(f, val, wide);
    } else {
      CarryWordBound(f.cf, val, wide);
      RclRcrWord(CarryWord(f.cf, val, wide), count, wide);
      var r := ExecRcl(f, val, count, wide);
      RclIs(f, val, count, wide);
      RcrIs(r.flags, r.value, count, wide);
    }
  }

  lemma RotateByZero(f: Flags, val: u16, wide: bool)
    ensures ExecRcl(f, val, 0, wide) == ExecRcr(f, val, 0, wide) == Shifted(f, val)
  {}

  lemma {:induction false} RclIs(f: Flags, val: u16, count: u8, wide: bool)
    requires count != 0
    ensures var N := Bits(wide) + 1;
      var w := RotL(CarryWord(f.cf, val, wide), count % N, N);
      var r := ExecRcl(f, val, count, wide);
      r.value == ValueOf(w, wide) && r.flags.cf == CarryOf(w, wide)
  {
    hide RotL, CarryWord, CarryOf, ValueOf, SignOf, Bit;
  }

  lemma {:induction false} RcrIs(f: Flags, val: u16, count: u8, wide: bool)
    requires count != 0
    ensures var N := Bits(wide) + 1;
      var w := RotL(CarryWord(f.cf, val, wide), N - count % N, N);
      var r := ExecRcr(f, val, count, wide);
      r.value == ValueOf(w, wide) && r.flags.cf == CarryOf(w, wide)
  {
    hide RotL, CarryWord, CarryOf, ValueOf, SignOf, Bit;
  }

  lemma {:induction false} RclRcrWord(w: nat, count: u8, wide: bool)
    requires w < Pow2(Bits(wide) + 1)
    ensures var N := Bits(wide) + 1;
      var x := RotL(w, count % N, N);
      && ValueOf(x, wide) <= Mask(wide)
      && RotL(CarryWord(CarryOf(x, wide), ValueOf(x, wide), wide), N - count % N, N) == w
  {
    hide RotL, CarryWord, CarryOf, ValueOf;
    var N := Bits(wide) + 1;
    var n := count % N;
    RotBound(w, n, N);
    CarryWordOf(RotL(w, n, N), wide);
    RotRot(w, n, N - n, N);
    RotZero(w, N);
  }

  /** A word below 2^(bits+1) is put together again from its carry and its value. */
  lemma {:induction false} CarryWordOf(w: nat, wide: bool)
    requires w < Pow2(Bits(wide) + 1)
    ensures CarryWord(CarryOf(w, wide), ValueOf(w, wide), wide) == w && ValueOf(w, wide) <= Mask(wide)
  {
    hide Wrap, Rem, Quot;
    OperatorsAre();
    WidthPowers(wide);
  }
}

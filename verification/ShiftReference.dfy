/**
 The reference's closed-form shifts and rotates (reference/8086tiny.c, case 12)
 and the proof that shift.h computes the same results and flags.
 */
module ShiftReference {
  import opened Words
  import opened Flags
  import opened Alu
  import opened BitShift
  import opened Shift
  import opened AluReference
  import AluMeaning

  function RolRef(f: Flags, val: u16, count: nat, wide: bool): Shifted {
    var n := count % Bits(wide);
    var r := Low(Low(Shl(val, n), wide) as int + Shr(val, Bits(wide) - n), wide);
    var cf := r % 2 == 1;
    Shifted(f.(cf := cf, of := SignOf(r, wide) != cf), r)
  }

  function RorRef(f: Flags, val: u16, count: nat, wide: bool): Shifted {
    var n := count % Bits(wide);
    var r := Low(Shr(val, n) + Shl(LowBits(val, n), Bits(wide) - n), wide);
    Shifted(f.(cf := SignOf(r, wide), of := SignOf(2 * (r as int), wide) != SignOf(r, wide)), r)
  }

  function RclRef(f: Flags, val: u16, count: nat, wide: bool): Shifted
    requires count % (Bits(wide) + 1) != 0
  {
    var n := count % (Bits(wide) + 1);
    var r := Low(Low(Shl(val, n), wide) as int + Shl(Carry(f), n - 1) + Shr(val, Bits(wide) + 1 - n), wide);
    var cf := Bit(val, Bits(wide) - n);
    Shifted(f.(cf := cf, of := SignOf(r, wide) != cf), r)
  }

  function RcrRef(f: Flags, val: u16, count: nat, wide: bool): Shifted
    requires count % (Bits(wide) + 1) != 0
  {
    var n := count % (Bits(wide) + 1);
    var r := Low(Shr(val, n) + Shl(Carry(f), Bits(wide) - n) + Shl(val, Bits(wide) + 1 - n), wide);
    Shifted(f.(cf := Bit(val, n - 1), of := SignOf(r, wide) != SignOf(2 * (r as int), wide)), r)
  }

  function ShlRef(f: Flags, val: u16, n: nat, wide: bool): Shifted
    requires n > 0
  {
    var r := Low(Shl(val, n), wide);
    var cf := SignOf(Shl(val, n - 1), wide);
    Shifted(SetSzpRef(f.(cf := cf, of := SignOf(r, wide) != cf), r, wide), r)
  }

  function ShrRef(f: Flags, val: u16, n: nat, wide: bool): Shifted
    requires n > 0
  {
    var r := Low(Shr(val, n), wide);
    Shifted(SetSzpRef(f.(cf := Bit(val, n - 1), of := SignOf(val, wide)), r, wide), r)
  }

  /** SAR shifts logically and then adds ~(mask >> n) if the operand was negative. */
  function SarRef(f: Flags, val: u16, n: nat, wide: bool): Shifted
    requires n > 0
  {
    var sign := SignOf(val, wide);
    var r := Low(U32(Shr(val, n) - (if sign then Shr(Mask(wide), n) + 1 else 0)), wide);
    var cf := if n < Bits(wide) then Bit(val, n - 1) else sign;
    Shifted(SetSzpRef(f.(cf := cf, of := false), r, wide), r)
  }

  function ShiftRotateRef(reg: nat, f: Flags, val: u16, count: nat, wide: bool): Shifted
    requires Comparable(reg, count, wide)
  {
    match reg
    case 0 => RolRef(f, val, count, wide)
    case 1 => RorRef(f, val, count, wide)
    case 2 => RclRef(f, val, count, wide)
    case 3 => RcrRef(f, val, count, wide)
    case 4 => ShlRef(f, val, count, wide)
    case 5 => ShrRef(f, val, count, wide)
    case _ => SarRef(f, val, count, wide)
  }

  /** The operations and counts on which both emulators are defined and update the flags. */
  predicate Comparable(reg: nat, count: nat, wide: bool) {
    && reg in {0, 1, 2, 3, 4, 5, 7}
    && 1 <= count <= 31
    && (reg == 4 ==> count <= Bits(wide))
    && (reg == 2 || reg == 3 ==> count % (Bits(wide) + 1) != 0)
  }

  // ----- arithmetic of Low

  lemma LowAddMultiple(x: nat, k: nat, wide: bool)
    ensures Low(Size(wide) * k + x, wide) == Low(x, wide)
  {
    hide Wrap, Rem, Quot;
    OperatorsAre();
    if wide { DivUnique(0x1_0000 * k + x, 0x1_0000, k + x / 0x1_0000, x % 0x1_0000); }
    else { DivUnique(0x100 * k + x, 0x100, k + x / 0x100, x % 0x100); }
  }

  lemma LowLowPlus(x: nat, y: nat, wide: bool)
    ensures Low(Low(x, wide) as int + y, wide) == Low(x + y, wide)
  {
    hide Wrap, Rem, Quot;
    OperatorsAre();
    var k := if wide then x / 0x1_0000 else x / 0x100;
    var l := Low(x, wide) as int;
    assert x == Size(wide) * k + l;
    assert x + y == Size(wide) * k + (l + y);
    LowAddMultiple(l + y, k, wide);
  }

  lemma {:induction false} OrComm(a: nat, b: nat)
    ensures Or(a, b) == Or(b, a)
  {
    if a != 0 && b != 0 { OrComm(a / 2, b / 2); }
  }

  lemma ValueBound(val: u16, wide: bool)
    requires val <= Mask(wide)
    ensures val < Pow2(Bits(wide)) && Low(val, wide) == val
  {
    WidthPowers(wide);
  }

  lemma SzpAgrees(f: Flags, v: u16, wide: bool)
    requires v <= Mask(wide)
    ensures SetSzp(f, v, wide) == SetSzpRef(f, v, wide)
  {
    AluMeaning.ParityCountsOnes(Lo(v));
    ByteOf(v, wide);
    hide Parity8, AluMeaning.EvenOnes, Bit;
  }

  lemma ByteOf(v: u16, wide: bool)
    requires v <= Mask(wide)
    ensures U32(v) == v && Low(v, wide) == v && U8(v) == Lo(v)
  {}

  // ----- rotates

  lemma {:induction false} RolValue(val: u16, count: u8, wide: bool)
    requires val <= Mask(wide)
    ensures var n := count % Bits(wide);
      Low(Or(Shl(val, FullCount(count, wide)), Shr(val, Bits(wide) - FullCount(count, wide))), wide)
      == Low(Low(Shl(val, n), wide) as int + Shr(val, Bits(wide) - n), wide)
  {
    hide Low, Or;
    var b, m, n := Bits(wide), FullCount(count, wide), count % Bits(wide);
    ValueBound(val, wide);
    ShrBound(val, m, b - m);
    OrDisjoint(val, Shr(val, b - m), m);
    LowLowPlus(Shl(val, n), Shr(val, b - n), wide);
    if n == 0 {
      ShlConst(val, wide);
      LowAddMultiple(val, val, wide);
      LowBitsSmall(val, b);
    }
  }

  lemma {:induction false} RorValue(val: u16, count: u8, wide: bool)
    requires val <= Mask(wide)
    ensures var n := count % Bits(wide);
      Low(Or(Shr(val, FullCount(count, wide)), Shl(val, Bits(wide) - FullCount(count, wide))), wide)
      == Low(Shr(val, n) + Shl(LowBits(val, n), Bits(wide) - n), wide)
  {
    hide Low, Or;
    var b, m, n := Bits(wide), FullCount(count, wide), count % Bits(wide);
    ValueBound(val, wide);
    ShrBound(val, b - m, m);
    OrComm(Shr(val, m), Shl(val, b - m));
    OrDisjoint(val, Shr(val, m), b - m);
    if n == 0 {
      LowBitsSmall(val, b);
      ShlZero(b);
    } else {
      var h, l := Shr(val, n), LowBits(val, n);
      Recombine(val, n);
      ShlAdd(Shl(h, n), l, b - n);
      ShlShl(h, n, b - n);
      ShlConst(h, wide);
      LowAddMultiple(h + Shl(l, b - n), h, wide);
    }
  }

  /** The rotated word CF:value, for a rotation left by 1 <= n <= bits places. */
  lemma {:induction false} CarryRotation(cf: bool, val: nat, n: nat, wide: bool)
    requires val <= Mask(wide) && 1 <= n <= Bits(wide)
    ensures var N := Bits(wide) + 1; var k := N - n;
      var w := RotL(CarryWord(cf, val, wide), n, N);
      && ValueOf(w, wide) == Low(Shl(val, n) + Shl(One(cf), n - 1) + Shr(val, k), wide)
      && CarryOf(w, wide) == Bit(val, k - 1)
  {
    hide Low, Shl, Shr, LowBits, Bit;
    var b := Bits(wide);
    var N := b + 1;
    var k := N - n;
    var c, h, l := One(cf), Shr(val, k), LowBits(val, k);
    CarryWordSplit(cf, val, n, wide);
    // the value
    Recombine(val, k);
    ShlAdd(Shl(h, k), l, n);
    ShlShl(h, k, n);
    ShlWord(h, wide);
    LowAddMultiple(Shl(l, n) + Shl(c, n - 1) + h, 2 * h, wide);
    // the carry
    CarryRotationTop(c, val, n, wide);
  }

  lemma {:induction false} ShlWord(h: nat, wide: bool)
    ensures Shl(h, Bits(wide) + 1) == Size(wide) * (2 * h)
  {
    ShlConst(h, wide);
  }

  /** The low and the high part of CF:value. */
  lemma {:induction false} CarryWordSplit(cf: bool, val: nat, n: nat, wide: bool)
    requires val <= Mask(wide) && 1 <= n <= Bits(wide)
    ensures var k := Bits(wide) + 1 - n; var w := CarryWord(cf, val, wide);
      && LowBits(w, k) == LowBits(val, k)
      && Shr(w, k) == Shl(One(cf), n - 1) + Shr(val, k)
  {
    hide Shr, LowBits;
    var k, c := Bits(wide) + 1 - n, One(cf);
    ShlConst(c, wide);
    ShlShl(c, n - 1, k);
    Recombine(val, k);
    LowBitsBound(val, k);
    ShlAdd(Shl(c, n - 1), Shr(val, k), k);
    hide Shl;
    Parts(CarryWord(cf, val, wide), k, Shl(c, n - 1) + Shr(val, k), LowBits(val, k));
  }

  lemma {:induction false} CarryRotationTop(c: nat, val: nat, n: nat, wide: bool)
    requires val <= Mask(wide) && 1 <= n <= Bits(wide) && c <= 1
    ensures var k := Bits(wide) + 1 - n;
      (Shl(LowBits(val, k), n) + Shl(c, n - 1) + Shr(val, k) >= Size(wide)) == Bit(val, k - 1)
  {
    hide Shr, LowBits, Shl, Bit;
    var k := Bits(wide) + 1 - n;
    var t, l := One(Bit(val, k - 1)), LowBits(val, k - 1);
    WidthPowers(wide);
    LowBitsTop(val, k - 1);
    ShlAdd(Shl(t, k - 1), l, n);
    ShlShl(t, k - 1, n);
    ShlConst(t, wide);
    LowBitsBound(val, k - 1);
    ShrBound(val, n - 1, k);
    JoinBound(c, Shr(val, k), 1, n - 1);
    JoinBound(l, Shl(c, n - 1) + Shr(val, k), k - 1, n);
  }

  lemma {:induction false} BitDouble(r: nat, wide: bool)
    ensures SignOf(2 * r, wide) == Bit(r, Bits(wide) - 2)
  {}

  lemma {:induction false} RolAgrees(f: Flags, val: u16, count: u8, wide: bool)
    requires val <= Mask(wide) && count > 0
    ensures ExecRol(f, val, count, wide) == RolRef(f, val, count, wide)
  {
    hide Low, Or, Shl, Shr, SignOf, FullCount;
    RolValue(val, count, wide);
  }

  lemma {:induction false} RorAgrees(f: Flags, val: u16, count: u8, wide: bool)
    requires val <= Mask(wide) && count > 0
    ensures ExecRor(f, val, count, wide) == RorRef(f, val, count, wide)
  {
    hide Low, Or, Shl, Shr, LowBits, SignOf, Bit, FullCount;
    RorValue(val, count, wide);
    BitDouble(RorRef(f, val, count, wide).value, wide);
  }

  lemma {:induction false} RclWord(f: Flags, val: u16, n: nat, wide: bool)
    requires val <= Mask(wide) && 1 <= n <= Bits(wide)
    ensures var w := RotL(CarryWord(f.cf, val, wide), n, Bits(wide) + 1);
      && ValueOf(w, wide) == Low(Low(Shl(val, n), wide) as int + Shl(Carry(f), n - 1) + Shr(val,
        Bits(wide) + 1 - n), wide)
      && CarryOf(w, wide) == Bit(val, Bits(wide) - n)
  {
    hide Low, Shl, Shr, SignOf, Bit, RotL, CarryWord, CarryOf, ValueOf;
    CarryRotation(f.cf, val, n, wide);
    LowLowPlus(Shl(val, n), Shl(Carry(f), n - 1) + Shr(val, Bits(wide) + 1 - n), wide);
  }

  lemma {:induction false} RclAgrees(f: Flags, val: u16, count: u8, wide: bool)
    requires val <= Mask(wide) && count > 0 && count % (Bits(wide) + 1) != 0
    ensures ExecRcl(f, val, count, wide) == RclRef(f, val, count, wide)
  {
    hide Low, Shl, Shr, SignOf, Bit, RotL, CarryWord, CarryOf, ValueOf, Carry;
    RclWord(f, val, count % (Bits(wide) + 1), wide);
  }

  lemma {:induction false} RcrWord(f: Flags, val: u16, n: nat, wide: bool)
    requires val <= Mask(wide) && 1 <= n <= Bits(wide)
    ensures var w := RotL(CarryWord(f.cf, val, wide), Bits(wide) + 1 - n, Bits(wide) + 1);
      && ValueOf(w, wide) == Low(Shr(val, n) + Shl(Carry(f), Bits(wide) - n) + Shl(val, Bits(wide) + 1 - n), wide)
      && CarryOf(w, wide) == Bit(val, n - 1)
  {
    hide Low, Shl, Shr, SignOf, Bit, RotL, CarryWord, CarryOf, ValueOf;
    CarryRotation(f.cf, val, Bits(wide) + 1 - n, wide);
  }

  lemma {:induction false} RcrAgrees(f: Flags, val: u16, count: u8, wide: bool)
    requires val <= Mask(wide) && count > 0 && count % (Bits(wide) + 1) != 0
    ensures ExecRcr(f, val, count, wide) == RcrRef(f, val, count, wide)
  {
    hide Low, Shl, Shr, SignOf, Bit, RotL, CarryWord, CarryOf, ValueOf, Carry;
    RcrWord(f, val, count % (Bits(wide) + 1), wide);
    BitDouble(RcrRef(f, val, count, wide).value, wide);
  }

  // ----- shifts

  lemma {:induction false} BitOfShl(x: nat, m: nat, k: nat)
    requires m <= k
    ensures Bit(Shl(x, m), k) == Bit(x, k - m)
    decreases m
  {
    if m > 0 {
      assert Bit(Shl(x, m), k) == Bit(Shl(x, m - 1), k - 1);
      BitOfShl(x, m - 1, k - 1);
    }
  }

  lemma {:induction false} ShlAgrees(f: Flags, val: u16, n: u8, wide: bool)
    requires val <= Mask(wide) && 1 <= n <= Bits(wide)
    ensures ExecShl(f, val, n, wide) == ShlRef(f, val, n, wide)
  {
    hide *;
    var cf := SignOf(Shl(val, n - 1), wide);
    ShlForms(f, val, n, wide, Low(Shl(val, n), wide), cf);
  }

  lemma {:induction false} ShlForms(f: Flags, val: u16, n: u8, wide: bool, r: u16, cf: bool)
    requires val <= Mask(wide) && 1 <= n <= Bits(wide)
    requires r == Low(Shl(val, n), wide) && cf == SignOf(Shl(val, n - 1), wide)
    ensures ExecShl(f, val, n, wide) == ShlRef(f, val, n, wide)
  {
    hide Low, Shl, SetSzp, SetSzpRef;
    assert cf == Bit(val, Bits(wide) - n) by { BitOfShl(val, n - 1, Bits(wide) - 1); }
    assert r <= Mask(wide) by { LowIsLowBits(Shl(val, n), wide); }
    hide SignOf, Bit;
    var g := f.(cf := cf, of := cf != SignOf(r, wide));
    SzpAgrees(g, r, wide);
    assert (cf != SignOf(r, wide)) == (SignOf(r, wide) != cf);
    assert ExecShl(f, val, n, wide) == Shifted(SetSzp(g, r, wide), r);
    assert ShlRef(f, val, n, wide) == Shifted(SetSzpRef(g, r, wide), r);
  }

  lemma {:induction false} ShrAgrees(f: Flags, val: u16, n: u8, wide: bool)
    requires val <= Mask(wide) && n > 0
    ensures ExecShr(f, val, n, wide) == ShrRef(f, val, n, wide)
  {
    hide Low, Shr, Bit, SignOf, SetSzp, SetSzpRef;
    LowIsLowBits(Shr(val, n), wide);
    SzpAgrees(f.(cf := Bit(val, n - 1), of := SignOf(val, wide)), Low(Shr(val, n), wide), wide);
  }

  lemma {:induction false} SarNonNegative(x: nat, n: nat)
    ensures Sar(x, n) == Shr(x, n)
    decreases n
  {
    if n > 0 { SarNonNegative(x / 2, n - 1); }
  }

  lemma {:induction false} SarNegative(x: nat, m: nat, n: nat)
    ensures Sar(x - Pow2(m + n), n) == Shr(x, n) - Pow2(m)
    decreases n
  {
    if n > 0 {
      assert (x - Pow2(m + n)) / 2 == x / 2 - Pow2(m + n - 1);
      SarNegative(x / 2, m, n - 1);
    }
  }

  lemma {:induction false} SarMinusOne(x: int, n: nat)
    requires -(Pow2(n) as int) <= x < 0
    ensures Sar(x, n) == -1
    decreases n
  {
    if n > 0 { SarMinusOne(x / 2, n - 1); }
  }

  lemma {:induction false} Pow2Mono(m: nat, n: nat)
    requires m <= n
    ensures Pow2(m) <= Pow2(n)
  {
    if m < n { Pow2Mono(m, n - 1); }
  }

  /** ~(mask >> n) keeps the n high bits of the operand width. */
  lemma {:induction false} MaskShr(n: nat, wide: bool)
    ensures Shr(Mask(wide), n) == if n <= Bits(wide) then Pow2(Bits(wide) - n) - 1 else 0
  {
    var b := Bits(wide);
    WidthPowers(wide);
    if n <= b {
      ShlPow2(b - n, n);
      ShlOne(n);
      ShlAdd(Pow2(b - n) - 1, 1, n);
      Parts(Mask(wide), n, Pow2(b - n) - 1, Pow2(n) - 1);
    } else {
      Pow2Mono(b, n);
      LowBitsSmall(Mask(wide), n);
    }
  }

  /** The arithmetic shift of an operand, for both signs. */
  lemma {:induction false} SarOf(val: u16, n: nat, wide: bool)
    requires val <= Mask(wide)
    ensures !SignOf(val, wide) ==> Sar(Signed(val, wide), n) == Shr(val, n)
    ensures SignOf(val, wide) && n <= Bits(wide) ==> Sar(Signed(val, wide), n) == Shr(val, n) - Pow2(Bits(wide) - n)
    ensures SignOf(val, wide) && n >= Bits(wide) ==> Sar(Signed(val, wide), n) == -1
    ensures n >= Bits(wide) ==> Shr(val, n) == 0
  {
    AluMeaning.SignMeaning(val, wide);
    WidthPowers(wide);
    SarNonNegative(val, n);
    if n >= Bits(wide) {
      Pow2Mono(Bits(wide), n);
      LowBitsSmall(val, n);
      if SignOf(val, wide) { SarMinusOne(Signed(val, wide), n); }
    }
    if n <= Bits(wide) {
      SarNegative(val, Bits(wide) - n, n);
    }
  }

  lemma {:induction false} SarCarry(val: u16, n: nat, wide: bool)
    requires val <= Mask(wide) && n > 0
    ensures (Sar(Signed(val, wide), n - 1) % 2 == 1)
         == if n < Bits(wide) then Bit(val, n - 1) else SignOf(val, wide)
  {
    hide Sar, Shr, Bit, Signed;
    SarOf(val, n - 1, wide);
    BitIsShr(val, n - 1);
    if n <= Bits(wide) {
      assert Pow2(Bits(wide) - (n - 1)) == 2 * Pow2(Bits(wide) - n);
      EvenPlus(-(Pow2(Bits(wide) - n) as int), Shr(val, n - 1));
    }
  }

  lemma {:induction false} SarValue(val: u16, n: nat, wide: bool)
    requires val <= Mask(wide) && n > 0
    ensures var sign := SignOf(val, wide);
      (if n >= Bits(wide) then (if Signed(val, wide) < 0 then Mask(wide) else 0) else Low(U32(Sar(Signed(val,
        wide), n)), wide))
      == Low(U32(Shr(val, n) - (if sign then Shr(Mask(wide), n) + 1 else 0)), wide)
  {
    hide Wrap, Rem, Quot;
    OperatorsAre();
    hide Sar, Shr;
    SarOf(val, n, wide);
    MaskShr(n, wide);
    AluMeaning.SignMeaning(val, wide);
    hide Bit, SignOf, Signed;
    if n == Bits(wide) { assert Pow2(0) == 1; }
    if n >= Bits(wide) {
      assert Low(U32(-1), wide) == Mask(wide);
      assert Low(U32(0), wide) == 0;
    }
  }

  lemma {:induction false} SarAgrees(f: Flags, val: u16, n: u8, wide: bool)
    requires val <= Mask(wide) && n > 0
    ensures ExecSar(f, val, n, wide) == SarRef(f, val, n, wide)
  {
    hide Low, Shr, Bit, SignOf, Sar, SetSzp, SetSzpRef, U32, Signed;
    SarCarry(val, n, wide);
    SarValue(val, n, wide);
    var q := SarRef(f, val, n, wide);
    var cf := if n < Bits(wide) then Bit(val, n - 1) else SignOf(val, wide);
    LowIsLowBits(U32(Shr(val, n) - (if SignOf(val, wide) then Shr(Mask(wide), n) + 1 else 0)), wide);
    SzpAgrees(f.(cf := cf, of := false), q.value, wide);
  }

  /** Every comparable shift or rotate leaves the same operand and the same six flags in
      both emulators. */
  lemma {:induction false} ShiftRotateAgrees(reg: nat, f: Flags, val: u16, count: u8, wide: bool)
    requires val <= Mask(wide) && Comparable(reg, count, wide)
    ensures ShiftRotate(reg, f, val, count, wide) == ShiftRotateRef(reg, f, val, count, wide)
  {
    hide ExecRol, ExecRor, ExecRcl, ExecRcr, ExecShl, ExecShr, ExecSar;
    hide RolRef, RorRef, RclRef, RcrRef, ShlRef, ShrRef, SarRef;
    match reg
    case 0 => RolAgrees(f, val, count, wide);
    case 1 => RorAgrees(f, val, count, wide);
    case 2 => RclAgrees(f, val, count, wide);
    case 3 => RcrAgrees(f, val, count, wide);
    case 4 => ShlAgrees(f, val, count, wide);
    case 5 => ShrAgrees(f, val, count, wide);
    case _ => SarAgrees(f, val, count, wide);
  }
}

/**
 MUL_MACRO and DIV_MACRO of the reference emulator (reference/8086tiny.c), which compute in
 C's int and unsigned and test ranges by casting back and forth, against MUL, IMUL, DIV and
 IDIV.
 */
module MulDivReference {
  import opened Words
  import opened Flags
  import opened Alu
  import opened AluReference
  import opened AluDivision
  import AluMeaning

  /** (op_data_type)x: unsigned short, unsigned char, short or char. */
  function Cast(x: int, wide: bool, signed: bool): int {
    if signed then (if wide then S16(U16(x)) else S8(U8(x))) else (if wide then U16(x) else U8(x))
  }

  /** MUL_MACRO. op_result is an int, which a product of two unsigned shorts wraps into. */
  function MulRef(f: Flags, ax: u16, dx: u16, src: u16, wide: bool, signed: bool): Product {
    var result := S32(U32(Times(Cast(ax, wide, signed), Cast(src, wide, signed))));
    Multiplied(f, result, result != Cast(result, wide, signed), dx, wide)
  }

  function Multiplied(f: Flags, result: int, over: bool, dx: u16, wide: bool): Product {
    Product(SetSzpRef(f.(cf := over, of := over), result, wide),
            U16(result), if wide then U16(result / 0x1_0000) else dx)
  }

  /** The dividend of DIV_MACRO in scratch_uint: for bytes AH stands above AX once more. */
  function Scratch(ax: u16, dx: u16, wide: bool): u32 {
    if wide then 0x1_0000 * dx + ax else 0x1_0000 * Hi(ax) + ax
  }

  /** What DIV_MACRO leaves: the quotient as stored, and scratch_uint less divisor times that. */
  function Divided(n: u32, d: int, stored: u16, dx: u16, wide: bool): Quotient {
    var m := n as int - Times(d, stored);
    if wide then Quotient(stored, U16(m)) else Quotient(Word(U8(stored), U8(m)), dx)
  }

  /** DIV_MACRO on unsigned types. */
  function DivRef(ax: u16, dx: u16, src: u16, wide: bool): Quotient {
    var n, d := Scratch(ax, dx, wide), Cast(src, wide, false);
    if d == 0 then DivideError
    else
      var q := Quot(if wide then n else U16(n), d);
      if q != Cast(q, wide, false) then DivideError
      else Divided(n, d, U16(q), dx, wide)
  }

  /** DIV_MACRO on signed types, with the mathematical quotient where C's overflows. The
      range test subtracts in unsigned, and the stored quotient is unsigned again. */
  function IdivRef(ax: u16, dx: u16, src: u16, wide: bool): Quotient {
    var n, d := Scratch(ax, dx, wide), Cast(src, wide, true);
    if d == 0 then DivideError
    else
      var q := TruncDiv(if wide then S32(n) else S16(U16(n)), d);
      if U32(q) != U32(Cast(q, wide, true)) then DivideError
      else Divided(n, d, if wide then U16(q) else U8(q), dx, wide)
  }

  // ----- products

  lemma LowByteOf(x: int, wide: bool)
    ensures Lo(Low(U32(x), wide)) == U8(x)
  {
    hide Wrap, Rem, Quot;
    OperatorsAre();
    var q, q', m := x / 0x1_0000_0000, U32(x) / 0x1_0000, U16(U32(x));
    DivUnique(m, 0x100, x / 0x100 - 0x100_0000 * q - 0x100 * q', U8(x));
    DivUnique(U32(x), 0x100, x / 0x100 - 0x100_0000 * q, U8(x));
  }

  lemma {:induction false} ProductFlags(f: Flags, over: bool, full: nat, low: u16, result: int, wide: bool)
    requires (full == 0 <==> result == 0) && low == Low(U32(result), wide)
    ensures MulFlags(f, over, full, low, wide) == SetSzpRef(f.(cf := over, of := over), result, wide)
  {
    LowKeepsBits(U32(result), wide);
    LowByteOf(result, wide);
    AluMeaning.ParityCountsOnes(U8(result));
    hide Low, U8, U32, Lo, Bit, Parity8, AluMeaning.EvenOnes;
  }

  /** What MUL, IMUL and the macro have in common: flags by a full product and its low half,
      and the registers. */
  predicate Leaves(r: Product, f: Flags, over: bool, full: nat, low: u16, ax: u16, dx: u16, wide: bool) {
    r.flags == MulFlags(f, over, full, low, wide) && r.ax == ax && r.dx == dx
  }

  lemma {:induction false} RefLeaves(f: Flags, dx: u16, wide: bool, result: int, over: bool, full: nat, low: u16)
    requires (full == 0 <==> result == 0) && low == Low(U32(result), wide)
    ensures Leaves(Multiplied(f, result, over, dx, wide), f, over, full, low,
                   U16(result), if wide then U16(result / 0x1_0000) else dx, wide)
  {
    ProductFlags(f, over, full, low, result, wide);
    hide MulFlags, SetSzpRef, U8, U16, U32, Low;
  }

  lemma MulRefIs(f: Flags, ax: u16, dx: u16, src: u16, wide: bool, signed: bool, result: int, over: bool)
    requires result == S32(U32(Times(Cast(ax, wide, signed), Cast(src, wide, signed))))
    requires over == (result != Cast(result, wide, signed))
    ensures MulRef(f, ax, dx, src, wide, signed) == Multiplied(f, result, over, dx, wide)
  {
    hide Times, Cast, U32, S32, Multiplied;
  }

  /** MUL: AX, DX and all flags, for every operand and width. */
  lemma {:induction false} MulAgrees(f: Flags, ax: u16, dx: u16, src: u16, wide: bool)
    requires src <= Mask(wide)
    ensures Mul(f, ax, dx, src, wide) == MulRef(f, ax, dx, src, wide, false)
  {
    var p: u32 := if wide then Times16(ax, src) else Times8(Lo(ax), src);
    var over, low: u16 := if wide then Quot(p, 0x1_0000) != 0 else Quot(p, 0x100) != 0, if wide then U16(p) else U8(p);
    UnsignedResult(p, wide);
    assert p == Times(Cast(ax, wide, false), Cast(src, wide, false)) by { hide Times, Cast, U8, U16; }
    hide *;
    MulRefIs(f, ax, dx, src, wide, false, S32(p), over);
    RefLeaves(f, dx, wide, S32(p), over, p, low);
  }

  lemma UnsignedResult(p: u32, wide: bool)
    requires !wide ==> p < 0x1_0000
    ensures U32(p) == p && U32(S32(p)) == p && U16(S32(p)) == U16(p) && (p == 0 <==> S32(p) == 0)
    ensures Low(p, wide) == (if wide then U16(p) else U8(p)) && (!wide ==> U16(p) == p)
    ensures wide ==> U16(S32(p) / 0x1_0000) == Quot(p, 0x1_0000)
    ensures Quot(p, if wide then 0x1_0000 else 0x100) != 0 <==> S32(p) != Cast(S32(p), wide, false)
  {
    hide Wrap, Rem, Quot;
    OperatorsAre();
  }

  /** IMUL likewise. */
  lemma {:induction false} ImulAgrees(f: Flags, ax: u16, dx: u16, src: u16, wide: bool)
    requires src <= Mask(wide)
    ensures Imul(f, ax, dx, src, wide) == MulRef(f, ax, dx, src, wide, true)
  {
    var x, y := if wide then S16(ax) else S8(Lo(ax)), Signed(src, wide);
    var p := Times(x, y);
    var full := if wide then U32(p) else U16(p);
    var low: u16, over := if wide then U16(full) else Lo(full), p != if wide then S16(U16(full)) else S8(Lo(full));
    TimesIs(x, y);
    SignedProductRange(x, y, Half(wide));
    SignedOperands(ax, src, wide);
    SignedResult(p, wide);
    hide *;
    MulRefIs(f, ax, dx, src, wide, true, p, over);
    RefLeaves(f, dx, wide, p, over, full, low);
  }

  lemma SignedOperands(ax: u16, src: u16, wide: bool)
    requires src <= Mask(wide)
    ensures Cast(src, wide, true) == Signed(src, wide) && Cast(ax, wide, true) == if wide then S16(ax) else S8(Lo(ax))
  {}

  lemma SignedResult(p: int, wide: bool)
    requires -0x4000_0000 <= p <= 0x4000_0000 && (!wide ==> -0x4000 <= p <= 0x4000)
    ensures S32(U32(p)) == p && (U32(p) == 0 <==> p == 0) && (!wide ==> (U16(p) == 0 <==> p == 0))
    ensures wide ==> U16(p) == U16(U32(p)) == Low(U32(p), true) && U16(p / 0x1_0000) == Quot(U32(p), 0x1_0000)
    ensures wide ==> Cast(p, true, true) == S16(U16(U32(p)))
    ensures !wide ==> Lo(U16(p)) == Low(U32(p), false) && Cast(p, false, true) == S8(Lo(U16(p)))
  {
    if wide {
      WideResult(p);
    } else {
      ByteResult(p);
    }
  }

  lemma WideResult(p: int)
    requires -0x4000_0000 <= p <= 0x4000_0000
    ensures S32(U32(p)) == p && (U32(p) == 0 <==> p == 0)
    ensures U16(p) == U16(U32(p)) == Low(U32(p), true) && U16(p / 0x1_0000) == Quot(U32(p), 0x1_0000)
    ensures Cast(p, true, true) == S16(U16(U32(p)))
  {
    hide Wrap, Rem, Quot;
    OperatorsAre();
  }

  lemma ByteResult(p: int)
    requires -0x4000 <= p <= 0x4000
    ensures S32(U32(p)) == p && (U32(p) == 0 <==> p == 0) && (U16(p) == 0 <==> p == 0)
    ensures Lo(U16(p)) == Low(U32(p), false) && Cast(p, false, true) == S8(Lo(U16(p)))
  {
    hide Wrap, Rem, Quot;
    OperatorsAre();
    var q, r := p / 0x100, p % 0x100;
    var (u, v) := (U16(p), U32(p));
    assert u == (if p < 0 then p + 0x1_0000 else p) && v == if p < 0 then p + 0x1_0000_0000 else p;
    DivUnique(u, 0x100, if p < 0 then q + 0x100 else q, r);
    DivUnique(v, 0x100, if p < 0 then q + 0x100_0000 else q, r);
  }

  // ----- quotients

  /** DIV: the same error cases, and the same quotient and remainder otherwise. */
  lemma {:induction false} DivAgrees(ax: u16, dx: u16, src: u16, wide: bool)
    requires src <= Mask(wide)
    ensures Div(ax, dx, src, wide) == DivRef(ax, dx, src, wide)
  {
    if src != 0 {
      var n := Scratch(ax, dx, wide);
      var x: nat := if wide then n else ax;
      var (q, m) := (Quot(x, src), Rem(x, src));
      ScratchLow(ax, dx, wide);
      DivisionIdentity(x, src);
      TimesIs(src, q);
      RemainderLow(m, if wide then 0 else Hi(ax));
      hide Quot, Rem, Times, Word, U8, U16, Cast, Scratch;
    }
  }

  lemma ScratchLow(ax: u16, dx: u16, wide: bool)
    ensures !wide ==> U16(Scratch(ax, dx, wide)) == ax && Scratch(ax, dx, wide) == 0x1_0000 * Hi(ax) + ax
    ensures wide ==> Scratch(ax, dx, wide) == 0x1_0000 * dx + ax
  {
    hide Wrap, Hi;
    WrapIs(0x1_0000 * Hi(ax) + ax, 0x1_0000);
    DivUnique(0x1_0000 * Hi(ax) + ax, 0x1_0000, Hi(ax), ax);
  }

  lemma RemainderLow(m: nat, h: u8)
    ensures m < 0x1_0000 ==> U16(m) == m
    ensures m < 0x100 ==> U8(0x1_0000 * h + m) == m
  {
    hide Wrap, Rem, Quot;
    OperatorsAre();
  }

  /** IDIV likewise. */
  lemma {:induction false} IdivAgrees(ax: u16, dx: u16, src: u16, wide: bool)
    requires src <= Mask(wide)
    ensures Idiv(ax, dx, src, wide) == IdivRef(ax, dx, src, wide)
  {
    hide *;
    SignedOperands(ax, src, wide);
    var d := Signed(src, wide);
    if d == 0 {
      IdivByZero(ax, dx, src, wide);
    } else {
      var n, x := Scratch(ax, dx, wide), SignedDividend(ax, dx, wide);
      var q := TruncDiv(x, d);
      ScratchSigned(ax, dx, wide);
      SignedStored(q, x, wide);
      IdivRefIs(ax, dx, src, wide, n, d, q);
      NonzeroOperand(src, wide);
      IdivIs(ax, dx, src, wide);
      DividedIs(n, d, q, x, dx, wide);
    }
  }

  lemma IdivByZero(ax: u16, dx: u16, src: u16, wide: bool)
    requires src <= Mask(wide) && Signed(src, wide) == 0 && Cast(src, wide, true) == 0
    ensures Idiv(ax, dx, src, wide) == DivideError == IdivRef(ax, dx, src, wide)
  {
    hide TruncDiv, Scratch;
  }

  lemma NonzeroOperand(src: u16, wide: bool)
    requires src <= Mask(wide)
    ensures Signed(src, wide) != 0 ==> src != 0
  {}

  lemma ScratchSigned(ax: u16, dx: u16, wide: bool)
    ensures var n := Scratch(ax, dx, wide); SignedDividend(ax, dx, wide) == if wide then S32(n) else S16(U16(n))
    ensures var x := SignedDividend(ax, dx, wide);
      if wide then -0x8000_0000 <= x < 0x8000_0000 else -0x8000 <= x < 0x8000
  {
    ScratchLow(ax, dx, wide);
    hide Scratch, U16;
  }

  lemma DividedIs(n: u32, d: int, q: int, x: int, dx: u16, wide: bool)
    requires d != 0 && q == TruncDiv(x, d) && x == if wide then S32(n) else S16(U16(n))
    ensures Divided(n, d, if wide then U16(q) else U8(q), dx, wide) ==
      if wide then Quotient(U16(q), U16(TruncMod(x, d))) else Quotient(Word(U8(q), U8(TruncMod(x, d))), dx)
  {
    TruncDivTruncates(x, d);
    TimesIs(d, if wide then U16(q) else U8(q));
    SignedRemainder(n, x, d, q, wide);
    hide TruncDiv, TruncMod, Truncates, Times, Word, U8, U16, S16, S32;
  }

  lemma IdivRefIs(ax: u16, dx: u16, src: u16, wide: bool, n: u32, d: int, q: int)
    requires n == Scratch(ax, dx, wide) && d == Cast(src, wide, true) && d != 0
    requires q == TruncDiv(if wide then S32(n) else S16(U16(n)), d)
    ensures IdivRef(ax, dx, src, wide) == if U32(q) != U32(Cast(q, wide, true)) then DivideError
                                          else Divided(n, d, if wide then U16(q) else U8(q), dx, wide)
  {
    hide TruncDiv, Cast, Scratch, Divided, U8, U16, U32, S16, S32;
  }

  lemma SignedStored(q: int, x: int, wide: bool)
    requires Abs(q) <= Abs(x) && (if wide then -0x8000_0000 <= x < 0x8000_0000 else -0x8000 <= x < 0x8000)
    ensures U32(q) != U32(Cast(q, wide, true)) <==> !(-Half(wide) <= q < Half(wide))
  {
    hide U32, Wrap;
    var c := Cast(q, wide, true);
    if -Half(wide) <= q < Half(wide) { WrapNear(q, Size(wide)); }
    assert -Half(wide) <= c < Half(wide);
    assert -Half(wide) <= q < Half(wide) ==> c == q;
    WrapsApart(q, c);
  }

  lemma WrapsApart(x: int, y: int)
    requires -0x8000_0000 <= x <= 0x8000_0000 && -0x8000_0000 < y < 0x8000_0000
    ensures U32(x) == U32(y) ==> x == y
  {
    WrapNear(x, 0x1_0000_0000);
    WrapNear(y, 0x1_0000_0000);
    hide Wrap;
  }

  lemma SignedRemainder(n: u32, x: int, d: int, q: int, wide: bool)
    requires x == if wide then S32(n) else S16(U16(n))
    ensures wide ==> U16(n as int - d * U16(q)) == U16(x - q * d)
    ensures !wide ==> U8(n as int - d * U8(q)) == U8(x - q * d)
  {
    hide Wrap, Rem, Quot;
    OperatorsAre();
    if wide {
      var k, j := q / 0x1_0000, if x == n then 0 else 0x1_0000;
      ProductShift(d, q, k, 0x1_0000, U16(q));
      ModShift(x - q * d, j + d * k, true);
    } else {
      var k := q / 0x100;
      var j := n / 0x1_0000 * 0x100 + if x == U16(n) then 0 else 0x100;
      assert n == x + 0x100 * j;
      ProductShift(d, q, k, 0x100, U8(q));
      ModShift(x - q * d, j + d * k, false);
    }
  }

  lemma ProductShift(d: int, q: int, k: int, size: int, r: int)
    requires q == size * k + r
    ensures d * r == q * d - size * (d * k)
  {}

  lemma ModShift(x: int, k: int, wide: bool)
    ensures wide ==> U16(x + 0x1_0000 * k) == U16(x)
    ensures !wide ==> U8(x + 0x100 * k) == U8(x)
  {
    hide Wrap, Rem, Quot;
    OperatorsAre();
    if wide {
      DivUnique(x + 0x1_0000 * k, 0x1_0000, x / 0x1_0000 + k, x % 0x1_0000);
    } else {
      DivUnique(x + 0x100 * k, 0x100, x / 0x100 + k, x % 0x100);
    }
  }
}

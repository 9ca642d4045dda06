/**
 Flag setters (helpers.h) and arithmetic (arithmetic.h, logic.h) on operand
 values. `wide` is the source's operand_width: false for bytes, true for words.
 A `result` is the uint32_t that the source computes before masking.
 */
module Alu {
  import opened Words
  import opened Flags

  function Mask(wide: bool): u16 { if wide then 0xFFFF else 0xFF }
  function Bits(wide: bool): nat { if wide then 16 else 8 }
  function Size(wide: bool): int { if wide then 0x1_0000 else 0x100 }
  function Half(wide: bool): int { if wide then 0x8000 else 0x80 }
  function Low(x: nat, wide: bool): u16 { if wide then Rem(x, 0x1_0000) else Rem(x, 0x100) }

  /** SIGN_OF */
  predicate SignOf(x: nat, wide: bool) { Bit(x, Bits(wide) - 1) }

  /** The two's-complement reading of an operand. */
  function Signed(x: u16, wide: bool): int
    requires x <= Mask(wide)
  {
    if wide then S16(x) else S8(x)
  }

  /** parity8: fold the byte onto itself three times, then test the lowest bit. */
  predicate Parity8(v: u8) {
    var v1 := Xor8(v, v / 16);
    var v2 := Xor8(v1, v1 / 4);
    var v3 := Xor8(v2, v2 / 2);
    v3 % 2 == 0
  }

  function SetSzp(f: Flags, result: u32, wide: bool): Flags {
    var masked := Low(result, wide);
    f.(sf := SignOf(masked, wide), zf := masked == 0, pf := Parity8(Lo(masked)))
  }

  function SetAdd(f: Flags, dest: u32, src: u32, result: u32, wide: bool): Flags {
    f.(cf := result > Mask(wide),
       af := Bit(Xor(Xor(dest, src), result), 4),
       of := SignOf(Xor(dest, result), wide) && SignOf(Xor(src, result), wide))
  }

  function SetSub(f: Flags, dest: u32, src: u32, result: u32, wide: bool): Flags {
    f.(cf := result > Mask(wide),
       af := Bit(Xor(Xor(dest, src), result), 4),
       of := SignOf(Xor(dest, src), wide) && SignOf(Xor(dest, result), wide))
  }

  function SetLogic(f: Flags, result: u32, wide: bool): Flags {
    SetSzp(f, result, wide).(cf := false, of := false)
  }

  function SetInc(f: Flags, dest: u32, result: u32, wide: bool): Flags {
    SetSzp(f.(af := Bit(Xor(Xor(dest, 1), result), 4),
              of := SignOf(Xor(dest, result), wide) && SignOf(Xor(1, result), wide)),
           result, wide)
  }

  function SetDec(f: Flags, dest: u32, result: u32, wide: bool): Flags {
    SetSzp(f.(af := Bit(Xor(Xor(dest, 1), result), 4),
              of := SignOf(Xor(dest, 1), wide) && SignOf(Xor(dest, result), wide)),
           result, wide)
  }

  function Carry(f: Flags): nat { if f.cf then 1 else 0 }

  /** The eight operations of exec_alu_imm and of the main ALU dispatch. */
  datatype AluOp = ADD | OR | ADC | SBB | AND | SUB | XOR | CMP

  function AluOpOf(n: nat): AluOp {
    match n
    case 0 => ADD
    case 1 => OR
    case 2 => ADC
    case 3 => SBB
    case 4 => AND
    case 5 => SUB
    case 6 => XOR
    case _ => CMP
  }

  /** New flags, and the value for the destination if the operation writes one. */
  datatype AluResult = AluResult(flags: Flags, value: u16, writes: bool)

  function AddWith(f: Flags, dest: u16, src: u16, c: nat, wide: bool): AluResult
    requires c <= 1
  {
    var result := dest as int + src as int + c;
    AluResult(SetSzp(SetAdd(f, dest, src, result, wide), result, wide), Low(result, wide), true)
  }

  function SubWith(f: Flags, dest: u16, src: u16, c: nat, wide: bool): AluResult
    requires c <= 1
  {
    var result := U32(dest as int - src as int - c);
    AluResult(SetSzp(SetSub(f, dest, src, result, wide), result, wide), Low(result, wide), true)
  }

  function Compute(op: AluOp, f: Flags, dest: u16, src: u16, wide: bool): AluResult {
    match op
    case ADD => AddWith(f, dest, src, 0, wide)
    case ADC => AddWith(f, dest, src, Carry(f), wide)
    case SUB => SubWith(f, dest, src, 0, wide)
    case SBB => SubWith(f, dest, src, Carry(f), wide)
    case CMP => SubWith(f, dest, src, 0, wide).(writes := false)
    case OR  => Logic(f, Or16(dest, src), wide)
    case AND => Logic(f, And(dest, src), wide)
    case XOR => Logic(f, Xor16(dest, src), wide)
  }

  function Logic(f: Flags, result: u16, wide: bool): AluResult {
    AluResult(SetLogic(f, result, wide), Low(result, wide), true)
  }

  function Neg(f: Flags, dest: u16, wide: bool): AluResult {
    SubWith(f, 0, dest, 0, wide)
  }

  function Inc(f: Flags, dest: u16, wide: bool): AluResult {
    var result := dest as int + 1;
    AluResult(SetInc(f, dest, result, wide), Low(result, wide), true)
  }

  function Dec(f: Flags, dest: u16, wide: bool): AluResult {
    var result := U32(dest as int - 1);
    AluResult(SetDec(f, dest, result, wide), Low(result, wide), true)
  }

  /** eval_condition: the sixteen condition codes of Jcc. */
  predicate Condition(f: Flags, cc: nat)
    requires cc < 16
  {
    var positive := match cc / 2
      case 0 => f.of
      case 1 => f.cf
      case 2 => f.zf
      case 3 => f.cf || f.zf
      case 4 => f.sf
      case 5 => f.pf
      case 6 => f.sf != f.of
      case _ => f.zf || f.sf != f.of;
    if cc % 2 == 1 then !positive else positive
  }

  /** The two corrections of DAA: +6 for the low digit, then +0x60 for the high one. */
  function DaaByte(al: u8, low: bool, high: bool): u8 {
    var al1 := if low then U8(al + 6) else al;
    if high then U8(al1 + 0x60) else al1
  }

  function DasByte(al: u8, low: bool, high: bool): u8 {
    var al1 := if low then U8(al as int - 6) else al;
    if high then U8(al1 as int - 0x60) else al1
  }

  /** exec_daa: new flags and AL. */
  function Daa(f: Flags, al: u8): (Flags, u8) {
    var low, high := Rem(al, 0x10) > 9 || f.af, al > 0x99 || f.cf;
    var cf1 := low && (f.cf || U8(al + 6) < al);
    var r := DaaByte(al, low, high);
    (SetSzp(f.(af := low, cf := high || cf1), r, false), r)
  }

  /** exec_das: new flags and AL. */
  function Das(f: Flags, al: u8): (Flags, u8) {
    var low, high := Rem(al, 0x10) > 9 || f.af, al > 0x99 || f.cf;
    var cf1 := low && (f.cf || U8(al as int - 6) > al);
    var r := DasByte(al, low, high);
    (SetSzp(f.(af := low, cf := high || cf1), r, false), r)
  }

  /** The product registers of MUL and IMUL (DX is untouched for bytes) with the flags. */
  datatype Product = Product(flags: Flags, ax: u16, dx: u16)

  function MulFlags(f: Flags, overflow: bool, full: nat, low: u16, wide: bool): Flags {
    f.(cf := overflow, of := overflow, zf := full == 0, sf := SignOf(low, wide), pf := Parity8(Lo(low)))
  }

  lemma UpperFits(p: u32)
    ensures Quot(p, 0x1_0000) < 0x1_0000
  {
    hide Wrap, Rem, Quot;
    OperatorsAre();
  }

  /** exec_mul */
  function Mul(f: Flags, ax: u16, dx: u16, src: u16, wide: bool): Product
    requires src <= Mask(wide)
  {
    if wide then
      var p := Times16(ax, src);
      UpperFits(p);
      var hi := Quot(p, 0x1_0000);
      Product(MulFlags(f, hi != 0, p, U16(p), true), U16(p), hi)
    else
      var p := Times8(Lo(ax), src);
      Product(MulFlags(f, Quot(p, 0x100) != 0, p, U8(p), false), p, dx)
  }

  /** The full unsigned products fit twice the width. */
  function Times16(a: u16, b: u16): u32 {
    TimesIs(a, b);
    MulLe(a, b, 0xFFFF);
    Times(a, b)
  }

  function Times8(a: u8, b: u8): u16 {
    TimesIs(a, b);
    MulLe(a, b, 0xFF);
    Times(a, b)
  }

  /** exec_imul: the signed product, as its two's-complement bits. */
  function Imul(f: Flags, ax: u16, dx: u16, src: u16, wide: bool): Product
    requires src <= Mask(wide)
  {
    if wide then
      var p := Times(S16(ax), S16(src));
      var bits := U32(p);
      UpperFits(bits);
      Product(MulFlags(f, p != S16(U16(bits)), bits, U16(bits), true), U16(bits), Quot(bits, 0x1_0000))
    else
      var p := Times(S8(Lo(ax)), S8(src));
      var bits := U16(p);
      Product(MulFlags(f, p != S8(Lo(bits)), bits, Lo(bits), false), bits, dx)
  }

  /** C division truncates toward zero. */
  function TruncDiv(a: int, b: int): (q: int)
    requires b != 0
    ensures Abs(q) <= Abs(a)
  {
    QuotLe(Abs(a), Abs(b));
    if a >= 0 <==> b > 0 then Quot(Abs(a), Abs(b)) else -(Quot(Abs(a), Abs(b)) as int)
  }

  function TruncMod(a: int, b: int): int
    requires b != 0
  {
    if a >= 0 then Rem(Abs(a), Abs(b)) else -(Rem(Abs(a), Abs(b)) as int)
  }

  function Abs(a: int): nat { if a < 0 then -a else a }

  /** Outcome of DIV and IDIV: the new AX and DX, or the divide error. */
  datatype Quotient = DivideError | Quotient(ax: u16, dx: u16)

  /** exec_div */
  function Div(ax: u16, dx: u16, divisor: u16, wide: bool): Quotient
    requires divisor <= Mask(wide)
  {
    if divisor == 0 then DivideError
    else if wide then
      var dividend := 0x1_0000 * dx + ax;
      if Quot(dividend, divisor) > 0xFFFF then DivideError
      else Quotient(Quot(dividend, divisor), Rem(dividend, divisor))
    else
      if Quot(ax, divisor) > 0xFF then DivideError
      else Quotient(Word(Quot(ax, divisor), Rem(ax, divisor)), dx)
  }

  /** exec_idiv. The byte form truncates the quotient to int16_t before the range test. */
  function Idiv(ax: u16, dx: u16, divisor: u16, wide: bool): Quotient
    requires divisor <= Mask(wide)
  {
    var d := Signed(divisor, wide);
    if d == 0 then DivideError
    else if wide then
      var dividend := S32(0x1_0000 * dx + ax);
      var q := TruncDiv(dividend, d);
      if q > 32767 || q < -32768 then DivideError
      else Quotient(U16(q), U16(TruncMod(dividend, d)))
    else
      var q := S16(U16(TruncDiv(S16(ax), d)));
      if q > 127 || q < -128 then DivideError
      else Quotient(Word(U8(q), U8(TruncMod(S16(ax), d))), dx)
  }
}

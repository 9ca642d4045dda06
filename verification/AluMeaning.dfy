/**
 What the flag formulas of helpers.h mean in arithmetic: carry, nibble carry,
 signed overflow, order, and multi-word and packed-decimal chains.
 */
module AluMeaning {
  import opened Words
  import opened Flags
  import opened Alu

  /** An even number of one bits. */
  predicate EvenOnes(x: nat) {
    x == 0 || EvenOnes(x / 2) == (x % 2 == 0)
  }

  lemma {:induction false} EvenStep(x: nat)
    ensures EvenOnes(x) == (EvenOnes(x / 2) == !Bit(x, 0))
  {}

  lemma {:induction false} EvenOnesNibble(x: nat)
    ensures EvenOnes(x) == (EvenOnes(x / 16) == (Bit(x, 0) == (Bit(x, 1) == (Bit(x, 2) == Bit(x, 3)))))
  {
    EvenStep(x);
    EvenStep(x / 2);
    EvenStep(x / 2 / 2);
    EvenStep(x / 2 / 2 / 2);
    assert Bit(x, 1) == Bit(x / 2, 0);
    assert Bit(x, 2) == Bit(x / 2, 1) == Bit(x / 2 / 2, 0);
    assert Bit(x, 3) == Bit(x / 2, 2) == Bit(x / 2 / 2, 1) == Bit(x / 2 / 2 / 2, 0);
    assert x / 2 / 2 / 2 / 2 == x / 16;
  }

  /** The parity of a byte, bit by bit. */
  lemma {:induction false} EvenOnesByBits(v: u8)
    ensures EvenOnes(v) == ((Bit(v, 0) == (Bit(v, 1) == (Bit(v, 2) == Bit(v, 3))))
                         == (Bit(v, 4) == (Bit(v, 5) == (Bit(v, 6) == Bit(v, 7)))))
  {
    EvenOnesNibble(v);
    EvenOnesNibble(v / 16);
    assert v / 16 / 16 == 0;
    BitUp(v, 0); BitUp(v, 1); BitUp(v, 2); BitUp(v, 3);
  }

  lemma {:induction false} BitUp(v: nat, k: nat)
    ensures Bit(v, k + 4) == Bit(v / 16, k)
  {
    assert Bit(v, k + 4) == Bit(v / 2, k + 3) == Bit(v / 2 / 2, k + 2) == Bit(v / 2 / 2 / 2, k + 1);
    assert v / 2 / 2 / 2 / 2 == v / 16;
  }

  /** One folding step of parity8, bit by bit. */
  lemma {:induction false} Fold4(v: u8, k: nat)
    ensures Bit(Xor8(v, v / 16), k) == (Bit(v, k) != Bit(v, k + 4))
  {
    BitXor(v, v / 16, k);
    BitUp(v, k);
  }

  lemma {:induction false} Fold2(v: u8, k: nat)
    ensures Bit(Xor8(v, v / 4), k) == (Bit(v, k) != Bit(v, k + 2))
  {
    BitXor(v, v / 4, k);
  }

  lemma {:induction false} Fold1(v: u8)
    ensures Bit(Xor8(v, v / 2), 0) == (Bit(v, 0) != Bit(v, 1))
  {}

  /** PF says that the byte holds an even number of one bits. */
  lemma {:induction false} ParityCountsOnes(v: u8)
    ensures Parity8(v) == EvenOnes(v)
  {
    var v1 := Xor8(v, v / 16);
    var v2 := Xor8(v1, v1 / 4);
    Fold4(v, 0); Fold4(v, 1); Fold4(v, 2); Fold4(v, 3);
    Fold2(v1, 0); Fold2(v1, 1);
    Fold1(v2);
    EvenOnesByBits(v);
  }

  /** The sign bit is the sign of the two's-complement reading. */
  lemma {:induction false} SignMeaning(x: u16, wide: bool)
    requires x <= Mask(wide)
    ensures SignOf(x, wide) == (x >= Half(wide)) == (Signed(x, wide) < 0)
  {
    FlagBits(x);
  }

  /** The sign bit of a sum of two operands and a carry. */
  lemma {:induction false} SignOfSum(r: nat, wide: bool)
    requires r < 2 * Size(wide)
    ensures SignOf(r, wide) == (Half(wide) <= r < Size(wide) || Size(wide) + Half(wide) <= r)
  {
    FlagBits(r);
    if wide { BitRange(r, 0x8000); } else { BitRange(r, 0x80); }
  }

  lemma {:induction false} BitRange(r: nat, h: nat)
    requires 0 < h && r < 4 * h
    ensures (r / h % 2 == 1) == (h <= r < 2 * h || 3 * h <= r)
  {}

  /** The sign bit of a difference that wrapped in uint32_t. */
  lemma {:induction false} SignOfWrapped(k: nat, wide: bool)
    requires 1 <= k <= Size(wide)
    ensures SignOf(0x1_0000_0000 - k, wide) == (k <= Half(wide))
  {
    var r := 0x1_0000_0000 - k;
    FlagBits(r);
    var below := if k <= Half(wide) then 1 else 2;
    if wide {
      DivUnique(r, 0x8000, 0x2_0000 - below, below * 0x8000 - k);
    } else {
      DivUnique(r, 0x80, 0x200_0000 - below, below * 0x80 - k);
    }
  }

  lemma {:induction false} SumCarry(a: nat, b: nat, c: nat)
    requires c <= 1
    ensures Bit(Xor(Xor(a, b), a + b + c), 4) == (a % 16 + b % 16 + c >= 16)
  {
    BitXor(Xor(a, b), a + b + c, 4);
    BitXor(a, b, 4);
    FlagBits(a);
    FlagBits(b);
    FlagBits(a + b + c);
    NibbleCarry(a, b, c);
  }

  lemma {:induction false} NibbleCarry(a: nat, b: nat, c: nat)
    requires c <= 1
    ensures ((a + b + c) / 16 % 2 == 1)
         == ((a / 16 % 2 == 1) != ((b / 16 % 2 == 1) != (a % 16 + b % 16 + c >= 16)))
  {
    var n := if a % 16 + b % 16 + c >= 16 then 1 else 0;
    assert (a + b + c) / 16 == a / 16 + b / 16 + n;
  }

  lemma {:induction false} SumOverflow(a: nat, b: nat, c: nat, wide: bool)
    requires a <= Mask(wide) && b <= Mask(wide) && c <= 1
    ensures (SignOf(Xor(a, a + b + c), wide) && SignOf(Xor(b, a + b + c), wide))
         == !(-Half(wide) <= Signed(a, wide) + Signed(b, wide) + c < Half(wide))
  {
    var k := Bits(wide) - 1;
    BitXor(a, a + b + c, k);
    BitXor(b, a + b + c, k);
    SignMeaning(a, wide);
    SignMeaning(b, wide);
    SignOfSum(a + b + c, wide);
  }

  lemma {:induction false} DifferenceBorrow(a: nat, b: nat, c: nat)
    requires a < 0x1_0000 && b < 0x1_0000 && c <= 1
    ensures Bit(Xor(Xor(a, b), U32(a - b - c)), 4) == (a % 16 < b % 16 + c)
  {
    var r := U32(a - b - c);
    BitXor(Xor(a, b), r, 4);
    BitXor(a, b, 4);
    FlagBits(a);
    FlagBits(b);
    FlagBits(r);
    NibbleBorrow(a, b, c);
  }

  lemma {:induction false} NibbleBorrow(a: nat, b: nat, c: nat)
    requires a < 0x1_0000 && b < 0x1_0000 && c <= 1
    ensures (U32(a - b - c) / 16 % 2 == 1)
         == ((a / 16 % 2 == 1) != ((b / 16 % 2 == 1) != (a % 16 < b % 16 + c)))
  {
    hide Wrap;
    WrapNear(a - b - c, 0x1_0000_0000);
    var n := if a % 16 < b % 16 + c then 1 else 0;
    var q, r := a / 16 - b / 16 - n, a % 16 - b % 16 - c + 16 * n;
    var wrap := if a - b - c < 0 then 0x1000_0000 else 0;
    assert U32(a - b - c) == 16 * (q + wrap) + r;
    DivUnique(U32(a - b - c), 16, q + wrap, r);
  }

  lemma {:induction false} DifferenceValue(a: nat, b: nat, c: nat, wide: bool)
    requires a <= Mask(wide) && b <= Mask(wide) && c <= 1
    ensures var r := U32(a - b - c);
      && r == (if a < b + c then a - b - c + 0x1_0000_0000 else a - b - c)
      && (r > Mask(wide)) == (a < b + c)
      && Low(r, wide) == if a < b + c then a - b - c + Size(wide) else a - b - c
  {
    hide Wrap, Rem, Quot;
    OperatorsAre();
  }

  lemma {:induction false} DifferenceOverflow(a: nat, b: nat, c: nat, wide: bool)
    requires a <= Mask(wide) && b <= Mask(wide) && c <= 1
    ensures (SignOf(Xor(a, b), wide) && SignOf(Xor(a, U32(a - b - c)), wide))
         == !(-Half(wide) <= Signed(a, wide) - Signed(b, wide) - c < Half(wide))
  {
    var k := Bits(wide) - 1;
    var r := U32(a - b - c);
    BitXor(a, b, k);
    BitXor(a, r, k);
    SignMeaning(a, wide);
    SignMeaning(b, wide);
    DifferenceValue(a, b, c, wide);
    if a < b + c { SignOfWrapped(b + c - a, wide); } else { SignMeaning(r, wide); }
  }

  /** SF, ZF and PF describe the masked result. */
  predicate Describes(f: Flags, v: u16, wide: bool)
    requires v <= Mask(wide)
  {
    && f.sf == (Signed(v, wide) < 0)
    && f.zf == (v == 0)
    && f.pf == EvenOnes(v % 0x100)
  }

  lemma {:induction false} SzpMeaning(f: Flags, r: u32, wide: bool)
    ensures Describes(SetSzp(f, r, wide), Low(r, wide), wide)
  {
    hide Wrap, Rem, Quot;
    OperatorsAre();
    SignMeaning(Low(r, wide), wide);
    ParityCountsOnes(Lo(Low(r, wide)));
  }

  lemma {:induction false} SumValue(a: nat, b: nat, c: nat, wide: bool)
    requires a <= Mask(wide) && b <= Mask(wide) && c <= 1
    ensures Low(a + b + c, wide) == a + b + c - (if a + b + c > Mask(wide) then Size(wide) else 0)
    ensures Low(a + b + c, wide) <= Mask(wide)
  {
    hide Wrap, Rem, Quot;
    OperatorsAre();
  }

  /** ADD and ADC: value and carry are the exact sum, AF the carry out of the low
      nibble, OF that the signed sum leaves the signed range. */
  lemma {:induction false} AddMeaning(f: Flags, a: u16, b: u16, c: nat, wide: bool)
    requires a <= Mask(wide) && b <= Mask(wide) && c <= 1
    ensures var r := AddWith(f, a, b, c, wide);
      && r.value <= Mask(wide)
      && r.value + (if r.flags.cf then Size(wide) else 0) == a as int + b as int + c
      && r.flags.af == (a % 16 + b % 16 + c >= 16)
      && r.flags.of == !(-Half(wide) <= Signed(a, wide) + Signed(b, wide) + c < Half(wide))
      && Describes(r.flags, r.value, wide)
  {
    hide Xor, Bit, SignOf, Parity8, EvenOnes, Describes;
    var sum := a as int + b as int + c;
    AddFlags(f, a, b, c, wide);
    SumValue(a, b, c, wide);
    SzpMeaning(SetAdd(f, a, b, sum, wide), sum, wide);
  }

  lemma {:induction false} AddFlags(f: Flags, a: u16, b: u16, c: nat, wide: bool)
    requires a <= Mask(wide) && b <= Mask(wide) && c <= 1
    ensures var g := SetAdd(f, a, b, a as int + b as int + c, wide);
      && g.cf == (a as int + b as int + c > Mask(wide))
      && g.af == (a % 16 + b % 16 + c >= 16)
      && g.of == !(-Half(wide) <= Signed(a, wide) + Signed(b, wide) + c < Half(wide))
  {
    SumCarry(a, b, c);
    SumOverflow(a, b, c, wide);
  }

  /** SUB, SBB, CMP and NEG: value and borrow are the exact difference. */
  lemma {:induction false} SubMeaning(f: Flags, a: u16, b: u16, c: nat, wide: bool)
    requires a <= Mask(wide) && b <= Mask(wide) && c <= 1
    ensures var r := SubWith(f, a, b, c, wide);
      && r.value <= Mask(wide)
      && r.value - (if r.flags.cf then Size(wide) else 0) == a as int - b as int - c
      && r.flags.af == (a % 16 < b % 16 + c)
      && r.flags.of == !(-Half(wide) <= Signed(a, wide) - Signed(b, wide) - c < Half(wide))
      && Describes(r.flags, r.value, wide)
  {
    hide Xor, Bit, SignOf, Parity8, EvenOnes, Describes;
    var d := U32(a as int - b as int - c);
    DifferenceBorrow(a, b, c);
    DifferenceOverflow(a, b, c, wide);
    DifferenceValue(a, b, c, wide);
    SzpMeaning(SetSub(f, a, b, d, wide), d, wide);
  }

  lemma {:induction false} CompareFlags(f: Flags, a: u16, b: u16, wide: bool)
    requires a <= Mask(wide) && b <= Mask(wide)
    ensures var g := Compute(CMP, f, a, b, wide).flags;
      var d := Signed(a, wide) - Signed(b, wide);
      && g.cf == (a < b)
      && g.zf == (a == b)
      && g.of == !(-Half(wide) <= d < Half(wide))
      && (g.sf != g.of) == (d < 0)
  {
    SubMeaning(f, a, b, 0, wide);
  }

  /** After CMP a, b every even condition code decides what its name says ... */
  lemma {:induction false} ConditionsAfterCompare(f: Flags, a: u16, b: u16, wide: bool)
    requires a <= Mask(wide) && b <= Mask(wide)
    ensures var g := Compute(CMP, f, a, b, wide).flags;
      var (x, y) := (Signed(a, wide), Signed(b, wide));
      && Condition(g, 0x0) == !(-Half(wide) <= x - y < Half(wide))        // O
      && Condition(g, 0x2) == (a < b)                                     // B
      && Condition(g, 0x4) == (a == b)                                    // Z
      && Condition(g, 0x6) == (a <= b)                                    // BE
      && Condition(g, 0xC) == (x < y)                                     // L
      && Condition(g, 0xE) == (x <= y)                                    // LE
  {
    CompareFlags(f, a, b, wide);
  }

  /** ... S and P read the wrapped difference ... */
  lemma {:induction false} SignAndParityAfterCompare(f: Flags, a: u16, b: u16, wide: bool)
    requires a <= Mask(wide) && b <= Mask(wide)
    ensures var g := Compute(CMP, f, a, b, wide).flags;
      var d := (a as int - b as int) % Size(wide);
      && Condition(g, 0x8) == (Signed(d, wide) < 0)                       // S
      && Condition(g, 0xA) == EvenOnes(d % 0x100)                         // P
  {
    SzpMeaning(SetSub(f, a, b, U32(a as int - b as int - 0), wide), U32(a as int - b as int - 0), wide);
    LowOfDifference(a, b, wide);
  }

  lemma {:induction false} LowOfDifference(a: u16, b: u16, wide: bool)
    requires a <= Mask(wide) && b <= Mask(wide)
    ensures Low(U32(a as int - b as int - 0), wide) == (a as int - b as int) % Size(wide)
  {
    var d := a as int - b as int;
    var u := U32(d - 0);
    hide Wrap, Rem, Quot;
    WrapNear(d - 0, 0x1_0000_0000);
    QuotRemIs(u, 0x1_0000);
    QuotRemIs(u, 0x100);
    if wide {
      DivUnique(u, 0x1_0000, d / 0x1_0000 + if d < 0 then 0x1_0000 else 0, d % 0x1_0000);
    } else {
      DivUnique(u, 0x100, d / 0x100 + if d < 0 then 0x100_0000 else 0, d % 0x100);
    }
  }

  /** ... and every odd code is the exact negation of the even code before it. */
  lemma {:induction false} OddConditionsNegate(g: Flags, i: nat)
    requires i < 8
    ensures Condition(g, 2 * i + 1) == !Condition(g, 2 * i)
  {}

}

/**
 Chains of ADC and SBB over any number of limbs compute exact multi-precision
 sums and differences; with DAA or DAS after each byte, exact packed-decimal ones.
 */
module AluChains {
  import opened Words
  import opened Flags
  import opened Alu
  import opened AluMeaning

  /** Little-endian limbs of the given width. */
  predicate Limbs(a: seq<u16>, wide: bool) {
    forall i :: 0 <= i < |a| ==> a[i] <= Mask(wide)
  }

  function Scaled(x: int, y: int): int { x * y }

  function Value(a: seq<u16>, base: int): int {
    if a == [] then 0 else a[0] + Scaled(base, Value(a[1..], base))
  }

  function Power(base: int, n: nat): int {
    if n == 0 then 1 else Scaled(base, Power(base, n - 1))
  }

  function CarryOut(cf: bool, base: int, n: nat): int {
    if cf then Power(base, n) else 0
  }

  /** One ADC (or SBB) per limb, CF carried in the flags register. */
  function Chain(op: AluOp, f: Flags, a: seq<u16>, b: seq<u16>, wide: bool): (Flags, seq<u16>)
    requires |a| == |b|
    decreases |a|
  {
    if a == [] then (f, [])
    else
      var r := Compute(op, f, a[0], b[0], wide);
      var (g, rest) := Chain(op, r.flags, a[1..], b[1..], wide);
      (g, [r.value] + rest)
  }

  /** ADC with the carry of the flags register, and SBB with its borrow. */
  lemma {:induction false} AdcMeaning(f: Flags, a: u16, b: u16, wide: bool)
    requires a <= Mask(wide) && b <= Mask(wide)
    ensures var r := Compute(ADC, f, a, b, wide);
      && r.value <= Mask(wide)
      && r.value + Size(wide) * Carry(r.flags) == a as int + b as int + Carry(f)
      && r.flags.af == (a % 16 + b % 16 + Carry(f) >= 16)
  {
    hide SetSzp, SetAdd, Describes;
    AddMeaning(f, a, b, Carry(f), wide);
  }

  lemma {:induction false} SbbMeaning(f: Flags, a: u16, b: u16, wide: bool)
    requires a <= Mask(wide) && b <= Mask(wide)
    ensures var r := Compute(SBB, f, a, b, wide);
      && r.value <= Mask(wide)
      && r.value - Size(wide) * Carry(r.flags) == a as int - b as int - Carry(f)
      && r.flags.af == (a % 16 < b % 16 + Carry(f))
  {
    hide SetSzp, SetSub, Describes;
    SubMeaning(f, a, b, Carry(f), wide);
  }

  /** n ADCs add n-limb numbers exactly; the final CF is the carry out. */
  lemma {:induction false} AdcChainAdds(f: Flags, a: seq<u16>, b: seq<u16>, wide: bool)
    requires |a| == |b| && Limbs(a, wide) && Limbs(b, wide)
    decreases |a|
    ensures var (g, sum) := Chain(ADC, f, a, b, wide);
      && |sum| == |a| && Limbs(sum, wide)
      && Value(sum, Size(wide)) + CarryOut(g.cf, Size(wide), |a|)
         == Value(a, Size(wide)) + Value(b, Size(wide)) + Carry(f)
  {
    hide Compute, Describes;
    if a != [] {
      var r := Compute(ADC, f, a[0], b[0], wide);
      AdcMeaning(f, a[0], b[0], wide);
      AdcChainAdds(r.flags, a[1..], b[1..], wide);
      var (g, rest) := Chain(ADC, r.flags, a[1..], b[1..], wide);
      ChainStep([r.value] + rest, a, b, Size(wide), Carry(f), Carry(r.flags), g.cf, false);
    }
  }

  /** n SBBs subtract n-limb numbers exactly; the final CF is the borrow out. */
  lemma {:induction false} SbbChainSubtracts(f: Flags, a: seq<u16>, b: seq<u16>, wide: bool)
    requires |a| == |b| && Limbs(a, wide) && Limbs(b, wide)
    decreases |a|
    ensures var (g, diff) := Chain(SBB, f, a, b, wide);
      && |diff| == |a| && Limbs(diff, wide)
      && Value(diff, Size(wide)) - CarryOut(g.cf, Size(wide), |a|)
         == Value(a, Size(wide)) - Value(b, Size(wide)) - Carry(f)
  {
    hide Compute, Describes;
    if a != [] {
      var r := Compute(SBB, f, a[0], b[0], wide);
      SbbMeaning(f, a[0], b[0], wide);
      SbbChainSubtracts(r.flags, a[1..], b[1..], wide);
      var (g, rest) := Chain(SBB, r.flags, a[1..], b[1..], wide);
      ChainStep([r.value] + rest, a, b, Size(wide), Carry(f), Carry(r.flags), g.cf, true);
    }
  }

  /** x, or -x for a subtraction. */
  function Signum(sub: bool, x: int): int { if sub then -x else x }

  /** One limb and the chain behind it, added or subtracted. */
  lemma {:induction false} ChainStep(r: seq<u16>, a: seq<u16>, b: seq<u16>, base: int, c: int, mid: int,
    out: bool, sub: bool)
    requires |r| == |a| == |b| > 0
    requires r[0] + Signum(sub, Scaled(base, mid)) == a[0] + Signum(sub, b[0] + c)
    requires Value(r[1..], base) + Signum(sub, CarryOut(out, base, |a| - 1))
          == Value(a[1..], base) + Signum(sub, Value(b[1..], base) + mid)
    ensures Value(r, base) + Signum(sub, CarryOut(out, base, |a|)) == Value(a, base) + Signum(sub, Value(b, base) + c)
  {
    hide Value, CarryOut, Scaled;
    ValueStep(r, base);
    ValueStep(a, base);
    ValueStep(b, base);
    CarryOutStep(out, base, |a|);
    Distribute(base, Value(r[1..], base), CarryOut(out, base, |a| - 1),
               Value(a[1..], base), Value(b[1..], base), mid, sub);
  }

  lemma {:induction false} ValueStep(a: seq<u16>, base: int)
    requires a != []
    ensures Value(a, base) == a[0] + Scaled(base, Value(a[1..], base))
  {}

  lemma {:induction false} CarryOutStep(cf: bool, base: int, n: nat)
    requires n > 0
    ensures CarryOut(cf, base, n) == Scaled(base, CarryOut(cf, base, n - 1))
  {}

  lemma {:induction false} Distribute(base: int, vr: int, p: int, va: int, vb: int, mid: int, sub: bool)
    requires vr + Signum(sub, p) == va + Signum(sub, vb + mid)
    ensures Scaled(base, vr) + Signum(sub, Scaled(base, p))
      == Scaled(base, va) + Signum(sub, Scaled(base, vb) + Scaled(base, mid))
  {}

  // ----- packed decimal

  predicate IsBcd(x: int) { 0 <= x <= 0x99 && x % 16 <= 9 }
  function Decimal(x: int): int { 10 * (x / 16) + x % 16 }

  /** ADC AL, b; DAA */
  function AdcDaa(f: Flags, a: u16, b: u16): (Flags, u8) {
    var r := Compute(ADC, f, a, b, false);
    Daa(r.flags, Lo(r.value))
  }

  /** SBB AL, b; DAS */
  function SbbDas(f: Flags, a: u16, b: u16): (Flags, u8) {
    var r := Compute(SBB, f, a, b, false);
    Das(r.flags, Lo(r.value))
  }

  lemma {:induction false} AdcDaaDigits(f: Flags, a: u16, b: u16)
    requires IsBcd(a) && IsBcd(b)
    ensures var (g, d) := AdcDaa(f, a, b);
      IsBcd(d) && Decimal(d) + 100 * Carry(g) == Decimal(a) + Decimal(b) + Carry(f)
  {
    hide Compute, Daa;
    var r := Compute(ADC, f, a, b, false);
    AdcMeaning(f, a, b, false);
    DaaAdjusts(a / 16, a % 16, b / 16, b % 16, Carry(f), r.flags, Lo(r.value));
  }

  lemma {:induction false} DaaAdjusts(ah: nat, al: nat, bh: nat, bl: nat, c: nat, f: Flags, v: u8)
    requires ah <= 9 && al <= 9 && bh <= 9 && bl <= 9 && c <= 1
    requires v + 0x100 * Carry(f) == 16 * (ah + bh) + al + bl + c
    requires f.af == (al + bl + c >= 16)
    ensures var (g, d) := Daa(f, v);
      IsBcd(d) && Decimal(d) + 100 * Carry(g) == 10 * (ah + bh) + al + bl + c
  {
    hide Daa, IsBcd, Decimal;
    var n := if f.af then 1 else 0;
    var hi, lo := ah + bh + n - 16 * Carry(f), al + bl + c - 16 * n;
    DivUnique(v, 16, hi, lo);
    DaaDigits(hi, lo, f, v);
    var up := if lo > 9 then 1 else 0;
    var d := Daa(f, v).1;
    var tens := hi + up - (if v > 0x99 || f.cf then 10 else 0) + (if f.cf then 16 else 0);
    var ones := lo - 10 * up + (if f.af then 6 else 0);
    assert d == 16 * tens + ones;
    DigitsOf(d, tens, ones);
  }

  lemma {:induction false} DigitsOf(d: int, tens: int, ones: int)
    requires 0 <= tens <= 9 && 0 <= ones <= 9 && d == 16 * tens + ones
    ensures IsBcd(d) && Decimal(d) == 10 * tens + ones
  {}

  /** The adjusted byte and carry, with the two corrections named. */
  lemma DaaResult(f: Flags, v: u8)
    ensures var (g, d) := Daa(f, v);
      d == DaaByte(v, v % 16 > 9 || f.af, v > 0x99 || f.cf) && g.cf == (v > 0x99 || f.cf)
  {
    hide Wrap, Rem, Quot;
    OperatorsAre();
    hide Parity8, SignOf, Low, DaaByte;
    U8Cases(v + 6);
  }

  lemma DasResult(f: Flags, v: u8)
    requires v % 16 > 9 || f.af ==> f.cf || v >= 6
    ensures var (g, d) := Das(f, v);
      d == DasByte(v, v % 16 > 9 || f.af, v > 0x99 || f.cf) && g.cf == (v > 0x99 || f.cf)
  {
    hide Wrap, Rem, Quot;
    OperatorsAre();
    hide Parity8, SignOf, Low, DasByte;
    U8Cases(v as int - 6);
  }

  /** The adjusted byte as digits, given the digits of the binary sum. */
  lemma DaaDigits(hi: nat, lo: nat, f: Flags, v: u8)
    requires v == 16 * hi + lo && v % 16 == lo && lo < 16 && hi < 16
    requires f.af ==> lo <= 3
    requires f.cf ==> hi <= 3
    ensures var (g, d) := Daa(f, v);
      var up := if lo > 9 then 1 else 0;
      && g.cf == (v > 0x99 || f.cf)
      && d == 16 * (hi + up - (if g.cf then 10 else 0) + (if f.cf then 16 else 0))
              + lo - 10 * up + (if f.af then 6 else 0)
  {
    hide Daa, DaaByte;
    DaaResult(f, v);
    DaaByteValue(v, lo > 9 || f.af, v > 0x99 || f.cf);
  }

  lemma {:induction false} DaaByteValue(v: u8, low: bool, high: bool)
    ensures var sum := v + (if low then 6 else 0) + (if high then 0x60 else 0);
      DaaByte(v, low, high) == if sum < 0x100 then sum else sum - 0x100
  {
    hide Wrap, Rem, Quot;
    OperatorsAre();
  }

  lemma {:induction false} DasByteValue(v: u8, low: bool, high: bool)
    ensures var sum := v as int - (if low then 6 else 0) - (if high then 0x60 else 0);
      DasByte(v, low, high) == if sum < 0 then sum + 0x100 else sum
  {
    hide Wrap, Rem, Quot;
    OperatorsAre();
  }

  lemma {:induction false} U8Cases(x: int)
    requires -0x100 <= x < 0x200
    ensures U8(x) == if x < 0 then x + 0x100 else if x < 0x100 then x else x - 0x100
  {
    hide Wrap, Rem, Quot;
    OperatorsAre();
  }

  lemma {:induction false} SbbDasDigits(f: Flags, a: u16, b: u16)
    requires IsBcd(a) && IsBcd(b)
    ensures var (g, d) := SbbDas(f, a, b);
      IsBcd(d) && Decimal(d) - 100 * Carry(g) == Decimal(a) - Decimal(b) - Carry(f)
  {
    hide Compute, Das;
    var r := Compute(SBB, f, a, b, false);
    SbbMeaning(f, a, b, false);
    DasAdjusts(a / 16, a % 16, b / 16, b % 16, Carry(f), r.flags, Lo(r.value));
  }

  lemma {:induction false} DasAdjusts(ah: nat, al: nat, bh: nat, bl: nat, c: nat, f: Flags, v: u8)
    requires ah <= 9 && al <= 9 && bh <= 9 && bl <= 9 && c <= 1
    requires v - 0x100 * Carry(f) == 16 * (ah - bh) + al - bl - c
    requires f.af == (al < bl + c)
    ensures var (g, d) := Das(f, v);
      IsBcd(d) && Decimal(d) - 100 * Carry(g) == 10 * (ah - bh) + al - bl - c
  {
    hide Das, IsBcd, Decimal;
    var n := if f.af then 1 else 0;
    var hi, lo := ah - bh - n + 16 * Carry(f), al - bl - c + 16 * n;
    DivUnique(v, 16, hi, lo);
    DasDigits(hi, lo, f, v);
    DigitsOf(Das(f, v).1, hi - 6 * Carry(f), lo - 6 * n);
  }

  lemma {:induction false} DasDigits(hi: nat, lo: nat, f: Flags, v: u8)
    requires v == 16 * hi + lo && v % 16 == lo && lo < 16 && hi < 16
    requires if f.af then lo >= 6 else lo <= 9
    requires if f.cf then hi >= 6 else if f.af then hi <= 8 else hi <= 9
    ensures var (g, d) := Das(f, v);
      && g.cf == f.cf
      && d == 16 * (hi - 6 * Carry(f)) + lo - (if f.af then 6 else 0)
  {
    hide Das, DasByte;
    DasResult(f, v);
    DasByteValue(v, f.af, f.cf);
  }

  predicate BcdLimbs(a: seq<u16>) { forall i :: 0 <= i < |a| ==> IsBcd(a[i]) }

  function DecimalValue(a: seq<u16>): int {
    if a == [] then 0 else Decimal(a[0]) + 100 * DecimalValue(a[1..])
  }

  /** ADC; DAA on every byte, or SBB; DAS on every byte, lowest byte first. */
  function DecimalChain(sub: bool, f: Flags, a: seq<u16>, b: seq<u16>): (Flags, seq<u16>)
    requires |a| == |b|
    decreases |a|
  {
    if a == [] then (f, [])
    else
      var (g, d) := if sub then SbbDas(f, a[0], b[0]) else AdcDaa(f, a[0], b[0]);
      var (h, rest) := DecimalChain(sub, g, a[1..], b[1..]);
      (h, [d as u16] + rest)
  }

  /** n bytes of ADC; DAA add 2n-digit decimals exactly, n bytes of SBB; DAS subtract them. */
  lemma {:induction false} DecimalChainExact(sub: bool, f: Flags, a: seq<u16>, b: seq<u16>)
    requires |a| == |b| && BcdLimbs(a) && BcdLimbs(b)
    ensures var (g, r) := DecimalChain(sub, f, a, b);
      && |r| == |a| && BcdLimbs(r)
      && (!sub ==> DecimalValue(r) + CarryOut(g.cf, 100, |a|) == DecimalValue(a) + DecimalValue(b) + Carry(f))
      && (sub ==> DecimalValue(r) - CarryOut(g.cf, 100, |a|) == DecimalValue(a) - DecimalValue(b) - Carry(f))
    decreases |a|
  {
    hide AdcDaa, SbbDas, IsBcd, Decimal;
    if a != [] {
      var (g, d) := if sub then SbbDas(f, a[0], b[0]) else AdcDaa(f, a[0], b[0]);
      if sub { SbbDasDigits(f, a[0], b[0]); } else { AdcDaaDigits(f, a[0], b[0]); }
      DecimalChainExact(sub, g, a[1..], b[1..]);
      var (h, rest) := DecimalChain(sub, g, a[1..], b[1..]);
      var r := [d as u16] + rest;
      assert r[1..] == rest;
    }
  }
}

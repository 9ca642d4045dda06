/**
 Fixed-width words of the emulator as bounded integers, with the C operators
 that the source applies to them written out: wrap-around, single-bit tests,
 exclusive or, two's-complement readings.
 */
module Words {

  type u8 = x: int | 0 <= x < 0x100
  type u16 = x: int | 0 <= x < 0x1_0000
  type u32 = x: int | 0 <= x < 0x1_0000_0000
  type u64 = x: int | 0 <= x < 0x1_0000_0000_0000_0000

  // ----- the C operators %, /, * and the casts, by addition, subtraction and doubling
  //
  // Written so, what is proved about whole steps of the machine meets no division and no
  // nonlinear arithmetic. OperatorsAre and TimesIs say that they are what C computes.

  function Multiple(n: nat, x: int): int {
    if n == 0 then 0 else x + Multiple(n - 1, x)
  }

  function Times(a: int, b: int): int {
    if a >= 0 then Multiple(a, b) else -Multiple(-a, b)
  }

  /** Quotient and remainder by restoring division: those by 2 * b first, then one bit more. */
  function Quot(a: nat, b: nat): nat
    requires b > 0
    decreases if a < b then 0 else a - b + 1
  {
    if a < b then 0 else 2 * Quot(a, 2 * b) + (if Rem(a, 2 * b) < b then 0 else 1)
  }

  function Rem(a: nat, b: nat): (r: nat)
    requires b > 0
    ensures r < b && r <= a
    decreases if a < b then 0 else a - b + 1
  {
    if a < b then a else Restored(Rem(a, 2 * b), b)
  }

  function Restored(r: nat, b: nat): nat { if r < b then r else r - b }

  /** The number below m that equals x modulo m. */
  function Wrap(x: int, m: nat): (r: nat)
    requires m > 0
    ensures r < m
    decreases if x < 0 then -x else 0
  {
    if x < 0 then Wrap(x + m, m) else Rem(x, m)
  }

  lemma {:induction false} MultipleIs(n: nat, x: int)
    ensures Multiple(n, x) == n * x
  {
    if n > 0 { MultipleIs(n - 1, x); }
  }

  lemma {:induction false} TimesIs(a: int, b: int)
    ensures Times(a, b) == a * b
  {
    MultipleIs(if a >= 0 then a else -a, b);
    assert -((-a) * b) == a * b;
  }

  lemma {:induction false} QuotRemIs(a: nat, b: nat)
    requires b > 0
    ensures Quot(a, b) == a / b && Rem(a, b) == a % b
  {
    DivisionIdentity(a, b);
    DivUnique(a, b, Quot(a, b), Rem(a, b));
  }

  lemma {:induction false} DivisionIdentity(a: nat, b: nat)
    requires b > 0
    ensures a == b * Quot(a, b) + Rem(a, b)
    decreases if a < b then 0 else a - b + 1
  {
    if a >= b {
      DivisionIdentity(a, 2 * b);
      OneBitMore(a, b, Quot(a, 2 * b), Rem(a, 2 * b));
    }
  }

  lemma OneBitMore(a: int, b: int, q: int, r: int)
    requires a == 2 * b * q + r
    ensures a == b * (2 * q) + r && a == b * (2 * q + 1) + (r - b)
  {}

  lemma {:induction false} QuotLe(a: nat, b: nat)
    requires b > 0
    ensures Quot(a, b) <= a
  {
    DivisionIdentity(a, b);
    var q := Quot(a, b);
    MulLe(q, 1, b);
    assert q * b == b * q;
    hide Quot, Rem;
  }

  lemma {:induction false} WrapIs(x: int, m: nat)
    requires m > 0
    ensures Wrap(x, m) == x % m
    decreases if x < 0 then -x else 0
  {
    if x < 0 {
      WrapIs(x + m, m);
      var r := Wrap(x, m);
      assert x + m == m * ((x + m) / m) + r;
      assert m * ((x + m) / m - 1) == m * ((x + m) / m) - m;
      DivUnique(x, m, (x + m) / m - 1, r);
    } else {
      QuotRemIs(x, m);
    }
  }

  lemma {:induction false} OperatorsAre()
    ensures forall x: int, m: nat {:trigger Wrap(x, m)} :: m > 0 ==> Wrap(x, m) == x % m
    ensures forall a: nat, b: nat {:trigger Quot(a, b)} :: b > 0 ==> Quot(a, b) == a / b
    ensures forall a: nat, b: nat {:trigger Rem(a, b)} :: b > 0 ==> Rem(a, b) == a % b
  {
    forall x: int, m: nat | m > 0
      ensures Wrap(x, m) == x % m
    {
      WrapIs(x, m);
    }
    forall a: nat, b: nat | b > 0
      ensures Quot(a, b) == a / b && Rem(a, b) == a % b
    {
      QuotRemIs(a, b);
    }
  }

  /** Quotient and remainder are the only pair with the division identity. */
  lemma {:induction false} DivUnique(x: int, d: int, q: int, r: int)
    requires d > 0 && 0 <= r < d && x == d * q + r
    ensures x / d == q && x % d == r
  {
    var q', r' := x / d, x % d;
    assert d * (q' - q) == r - r';
    if q' > q { MulLe(d, 1, q' - q); }
    if q' < q { MulLe(d, q' - q, -1); }
  }

  lemma {:induction false} MulLe(d: int, a: int, b: int)
    requires d >= 0 && a <= b
    ensures d * a <= d * b
  {}

  /** One addition or subtraction is enough for values next to the range. */
  lemma {:induction false} WrapNear(x: int, m: nat)
    requires m > 0 && -(m as int) <= x < 2 * m
    ensures Wrap(x, m) == if x < 0 then x + m else if x < m then x else x - m
  {
    hide Wrap;
    WrapIs(x, m);
    var q := if x < 0 then -1 else if x < m then 0 else 1;
    DivUnique(x, m, q, x - q * m);
  }

  lemma {:induction false} WrapShift(x: int, m: nat)
    requires m > 0
    ensures Wrap(x + m, m) == Wrap(x, m)
  {
    hide Wrap;
    WrapIs(x, m);
    WrapIs(x + m, m);
    assert m * (x / m + 1) == m * (x / m) + m;
    DivUnique(x + m, m, x / m + 1, x % m);
  }

  lemma {:induction false} RemNear(a: nat, b: nat)
    requires b > 0 && a < 2 * b
    ensures Rem(a, b) == if a < b then a else a - b
  {
    QuotRemIs(a, b);
    if a >= b { DivUnique(a, b, 1, a - b); }
    hide Rem, Quot;
  }

  lemma EvenPlus(k: int, y: int)
    ensures (2 * k + y) % 2 == y % 2
  {}

  // ----- casts and halves of words

  /** Conversion to uint8_t / uint16_t / uint32_t / uint64_t: keep the low bits. */
  function U8(x: int): u8 { Wrap(x, 0x100) }
  function U16(x: int): u16 { Wrap(x, 0x1_0000) }
  function U32(x: int): u32 { Wrap(x, 0x1_0000_0000) }
  function U64(x: int): u64 { Wrap(x, 0x1_0000_0000_0000_0000) }

  /** Addition in uint16_t. */
  function Add16(a: int, b: int): u16 { U16(a + b) }

  lemma {:induction false} Add16Twice(x: int, d: int, e: int)
    ensures Add16(Add16(x, d), e) == Add16(x, d + e)
  {
    hide Wrap;
    WrapIs(x + d, 0x1_0000);
    WrapIs(x + d + e, 0x1_0000);
    var q, q', r := (x + d) / 0x1_0000, (x + d + e) / 0x1_0000, Wrap(x + d, 0x1_0000);
    WrapIs(r + e, 0x1_0000);
    DivUnique(r + e, 0x1_0000, q' - q, Wrap(x + d + e, 0x1_0000));
  }

  function Lo(w: u16): u8 { Rem(w, 0x100) }
  function Hi(w: u16): u8 { HiFits(w); Quot(w, 0x100) }
  function Word(lo: u8, hi: u8): u16 { lo + 0x100 * hi }

  lemma {:induction false} HiFits(w: u16)
    ensures Quot(w, 0x100) < 0x100
  {
    QuotRemIs(w, 0x100);
  }

  /** (int8_t) and (int16_t) casts. */
  function S8(x: u8): int { if x < 0x80 then x else x - 0x100 }
  function S16(x: u16): int { if x < 0x8000 then x else x - 0x1_0000 }
  function S32(x: u32): int { if x < 0x8000_0000 then x else x - 0x1_0000_0000 }

  function Pow2(n: nat): (p: nat)
    ensures p > 0
  {
    if n == 0 then 1 else 2 * Pow2(n - 1)
  }

  /** (x >> k) & 1 */
  predicate Bit(x: nat, k: nat) {
    if k == 0 then x % 2 == 1 else Bit(x / 2, k - 1)
  }

  /** The C operators ^, & and | on non-negative integers. */
  function Xor(a: nat, b: nat): nat {
    if a == 0 then b
    else if b == 0 then a
    else 2 * Xor(a / 2, b / 2) + (if a % 2 == b % 2 then 0 else 1)
  }

  function And(a: nat, b: nat): (r: nat)
    ensures r <= a && r <= b
  {
    if a == 0 || b == 0 then 0
    else 2 * And(a / 2, b / 2) + (if a % 2 == 1 && b % 2 == 1 then 1 else 0)
  }

  function Or(a: nat, b: nat): nat {
    if a == 0 then b
    else if b == 0 then a
    else 2 * Or(a / 2, b / 2) + (if a % 2 == 1 || b % 2 == 1 then 1 else 0)
  }

  lemma {:induction false} BitOfZero(k: nat)
    ensures !Bit(0, k)
  {
    if k > 0 { BitOfZero(k - 1); }
  }

  /** Exclusive or acts on every bit on its own. */
  lemma {:induction false} BitXor(a: nat, b: nat, k: nat)
    ensures Bit(Xor(a, b), k) == (Bit(a, k) != Bit(b, k))
    decreases k
  {
    if a == 0 || b == 0 {
      BitOfZero(k);
    } else if k > 0 {
      assert Xor(a, b) / 2 == Xor(a / 2, b / 2);
      BitXor(a / 2, b / 2, k - 1);
    }
  }

  lemma {:induction false} XorBound(a: nat, b: nat, n: nat)
    requires a < Pow2(n) && b < Pow2(n)
    ensures Xor(a, b) < Pow2(n)
  {
    if a != 0 && b != 0 { XorBound(a / 2, b / 2, n - 1); }
  }

  lemma {:induction false} OrBound(a: nat, b: nat, n: nat)
    requires a < Pow2(n) && b < Pow2(n)
    ensures Or(a, b) < Pow2(n)
  {
    if a != 0 && b != 0 { OrBound(a / 2, b / 2, n - 1); }
  }

  lemma {:induction false} Pow2Values()
    ensures Pow2(1) == 2 && Pow2(4) == 0x10 && Pow2(7) == 0x80 && Pow2(8) == 0x100
    ensures Pow2(15) == 0x8000 && Pow2(16) == 0x1_0000
  {}

  function Xor8(a: u8, b: u8): u8 { Pow2Values(); XorBound(a, b, 8); Xor(a, b) }
  function Xor16(a: u16, b: u16): u16 { Pow2Values(); XorBound(a, b, 16); Xor(a, b) }
  function Or8(a: u8, b: u8): u8 { Pow2Values(); OrBound(a, b, 8); Or(a, b) }
  function Or16(a: u16, b: u16): u16 { Pow2Values(); OrBound(a, b, 16); Or(a, b) }

  /** A bit read by shifting is the bit read by dividing. */
  lemma {:induction false} BitIsDiv(x: nat, k: nat)
    ensures Bit(x, k) == ((x / Pow2(k)) % 2 == 1)
    decreases k
  {
    if k > 0 {
      BitIsDiv(x / 2, k - 1);
      DivDiv(x, Pow2(k - 1));
    }
  }

  lemma {:induction false} DivDiv(x: nat, p: nat)
    requires p > 0
    ensures (x / 2) / p == x / (2 * p)
  {
    var q := (x / 2) / p;
    var r := (x / 2) % p;
    assert x / 2 == p * q + r;
    assert x == (2 * p) * q + (2 * r + x % 2);
    DivUnique(x, 2 * p, q, 2 * r + x % 2);
  }


  lemma {:induction false} Pow2Add(m: nat, n: nat)
    ensures Pow2(m + n) == Pow2(m) * Pow2(n)
    decreases n
  {
    if n > 0 { Pow2Add(m, n - 1); }
  }

  /** The bits that the flag formulas test. */
  lemma {:induction false} FlagBits(x: nat)
    ensures Bit(x, 4) == (x / 0x10 % 2 == 1)
    ensures Bit(x, 7) == (x / 0x80 % 2 == 1)
    ensures Bit(x, 15) == (x / 0x8000 % 2 == 1)
  {
    BitIsDiv(x, 4);
    BitIsDiv(x, 7);
    BitIsDiv(x, 15);
    Pow2Values();
  }
}

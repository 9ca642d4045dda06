/**
 DIV, IDIV, MUL and IMUL (arithmetic.h): when a division succeeds, what it then
 leaves in the registers, and multiplication undone by division.
 */
module AluDivision {
  import opened Words
  import opened Flags
  import opened Alu

  /** The dividend: DX:AX for words, AX for bytes. */
  function Dividend(ax: u16, dx: u16, wide: bool): int {
    if wide then 0x1_0000 * dx + ax else ax
  }

  function SignedDividend(ax: u16, dx: u16, wide: bool): int {
    if wide then S32(Dividend(ax, dx, true)) else S16(ax)
  }

  /** The half of the dividend that lies above the quotient's range. */
  function UpperHalf(ax: u16, dx: u16, wide: bool): int {
    if wide then dx else Hi(ax)
  }

  /** The registers hold this quotient and remainder. */
  predicate Holds(r: Quotient, dx: u16, q: int, m: int, wide: bool)
    requires 0 <= q < Size(wide) && 0 <= m < Size(wide)
  {
    r == if wide then Quotient(q, m) else Quotient(Word(q, m), dx)
  }

  /** DIV reports an error exactly when the divisor does not exceed the upper half of
      the dividend; otherwise quotient and remainder satisfy the division identity. */
  lemma {:induction false} DivMeaning(ax: u16, dx: u16, d: u16, wide: bool)
    requires d <= Mask(wide)
    ensures Div(ax, dx, d, wide).DivideError? <==> d <= UpperHalf(ax, dx, wide)
    ensures !Div(ax, dx, d, wide).DivideError? ==>
      exists q, m :: 0 <= q < Size(wide) && 0 <= m < d && Dividend(ax, dx, wide) == q * d + m
                     && Holds(Div(ax, dx, d, wide), dx, q, m, wide)
  {
    if d != 0 {
      var q, m := DivWitness(ax, dx, d, wide);
      hide *;
    }
  }

  lemma {:induction false} DivWitness(ax: u16, dx: u16, d: u16, wide: bool) returns (q: int, m: int)
    requires 0 < d <= Mask(wide)
    ensures Dividend(ax, dx, wide) == q * d + m && 0 <= m < d && 0 <= q
    ensures Div(ax, dx, d, wide).DivideError? <==> d <= UpperHalf(ax, dx, wide)
    ensures !Div(ax, dx, d, wide).DivideError? ==>
      q < Size(wide) && m < Size(wide) && Holds(Div(ax, dx, d, wide), dx, q, m, wide)
  {
    hide Div, Word, Dividend, Quot, Rem;
    var n := Dividend(ax, dx, wide);
    q, m := n / d, n % d;
    assert n == q * d + m;
    DivIs(ax, dx, d, wide);
    assert n == Size(wide) * UpperHalf(ax, dx, wide) + n % Size(wide) by { Halves(ax, dx, wide); }
    QuotientFits(n, d, q, m, Size(wide), UpperHalf(ax, dx, wide), n % Size(wide));
  }

  lemma Halves(ax: u16, dx: u16, wide: bool)
    ensures Dividend(ax, dx, wide) / Size(wide) == UpperHalf(ax, dx, wide)
  {
    hide Wrap, Rem, Quot;
    OperatorsAre();
  }

  lemma DivIs(ax: u16, dx: u16, d: u16, wide: bool)
    requires 0 < d <= Mask(wide)
    ensures var (q, m) := (Dividend(ax, dx, wide) / d, Dividend(ax, dx, wide) % d);
      Div(ax, dx, d, wide) == if q >= Size(wide) then DivideError
                              else if wide then Quotient(q, m) else Quotient(Word(q, m), dx)
  {
    hide Word, Quot, Rem;
    QuotRemIs(Dividend(ax, dx, wide), d);
  }

  /** n / d fits below `size` exactly when d exceeds n / size. */
  lemma QuotientFits(n: int, d: int, q: int, m: int, size: int, up: int, low: int)
    requires d > 0 && n == q * d + m && 0 <= m < d && size > 0
    requires n == size * up + low && 0 <= low < size
    ensures q < size <==> up < d
  {
    if q < size {
      MulLe(d, q, size - 1);
      assert n < size * d;
      if d <= up { MulLe(size, d, up); }
    } else {
      MulLe(d, size, q);
      assert n >= size * d;
      if up < d { assert size * (d - 1) == size * d - size; MulLe(size, up, d - 1); }
    }
  }

  /** q is the truncated quotient of n by d: the remainder is smaller than the divisor
      and does not have the sign opposite to the dividend. */
  predicate Truncates(n: int, d: int, q: int) {
    var m := n - q * d;
    Abs(m) < Abs(d) && (n >= 0 ==> m >= 0) && (n <= 0 ==> m <= 0)
  }

  lemma TruncDivTruncates(n: int, d: int)
    requires d != 0
    ensures Truncates(n, d, TruncDiv(n, d))
    ensures TruncMod(n, d) == n - TruncDiv(n, d) * d
  {
    hide Quot, Rem, Truncates;
    DivisionIdentity(Abs(n), Abs(d));
    Truncated(n, d, Quot(Abs(n), Abs(d)), Rem(Abs(n), Abs(d)));
  }

  lemma Truncated(n: int, d: int, q: int, m: int)
    requires d != 0 && Abs(n) == Abs(d) * q + m && 0 <= m < Abs(d)
    ensures var t := if n >= 0 <==> d > 0 then q else -q;
      Truncates(n, d, t) && n - t * d == if n >= 0 then m else -m
  {
    TruncatedTimes(n, d, q, if n >= 0 <==> d > 0 then q else -q, Abs(d) * q);
  }

  lemma TruncatedTimes(n: int, d: int, q: int, t: int, p: int)
    requires d != 0 && t == (if n >= 0 <==> d > 0 then q else -q) && p == Abs(d) * q
    ensures t * d == if n >= 0 then p else -p
  {
    if d > 0 {
      assert p == q * d && (-q) * d == -(q * d);
    } else {
      assert p == -(q * d) && (-q) * d == -(q * d);
    }
  }

  /** There is only one such quotient. */
  lemma TruncatesOnce(n: int, d: int, p: int, q: int)
    requires d != 0 && Truncates(n, d, p) && Truncates(n, d, q)
    ensures p == q
  {
    var m, k := n - p * d, n - q * d;
    assert m - k == (q - p) * d;
    if q > p { AbsLe(q - p, d); }
    if q < p { assert (p - q) * d == -((q - p) * d); AbsLe(p - q, d); }
  }

  lemma AbsLe(k: int, d: int)
    requires k >= 1
    ensures Abs(k * d) >= Abs(d)
  {}

  /** The two's-complement bits of a value of the operand's range. */
  function TwosComplement(x: int, wide: bool): int {
    if wide then U16(x) else U8(x)
  }

  /** The word division of -2^31 by -1, whose quotient has no value in int32_t. */
  predicate Unrepresentable(ax: u16, dx: u16, d: u16, wide: bool)
    requires d <= Mask(wide)
  {
    wide && SignedDividend(ax, dx, true) == -0x8000_0000 && Signed(d, true) == -1
  }

  /** IDIV reports an error exactly for a zero divisor or a quotient outside the operand's
      signed range, where the quotient is the one that Truncates describes (TruncatesOnce);
      otherwise it leaves that quotient and its remainder. */
  lemma {:induction false} IdivMeaning(ax: u16, dx: u16, d: u16, wide: bool)
    requires d <= Mask(wide) && !Unrepresentable(ax, dx, d, wide)
    ensures d == 0 ==> Idiv(ax, dx, d, wide).DivideError?
    ensures d != 0 ==>
      var (n, s) := (SignedDividend(ax, dx, wide), Signed(d, wide));
      var q := TruncDiv(n, s);
      && Truncates(n, s, q)
      && (Idiv(ax, dx, d, wide).DivideError? <==> !(-Half(wide) <= q < Half(wide)))
      && (-Half(wide) <= q < Half(wide) ==>
            Holds(Idiv(ax, dx, d, wide), dx, TwosComplement(q, wide), TwosComplement(n - q * s, wide), wide))
  {
    if d != 0 {
      TruncDivTruncates(SignedDividend(ax, dx, wide), Signed(d, wide));
      IdivIs(ax, dx, d, wide);
      hide Idiv, TruncDiv, Truncates, SignedDividend;
    }
  }

  lemma {:induction false} IdivIs(ax: u16, dx: u16, d: u16, wide: bool)
    requires d <= Mask(wide) && d != 0
    ensures var n, s := SignedDividend(ax, dx, wide), Signed(d, wide);
      s != 0 &&
      var q := TruncDiv(n, s);
      Idiv(ax, dx, d, wide) ==
        if -Half(wide) <= q < Half(wide)
        then (if wide then Quotient(U16(q), U16(TruncMod(n, s))) else Quotient(Word(U8(q), U8(TruncMod(n, s))), dx))
        else DivideError
  {
    hide Wrap, Rem, Quot;
    OperatorsAre();
    var n, s := SignedDividend(ax, dx, wide), Signed(d, wide);
    if !wide {
      var q := TruncDiv(n, s);
      assert S16(U16(q)) == if q == 0x8000 then -0x8000 else q;
    }
  }

  /** MUL by a nonzero operand, then DIV by it, restores the multiplicand with remainder 0. */
  lemma {:induction false} MulThenDiv(f: Flags, ax: u16, dx: u16, s: u16, wide: bool)
    requires 0 < s <= Mask(wide)
    ensures var p := Mul(f, ax, dx, s, wide);
      Div(p.ax, p.dx, s, wide) == if wide then Quotient(ax, 0) else Quotient(Word(Lo(ax), 0), dx)
  {
    hide Wrap, Rem, Quot;
    OperatorsAre();
    hide MulFlags, Word, Quot, Rem, Times;
    var x := if wide then ax else Lo(ax);
    var p := Times(x, s);
    TimesIs(x, s);
    QuotRemIs(p, s);
    DivUnique(p, s, x, 0);
    if wide { assert 0x1_0000 * (p / 0x1_0000) + p % 0x1_0000 == p; }
  }

  /** IMUL by a nonzero operand, then IDIV by it, restores the multiplicand with remainder 0. */
  lemma {:induction false} ImulThenIdiv(f: Flags, ax: u16, dx: u16, s: u16, wide: bool)
    requires 0 < s <= Mask(wide)
    ensures var p := Imul(f, ax, dx, s, wide);
      Idiv(p.ax, p.dx, s, wide) == if wide then Quotient(ax, 0) else Quotient(Word(Lo(ax), 0), dx)
  {
    hide Wrap, Rem, Quot;
    OperatorsAre();
    hide TruncDiv, TruncMod, Idiv, Imul, SignedDividend, Word;
    var x := if wide then S16(ax) else S8(Lo(ax));
    var p := Imul(f, ax, dx, s, wide);
    ImulDividend(f, ax, dx, s, wide);
    ExactQuotient(x, Signed(s, wide));
    ExactIdiv(p.ax, p.dx, s, wide, x);
  }

  lemma ExactIdiv(ax: u16, dx: u16, s: u16, wide: bool, x: int)
    requires 0 < s <= Mask(wide) && -Half(wide) <= x < Half(wide)
    requires var (n, d) := (SignedDividend(ax, dx, wide), Signed(s, wide)); TruncDiv(n, d) == x && TruncMod(n, d) == 0
    ensures Idiv(ax, dx, s, wide) == if wide then Quotient(U16(x), 0) else Quotient(Word(U8(x), 0), dx)
  {
    hide TruncDiv, TruncMod, Idiv, SignedDividend, Word, Signed;
    IdivIs(ax, dx, s, wide);
  }

  lemma ExactQuotient(x: int, d: int)
    requires d != 0
    ensures TruncDiv(x * d, d) == x && TruncMod(x * d, d) == 0
  {
    hide TruncDiv, TruncMod, Truncates;
    TruncDivTruncates(x * d, d);
    ExactTruncates(x, d);
    TruncatesOnce(x * d, d, TruncDiv(x * d, d), x);
  }

  lemma ExactTruncates(x: int, d: int)
    requires d != 0
    ensures Truncates(x * d, d, x)
  {}

  /** The product registers, read back as a signed dividend, hold the exact product. */
  lemma {:induction false} ImulDividend(f: Flags, ax: u16, dx: u16, s: u16, wide: bool)
    requires s <= Mask(wide)
    ensures var p := Imul(f, ax, dx, s, wide);
      && SignedDividend(p.ax, p.dx, wide) == (if wide then S16(ax) else S8(Lo(ax))) * Signed(s, wide)
      && (!wide ==> p.dx == dx)
  {
    hide Wrap, Rem, Quot;
    OperatorsAre();
    hide MulFlags, Times;
    var x := if wide then S16(ax) else S8(Lo(ax));
    TimesIs(x, Signed(s, wide));
    SignedProductRange(x, Signed(s, wide), Half(wide));
    RereadSigned(x * Signed(s, wide), wide);
  }

  lemma RereadSigned(v: int, wide: bool)
    requires -0x4000_0000 <= v <= 0x4000_0000 && (!wide ==> -0x4000 <= v <= 0x4000)
    ensures wide ==> S32(0x1_0000 * (U32(v) / 0x1_0000) + U16(U32(v))) == v
    ensures !wide ==> S16(U16(v)) == v
  {
    hide Wrap, Rem, Quot;
    OperatorsAre();
  }

  lemma SignedProductRange(x: int, d: int, h: int)
    requires h > 0 && -h <= x < h && -h <= d < h
    ensures -(h * h) <= x * d <= h * h
  {
    var a: int, b: int := Abs(x), Abs(d);
    MulLe(a, b, h);
    MulLe(h, a, h);
    assert x * d == a * b || x * d == -(a * b);
  }
}

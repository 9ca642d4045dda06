/**
 Shifting and rotating by a variable number of places, one place at a time, so
 that every step is linear arithmetic.
 */
module BitShift {
  import opened Words

  /** x << n */
  function Shl(x: nat, n: nat): nat {
    if n == 0 then x else 2 * Shl(x, n - 1)
  }

  /** x >> n */
  function Shr(x: nat, n: nat): nat {
    if n == 0 then x else Shr(x / 2, n - 1)
  }

  /** x & ((1 << n) - 1) */
  function LowBits(x: nat, n: nat): nat {
    if n == 0 then 0 else x % 2 + 2 * LowBits(x / 2, n - 1)
  }

  lemma {:induction false} LowBitsBound(x: nat, n: nat)
    ensures LowBits(x, n) < Pow2(n)
  {
    if n > 0 { LowBitsBound(x / 2, n - 1); }
  }

  /** A number is its high bits, shifted back, and its low bits ... */
  lemma {:induction false} Recombine(x: nat, n: nat)
    ensures x == Shl(Shr(x, n), n) + LowBits(x, n)
  {
    if n > 0 { Recombine(x / 2, n - 1); }
  }

  /** ... and only these. */
  lemma {:induction false} Parts(x: nat, n: nat, h: nat, l: nat)
    requires x == Shl(h, n) + l && l < Pow2(n)
    ensures Shr(x, n) == h && LowBits(x, n) == l
  {
    if n > 0 {
      assert x / 2 == Shl(h, n - 1) + l / 2;
      Parts(x / 2, n - 1, h, l / 2);
    }
  }

  lemma {:induction false} ShlAdd(x: nat, y: nat, n: nat)
    ensures Shl(x + y, n) == Shl(x, n) + Shl(y, n)
  {
    if n > 0 { ShlAdd(x, y, n - 1); }
  }

  lemma {:induction false} ShlDouble(x: nat, n: nat)
    ensures Shl(2 * x, n) == 2 * Shl(x, n)
  {
    if n > 0 { ShlDouble(x, n - 1); }
  }

  lemma {:induction false} ShlShl(x: nat, m: nat, n: nat)
    ensures Shl(Shl(x, m), n) == Shl(x, m + n)
  {
    if n > 0 { ShlShl(x, m, n - 1); }
  }

  lemma {:induction false} ShlMono(x: nat, y: nat, n: nat)
    requires x <= y
    ensures Shl(x, n) <= Shl(y, n)
  {
    if n > 0 { ShlMono(x, y, n - 1); }
  }

  lemma {:induction false} ShlOne(n: nat)
    ensures Shl(1, n) == Pow2(n)
  {
    if n > 0 { ShlOne(n - 1); }
  }

  lemma {:induction false} ShlPow2(m: nat, n: nat)
    ensures Shl(Pow2(m), n) == Pow2(m + n)
  {
    if n > 0 { ShlPow2(m, n - 1); }
  }

  /** High part below 2^m and low part below 2^n make a number below 2^(m+n) ... */
  lemma {:induction false} JoinBound(h: nat, l: nat, m: nat, n: nat)
    requires h < Pow2(m) && l < Pow2(n)
    ensures Shl(h, n) + l < Pow2(m + n)
  {
    ShlMono(h + 1, Pow2(m), n);
    ShlAdd(h, 1, n);
    ShlOne(n);
    ShlPow2(m, n);
  }

  /** ... and the high part of a number below 2^(m+n) is below 2^m. */
  lemma {:induction false} ShrBound(x: nat, m: nat, n: nat)
    requires x < Pow2(m + n)
    ensures Shr(x, n) < Pow2(m)
    decreases n
  {
    if n > 0 { ShrBound(x / 2, m, n - 1); }
  }

  lemma {:induction false} LowBitsSmall(x: nat, n: nat)
    requires x < Pow2(n)
    ensures LowBits(x, n) == x && Shr(x, n) == 0
  {
    if n > 0 { LowBitsSmall(x / 2, n - 1); }
  }

  lemma {:induction false} BitIsShr(x: nat, k: nat)
    ensures Bit(x, k) == (Shr(x, k) % 2 == 1)
    decreases k
  {
    if k > 0 { BitIsShr(x / 2, k - 1); }
  }

  /** The low n + 1 bits are bit n and the low n bits. */
  lemma {:induction false} LowBitsTop(x: nat, n: nat)
    ensures LowBits(x, n + 1) == Shl(if Bit(x, n) then 1 else 0, n) + LowBits(x, n)
  {
    if n > 0 { LowBitsTop(x / 2, n - 1); }
  }

  /** ORing a shifted number with a number below the shift adds them. */
  lemma {:induction false} OrDisjoint(x: nat, y: nat, n: nat)
    requires y < Pow2(n)
    ensures Or(Shl(x, n), y) == Shl(x, n) + y
  {
    if n > 0 && Shl(x, n) != 0 && y != 0 { OrDisjoint(x, y / 2, n - 1); }
  }

  // ----- rotation of an N-bit word

  /** Left by n <= N places: the low N - n bits move above the high n bits. */
  function RotL(x: nat, n: nat, N: nat): nat
    requires n <= N
  {
    Shl(LowBits(x, N - n), n) + Shr(x, N - n)
  }

  function RotL1(x: nat, N: nat): nat
    requires N > 0
  {
    2 * LowBits(x, N - 1) + Shr(x, N - 1)
  }

  function RotR1(x: nat, N: nat): nat
    requires N > 0
  {
    x / 2 + Shl(x % 2, N - 1)
  }

  lemma {:induction false} RotBound(x: nat, n: nat, N: nat)
    requires n <= N && x < Pow2(N)
    ensures RotL(x, n, N) < Pow2(N)
  {
    LowBitsBound(x, N - n);
    ShrBound(x, n, N - n);
    JoinBound(LowBits(x, N - n), Shr(x, N - n), N - n, n);
  }

  lemma {:induction false} ShrOneMore(x: nat, n: nat)
    ensures Shr(x, n) == 2 * Shr(x, n + 1) + (if Bit(x, n) then 1 else 0)
  {
    if n > 0 { ShrOneMore(x / 2, n - 1); }
  }

  /** Rotating by n + 1 places is rotating by n and then by one. */
  lemma {:induction false} RotStep(x: nat, n: nat, N: nat)
    requires n < N && x < Pow2(N)
    ensures RotL(x, n + 1, N) == RotL1(RotL(x, n, N), N)
  {
    var k := N - n - 1;
    var t := if Bit(x, k) then 1 else 0;
    var l, h := LowBits(x, k), Shr(x, k + 1);
    LowBitsTop(x, k);
    ShrOneMore(x, k);
    ShlAdd(Shl(t, k), l, n);
    ShlShl(t, k, n);
    LowBitsBound(x, k);
    ShrBound(x, n, k + 1);
    JoinBound(l, h, k, n);
    Parts(RotL(x, n, N), N - 1, t, Shl(l, n) + h);
  }

  lemma {:induction false} RotR1Undoes(x: nat, N: nat)
    requires N > 0 && x < Pow2(N)
    ensures RotR1(RotL1(x, N), N) == x
  {
    ShrBound(x, 1, N - 1);
    Recombine(x, N - 1);
    var t, l := Shr(x, N - 1), LowBits(x, N - 1);
    assert (2 * l + t) / 2 == l && (2 * l + t) % 2 == t;
  }

  /** One place back to the right. */
  lemma {:induction false} RotBack(x: nat, n: nat, N: nat)
    requires n < N && x < Pow2(N)
    ensures RotR1(RotL(x, n + 1, N), N) == RotL(x, n, N)
  {
    RotStep(x, n, N);
    RotBound(x, n, N);
    RotR1Undoes(RotL(x, n, N), N);
  }

  lemma {:induction false} RotZero(x: nat, N: nat)
    requires x < Pow2(N)
    ensures RotL(x, 0, N) == x && RotL(x, N, N) == x
  {
    LowBitsSmall(x, N);
    assert Shl(0, N) == 0 by { ShlZero(N); }
  }

  lemma {:induction false} ShlZero(n: nat)
    ensures Shl(0, n) == 0
  {
    if n > 0 { ShlZero(n - 1); }
  }

  /** Rotations add up. */
  lemma {:induction false} RotRot(x: nat, m: nat, n: nat, N: nat)
    requires m + n <= N && x < Pow2(N)
    ensures RotL(RotL(x, m, N), n, N) == RotL(x, m + n, N)
  {
    RotBound(x, m, N);
    if n == 0 {
      RotZero(RotL(x, m, N), N);
    } else {
      RotRot(x, m, n - 1, N);
      RotStep(RotL(x, m, N), n - 1, N);
      RotStep(x, m + n - 1, N);
    }
  }
}

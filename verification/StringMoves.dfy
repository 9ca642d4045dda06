/**
 REP MOVS: splitting a repeat, and when the element-by-element copy is an exact
 memmove of the whole block although source and target overlap.
 */
module StringMoves {
  import opened Words
  import opened State
  import opened Strings

  /** n iterations, with CX counting down and nothing stopping early. */
  lemma {:induction false} SplitRepeat(s: State, op: StringOp, wide: bool, m: nat, n: nat)
    requires !IsCompare(op) && m + n < 0x1_0000
    ensures Rep(SetReg(s, CX, m + n), op, wide)
         == Rep(SetReg(Rep(SetReg(s, CX, m), op, wide), CX, n), op, wide)
    decreases m
  {
    hide StringStep, Pass, Rep, Stops;
    var a, b := SetReg(s, CX, m + n), SetReg(s, CX, m);
    if m == 0 {
      assert SetReg(b, CX, n) == a;
      RepUnfolds(b, op, wide);
    } else {
      var t := StringStep(s, op, wide);
      PassCounts(s, op, wide, m + n);
      PassCounts(s, op, wide, m);
      RepUnfolds(a, op, wide);
      RepUnfolds(b, op, wide);
      SplitRepeat(t, op, wide, m - 1, n);
    }
  }

  /** MOVS, STOS and LODS repeat until CX is zero. */
  lemma {:induction false} RepUnfolds(s: State, op: StringOp, wide: bool)
    requires !IsCompare(op)
    ensures Rep(s, op, wide) == if s.regs[CX] == 0 then s else Rep(Pass(s, op, wide), op, wide)
  {
    hide StringStep, Pass;
  }

  lemma {:induction false} PassCounts(s: State, op: StringOp, wide: bool, c: u16)
    requires c > 0
    ensures Pass(SetReg(s, CX, c), op, wide) == SetReg(StringStep(s, op, wide), CX, c - 1)
  {
    hide StringStep;
    StepIgnoresCx(s, op, wide, c);
  }

  /** A string operation neither reads nor writes CX. */
  lemma {:induction false} StepIgnoresCx(s: State, op: StringOp, wide: bool, c: u16)
    ensures StringStep(SetReg(s, CX, c), op, wide) == SetReg(StringStep(s, op, wide), CX, c)
  {
    assert SourceAddress(SetReg(s, CX, c)) == SourceAddress(s);
    assert TargetAddress(SetReg(s, CX, c)) == TargetAddress(s);
    hide Linear, Store, Load;
  }

  // ----- copying on memory alone

  function Span(n: int, wide: bool): int { if wide then 2 * n else n }

  function CopyOne(m: Memory, src: int, dst: int, wide: bool): Memory
    requires 0 <= src && src + 1 < MEM_SIZE && 0 <= dst && dst + 1 < MEM_SIZE
  {
    Store(m, dst, Load(m, src, wide), wide)
  }

  lemma CopyOneAt(m: Memory, src: int, dst: int, wide: bool, a: int)
    requires 0 <= src && src + 1 < MEM_SIZE && 0 <= dst && dst + 1 < MEM_SIZE && 0 <= a < MEM_SIZE
    ensures CopyOne(m, src, dst, wide)[a] == if dst <= a < dst + Span(1, wide) then m[src + (a - dst)] else m[a]
  {
    hide Wrap, Rem, Quot;
    OperatorsAre();
  }

  /** n elements upwards, the first at src. */
  function CopyUp(m: Memory, src: int, dst: int, n: nat, wide: bool): Memory
    requires 0 <= src && src + Span(n, wide) < MEM_SIZE && 0 <= dst && dst + Span(n, wide) < MEM_SIZE
    decreases n
  {
    if n == 0 then m
    else CopyUp(CopyOne(m, src, dst, wide), src + Span(1, wide), dst + Span(1, wide), n - 1, wide)
  }

  /** n elements downwards, the first and highest at src. */
  function CopyDown(m: Memory, src: int, dst: int, n: nat, wide: bool): Memory
    requires 0 <= src - Span(n - 1, wide) && src + 1 < MEM_SIZE && 0 <= dst - Span(n - 1, wide) && dst + 1 < MEM_SIZE
    decreases n
  {
    if n == 0 then m
    else if n == 1 then CopyOne(m, src, dst, wide)
    else CopyDown(CopyOne(m, src, dst, wide), src - Span(1, wide), dst - Span(1, wide), n - 1, wide)
  }

  /** The byte at a after a memmove of len bytes from src to dst. */
  function Moved(m: Memory, src: int, dst: int, len: int, a: int): u8
    requires 0 <= src && src + len <= MEM_SIZE && 0 <= a < MEM_SIZE
  {
    if dst <= a < dst + len then m[src + (a - dst)] else m[a]
  }

  predicate IsMoved(m: Memory, r: Memory, src: int, dst: int, len: int)
    requires 0 <= src && src + len <= MEM_SIZE
  {
    forall a :: 0 <= a < MEM_SIZE ==> r[a] == Moved(m, src, dst, len, a)
  }

  /** The element at the lower end, and then a memmove of the rest, is a memmove of all. */
  lemma MovedUpAt(m: Memory, src: int, dst: int, n: nat, wide: bool, a: int)
    requires n > 0 && 0 <= a < MEM_SIZE
    requires 0 <= src && src + Span(n, wide) < MEM_SIZE && 0 <= dst && dst + Span(n, wide) < MEM_SIZE
    requires dst <= src || src + Span(n, wide) <= dst
    ensures var w := Span(1, wide);
      Moved(CopyOne(m, src, dst, wide), src + w, dst + w, Span(n - 1, wide), a) == Moved(m, src, dst, Span(n, wide), a)
  {
    hide Wrap, Rem, Quot;
    OperatorsAre();
  }

  /** Copying upwards is a memmove unless the target starts inside the source block. */
  lemma {:induction false} CopyUpMoves(m: Memory, src: int, dst: int, n: nat, wide: bool)
    requires 0 <= src && src + Span(n, wide) < MEM_SIZE && 0 <= dst && dst + Span(n, wide) < MEM_SIZE
    requires dst <= src || src + Span(n, wide) <= dst
    ensures IsMoved(m, CopyUp(m, src, dst, n, wide), src, dst, Span(n, wide))
    decreases n
  {
    if n > 0 {
      hide CopyOne, Moved;
      CopyUpMoves(CopyOne(m, src, dst, wide), src + Span(1, wide), dst + Span(1, wide), n - 1, wide);
      forall a | 0 <= a < MEM_SIZE
        ensures CopyUp(m, src, dst, n, wide)[a] == Moved(m, src, dst, Span(n, wide), a)
      {
        MovedUpAt(m, src, dst, n, wide, a);
      }
    }
  }

  lemma MovedDownAt(m: Memory, src: int, dst: int, n: nat, wide: bool, a: int)
    requires n > 0 && 0 <= a < MEM_SIZE
    requires 0 <= src - Span(n - 1, wide) && src + 1 < MEM_SIZE && 0 <= dst - Span(n - 1, wide) && dst + 1 < MEM_SIZE
    requires src <= dst || dst + Span(n, wide) <= src
    ensures var k := Span(n - 1, wide); var m1 := CopyOne(m, src, dst, wide);
      Moved(m1, src - k, dst - k, k, a) == Moved(m, src - k, dst - k, Span(n, wide), a)
  {
    hide Wrap, Rem, Quot;
    OperatorsAre();
  }

  /** Copying downwards is a memmove unless the source starts inside the target block. */
  lemma {:induction false} CopyDownMoves(m: Memory, src: int, dst: int, n: nat, wide: bool)
    requires n > 0
    requires 0 <= src - Span(n - 1, wide) && src + 1 < MEM_SIZE && 0 <= dst - Span(n - 1, wide) && dst + 1 < MEM_SIZE
    requires src <= dst || dst + Span(n, wide) <= src
    ensures IsMoved(m, CopyDown(m, src, dst, n, wide), src - Span(n - 1, wide), dst - Span(n - 1, wide), Span(n, wide))
    decreases n
  {
    hide CopyOne, Moved;
    var k := Span(n - 1, wide);
    var m1 := CopyOne(m, src, dst, wide);
    if n > 1 {
      CopyDownMoves(m1, src - Span(1, wide), dst - Span(1, wide), n - 1, wide);
    }
    forall a | 0 <= a < MEM_SIZE
      ensures CopyDown(m, src, dst, n, wide)[a] == Moved(m, src - k, dst - k, Span(n, wide), a)
    {
      MovedDownAt(m, src, dst, n, wide, a);
      if n == 1 { MovedNothing(m1, src, dst, a); }
    }
  }

  lemma MovedNothing(m: Memory, src: int, dst: int, a: int)
    requires 0 <= src < MEM_SIZE && 0 <= a < MEM_SIZE
    ensures Moved(m, src, dst, 0, a) == m[a]
  {}

  /** Copying bytes upwards into the source block repeats its first k bytes, where k is
      the distance from source to target. */
  lemma {:induction false} CopyUpRepeats(m: Memory, src: int, k: nat, n: nat, i: nat)
    requires 0 <= src && src + k + n < MEM_SIZE && k > 0 && i < n + k
    ensures CopyUp(m, src, src + k, n, false)[src + i] == m[src + i % k]
    decreases n
  {
    hide CopyOne;
    if n == 0 {
      DivUnique(i, k, 0, i);
    } else {
      var m1 := CopyOne(m, src, src + k, false);
      if i == 0 {
        CopyOneAt(m, src, src + k, false, src);
        CopyUpBelow(m1, src + 1, k, n - 1, src);
        DivUnique(0, k, 0, 0);
      } else {
        CopyUpRepeats(m1, src + 1, k, n - 1, i - 1);
        ModStep(i - 1, k);
        var j := (i - 1) % k;
        CopyOneAt(m, src, src + k, false, src + 1 + j);
      }
    }
  }

  /** Bytes below the target stay. */
  lemma {:induction false} CopyUpBelow(m: Memory, src: int, k: nat, n: nat, a: int)
    requires 0 <= src && src + k + n < MEM_SIZE && 0 <= a < src + k
    ensures CopyUp(m, src, src + k, n, false)[a] == m[a]
    decreases n
  {
    hide CopyOne;
    if n > 0 {
      CopyOneAt(m, src, src + k, false, a);
      CopyUpBelow(CopyOne(m, src, src + k, false), src + 1, k, n - 1, a);
    }
  }

  lemma ModStep(j: nat, k: nat)
    requires k > 0
    ensures (j + 1) % k == if j % k + 1 == k then 0 else j % k + 1
  {
    var q, r := j / k, j % k;
    if r + 1 == k {
      assert j + 1 == k * (q + 1);
      DivUnique(j + 1, k, q + 1, 0);
    } else {
      DivUnique(j + 1, k, q, r + 1);
    }
  }

  // ----- REP MOVS

  /** The offsets of n elements from x do not wrap around 16 bits. */
  predicate NoWrap(x: int, n: int, down: bool, wide: bool) {
    if down then Span(n - 1, wide) <= x else x + Span(n - 1, wide) < 0x1_0000
  }

  /** All registers after n iterations. */
  function Advanced(s: State, n: nat, wide: bool): Regs {
    var d := if s.flags.df then -Span(n, wide) else Span(n, wide);
    s.regs[CX := 0][SI := Add16(s.regs[SI], d)][DI := Add16(s.regs[DI], d)]
  }

  lemma {:induction false} PassMovs(s: State, wide: bool)
    requires s.regs[CX] > 0
    ensures var d := if s.flags.df then -Span(1, wide) else Span(1, wide);
      Pass(s, MOVS, wide) == s.(
        mem := CopyOne(s.mem, SourceAddress(s), TargetAddress(s), wide),
        regs := s.regs[CX := s.regs[CX] - 1][SI := Add16(s.regs[SI], d)][DI := Add16(s.regs[DI], d)])
  {
    hide Store, Load, Linear;
  }

  lemma {:induction false} RepMovsUp(s: State, wide: bool)
    requires !s.flags.df
    requires NoWrap(s.regs[SI], s.regs[CX], false, wide) && NoWrap(s.regs[DI], s.regs[CX], false, wide)
    ensures SourceAddress(s) + Span(s.regs[CX], wide) < MEM_SIZE && TargetAddress(s) + Span(s.regs[CX], wide) < MEM_SIZE
    ensures Rep(s, MOVS, wide) == s.(
      mem := CopyUp(s.mem, SourceAddress(s), TargetAddress(s), s.regs[CX], wide),
      regs := Advanced(s, s.regs[CX], wide))
    decreases s.regs[CX]
  {
    hide Pass, Rep, CopyOne, Advanced;
    RepUnfolds(s, MOVS, wide);
    AdvancedByZero(s, wide);
    if s.regs[CX] > 0 {
      var t := Pass(s, MOVS, wide);
      PassMovs(s, wide);
      AdvancedTwice(s, t, wide);
      RepMovsUp(t, wide);
    }
  }

  lemma AdvancedByZero(s: State, wide: bool)
    ensures s.regs[CX] == 0 ==> Advanced(s, 0, wide) == s.regs
  {}

  /** t is s after one element. */
  predicate AfterOne(s: State, t: State, wide: bool) {
    var d := if s.flags.df then -Span(1, wide) else Span(1, wide);
    && s.regs[CX] > 0
    && t.regs == s.regs[CX := s.regs[CX] - 1][SI := Add16(s.regs[SI], d)][DI := Add16(s.regs[DI], d)]
    && t.sregs == s.sregs && t.prefix == s.prefix && t.flags == s.flags
  }

  lemma AdvancedTwice(s: State, t: State, wide: bool)
    requires AfterOne(s, t, wide)
    ensures Advanced(t, t.regs[CX], wide) == Advanced(s, s.regs[CX], wide)
  {
    hide Add16, Span;
    var d := if s.flags.df then -Span(1, wide) else Span(1, wide);
    var e := if s.flags.df then -Span(t.regs[CX], wide) else Span(t.regs[CX], wide);
    Add16Twice(s.regs[SI], d, e);
    Add16Twice(s.regs[DI], d, e);
    assert d + e == if s.flags.df then -Span(s.regs[CX], wide) else Span(s.regs[CX], wide) by {
      SpanAdds(1, t.regs[CX], wide);
    }
  }

  lemma SpanAdds(m: int, n: int, wide: bool)
    ensures Span(m, wide) + Span(n, wide) == Span(m + n, wide)
  {}

  /** For every CX, direction, overlap and offset, wrapping ones included, REP MOVS ends with
      CX at 0 and SI and DI moved by CX elements modulo 2^16, and changes nothing else but
      memory. */
  lemma {:induction false} RepMovsRegisters(s: State, wide: bool)
    ensures var r := Rep(s, MOVS, wide); r == s.(mem := r.mem, regs := Advanced(s, s.regs[CX], wide))
    decreases s.regs[CX]
  {
    hide Pass, Rep, CopyOne, Advanced, SourceAddress, TargetAddress;
    RepUnfolds(s, MOVS, wide);
    AdvancedByZero(s, wide);
    if s.regs[CX] > 0 {
      var t := Pass(s, MOVS, wide);
      PassMovs(s, wide);
      AdvancedTwice(s, t, wide);
      RepMovsRegisters(t, wide);
    }
  }

  lemma {:induction false} RepMovsDown(s: State, wide: bool)
    requires s.flags.df && s.regs[CX] > 0
    requires NoWrap(s.regs[SI], s.regs[CX], true, wide) && NoWrap(s.regs[DI], s.regs[CX], true, wide)
    ensures Rep(s, MOVS, wide) == s.(
      mem := CopyDown(s.mem, SourceAddress(s), TargetAddress(s), s.regs[CX], wide),
      regs := Advanced(s, s.regs[CX], wide))
    decreases s.regs[CX]
  {
    hide Pass, Rep, CopyOne, Advanced;
    var t := Pass(s, MOVS, wide);
    RepUnfolds(s, MOVS, wide);
    PassMovs(s, wide);
    AdvancedTwice(s, t, wide);
    if t.regs[CX] == 0 {
      RepUnfolds(t, MOVS, wide);
      AdvancedByZero(t, wide);
    } else {
      RepMovsDown(t, wide);
    }
  }

  /** The lowest addresses of the two blocks of a REP MOVS. */
  function SourceBlock(s: State, wide: bool): int {
    SourceAddress(s) - (if s.flags.df then Span(s.regs[CX] as int - 1, wide) else 0)
  }

  function TargetBlock(s: State, wide: bool): int {
    TargetAddress(s) - (if s.flags.df then Span(s.regs[CX] as int - 1, wide) else 0)
  }

  /** REP MOVSB and REP MOVSW whose offsets do not wrap are an exact memmove when they
      run upwards to a lower or equal target, downwards to a higher or equal target, or
      between disjoint blocks; CX ends at 0, SI and DI behind the blocks, and nothing
      else changes. */
  lemma {:induction false} RepMovsIsMemmove(s: State, wide: bool)
    requires s.regs[CX] > 0
    requires NoWrap(s.regs[SI], s.regs[CX], s.flags.df, wide) && NoWrap(s.regs[DI], s.regs[CX], s.flags.df, wide)
    requires var (a, b, len) := (SourceBlock(s, wide), TargetBlock(s, wide), Span(s.regs[CX], wide));
      (if s.flags.df then a <= b else b <= a) || a + len <= b || b + len <= a
    ensures var r := Rep(s, MOVS, wide);
      && SourceBlock(s, wide) >= 0 && SourceBlock(s, wide) + Span(s.regs[CX], wide) <= MEM_SIZE
      && IsMoved(s.mem, r.mem, SourceBlock(s, wide), TargetBlock(s, wide), Span(s.regs[CX], wide))
      && r == s.(mem := r.mem, regs := Advanced(s, s.regs[CX], wide))
  {
    hide Rep, IsMoved, Advanced, CopyUp, CopyDown;
    if s.flags.df {
      RepMovsDown(s, wide);
      CopyDownMoves(s.mem, SourceAddress(s), TargetAddress(s), s.regs[CX], wide);
    } else {
      RepMovsUp(s, wide);
      CopyUpMoves(s.mem, SourceAddress(s), TargetAddress(s), s.regs[CX], wide);
    }
  }

  /** REP MOVSB upwards with the target k bytes above the source, inside the source block
      or not, fills it with copies of the first k bytes. */
  lemma {:induction false} RepMovsbRepeats(s: State, k: nat, i: nat)
    requires !s.flags.df && k > 0 && TargetAddress(s) == SourceAddress(s) + k
    requires NoWrap(s.regs[SI], s.regs[CX], false, false) && NoWrap(s.regs[DI], s.regs[CX], false, false)
    requires i < s.regs[CX]
    ensures TargetAddress(s) + i < MEM_SIZE
    ensures Rep(s, MOVS, false).mem[TargetAddress(s) + i] == s.mem[SourceAddress(s) + i % k]
  {
    hide Rep, Advanced, CopyUp, Linear;
    RepMovsUp(s, false);
    CopyUpRepeats(s.mem, SourceAddress(s), k, s.regs[CX], i + k);
    DivUnique(i + k, k, i / k + 1, i % k);
  }

  /** So the memmove condition is needed: with the target inside the source block there is
      a memory for which REP MOVSB upwards is not a memmove. */
  lemma {:induction false} OverlapIsNotMemmove(s: State)
    requires !s.flags.df
    requires NoWrap(s.regs[SI], s.regs[CX], false, false) && NoWrap(s.regs[DI], s.regs[CX], false, false)
    requires SourceAddress(s) < TargetAddress(s) < SourceAddress(s) + s.regs[CX]
    ensures SourceAddress(s) + s.regs[CX] <= MEM_SIZE
    ensures exists m: Memory ::
      !IsMoved(m, Rep(s.(mem := m), MOVS, false).mem, SourceAddress(s), TargetAddress(s), s.regs[CX])
  {
    hide Rep, CopyUp, Advanced;
    RepMovsUp(s, false);
    var a, b, n := SourceAddress(s), TargetAddress(s), s.regs[CX];
    var zero: Memory := seq(MEM_SIZE, _ => 0);
    var m: Memory := zero[a := 1];
    var t := s.(mem := m);
    assert SourceAddress(t) == a && TargetAddress(t) == b;
    hide Linear;
    var k := b - a;
    RepMovsbRepeats(t, k, k);
    DivUnique(k, k, 1, 0);
    var r := Rep(t, MOVS, false).mem;
    assert r[b + k] != Moved(m, a, b, n, b + k);
    assert !IsMoved(m, r, a, b, n);
  }
}

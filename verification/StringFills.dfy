/**
 REP STOS as a fill of memory, and the loop of the reference emulator for MOVS, STOS and LODS
 (reference/8086tiny.c, case 17), which counts in a variable of its own and clears CX at the
 end. The reference's registers are kept apart from memory here, where it has them at 0xF0000.
 */
module StringFills {
  import opened Words
  import opened Flags
  import opened State
  import opened Strings
  import opened StringMoves

  // ----- what REP STOS leaves in memory

  /** DI after n elements. */
  function DiAfter(s: State, n: nat, wide: bool): u16 {
    Add16(s.regs[DI], if s.flags.df then -Span(n, wide) else Span(n, wide))
  }

  /** The address of the k-th element of a string operation's target. */
  function ElementAt(s: State, wide: bool, k: nat): nat { Linear(s.sregs[ES], DiAfter(s, k, wide)) }

  ghost predicate IsElement(s: State, wide: bool, n: nat, a: int) {
    exists k: nat :: k < n && ElementAt(s, wide, k) == a
  }

  /** The byte at a after n elements of the accumulator. */
  ghost function Filled(s: State, wide: bool, n: nat, a: int): u8
    requires 0 <= a < MEM_SIZE
  {
    if IsElement(s, wide, n, a) then Lo(s.regs[AX])
    else if wide && IsElement(s, wide, n, a - 1) then Hi(s.regs[AX])
    else s.mem[a]
  }

  /** After one element: CX and DI moved on, and the element stored. */
  lemma {:induction false} PassStos(s: State, wide: bool)
    requires s.regs[CX] > 0
    ensures var t := Pass(s, STOS, wide);
      && t == s.(mem := Store(s.mem, ElementAt(s, wide, 0), s.regs[AX], wide), regs := t.regs)
      && t.regs == s.regs[CX := s.regs[CX] - 1][DI := DiAfter(s, 1, wide)]
  {
    assert Add16(s.regs[DI], 0) == s.regs[DI];
    hide Store, Linear;
  }

  lemma {:induction false} ElementsShift(s: State, t: State, wide: bool, k: nat)
    requires t.sregs == s.sregs && t.flags == s.flags
    requires t.regs[DI] == DiAfter(s, 1, wide)
    ensures ElementAt(t, wide, k) == ElementAt(s, wide, k + 1)
  {
    var d := if s.flags.df then -Span(1, wide) else Span(1, wide);
    var e := if s.flags.df then -Span(k, wide) else Span(k, wide);
    SpanAdds(1, k, wide);
    Add16Twice(s.regs[DI], d, e);
    hide Add16, Span;
  }

  lemma {:induction false} ElementSets(s: State, t: State, wide: bool, n: nat, a: int)
    requires t.sregs == s.sregs && t.flags == s.flags
    requires t.regs[DI] == DiAfter(s, 1, wide)
    ensures IsElement(s, wide, n + 1, a) <==> a == ElementAt(s, wide, 0) || IsElement(t, wide, n, a)
  {
    hide ElementAt, Add16, Span;
    if IsElement(s, wide, n + 1, a) {
      var k: nat :| k < n + 1 && ElementAt(s, wide, k) == a;
      if k > 0 { ElementsShift(s, t, wide, k - 1); }
    }
    if IsElement(t, wide, n, a) {
      var k: nat :| k < n && ElementAt(t, wide, k) == a;
      ElementsShift(s, t, wide, k);
    }
  }

  /** Words of one fill have addresses of one parity, so none starts inside another. */
  lemma {:induction false} ElementParity(s: State, k: nat)
    ensures ElementAt(s, true, k) % 2 == s.regs[DI] % 2
  {
    var d: int, j: int := s.regs[DI], if s.flags.df then -(k as int) else k;
    LinearParity(s.sregs[ES], d + 2 * j);
    assert (d + 2 * j) % 2 == d % 2;
    assert ElementAt(s, true, k) == Linear(s.sregs[ES], U16(d + 2 * j)) by { hide U16, Linear; }
    hide *;
  }

  lemma LinearParity(seg: u16, x: int)
    ensures Linear(seg, U16(x)) % 2 == x % 2
  {
    hide Wrap;
    WrapIs(x, 0x1_0000);
    var q := x / 0x1_0000;
    assert U16(x) == x - 0x1_0000 * q;
    EvenPlus(8 * seg - 0x8000 * q, x);
  }

  lemma {:induction false} ElementsApart(s: State, n: nat, a: int, b: int)
    requires IsElement(s, true, n, a) && IsElement(s, true, n, b)
    ensures a != b + 1
  {
    hide ElementAt;
    var j: nat :| j < n && ElementAt(s, true, j) == a;
    var k: nat :| k < n && ElementAt(s, true, k) == b;
    ElementParity(s, j);
    ElementParity(s, k);
  }

  lemma {:induction false} FilledNext(s: State, t: State, wide: bool, n: nat, a: int)
    requires 0 <= a < MEM_SIZE && t.sregs == s.sregs && t.flags == s.flags && t.regs[AX] == s.regs[AX]
    requires t.regs[DI] == DiAfter(s, 1, wide)
    requires t.mem == Store(s.mem, ElementAt(s, wide, 0), s.regs[AX], wide)
    ensures Filled(t, wide, n, a) == Filled(s, wide, n + 1, a)
  {
    ElementSets(s, t, wide, n, a);
    ElementSets(s, t, wide, n, a - 1);
    var e := ElementAt(s, wide, 0);
    if wide && IsElement(s, wide, n + 1, a) && IsElement(s, wide, n + 1, a - 1) {
      ElementsApart(s, n + 1, a, a - 1);
    }
    hide Store, IsElement, Lo, Hi, ElementAt, Add16, Span;
  }

  /** REP STOSB and REP STOSW for every CX, DI, direction and offset wrap: each element's byte
      or word is the accumulator's, every other byte is as before, CX is 0, DI is behind the
      last element, and nothing else changes. */
  lemma {:induction false} RepStosFills(s: State, wide: bool)
    ensures var r := Rep(s, STOS, wide);
      && r == s.(mem := r.mem, regs := r.regs)
      && r.regs == s.regs[CX := 0][DI := DiAfter(s, s.regs[CX], wide)]
      && forall a :: 0 <= a < MEM_SIZE ==> r.mem[a] == Filled(s, wide, s.regs[CX], a)
    decreases s.regs[CX]
  {
    hide Pass, Rep, Store, Filled;
    RepUnfolds(s, STOS, wide);
    if s.regs[CX] == 0 {
      NothingFilled(s, wide);
    } else {
      var t := Pass(s, STOS, wide);
      PassStos(s, wide);
      RepStosFills(t, wide);
      forall a | 0 <= a < MEM_SIZE
        ensures Filled(t, wide, t.regs[CX], a) == Filled(s, wide, s.regs[CX], a)
      {
        FilledNext(s, t, wide, t.regs[CX], a);
      }
      var d := if s.flags.df then -Span(1, wide) else Span(1, wide);
      var e := if s.flags.df then -Span(t.regs[CX], wide) else Span(t.regs[CX], wide);
      SpanAdds(1, t.regs[CX], wide);
      Add16Twice(s.regs[DI], d, e);
    }
  }

  lemma NothingFilled(s: State, wide: bool)
    ensures s.regs[CX] == 0 ==> s.regs == s.regs[CX := 0][DI := Add16(s.regs[DI], 0)]
    ensures forall a :: 0 <= a < MEM_SIZE ==> Filled(s, wide, 0, a) == s.mem[a]
  {}

  // ----- the reference loop

  /** `extra` of the opcode. */
  function ExtraOf(op: StringOp): nat { match op case MOVS => 0 case STOS => 1 case _ => 2 }

  /** INDEX_INC */
  function IndexInc(s: State, r: nat, wide: bool): State
    requires r < 8
  {
    SetReg(s, r, U16(s.regs[r] as int - ((if s.flags.df then 2 else 0) - 1) * (if wide then 2 else 1)))
  }

  /** One pass of `for (scratch_uint = ...; scratch_uint; scratch_uint--)`. */
  function MoveRef(s: State, extra: nat, wide: bool): State {
    var v := if extra % 2 == 1 then Accumulator(s, wide) else Load(s.mem, SourceAddress(s), wide);
    var t := if extra < 2 then s.(mem := Store(s.mem, TargetAddress(s), v, wide)) else SetAccumulator(s, v, wide);
    var t1 := if extra % 2 == 1 then t else IndexInc(t, SI, wide);
    if extra / 2 % 2 == 1 then t1 else IndexInc(t1, DI, wide)
  }

  function MovesRef(s: State, extra: nat, wide: bool, n: nat): State
    decreases n
  {
    if n == 0 then s else MovesRef(MoveRef(s, extra, wide), extra, wide, n - 1)
  }

  /** Case 17. */
  function StringRef(s: State, extra: nat, wide: bool): State {
    if s.prefix.repEn > 0 then SetReg(MovesRef(s, extra, wide, s.regs[CX]), CX, 0)
    else MovesRef(s, extra, wide, 1)
  }

  lemma {:induction false} MoveAgrees(s: State, op: StringOp, wide: bool)
    requires !IsCompare(op)
    ensures MoveRef(s, ExtraOf(op), wide) == StringStep(s, op, wide)
  {
    hide Load, Linear, Lo, Hi, Word, Add16, U16, IndexInc, Advance;
    LowTwice(s.regs[AX]);
    forall t: State, r: nat | r < 8
      ensures IndexInc(t, r, wide) == Advance(t, r, wide)
    {
      IndexIncAdvances(t, r, wide);
    }
  }

  lemma IndexIncAdvances(s: State, r: nat, wide: bool)
    requires r < 8
    ensures IndexInc(s, r, wide) == Advance(s, r, wide)
  {
    hide U16;
  }

  lemma LowTwice(v: u16)
    ensures Lo(Lo(v)) == Lo(v)
  {}

  lemma {:induction false} MovesAgree(s: State, op: StringOp, wide: bool, n: u16)
    requires !IsCompare(op)
    ensures Rep(SetReg(s, CX, n), op, wide) == SetReg(MovesRef(s, ExtraOf(op), wide, n), CX, 0)
    decreases n
  {
    hide StringStep, Pass, Rep, MoveRef, ExtraOf;
    RepUnfolds(SetReg(s, CX, n), op, wide);
    if n > 0 {
      PassCounts(s, op, wide, n);
      MoveAgrees(s, op, wide);
      MovesAgree(StringStep(s, op, wide), op, wide, n - 1);
    }
  }

  /** MOVS, STOS and LODS, repeated or not, end in the reference's state, for every CX, index,
      direction and overlap, as long as no element lies where the reference keeps its registers
      or behind the end of its memory. */
  lemma {:induction false} StringAgrees(s: State, op: StringOp, wide: bool)
    requires !IsCompare(op)
    ensures ExecString(s, op, wide) == StringRef(s, ExtraOf(op), wide)
  {
    hide Rep, StringStep, MoveRef, ExtraOf;
    MovesAgree(s, op, wide, s.regs[CX]);
    assert SetReg(s, CX, s.regs[CX]) == s;
    MoveAgrees(s, op, wide);
    assert MovesRef(MoveRef(s, ExtraOf(op), wide), ExtraOf(op), wide, 0) == MoveRef(s, ExtraOf(op), wide);
  }
}

/**
 REP MOVS with offsets that may wrap around 16 bits: element by element it is still a copy of
 the source, as long as no source element meets a target element.
 */
module StringWraps {
  import opened Words
  import opened State
  import opened Strings
  import opened StringMoves
  import opened StringFills

  /** The address of the k-th element of a string operation's source. */
  function SourceElementAt(s: State, wide: bool, k: nat): nat {
    Linear(SourceSegment(s), Add16(s.regs[SI], if s.flags.df then -Span(k, wide) else Span(k, wide)))
  }

  /** None of the first n source elements shares a byte with one of the first n targets. */
  ghost predicate Apart(s: State, wide: bool, n: nat) {
    forall j: nat, k: nat :: j < n && k < n ==> ElementsMiss(SourceElementAt(s, wide, j), ElementAt(s, wide, k), wide)
  }

  predicate ElementsMiss(a: int, b: int, wide: bool) { a + Width(wide) <= b || b + Width(wide) <= a }

  /** The byte at a belongs to one of the first n target elements. */
  ghost predicate InTarget(s: State, wide: bool, n: nat, a: int) {
    IsElement(s, wide, n, a) || (wide && IsElement(s, wide, n, a - 1))
  }

  /** Element k of the target is element k of the old source, and the rest of memory stays. */
  ghost predicate Copied(s: State, r: Memory, wide: bool, n: nat) {
    && (forall k: nat :: k < n ==> ElementCopied(s, r, wide, k))
    && forall a :: 0 <= a < MEM_SIZE && !InTarget(s, wide, n, a) ==> r[a] == s.mem[a]
  }

  predicate ElementCopied(s: State, r: Memory, wide: bool, k: nat) {
    Load(r, ElementAt(s, wide, k), wide) == Load(s.mem, SourceElementAt(s, wide, k), wide)
  }

  // ----- one element

  lemma StoreLoads(m: Memory, src: nat, dst: nat, wide: bool)
    requires src + 1 < MEM_SIZE && dst + 1 < MEM_SIZE
    ensures Load(CopyOne(m, src, dst, wide), dst, wide) == Load(m, src, wide)
  {
    hide Wrap, Rem, Quot;
    OperatorsAre();
  }

  lemma StoreMisses(m: Memory, src: nat, dst: nat, a: nat, wide: bool)
    requires src + 1 < MEM_SIZE && dst + 1 < MEM_SIZE && a + 1 < MEM_SIZE && ElementsMiss(a, dst, wide)
    ensures Load(CopyOne(m, src, dst, wide), a, wide) == Load(m, a, wide)
  {
    hide CopyOne;
    CopyOneAt(m, src, dst, wide, a);
    CopyOneAt(m, src, dst, wide, a + 1);
  }

  /** An offset back at its start means that the other one is back, too. */
  lemma OffsetsReturn(x: u16, y: u16, d: int)
    requires Add16(x, d) == x
    ensures Add16(y, d) == y
  {
    hide Wrap;
    WrapIs(x as int + d, 0x1_0000);
    WrapIs(y as int + d, 0x1_0000);
  }

  lemma {:induction false} SourcesShift(s: State, t: State, wide: bool, k: nat)
    requires AfterOne(s, t, wide)
    ensures SourceElementAt(t, wide, k) == SourceElementAt(s, wide, k + 1)
    ensures ElementAt(t, wide, k) == ElementAt(s, wide, k + 1)
  {
    var d := if s.flags.df then -Span(1, wide) else Span(1, wide);
    var e := if s.flags.df then -Span(k, wide) else Span(k, wide);
    SpanAdds(1, k, wide);
    Add16Twice(s.regs[SI], d, e);
    ElementsShift(s, t, wide, k);
    hide Add16, Span, Linear;
  }

  /** A target element that returns to the first one has the first source element. */
  lemma {:induction false} TargetsReturn(s: State, wide: bool, k: nat)
    requires ElementAt(s, wide, k) == ElementAt(s, wide, 0)
    ensures SourceElementAt(s, wide, k) == SourceElementAt(s, wide, 0)
  {
    var e := if s.flags.df then -Span(k, wide) else Span(k, wide);
    assert Add16(s.regs[DI], 0) == s.regs[DI] && Add16(s.regs[SI], 0) == s.regs[SI];
    hide Add16, Span;
    OffsetsReturn(s.regs[DI], s.regs[SI], e);
  }

  // ----- the whole repeat

  lemma {:induction false} ApartNext(s: State, t: State, wide: bool, n: nat)
    requires AfterOne(s, t, wide) && Apart(s, wide, n + 1)
    ensures Apart(t, wide, n)
  {
    hide AfterOne, SourceElementAt, ElementAt, ElementsMiss;
    forall j: nat, k: nat | j < n && k < n
      ensures ElementsMiss(SourceElementAt(t, wide, j), ElementAt(t, wide, k), wide)
    {
      SourcesShift(s, t, wide, j);
      SourcesShift(s, t, wide, k);
    }
  }

  lemma FirstTarget(s: State, t: State, wide: bool)
    requires AfterOne(s, t, wide)
    ensures t.sregs == s.sregs && t.flags == s.flags && t.regs[DI] == DiAfter(s, 1, wide)
  {
    hide Add16, Span;
  }

  lemma {:induction false} InTargetNext(s: State, t: State, wide: bool, n: nat, a: int)
    requires AfterOne(s, t, wide)
    ensures InTarget(s, wide, n + 1, a) <==>
      (var e := ElementAt(s, wide, 0); e <= a < e + Width(wide)) || InTarget(t, wide, n, a)
  {
    hide IsElement, Linear, Add16, DiAfter;
    FirstTarget(s, t, wide);
    ElementSets(s, t, wide, n, a);
    ElementSets(s, t, wide, n, a - 1);
  }

  /** Nothing that follows touches part of the first target element without replacing it. */
  lemma {:induction false} FirstWhole(s: State, t: State, wide: bool, n: nat)
    requires AfterOne(s, t, wide) && !IsElement(t, wide, n, ElementAt(s, wide, 0))
    ensures var e := ElementAt(s, wide, 0); !InTarget(t, wide, n, e) && (wide ==> !InTarget(t, wide, n, e + 1))
  {
    hide IsElement, Linear, Add16, DiAfter;
    FirstTarget(s, t, wide);
    var e: int := ElementAt(s, wide, 0);
    if wide {
      ElementSets(s, t, true, n, e);
      ElementSets(s, t, true, n, e - 1);
      ElementSets(s, t, true, n, e + 1);
      if IsElement(s, true, n + 1, e - 1) { ElementsApart(s, n + 1, e, e - 1); }
      if IsElement(s, true, n + 1, e + 1) { ElementsApart(s, n + 1, e + 1, e); }
    }
  }

  lemma {:induction false} LaterCopied(s: State, t: State, r: Memory, wide: bool, n: nat, k: nat)
    requires AfterOne(s, t, wide) && Apart(s, wide, n + 1) && Copied(t, r, wide, n) && k < n
    requires t.mem == CopyOne(s.mem, SourceElementAt(s, wide, 0), ElementAt(s, wide, 0), wide)
    ensures ElementCopied(s, r, wide, k + 1)
  {
    hide AfterOne, Linear, DiAfter, SourceSegment, Add16, ElementsMiss, CopyOne, InTarget, Load;
    assert ElementCopied(t, r, wide, k);
    SourcesShift(s, t, wide, k);
    StoreMisses(s.mem, SourceElementAt(s, wide, 0), ElementAt(s, wide, 0), SourceElementAt(s, wide, k + 1), wide);
  }

  lemma {:induction false} FirstCopied(s: State, t: State, r: Memory, wide: bool, n: nat)
    requires AfterOne(s, t, wide) && Apart(s, wide, n + 1) && Copied(t, r, wide, n)
    requires t.mem == CopyOne(s.mem, SourceElementAt(s, wide, 0), ElementAt(s, wide, 0), wide)
    ensures ElementCopied(s, r, wide, 0)
  {
    hide AfterOne, Linear, DiAfter, SourceSegment, Add16, ElementsMiss, CopyOne, InTarget;
    var e := ElementAt(s, wide, 0);
    if IsElement(t, wide, n, e) {
      var k: nat :| k < n && ElementAt(t, wide, k) == e;
      SourcesShift(s, t, wide, k);
      TargetsReturn(s, wide, k + 1);
      LaterCopied(s, t, r, wide, n, k);
    } else {
      FirstWhole(s, t, wide, n);
      StoreLoads(s.mem, SourceElementAt(s, wide, 0), e, wide);
    }
  }

  lemma {:induction false} CopiedNext(s: State, t: State, r: Memory, wide: bool, n: nat)
    requires AfterOne(s, t, wide) && Apart(s, wide, n + 1) && Copied(t, r, wide, n)
    requires t.mem == CopyOne(s.mem, SourceElementAt(s, wide, 0), ElementAt(s, wide, 0), wide)
    ensures Copied(s, r, wide, n + 1)
  {
    hide AfterOne, Linear, DiAfter, SourceSegment, Add16, ElementsMiss, CopyOne, InTarget, ElementCopied;
    forall k: nat | k < n + 1
      ensures ElementCopied(s, r, wide, k)
    {
      if k > 0 { LaterCopied(s, t, r, wide, n, k - 1); } else { FirstCopied(s, t, r, wide, n); }
    }
    forall a | 0 <= a < MEM_SIZE && !InTarget(s, wide, n + 1, a)
      ensures r[a] == s.mem[a]
    {
      InTargetNext(s, t, wide, n, a);
      CopyOneAt(s.mem, SourceElementAt(s, wide, 0), ElementAt(s, wide, 0), wide, a);
    }
  }

  lemma NothingCopied(s: State, wide: bool)
    ensures Copied(s, s.mem, wide, 0)
  {
    hide ElementCopied, InTarget;
  }

  /** REP MOVSB and REP MOVSW for every CX, index, direction and offset wrap. */
  lemma {:induction false} RepMovsCopies(s: State, wide: bool)
    ensures Apart(s, wide, s.regs[CX]) ==> Copied(s, Rep(s, MOVS, wide).mem, wide, s.regs[CX])
    decreases s.regs[CX]
  {
    hide Pass, Rep, CopyOne, Apart, Copied;
    RepUnfolds(s, MOVS, wide);
    if s.regs[CX] == 0 {
      NothingCopied(s, wide);
    } else if Apart(s, wide, s.regs[CX]) {
      var t := Pass(s, MOVS, wide);
      PassMovs(s, wide);
      ApartNext(s, t, wide, t.regs[CX]);
      RepMovsCopies(t, wide);
      CopiedNext(s, t, Rep(t, MOVS, wide).mem, wide, t.regs[CX]);
    }
  }
}

/**
 REP CMPS and REP SCAS: where the repeat stops, and agreement with the reference
 loop, which sets the flags only once, after the last element. The reference's
 registers are kept apart from memory here, where it has them at 0xF0000.
 */
module StringCompares {
  import opened Words
  import opened Flags
  import opened State
  import opened Alu
  import opened Strings
  import opened StringMoves
  import opened AluReference
  import AluMeaning

  /** s with SI and DI moved past i elements. */
  function Nth(s: State, op: StringOp, wide: bool, i: nat): State {
    var d := if s.flags.df then -Span(i, wide) else Span(i, wide);
    var t := if op == CMPS then SetReg(s, SI, Add16(s.regs[SI], d)) else s;
    SetReg(t, DI, Add16(s.regs[DI], d))
  }

  predicate Equal(s: State, op: StringOp, wide: bool) {
    LeftOperand(s, op, wide) == RightOperand(s, wide)
  }

  /** Whether the i-th pair of elements is equal. */
  predicate EqualAt(s: State, op: StringOp, wide: bool, i: nat) { Equal(Nth(s, op, wide, i), op, wide) }

  /** REPZ goes on while elements are equal, REPNZ while they differ; a rep_mode other than 0
      and 1, which only a restored snapshot can hold (see RunRepMode), never stops. */
  predicate GoesOn(s: State, equal: bool) { s.prefix.repMode > 1 || equal == (s.prefix.repMode == 1) }

  lemma OperandsFit(s: State, op: StringOp, wide: bool)
    ensures LeftOperand(s, op, wide) <= Mask(wide) && RightOperand(s, wide) <= Mask(wide)
  {}

  /** A comparison overwrites the six flags and keeps the others. */
  lemma {:induction false} CompareOverwrites(f: Flags, g: Flags, a: u16, b: u16, wide: bool)
    requires SameRest(f, g)
    ensures Compute(CMP, f, a, b, wide).flags == Compute(CMP, g, a, b, wide).flags
    ensures SameRest(Compute(CMP, f, a, b, wide).flags, f)
  {
    hide Xor, Bit, SignOf, Parity8, Low, U32;
  }

  /** ZF of a comparison tells whether the elements are equal. */
  lemma {:induction false} CompareFlagsTell(s: State, op: StringOp, wide: bool)
    ensures CompareFlags(s, op, wide).zf == Equal(s, op, wide)
    ensures SameRest(CompareFlags(s, op, wide), s.flags)
  {
    var a, b := LeftOperand(s, op, wide), RightOperand(s, wide);
    OperandsFit(s, op, wide);
    hide LeftOperand, RightOperand;
    AluMeaning.CompareFlags(s.flags, a, b, wide);
    CompareOverwrites(s.flags, s.flags, a, b, wide);
    hide Compute;
  }

  /** One pass of a compare: indices, CX and flags. */
  lemma {:induction false} PassCompares(s: State, op: StringOp, wide: bool)
    requires IsCompare(op) && s.regs[CX] > 0
    ensures Pass(s, op, wide) ==
      SetReg(Nth(s, op, wide, 1), CX, s.regs[CX] - 1).(flags := CompareFlags(s, op, wide))
  {
    CompareFlagsTell(s, op, wide);
  }

  lemma RegsUpdated(r: Regs, x: u16, y: u16, c: u16, x': u16, y': u16)
    ensures r[SI := x][DI := y][CX := c][SI := x'][DI := y'] == r[SI := x'][DI := y'][CX := c]
    ensures r[DI := y][CX := c][DI := y'] == r[DI := y'][CX := c]
  {}

  /** Moving on by one and then by i is moving on by i + 1; flags and CX do not matter. */
  lemma {:induction false} NthAfterPass(s: State, op: StringOp, wide: bool, c: u16, f: Flags, i: nat)
    requires f.df == s.flags.df
    ensures Nth(SetReg(Nth(s, op, wide, 1), CX, c).(flags := f), op, wide, i)
         == SetReg(Nth(s, op, wide, i + 1), CX, c).(flags := f)
  {
    var d := if s.flags.df then -Span(1, wide) else Span(1, wide);
    var e := if s.flags.df then -Span(i, wide) else Span(i, wide);
    assert d + e == (if s.flags.df then -Span(i + 1, wide) else Span(i + 1, wide)) by { SpanAdds(1, i, wide); }
    hide Span, Add16;
    Add16Twice(s.regs[SI], d, e);
    Add16Twice(s.regs[DI], d, e);
    RegsUpdated(s.regs, Add16(s.regs[SI], d), Add16(s.regs[DI], d), c, Add16(s.regs[SI], d + e),
      Add16(s.regs[DI], d + e));
  }

  lemma {:induction false} EqualIgnores(s: State, op: StringOp, wide: bool, c: u16, f: Flags)
    ensures Equal(SetReg(s, CX, c).(flags := f), op, wide) == Equal(s, op, wide)
    ensures LeftOperand(SetReg(s, CX, c).(flags := f), op, wide) == LeftOperand(s, op, wide)
    ensures RightOperand(SetReg(s, CX, c).(flags := f), wide) == RightOperand(s, wide)
  {
    hide Load, Linear;
  }

  /** The k-th element is where a repeated compare of s stops. */
  predicate StopsAt(s: State, op: StringOp, wide: bool, k: nat) {
    && 1 <= k <= s.regs[CX]
    && (forall i: nat :: i < k - 1 ==> GoesOn(s, EqualAt(s, op, wide, i)))
    && (k == s.regs[CX] || !GoesOn(s, EqualAt(s, op, wide, k - 1)))
  }

  /** What the machine looks like when a repeated compare of s stopped after k elements. */
  function Stopped(s: State, op: StringOp, wide: bool, k: nat): State
    requires 1 <= k <= s.regs[CX]
  {
    SetReg(Nth(s, op, wide, k), CX, s.regs[CX] - k).(flags := CompareFlags(Nth(s, op, wide, k - 1), op, wide))
  }

  /** A repeated compare stops after the first element that breaks the condition, or when
      CX runs out: every earlier element satisfies it, CX counts the elements left over,
      SI and DI are behind the last element, the flags are those of its comparison, and
      memory is untouched. */
  lemma {:induction false} RepCompareStops(s: State, op: StringOp, wide: bool) returns (k: nat)
    requires IsCompare(op) && s.regs[CX] > 0
    ensures StopsAt(s, op, wide, k) && Rep(s, op, wide) == Stopped(s, op, wide, k)
    decreases s.regs[CX]
  {
    hide Pass, Nth, CompareFlags, Equal, EqualAt;
    PassCompares(s, op, wide);
    CompareFlagsTell(s, op, wide);
    RepComparesUnfolds(s, op, wide);
    EqualAtZero(s, op, wide);
    NthKeepsPrefix(s, op, wide, 1);
    if s.regs[CX] == 1 || !GoesOn(s, Equal(s, op, wide)) {
      k := 1;
      NthZero(s, op, wide);
    } else {
      var j := RepCompareStops(Pass(s, op, wide), op, wide);
      k := j + 1;
      StoppedLater(s, op, wide, CompareFlags(s, op, wide), j);
      StopsLater(s, op, wide, CompareFlags(s, op, wide), j);
    }
  }

  lemma {:induction false} EqualAtZero(s: State, op: StringOp, wide: bool)
    ensures EqualAt(s, op, wide, 0) == Equal(s, op, wide)
  {}

  /** Where the rest of the string stops, seen from its beginning. */
  lemma {:induction false} StopsLater(s: State, op: StringOp, wide: bool, f: Flags, j: nat)
    requires s.regs[CX] > 0 && f.df == s.flags.df && GoesOn(s, EqualAt(s, op, wide, 0))
    requires StopsAt(SetReg(Nth(s, op, wide, 1), CX, s.regs[CX] - 1).(flags := f), op, wide, j)
    ensures StopsAt(s, op, wide, j + 1)
  {
    hide Nth, Equal;
    var c := s.regs[CX] - 1;
    var t := SetReg(Nth(s, op, wide, 1), CX, c).(flags := f);
    assert t.prefix == s.prefix by { NthKeepsPrefix(s, op, wide, 1); }
    forall i: nat
      ensures EqualAt(t, op, wide, i) == EqualAt(s, op, wide, i + 1)
    {
      NthAfterPass(s, op, wide, c, f, i);
      EqualIgnores(Nth(s, op, wide, i + 1), op, wide, c, f);
    }
    hide EqualAt;
    forall i: nat | i < j
      ensures GoesOn(s, EqualAt(s, op, wide, i))
    {
      if i > 0 { assert GoesOn(t, EqualAt(t, op, wide, i - 1)); }
    }
    assert EqualAt(t, op, wide, j - 1) == EqualAt(s, op, wide, j);
  }

  lemma NthKeepsPrefix(s: State, op: StringOp, wide: bool, i: nat)
    ensures Nth(s, op, wide, i).prefix == s.prefix
  {}

  lemma {:induction false} StoppedLater(s: State, op: StringOp, wide: bool, f: Flags, j: nat)
    requires IsCompare(op) && f == CompareFlags(s, op, wide) && f.df == s.flags.df
    requires 1 <= j < s.regs[CX]
    ensures var t := SetReg(Nth(s, op, wide, 1), CX, s.regs[CX] - 1).(flags := f);
      t.regs[CX] == s.regs[CX] - 1 && Stopped(t, op, wide, j) == Stopped(s, op, wide, j + 1)
  {
    hide Nth, CompareFlags;
    var c := s.regs[CX] - 1;
    FlagsOfLater(s, op, wide, c, f, j);
    NthAfterPass(s, op, wide, c, f, j);
    var u := Nth(s, op, wide, j + 1);
  }

  lemma {:induction false} NthZero(s: State, op: StringOp, wide: bool)
    ensures Nth(s, op, wide, 0) == s
  {}

  /** The loop goes on after a pass exactly when CX is not zero and the condition holds. */
  lemma {:induction false} RepComparesUnfolds(s: State, op: StringOp, wide: bool)
    requires IsCompare(op) && s.regs[CX] > 0
    ensures Rep(s, op, wide) ==
      if s.regs[CX] > 1 && GoesOn(s, Equal(s, op, wide)) then Rep(Pass(s, op, wide), op, wide) else Pass(s, op, wide)
  {
    hide Pass, CompareFlags, Equal, Nth;
    PassCompares(s, op, wide);
    CompareFlagsTell(s, op, wide);
    NthKeepsPrefix(s, op, wide, 1);
    if s.regs[CX] == 1 { assert Pass(s, op, wide).regs[CX] == 0; }
  }

  lemma {:induction false} FlagsOfLater(s: State, op: StringOp, wide: bool, c: u16, f: Flags, j: nat)
    requires f == CompareFlags(s, op, wide) && j > 0
    requires IsCompare(op)
    ensures var t := SetReg(Nth(s, op, wide, 1), CX, c).(flags := f);
      CompareFlags(Nth(t, op, wide, j - 1), op, wide) == CompareFlags(Nth(s, op, wide, j), op, wide)
  {
    hide Nth, LeftOperand, RightOperand, Compute, Equal;
    CompareFlagsTell(s, op, wide);
    NthAfterPass(s, op, wide, c, f, j - 1);
    var u := Nth(s, op, wide, j);
    NthKeepsFlags(s, op, wide, j);
    EqualIgnores(u, op, wide, c, f);
    CompareOverwrites(f, s.flags, LeftOperand(u, op, wide), RightOperand(u, wide), wide);
  }

  lemma NthKeepsFlags(s: State, op: StringOp, wide: bool, i: nat)
    ensures Nth(s, op, wide, i).flags == s.flags
  {}

  // ----- the reference loop (8086tiny.c, case 18)

  /** `for (; scratch_uint; ...)` with REP: indices and CX move on for each element, and the
      flags are set after the last one. */
  function RepRef(s: State, op: StringOp, wide: bool): State
    decreases s.regs[CX]
  {
    if s.regs[CX] == 0 then s
    else
      var t := SetReg(Nth(s, op, wide, 1), CX, s.regs[CX] - 1);
      if t.regs[CX] != 0 && (if Equal(s, op, wide) then 1 else 0) == s.prefix.repMode then RepRef(t, op, wide)
      else t.(flags := CmpRef(s.flags, LeftOperand(s, op, wide), RightOperand(s, wide), wide).flags)
  }

  /** The same registers, memory and flags. */
  predicate Alike(r: State, q: State) {
    r.(flags := q.flags) == q && SameSix(r.flags, q.flags) && SameRest(r.flags, q.flags)
  }

  /** Both loops end alike exactly if rep_mode is 0 or 1 or there is at most one element. */
  lemma {:induction false} RepAgreesIff(s: State, op: StringOp, wide: bool)
    requires IsCompare(op)
    ensures Alike(Rep(s, op, wide), RepRef(s, op, wide)) <==> s.prefix.repMode <= 1 || s.regs[CX] <= 1
  {
    hide Rep, RepRef, SameRest, SameSix;
    SameAsItself(s.flags);
    assert s.(flags := s.flags) == s;
    if s.prefix.repMode <= 1 || s.regs[CX] <= 1 {
      RepAgrees(s, s.flags, op, wide);
    } else {
      RunsOut(s, op, wide);
      RefStopsAtOnce(s, op, wide);
    }
  }

  lemma {:induction false} RunsOut(s: State, op: StringOp, wide: bool)
    requires IsCompare(op) && s.prefix.repMode > 1
    ensures Rep(s, op, wide).regs[CX] == 0
    decreases s.regs[CX]
  {
    hide StringStep;
    if s.regs[CX] > 0 {
      PassCountsDown(s, op, wide);
      assert Pass(s, op, wide).prefix == s.prefix by { PassCompares(s, op, wide); NthKeepsPrefix(s, op, wide, 1); }
      RunsOut(Pass(s, op, wide), op, wide);
    }
  }

  lemma RefStopsAtOnce(s: State, op: StringOp, wide: bool)
    requires s.prefix.repMode > 1 && s.regs[CX] > 1
    ensures RepRef(s, op, wide).regs[CX] == s.regs[CX] - 1
  {
    hide Equal, CmpRef, LeftOperand, RightOperand;
    NthKeepsPrefix(s, op, wide, 1);
  }

  /** The loops from states that differ in the six flags only. */
  lemma {:induction false} RepAgrees(s: State, f: Flags, op: StringOp, wide: bool)
    requires IsCompare(op) && (s.prefix.repMode <= 1 || s.regs[CX] <= 1) && SameRest(f, s.flags)
    requires s.regs[CX] == 0 ==> f == s.flags
    ensures Alike(Rep(s.(flags := f), op, wide), RepRef(s, op, wide))
    decreases s.regs[CX]
  {
    hide Rep, Pass, Nth, CompareFlags, Equal, CmpRef, LeftOperand, RightOperand, SameRest, SameSix;
    if s.regs[CX] == 0 {
      SameAsItself(s.flags);
      RepOfZero(s, op, wide);
      assert s.(flags := f) == s;
    } else {
      var s' := s.(flags := f);
      var g := CompareFlags(s', op, wide);
      assert f.df == s.flags.df by { RestHasDf(f, s.flags); }
      PassCompares(s', op, wide);
      RepComparesUnfolds(s', op, wide);
      LoopStates(s, f, op, wide);
      RefPassFlags(s, f, op, wide);
      NthKeepsFlags(s, op, wide, 1);
      NthKeepsPrefix(s, op, wide, 1);
      if s.regs[CX] > 1 && GoesOn(s, Equal(s, op, wide)) {
        RepAgrees(SetReg(Nth(s, op, wide, 1), CX, s.regs[CX] - 1), g, op, wide);
      }
    }
  }

  lemma SameAsItself(f: Flags)
    ensures SameSix(f, f) && SameRest(f, f)
  {}

  lemma RestHasDf(f: Flags, g: Flags)
    requires SameRest(f, g)
    ensures f.df == g.df
  {}

  lemma {:induction false} RepOfZero(s: State, op: StringOp, wide: bool)
    requires s.regs[CX] == 0
    ensures Rep(s, op, wide) == s
  {}

  lemma {:induction false} LoopStates(s: State, f: Flags, op: StringOp, wide: bool)
    requires f.df == s.flags.df
    ensures Nth(s.(flags := f), op, wide, 1) == Nth(s, op, wide, 1).(flags := f)
    ensures Equal(s.(flags := f), op, wide) == Equal(s, op, wide)
  {
    hide Load, Linear, Add16;
  }

  lemma {:induction false} RefPassFlags(s: State, f: Flags, op: StringOp, wide: bool)
    requires IsCompare(op) && SameRest(f, s.flags)
    ensures var (g, h) := (CompareFlags(s.(flags := f), op, wide),
                           CmpRef(s.flags, LeftOperand(s, op, wide), RightOperand(s, wide), wide).flags);
      SameSix(g, h) && SameRest(g, h) && SameRest(g, s.flags)
  {
    var a, b := LeftOperand(s, op, wide), RightOperand(s, wide);
    OperandsFit(s, op, wide);
    EqualIgnores(s, op, wide, s.regs[CX], f);
    assert s.regs[CX := s.regs[CX]] == s.regs;
    hide LeftOperand, RightOperand;
    CompareOverwrites(f, s.flags, a, b, wide);
    CompareOverwrites(s.flags, s.flags, a, b, wide);
    CmpAgrees(s.flags, a, b, wide);
    hide SubWith, CmpRef;
  }

}

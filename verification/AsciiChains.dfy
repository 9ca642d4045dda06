/**
 AAA and AAS (arithmetic.h): behind ADC and SBB they add and subtract unpacked decimals, one
 digit a byte, of any length.
 */
module AsciiChains {
  import opened Words
  import opened Flags
  import opened State
  import opened Alu
  import opened Execute
  import opened AluChains
  import opened InstructionAgreement

  /** ADC AL, y; AAA with x in AL, or SBB AL, y; AAS. AH is kept by the first of the two. */
  function DigitStep(sub: bool, s: State, x: u8, y: u8): State {
    var r := Compute(if sub then SBB else ADC, s.flags, x, y, false);
    AdjustAscii(SetReg(s, AX, Word(Lo(r.value), Hi(s.regs[AX]))).(flags := r.flags), sub)
  }

  /** How far AH moves: up for AAA and down for AAS, if they adjust. */
  function Move(adjust: bool, sub: bool): int { if !adjust then 0 else if sub then -1 else 1 }

  /** The bytes of AX after the adjustment. */
  function NewLow(l: u8, move: int): u8 { (l as int + 6 * move) % 0x10 }
  function NewHigh(h: u8, move: int): u8 { (h as int + move) % 0x100 }

  /** 6 is added to or taken from AL without a carry into AH. */
  predicate NoCarry(l: u8, adjust: bool, sub: bool) { adjust ==> if sub then l >= 6 else l < 250 }

  lemma {:induction false} AdjustedWord(l: u8, h: u8, adjust: bool, sub: bool)
    requires NoCarry(l, adjust, sub)
    ensures var w := if adjust then Add16(Word(l, h), if sub then -0x106 else 0x106) else Word(l, h);
      Word(Rem(Lo(w), 0x10), Hi(w)) == Word(NewLow(l, Move(adjust, sub)), NewHigh(h, Move(adjust, sub)))
  {
    hide Wrap, Rem, Quot;
    OperatorsAre();
    var move := Move(adjust, sub);
    var (m, g) := (l as int + 6 * move, NewHigh(h, move));
    var w := if adjust then Add16(Word(l, h), if sub then -0x106 else 0x106) else Word(l, h);
    assert w as int == (0x100 * (h as int + move) + m) % 0x1_0000;
    assert w as int == 0x100 * g + m;
    DivUnique(w, 0x100, g, m);
  }

  lemma {:induction false} AsciiOf(s: State, sub: bool, l: u8, h: u8, adjust: bool)
    requires s.regs[AX] == Word(l, h) && adjust == (l % 0x10 > 9 || s.flags.af) && NoCarry(l, adjust, sub)
    ensures var (t, move) := (AdjustAscii(s, sub), Move(adjust, sub));
      && t.regs[AX] == Word(NewLow(l, move), NewHigh(h, move))
      && t == SetReg(s, AX, t.regs[AX]).(flags := s.flags.(af := adjust, cf := adjust))
  {
    hide Word, Lo, Hi, Rem, Add16, Move, NewLow, NewHigh;
    HalvesOfWord(l, h);
    QuotRemIs(l, 0x10);
    AdjustedWord(l, h, adjust, sub);
  }

  /** The step in terms of what ADC or SBB leaves. */
  lemma {:induction false} StepIs(sub: bool, s: State, x: u8, y: u8, r: AluResult, l: u8, adjust: bool)
    requires r == Compute(if sub then SBB else ADC, s.flags, x, y, false) && l == Lo(r.value)
    requires adjust == (l % 0x10 > 9 || r.flags.af) && NoCarry(l, adjust, sub)
    ensures var (t, move) := (DigitStep(sub, s, x, y), Move(adjust, sub));
      && t.regs[AX] == Word(NewLow(l, move), NewHigh(Hi(s.regs[AX]), move))
      && t == s.(regs := s.regs[AX := t.regs[AX]], flags := t.flags) && t.flags.cf == adjust
  {
    hide Compute, Word, Lo, Hi, AdjustAscii, Move, NewLow, NewHigh, NoCarry;
    AsciiOf(SetReg(s, AX, Word(l, Hi(s.regs[AX]))).(flags := r.flags), sub, l, Hi(s.regs[AX]), adjust);
  }

  /** x + y + c, or x - y - c. */
  function Total(sub: bool, x: u8, y: u8, c: nat): int { if sub then x - y - c else x as int + y as int + c }

  /** A word of AX and CF read as the digit of a total: 10 is carried to, or borrowed from AH. */
  predicate ReadsAs(sub: bool, w: u16, cf: bool, total: int, h: u8) {
    var move := Move(cf, sub);
    w % 0x100 <= 9 && (w % 0x100) as int + 10 * move == total && (w / 0x100) as int == (h as int + move) % 0x100
  }

  lemma WordReads(sub: bool, l: u8, h: u8, adjust: bool, total: int)
    requires var m := NewLow(l, Move(adjust, sub)); m <= 9 && m as int == total - 10 * Move(adjust, sub)
    ensures ReadsAs(sub, Word(NewLow(l, Move(adjust, sub)), NewHigh(h, Move(adjust, sub))), adjust, total, h)
  {
    hide NewLow, Move;
    var (m, g) := (NewLow(l, Move(adjust, sub)), NewHigh(h, Move(adjust, sub)));
    WordHalves(m, g);
    hide Word;
  }

  lemma WordHalves(l: u8, h: u8)
    ensures Word(l, h) % 0x100 == l && Word(l, h) / 0x100 == h
  {}

  /** Two digits and a carry behind an adjustment: AL is the digit of x + y + c or x - y - c, CF the
      carry or borrow, which AH takes too, and nothing else but the flags changes. */
  lemma {:induction false} DigitExact(sub: bool, s: State, x: u8, y: u8)
    requires x <= 9 && y <= 9
    ensures var t := DigitStep(sub, s, x, y);
      && ReadsAs(sub, t.regs[AX], t.flags.cf, Total(sub, x, y, Carry(s.flags)), Hi(s.regs[AX]))
      && t == s.(regs := s.regs[AX := t.regs[AX]], flags := t.flags)
  {
    hide Compute, Word, Lo, Hi, DigitStep, NewLow, NewHigh, Move, NoCarry, ReadsAs;
    var r := Compute(if sub then SBB else ADC, s.flags, x, y, false);
    if sub { SbbMeaning(s.flags, x, y, false); } else { AdcMeaning(s.flags, x, y, false); }
    DigitSplits(sub, x, y, Carry(s.flags), r.flags, r.value);
    var adjust := Lo(r.value) % 0x10 > 9 || r.flags.af;
    StepIs(sub, s, x, y, r, Lo(r.value), adjust);
    WordReads(sub, Lo(r.value), Hi(s.regs[AX]), adjust, Total(sub, x, y, Carry(s.flags)));
  }

  /** The byte that ADC or SBB leaves of two digits, and its adjustment. */
  lemma {:induction false} DigitSplits(sub: bool, x: u8, y: u8, c: nat, f: Flags, v: u16)
    requires x <= 9 && y <= 9 && c <= 1 && v < 0x100
    requires !sub ==> v as int + 0x100 * Carry(f) == x as int + y as int + c && f.af == (x as int + y as int + c >= 16)
    requires sub ==> v as int - 0x100 * Carry(f) == x as int - y as int - c && f.af == (x as int < y as int + c)
    ensures Lo(v) == v
    ensures var adjust := v % 0x10 > 9 || f.af;
      var m := NewLow(v, Move(adjust, sub));
      NoCarry(v, adjust, sub) && m <= 9 && m as int == Total(sub, x, y, c) - 10 * Move(adjust, sub)
  {
    LowOfSmall(v);
    hide Lo;
  }

  lemma LowOfSmall(v: u16)
    requires v < 0x100
    ensures Lo(v) == v
  {
    hide Wrap;
    WrapNear(v, 0x100);
  }

  // ----- numbers of any length

  predicate Digits(a: seq<u8>) { forall i :: 0 <= i < |a| ==> a[i] <= 9 }

  function DigitsValue(a: seq<u8>): int { if a == [] then 0 else a[0] as int + 10 * DigitsValue(a[1..]) }

  /** The digits that such steps leave in AL, lowest first. */
  function AsciiChain(sub: bool, s: State, a: seq<u8>, b: seq<u8>): (State, seq<u8>)
    requires |a| == |b|
    decreases |a|
  {
    if a == [] then (s, [])
    else
      var t := DigitStep(sub, s, a[0], b[0]);
      var (u, rest) := AsciiChain(sub, t, a[1..], b[1..]);
      (u, [Lo(t.regs[AX])] + rest)
  }

  /** n digits are added or subtracted exactly, with CF as the carry or borrow out. */
  lemma {:induction false} AsciiChainExact(sub: bool, s: State, a: seq<u8>, b: seq<u8>)
    requires |a| == |b| && Digits(a) && Digits(b)
    ensures var (t, r) := AsciiChain(sub, s, a, b);
      && |r| == |a| && Digits(r)
      && (!sub ==> DigitsValue(r) + CarryOut(t.flags.cf, 10, |a|) == DigitsValue(a) + DigitsValue(b) + Carry(s.flags))
      && (sub ==> DigitsValue(r) - CarryOut(t.flags.cf, 10, |a|) == DigitsValue(a) - DigitsValue(b) - Carry(s.flags))
    decreases |a|
  {
    hide DigitStep, Lo;
    if a != [] {
      var t := DigitStep(sub, s, a[0], b[0]);
      DigitExact(sub, s, a[0], b[0]);
      LowIs(t.regs[AX]);
      AsciiChainExact(sub, t, a[1..], b[1..]);
      var (_, rest) := AsciiChain(sub, t, a[1..], b[1..]);
      var r := AsciiChain(sub, s, a, b).1;
      assert r[0] == Lo(t.regs[AX]) && r[1..] == rest;
    }
  }

  lemma LowIs(w: u16)
    ensures Lo(w) == w % 0x100
  {
    hide Wrap, Rem, Quot;
    OperatorsAre();
  }
}

/**
 The FLAGS word, the stack and interrupts of the reference (make_flags, set_flags, R_M_PUSH,
 R_M_POP and pc_interrupt in reference/8086tiny.c) against those of transfer.h and control.h.
 */
module StackAgreement {
  import opened Words
  import opened Flags
  import opened State
  import opened Strings
  import opened Decode
  import opened InstructionReference
  import Interrupts

  // ----- the FLAGS word

  /** The reserved bits that the reference cannot hold are clear. Every run keeps it so
      (RunPlain in module PlainFlags). */
  predicate Plain(f: Flags) { !f.r3 && !f.r5 && !f.r12 && !f.r13 && !f.r14 && !f.r15 }

  function Weight(b: bool, w: nat): nat { if b then w else 0 }

  lemma SumStep(t: Tables, f: Flags, n: nat, w: nat)
    requires ShippedTables(t) && n < 9 && Pow2(FlagBit(n)) == w
    ensures FlagSum(t, f, n + 1) == FlagSum(t, f, n) + Weight(FlagByte(f, n), w)
  {
    hide ShippedEntry, ShippedSizes, ShippedGroup, JumpFlag, At, Pow2, FlagByte;
    WrapNear(n, 0x100);
    assert At(t, FLAGS_BITFIELDS, n) == FlagBit(n);
  }

  lemma BitWeights()
    ensures Pow2(0) == 1 && Pow2(2) == 4 && Pow2(4) == 0x10 && Pow2(6) == 0x40 && Pow2(7) == 0x80
    ensures Pow2(8) == 0x100 && Pow2(9) == 0x200 && Pow2(10) == 0x400 && Pow2(11) == 0x800
  {
    Pow2Values();
    assert Pow2(9) == 2 * Pow2(8) && Pow2(10) == 2 * Pow2(9) && Pow2(11) == 2 * Pow2(10);
  }

  lemma FlagBitsAre()
    ensures FlagBit(0) == 0 && FlagBit(1) == 2 && FlagBit(2) == 4 && FlagBit(3) == 6 && FlagBit(4) == 7
    ensures FlagBit(5) == 8 && FlagBit(6) == 9 && FlagBit(7) == 10 && FlagBit(8) == 11
  {}

  lemma {:induction false} FlagSumIs(t: Tables, f: Flags)
    requires ShippedTables(t)
    ensures FlagSum(t, f, 9)
         == 0xF002 + Weight(f.cf, 1) + Weight(f.pf, 4) + Weight(f.af, 0x10) + Weight(f.zf, 0x40) + Weight(f.sf, 0x80)
            + Weight(f.tf, 0x100) + Weight(f.intf, 0x200) + Weight(f.df, 0x400) + Weight(f.of, 0x800)
  {
    hide ShippedTables, Pow2, Weight, FlagBit;
    BitWeights();
    FlagBitsAre();
    SumStep(t, f, 0, 1);
    SumStep(t, f, 1, 4);
    SumStep(t, f, 2, 0x10);
    SumStep(t, f, 3, 0x40);
    SumStep(t, f, 4, 0x80);
    FlagSumAbove(t, f);
  }

  lemma {:induction false} FlagSumAbove(t: Tables, f: Flags)
    requires ShippedTables(t)
    ensures FlagSum(t, f, 9) == FlagSum(t, f, 5) + Weight(f.tf, 0x100) + Weight(f.intf, 0x200) + Weight(f.df, 0x400)
                                + Weight(f.of, 0x800)
  {
    hide ShippedTables, Pow2, Weight, FlagBit;
    BitWeights();
    FlagBitsAre();
    SumStep(t, f, 5, 0x100);
    SumStep(t, f, 6, 0x200);
    SumStep(t, f, 7, 0x400);
    SumStep(t, f, 8, 0x800);
  }

  lemma PackedSum(f: Flags)
    requires !f.r3 && !f.r5
    ensures Pack(f) as int
         == 0xF002 + Weight(f.cf, 1) + Weight(f.pf, 4) + Weight(f.af, 0x10) + Weight(f.zf, 0x40) + Weight(f.sf, 0x80)
            + Weight(f.tf, 0x100) + Weight(f.intf, 0x200) + Weight(f.df, 0x400) + Weight(f.of, 0x800)
  {}

  /** make_flags builds the word that flags_pack does. */
  lemma {:induction false} MakesPacked(t: Tables, f: Flags)
    requires ShippedTables(t) && !f.r3 && !f.r5
    ensures MakeFlags(t, f) == Pack(f)
  {
    hide ShippedTables, Pack, Weight, FlagSum, Wrap;
    FlagSumIs(t, f);
    PackedSum(f);
    WrapNear(Pack(f), 0x1_0000);
  }

  /** The number whose bits, lowest first, are bs. */
  function Value(bs: seq<bool>): nat {
    if bs == [] then 0 else Weight(bs[0], 1) + 2 * Value(bs[1..])
  }

  lemma {:induction false} BitOfValue(bs: seq<bool>, k: nat)
    requires k < |bs|
    ensures Bit(Value(bs), k) == bs[k]
    decreases k
  {
    var (x, r) := (Value(bs), Value(bs[1..]));
    assert x / 2 == r && x % 2 == Weight(bs[0], 1);
    if k > 0 { BitOfValue(bs[1..], k - 1); }
  }

  lemma ValueCons(b: bool, bs: seq<bool>)
    ensures Value([b] + bs) == Weight(b, 1) + 2 * Value(bs)
  {
    assert ([b] + bs)[1..] == bs;
  }

  function BitList(b: ByteBits): seq<bool> { [b.b0, b.b1, b.b2, b.b3, b.b4, b.b5, b.b6, b.b7] }

  lemma ByteSum(b: ByteBits)
    ensures ByteOf(b) as int == Weight(b.b0, 1) + 2 * Weight(b.b1, 1) + 4 * Weight(b.b2, 1) + 8 * Weight(b.b3, 1)
            + 0x10 * Weight(b.b4, 1) + 0x20 * Weight(b.b5, 1) + 0x40 * Weight(b.b6, 1) + 0x80 * Weight(b.b7, 1)
  {}

  /** Four bits in front of a list. */
  lemma ValueOfFour(b0: bool, b1: bool, b2: bool, b3: bool, rest: seq<bool>)
    ensures Value([b0, b1, b2, b3] + rest)
         == Weight(b0, 1) + 2 * Weight(b1, 1) + 4 * Weight(b2, 1) + 8 * Weight(b3, 1) + 0x10 * Value(rest)
  {
    hide Value, Weight;
    var s3 := [b3] + rest;
    var s2 := [b2] + s3;
    var s1 := [b1] + s2;
    ValueCons(b3, rest);
    ValueCons(b2, s3);
    ValueCons(b1, s2);
    ValueCons(b0, s1);
    assert [b0] + s1 == [b0, b1, b2, b3] + rest;
  }

  lemma {:induction false} ValueOfByte(b: ByteBits, rest: seq<bool>)
    ensures Value(BitList(b) + rest) == ByteOf(b) + 0x100 * Value(rest)
  {
    hide Value, Weight, ByteOf;
    ByteSum(b);
    ValueOfFour(b.b4, b.b5, b.b6, b.b7, rest);
    ValueOfFour(b.b0, b.b1, b.b2, b.b3, [b.b4, b.b5, b.b6, b.b7] + rest);
    assert [b.b0, b.b1, b.b2, b.b3] + ([b.b4, b.b5, b.b6, b.b7] + rest) == BitList(b) + rest;
  }

  /** The k-th bit of a word, by its two bytes. */
  lemma {:induction false} WordBit(w: u16, k: nat)
    requires k < 16
    ensures var bits := BitList(BitsOf(Lo(w))) + BitList(BitsOf(Hi(w))); Bit(w, k) == bits[k]
  {
    hide Value, BitsOf, Lo, Hi, ByteOf;
    var (l, h) := (BitsOf(Lo(w)), BitsOf(Hi(w)));
    ByteOfBits(Lo(w));
    ByteOfBits(Hi(w));
    ValueOfByte(l, BitList(h));
    ValueOfByte(h, []);
    assert BitList(h) + [] == BitList(h) && Value([]) == 0 by { ValueOfNone(); }
    Interrupts.WordSplits(w);
    BitOfValue(BitList(l) + BitList(h), k);
  }

  lemma ValueOfNone()
    ensures Value([]) == 0
  {}

  lemma FieldBits(t: Tables, w: u16)
    requires ShippedTables(t)
    ensures forall i: u8 :: i < 9 ==> FieldBit(t, w, i) == Bit(w, FlagBit(i))
  {
    hide ShippedEntry, ShippedSizes, ShippedGroup, JumpFlag, At, Bit;
  }

  lemma SetFlagsIs(t: Tables, f: Flags, w: u16, l: ByteBits, h: ByteBits)
    requires FieldBit(t, w, 0) == l.b0 && FieldBit(t, w, 1) == l.b2 && FieldBit(t, w, 2) == l.b4
    requires FieldBit(t, w, 3) == l.b6 && FieldBit(t, w, 4) == l.b7 && FieldBit(t, w, 5) == h.b0
    requires FieldBit(t, w, 6) == h.b1 && FieldBit(t, w, 7) == h.b2 && FieldBit(t, w, 8) == h.b3
    ensures SetFlags(t, f, w) == Normalised(Assembled(l, h))
  {
    hide FieldBit;
  }

  /** set_flags takes the flags from the bits that flags_unpack takes them from. */
  lemma {:induction false} SetsUnpacked(t: Tables, f: Flags, w: u16)
    requires ShippedTables(t)
    ensures SetFlags(t, f, w) == Unpack(w)
  {
    hide ShippedTables, Bit, FieldBit, SetFlags, BitsOf, Lo, Hi, Normalised, Assembled, FlagBit;
    UnpackedBits(w);
    FlagBitsAre();
    FieldBits(t, w);
    SetFlagsIs(t, f, w, BitsOf(Lo(w)), BitsOf(Hi(w)));
  }

  lemma {:induction false} UnpackedBits(w: u16)
    ensures var (l, h) := (BitsOf(Lo(w)), BitsOf(Hi(w)));
      && Bit(w, 0) == l.b0 && Bit(w, 2) == l.b2 && Bit(w, 4) == l.b4 && Bit(w, 6) == l.b6 && Bit(w, 7) == l.b7
      && Bit(w, 8) == h.b0 && Bit(w, 9) == h.b1 && Bit(w, 10) == h.b2 && Bit(w, 11) == h.b3
  {
    hide Bit, BitsOf, Lo, Hi;
    WordBit(w, 0);
    WordBit(w, 2);
    WordBit(w, 4);
    WordBit(w, 6);
    WordBit(w, 7);
    WordBit(w, 8);
    WordBit(w, 9);
    WordBit(w, 10);
    WordBit(w, 11);
  }

  // ----- stack and interrupts

  lemma {:induction false} PushesAgree(s: State, v: u16)
    ensures RefPush(s, v) == Push(s, v)
  {
    hide Wrap, Lo, Hi;
    Add16Twice(s.regs[SP], -1, -1);
  }

  lemma {:induction false} PopsAgree(s: State)
    ensures RefDropped(s) == Drop(s) && RefPopped(s) == Top(s)
  {
    Add16Twice(s.regs[SP], 2, -2);
    assert Add16(s.regs[SP], 0) == s.regs[SP];
    hide Wrap, Word;
  }

  /** pc_interrupt of the reference is that of the emulator. */
  lemma {:induction false} InterruptsAgree(s: State, t: Tables, n: u8)
    requires ShippedTables(t) && !s.flags.r3 && !s.flags.r5
    ensures PcInterrupt(s, t, n) == Interrupt(s, n)
  {
    hide ShippedTables, Push, RefPush, MakeFlags, Pack, Word;
    MakesPacked(t, s.flags);
    PushesAgree(s, Pack(s.flags));
    PushesAgree(Push(s, Pack(s.flags)), s.sregs[CS]);
    PushesAgree(Push(Push(s, Pack(s.flags)), s.sregs[CS]), s.ip);
    PushKeepsOthers(s, Pack(s.flags));
    PushKeepsOthers(Push(s, Pack(s.flags)), s.sregs[CS]);
    PushKeepsOthers(Push(Push(s, Pack(s.flags)), s.sregs[CS]), s.ip);
  }

  /** Both save IP in the third word of the frame, whatever the flags are. */
  lemma {:induction false} SavesIp(s: State, t: Tables, n: u8)
    ensures Read16(PcInterrupt(s, t, n).mem, Interrupts.FrameWord(s.sregs[SS], s.regs[SP], 2)) == s.ip
  {
    hide Push, RefPush, MakeFlags, Interrupts.FrameWord, Write16, Read16, Add16, Interrupts.Apart;
    var (ss, sp, x) := (s.sregs[SS], s.regs[SP], MakeFlags(t, s.flags));
    PushesAgree(s, x);
    PushesAgree(Push(s, x), s.sregs[CS]);
    PushesAgree(Push(Push(s, x), s.sregs[CS]), s.ip);
    PushKeepsOthers(s, x);
    PushKeepsOthers(Push(s, x), s.sregs[CS]);
    Interrupts.ThreePushes(s, x, s.sregs[CS], s.ip);
    Interrupts.WordsApart(ss, sp, 0, 1);
    Interrupts.WordsApart(ss, sp, 0, 2);
    Interrupts.WordsApart(ss, sp, 1, 2);
    Interrupts.ThreeWords(s.mem, Interrupts.FrameWord(ss, sp, 0), Interrupts.FrameWord(ss, sp, 1),
      Interrupts.FrameWord(ss, sp, 2), x, s.sregs[CS], s.ip);
  }

  lemma PushKeepsOthers(s: State, v: u16)
    ensures var r := Push(s, v); r.sregs == s.sregs && r.ip == s.ip && r.flags == s.flags
  {}
}

/**
 Jumps, loops, calls, returns and software interrupts, as decoded: the emulator and the reference
 leave the same state, but for the far call, whose return address differs.
 */
module ControlAgreement {
  import opened Words
  import opened Flags
  import opened State
  import opened Strings
  import opened Alu
  import opened Decode
  import opened Execute
  import opened Run
  import opened InstructionReference
  import opened InstructionAgreement
  import opened ReferenceCases
  import opened StackAgreement
  import opened DecodeAgreement
  import Interrupts
  import Yields

  /** What ours leaves for an instruction of this group. */
  lemma ControlPerformed(s: State, t: Tables, d: Decoded)
    requires AddressInRange(d) && InControl(d.xlat)
    ensures var o := ControlFlow(s, d);
      Perform(s, t, d) == if o.jumped then o.s else o.s.(ip := U16(o.s.ip as int + o.length as int))
  {
    hide ControlFlow, Arithmetic, Transfer, Other;
  }

  lemma ControlEntry(t: Tables, d: Decoded)
    requires ShippedTables(t) && DecodedBy(t, d) && InControl(d.xlat)
    ensures AddressInRange(d) && At(t, STD_FLAGS, d.opcode) == 0
    ensures d.xlat == 13 ==> d.reg4bit <= 3
    ensures d.xlat == 14 || d.xlat == 19 || d.xlat == 32 || d.xlat >= 38 ==>
      d.length == 0 && Entry(t, d.opcode, 0, 0, 0, 0)
  {
    hide At, U8, Rem, Quot, ShippedEntry, JumpFlag, FlagBit, ImmediateSize;
    assert ShippedSizes(t, d.opcode) && ShippedGroup(t, d.opcode);
    LowThree(d.opcode);
    if d.xlat == 14 || d.xlat == 19 || d.xlat == 32 || d.xlat >= 38 { NoLength(t, d); }
  }

  lemma LowThree(op: u8)
    ensures 0xE0 <= op < 0xE4 ==> Rem(op, 8) <= 3
  {
    hide Wrap, Rem, Quot;
    OperatorsAre();
  }

  lemma NoLength(t: Tables, d: Decoded)
    requires DecodedBy(t, d) && Entry(t, d.opcode, 0, 0, 0, 0)
    ensures d.length == 0
  {
    SmallLength(0);
    hide U8, At, Rem, Quot;
  }

  // ----- conditional jumps

  lemma PairOf(op: u8)
    ensures Rem(op, 16) / 2 == op / 2 % 8 && Rem(op, 16) % 2 == op % 2 && Rem(op, 2) == op % 2
  {
    hide Wrap, Rem, Quot;
    OperatorsAre();
  }

  lemma JumpFlags(t: Tables, pair: u8)
    requires ShippedTables(t) && pair < 8
    ensures At(t, 15, pair) == JumpFlag(0, pair) && At(t, 16, pair) == JumpFlag(1, pair)
    ensures At(t, 17, pair) == JumpFlag(2, pair) && At(t, 18, pair) == JumpFlag(3, pair)
  {
    hide ShippedEntry, ShippedSizes, ShippedGroup, At, JumpFlag, FlagBit;
    assert At(t, JUMP_DECODE + 0, pair) == JumpFlag(0, pair);
    assert At(t, JUMP_DECODE + 1, pair) == JumpFlag(1, pair);
    assert At(t, JUMP_DECODE + 2, pair) == JumpFlag(2, pair);
    assert At(t, JUMP_DECODE + 3, pair) == JumpFlag(3, pair);
  }

  /** The flags that the tables name for a pair of conditions decide it. */
  predicate PairHolds(f: Flags, pair: nat)
    requires pair < 8
  {
    JumpByte(f, JumpFlag(0, pair)) || JumpByte(f, JumpFlag(1, pair))
    || JumpByte(f, JumpFlag(2, pair)) != JumpByte(f, JumpFlag(3, pair))
  }

  lemma PairIs(f: Flags, pair: nat)
    requires pair < 8
    ensures PairHolds(f, pair) == match pair
      case 0 => f.of
      case 1 => f.cf
      case 2 => f.zf
      case 3 => f.cf || f.zf
      case 4 => f.sf
      case 5 => f.pf
      case 6 => f.sf != f.of
      case _ => f.zf || f.sf != f.of
  {}

  lemma ConditionIs(f: Flags, cc: nat)
    requires cc < 16
    ensures Condition(f, cc) == ((cc % 2 == 1) != PairHolds(f, cc / 2))
  {
    PairIs(f, cc / 2);
    hide PairHolds;
  }

  /** The offset that a byte of a branch stands for. */
  function Displacement(b: u8): int { if b < 0x80 then b else b as int - 0x100 }

  /** Where a taken branch goes, by the byte behind the opcode: that far from the next instruction. */
  lemma {:induction false} BranchTarget(s: State, t: Tables)
    ensures var (d, b) := (DecodeAt(s, t), s.mem[FetchAddress(s) + 1]);
      var next := s.ip as int + d.length as int;
      && JumpShort(s, d) == Outcome(s.(ip := (next + Displacement(b)) % 0x1_0000), true, 0)
      && (d.xlat == 0 ==>
            Perform(s, t, d).ip == (next + if Condition(s.flags, Rem(d.opcode, 16)) then Displacement(b) else 0) % 0x1_0000)
  {
    hide DecodeAt, Perform, Condition, Wrap, Lo;
    var d := DecodeAt(s, t);
    Yields.LowOfFetched(s, t);
    DecodedInRange(s, t);
    var next := s.ip as int + d.length as int;
    WrapIs(next + S8(Lo(d.data0)), 0x1_0000);
    WrapIs(next, 0x1_0000);
    if d.xlat == 0 { ControlPerformed(s, t, d); }
  }

  lemma {:induction false} JccAgrees(s: State, t: Tables, d: Decoded)
    requires ShippedTables(t) && DecodedBy(t, d) && d.xlat == 0
    ensures Perform(s, t, d) == RefJcc(s, t, d)
  {
    hide ShippedTables, At, Perform, Condition, PairHolds, JumpByte, U16, U8, S8, Lo, Plainly, Rem, Quot, JumpFlag;
    ControlEntry(t, d);
    ControlPerformed(s, t, d);
    PairOf(d.opcode);
    JumpFlags(t, d.opcode / 2 % 8);
    ConditionIs(s.flags, Rem(d.opcode, 16));
    PairNamed(s.flags, d.opcode / 2 % 8);
    var taken := Condition(s.flags, Rem(d.opcode, 16));
    var step := if taken then S8(Lo(d.data0)) else 0;
    PlainlyMovesOn(s.(ip := U16(s.ip as int + step)), t, d, d);
    Add16Twice(s.ip, step, d.length);
    Commutes(s.ip, step, d.length);
  }

  lemma PairNamed(f: Flags, pair: nat)
    requires pair < 8
    ensures PairHolds(f, pair) ==
      (JumpByte(f, JumpFlag(0, pair)) || JumpByte(f, JumpFlag(1, pair))
       || JumpByte(f, JumpFlag(2, pair)) != JumpByte(f, JumpFlag(3, pair)))
  {
    hide JumpByte, JumpFlag;
  }

  /** A jump by a distance, before or behind the length. */
  lemma Commutes(ip: u16, step: int, n: int)
    ensures U16(ip as int + step + n) == U16(ip as int + n + step)
  {
    hide U16;
  }

  // ----- loops

  lemma CountsAlike(cx: u16)
    ensures U16(U16(cx as int - 1) as int + 1) == cx
  {
    hide Wrap;
    Add16Twice(cx, -1, 1);
    WrapNear(cx, 0x1_0000);
  }

  lemma {:induction false} LoopAgrees(s: State, t: Tables, d: Decoded)
    requires ShippedTables(t) && DecodedBy(t, d) && d.xlat == 13
    ensures Perform(s, t, d) == RefLoop(s, t, d)
  {
    hide ShippedTables, At, Perform, U16, U8, S8, Lo, Plainly, Rem, Quot;
    ControlEntry(t, d);
    ControlPerformed(s, t, d);
    CountsAlike(s.regs[CX]);
    var r := RefLoopCounted(s, d);
    PlainlyMovesOn(r.0.(ip := U16(s.ip as int + r.1)), t, d, d);
    RefLoopIs(s, t, d);
    Add16Twice(s.ip, r.1, d.length);
    Commutes(s.ip, r.1, d.length);
    LoopsCount(s, d);
    assert s.regs[CX := U16(s.regs[CX] as int - 1)][CX := s.regs[CX]] == s.regs;
  }

  /** The state of the reference after its switch, and the distance it jumps. */
  function RefLoopCounted(s: State, d: Decoded): (State, int) {
    var s1 := SetReg(s, CX, U16(s.regs[CX] as int - 1));
    var taken := match d.reg4bit
      case 0 => s1.regs[CX] != 0 && !s.flags.zf
      case 1 => s1.regs[CX] != 0 && s.flags.zf
      case 3 => s.regs[CX] == 0
      case _ => s1.regs[CX] != 0;
    (if d.reg4bit == 3 then s else s1, if taken then S8(Lo(d.data0)) else 0)
  }

  lemma RefLoopIs(s: State, t: Tables, d: Decoded)
    ensures var r := RefLoopCounted(s, d); RefLoop(s, t, d) == Plainly(r.0.(ip := U16(s.ip as int + r.1)), t, d)
  {
    hide U16, S8, Lo, Plainly;
    CountsAlike(s.regs[CX]);
    assert s.regs[CX := U16(s.regs[CX] as int - 1)][CX := s.regs[CX]] == s.regs;
  }

  lemma LoopsCount(s: State, d: Decoded)
    requires d.reg4bit <= 3
    ensures var (o, r) := (Loops(s, d), RefLoopCounted(s, d));
      if o.jumped then r.1 == S8(Lo(d.data0)) && o.s == r.0.(ip := U16(s.ip as int + d.length as int + r.1))
      else r.1 == 0 && o.s == r.0 && o.length == d.length
  {
    hide U16, S8, Lo;
  }

  // ----- jumps, calls and returns

  lemma {:induction false} JumpAgrees(s: State, t: Tables, d: Decoded)
    requires ShippedTables(t) && DecodedBy(t, d) && d.xlat == 14
    ensures Perform(s, t, d) == RefJump(s, t, d)
  {
    hide ShippedTables, At, Perform, U16, U8, S8, Lo, Plainly, Rem, Quot, RefPush, Push;
    ControlEntry(t, d);
    ControlPerformed(s, t, d);
    var n := if d.direction then 2 else 3;
    var next := U16(s.ip as int + n);
    var pushed := Push(s, next);
    PushesAgree(s.(ip := next), next);
    PushIgnoresIp(s, next, next);
    var e := d.(wide := d.wide || !d.direction);
    var r := RefJumped(s, d);
    PlainlyMovesOn(r, t, d, e);
    StaysAt(r.ip);
    if d.direction && d.wide { Add16Twice(s.ip, n, S8(Lo(d.data0))); }
    Add16Twice(0, d.data0, 0);
    StaysAt(d.data0);
  }

  /** The state of the reference after its switch. */
  function RefJumped(s: State, d: Decoded): State {
    var s1 := s.(ip := U16(s.ip as int + if d.direction then 2 else 3));
    var s2 := if d.wide then s1
              else if d.direction then SetRegs16(s1.(ip := 0), 9, d.data2)
              else RefPush(s1, s1.ip);
    var step: int := if d.direction && d.wide then S8(Lo(d.data0)) else d.data0;
    s2.(ip := U16(s2.ip as int + step))
  }

  lemma StaysAt(ip: u16)
    ensures U16(ip) == ip
  {
    hide Wrap;
    WrapNear(ip, 0x1_0000);
  }

  lemma PushIgnoresIp(s: State, ip: u16, v: u16)
    ensures Push(s.(ip := ip), v) == Push(s, v).(ip := ip) && Push(s, v).ip == s.ip
  {
    hide Write16, Linear, Add16;
  }

  lemma {:induction false} ReturnAgrees(s: State, t: Tables, d: Decoded)
    requires ShippedTables(t) && DecodedBy(t, d) && d.xlat == 19
    ensures Perform(s, t, d) == RefReturn(s, t, d)
  {
    hide ShippedTables, At, Perform, U16, U8, Plainly, Rem, Quot, RefPopped, RefDropped, Top, Drop, SetFlags, Unpack;
    ControlEntry(t, d);
    ControlPerformed(s, t, d);
    SecondBit(d.extra);
    var s1 := Drop(s).(ip := Top(s));
    PopsAgree(s);
    PopsAgree(s1);
    var s2 := if d.extra != 0 then SetSReg(Drop(s1), CS, Top(s1)) else s1;
    PopsAgree(s2);
    SetsUnpacked(t, s2.flags, Top(s2));
    ReturnPops(s, t, d);
  }

  lemma SecondBit(e: u8)
    ensures Rem(Quot(e, 2), 2) == e / 2 % 2
  {
    hide Wrap, Rem, Quot;
    OperatorsAre();
  }

  lemma DropKeepsIp(s: State)
    ensures Drop(s).ip == s.ip && Drop(s).flags == s.flags
  {}

  lemma {:induction false} ReturnPops(s: State, t: Tables, d: Decoded)
    requires ShippedTables(t) && DecodedBy(t, d) && d.xlat == 19
    ensures var r := Returns(s, d).s; Plainly(r, t, d.(wide := true)) == r
  {
    hide ShippedTables, At, U16, U8, Plainly, Rem, Quot, Returns;
    ControlEntry(t, d);
    var r := Returns(s, d).s;
    PlainlyMovesOn(r, t, d, d.(wide := true));
    StaysAt(r.ip);
  }

  /** INT n and INTO; INT 3 is one byte long. */
  lemma {:induction false} IntAgrees(s: State, t: Tables, d: Decoded, length: nat, n: u8)
    requires ShippedTables(t) && !s.flags.r3 && !s.flags.r5 && length < 0x100
    ensures RefInt(s, t, d, length, n) == Int(s, d.(length := length), n).s
  {
    hide ShippedTables, PcInterrupt, Interrupt, U16, Tail;
    var s1 := s.(ip := U16(s.ip as int + length));
    InterruptsAgree(s1, t, n);
    NothingBehind(Interrupt(s1, n), t, d.(wide := true), INT_OPCODE);
  }

  lemma {:induction false} InterruptionAgrees(s: State, t: Tables, d: Decoded)
    requires ShippedTables(t) && DecodedBy(t, d) && 38 <= d.xlat <= 40 && !s.flags.r3 && !s.flags.r5
    ensures Perform(s, t, d) == RefControl(s, t, d)
  {
    hide ShippedTables, At, Perform, Interrupt, U16, U8, Lo, Plainly, RefInt, Rem, Quot;
    ControlEntry(t, d);
    ControlPerformed(s, t, d);
    match d.xlat
    case 38 => IntAgrees(s, t, d, 1, 3);
    case 39 => IntAgrees(s, t, d, 2, Lo(d.data0)); LowIsRem(d.data0);
    case _ =>
      IntAgrees(s, t, d, 1, 4);
      PlainlyMovesOn(s.(ip := U16(s.ip as int + 1)), t, d, d);
      StaysAt(U16(s.ip as int + 1));
  }

  lemma LowIsRem(w: u16)
    ensures Lo(w) == w % 0x100
  {
    hide Wrap, Rem, Quot;
    OperatorsAre();
  }

  // ----- the far call

  lemma TopOfPush(s: State, v: u16)
    ensures Top(Push(s, v)) == v
  {
    hide Linear, Lo, Hi, Word, Add16;
    Interrupts.WordSplits(v);
  }

  /** The far call of the emulator saves its own IP, since the table's length of 9A is 0; that of
      the reference saves the IP behind its five bytes. So they never leave the same state. */
  lemma {:induction false} FarCalls(s: State, t: Tables, d: Decoded)
    requires ShippedTables(t) && DecodedBy(t, d) && d.xlat == 32
    ensures var far := (ip: u16) => SetSReg(Push(Push(s, s.sregs[CS]), ip), CS, d.data2).(ip := d.data0);
      && Perform(s, t, d) == far(s.ip) && RefCallFar(s, t, d) == far(U16(s.ip as int + 5))
    ensures Perform(s, t, d) != RefCallFar(s, t, d)
  {
    hide ShippedTables, At, Perform, U16, U8, Plainly, Rem, Quot, RefPush, Push, Top;
    ControlEntry(t, d);
    ControlPerformed(s, t, d);
    var s1 := Push(s, s.sregs[CS]);
    PushesAgree(s, s.sregs[CS]);
    PushesAgree(s1, U16(s.ip as int + 5));
    StaysAt(s.ip);
    StaysAt(d.data0);
    var r := SetSReg(Push(s1, U16(s.ip as int + 5)), CS, d.data2).(ip := d.data0);
    PlainlyMovesOn(r, t, d, d.(wide := true));
    TopOfPush(s1, s.ip);
    TopOfPush(s1, U16(s.ip as int + 5));
    MovesByFive(s.ip);
    TopIgnores(Push(s1, s.ip), d.data2, d.data0);
    TopIgnores(Push(s1, U16(s.ip as int + 5)), d.data2, d.data0);
  }

  lemma MovesByFive(ip: u16)
    ensures U16(ip as int + 5) != ip
  {
    hide Wrap;
    WrapNear(ip as int + 5, 0x1_0000);
  }

  lemma TopIgnores(s: State, cs: u16, ip: u16)
    ensures Top(SetSReg(s, CS, cs).(ip := ip)) == Top(s)
  {
    hide Read16, Linear;
  }

  // ----- the group

  /** Every instruction of the group leaves the same state exactly if it is no far call. */
  lemma {:induction false} ControlAgreesIff(s: State, t: Tables, d: Decoded)
    requires ShippedTables(t) && DecodedBy(t, d) && InControl(d.xlat) && !s.flags.r3 && !s.flags.r5
    ensures Perform(s, t, d) == RefControl(s, t, d) <==> d.xlat != 32
  {
    hide ShippedTables, DecodedBy, Perform, RefJcc, RefLoop, RefJump, RefReturn, RefCallFar;
    match d.xlat
    case 0 => JccAgrees(s, t, d);
    case 13 => LoopAgrees(s, t, d);
    case 14 => JumpAgrees(s, t, d);
    case 19 => ReturnAgrees(s, t, d);
    case 32 => FarCalls(s, t, d);
    case _ => InterruptionAgrees(s, t, d);
  }
}

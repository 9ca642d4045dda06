/**
 Laws of the plain instructions: registers and their halves, XCHG, ports, calls and returns
 nested to any depth, and how often LOOP branches.
 */
module InstructionLaws {
  import opened Words
  import opened State
  import opened Strings
  import opened Decode
  import opened Execute
  import opened Interrupts
  import Flags

  // ----- registers, XCHG and ports

  /** A register written is read back; no other word register, and for a byte no other byte
      register, the other half included, changes. */
  lemma {:induction false} RegisterReadsBack(s: State, i: u3, j: u3, v: u16, wide: bool)
    ensures var t := WriteRegister(s, i, v, wide);
      && t == s.(regs := t.regs)
      && ReadRegister(t, i, wide) == (if wide then v else Lo(v))
      && (j != i ==> ReadRegister(t, j, wide) == ReadRegister(s, j, wide))
      && (!wide ==> t.regs[4..] == s.regs[4..])
  {
    hide Word, Lo, Hi;
    var w := s.regs[i % 4];
    Flags.SplitWord(Lo(v), Hi(w));
    Flags.SplitWord(Lo(w), Lo(v));
  }

  /** XCHG swaps its operands ... */
  lemma {:induction false} XchgSwaps(s: State, d: Decoded)
    requires AddressInRange(d)
    ensures var t := Xchg(s, d); ReadReg(t, d) == ReadRm(s, d) && ReadRm(t, d) == ReadReg(s, d)
  {
    LowOfByte(ReadRm(s, d));
    LowOfByte(ReadReg(s, d));
    StoreReadsBack(s.mem, d.rmAddr, ReadReg(s, d), d.wide);
    var t := WriteRm(s, d, ReadReg(s, d));
    RegisterReadsBack(s, d.rm, d.reg, ReadReg(s, d), d.wide);
    RegisterReadsBack(t, d.reg, d.rm, ReadRm(s, d), d.wide);
    hide WriteRegister, ReadRegister, Store, Load, Lo;
  }

  lemma LowOfByte(v: u16)
    ensures v < 0x100 ==> Lo(v) == v
  {}

  lemma StoreReadsBack(m: Memory, a: nat, v: u16, wide: bool)
    requires a + 1 < MEM_SIZE
    ensures Load(Store(m, a, v, wide), a, wide) == if wide then v else Lo(v)
  {
    WordSplits(v);
    hide Lo, Hi, Word;
  }

  /** States that differ in registers only are equal if all registers read the same. */
  lemma {:induction false} RegistersDecide(s: State, t: State, wide: bool)
    requires t == s.(regs := t.regs) && (!wide ==> t.regs[4..] == s.regs[4..])
    requires forall k: u3 :: ReadRegister(t, k, wide) == ReadRegister(s, k, wide)
    ensures t == s
  {
    forall k: u3
      ensures t.regs[k] == s.regs[k]
    {
      if !wide && k < 4 {
        assert ReadRegister(t, k, wide) == ReadRegister(s, k, wide);
        assert ReadRegister(t, k + 4, wide) == ReadRegister(s, k + 4, wide);
        WordSplits(s.regs[k]);
        WordSplits(t.regs[k]);
      } else if !wide {
        assert t.regs[4..][k - 4] == s.regs[4..][k - 4];
      } else {
        assert ReadRegister(t, k, wide) == ReadRegister(s, k, wide);
      }
    }
    assert t.regs == s.regs;
  }

  /** The two writes of a swap, with the values as they were. */
  lemma {:induction false} Swapped(s: State, i: u3, j: u3, x: u16, y: u16, wide: bool)
    requires wide || (x < 0x100 && y < 0x100)
    ensures var t := WriteRegister(WriteRegister(s, i, x, wide), j, y, wide);
      && t == s.(regs := t.regs) && (!wide ==> t.regs[4..] == s.regs[4..])
      && forall k: u3 ::
           ReadRegister(t, k, wide) == if k == j then y else if k == i then x else ReadRegister(s, k, wide)
  {
    var t := WriteRegister(s, i, x, wide);
    LowOfByte(x);
    LowOfByte(y);
    RegisterReadsBack(s, i, i, x, wide);
    RegisterReadsBack(t, j, j, y, wide);
    forall k: u3
      ensures ReadRegister(WriteRegister(t, j, y, wide), k, wide)
           == if k == j then y else if k == i then x else ReadRegister(s, k, wide)
    {
      RegisterReadsBack(s, i, k, x, wide);
      RegisterReadsBack(t, j, k, y, wide);
    }
    hide WriteRegister, ReadRegister, Lo;
  }

  lemma {:induction false} SwappedTwice(s: State, i: u3, j: u3, x: u16, y: u16, wide: bool)
    requires x == ReadRegister(s, j, wide) && y == ReadRegister(s, i, wide)
    requires wide || (x < 0x100 && y < 0x100)
    ensures var t := WriteRegister(WriteRegister(s, i, x, wide), j, y, wide);
      WriteRegister(WriteRegister(t, i, y, wide), j, x, wide) == s
  {
    var t := WriteRegister(WriteRegister(s, i, x, wide), j, y, wide);
    Swapped(s, i, j, x, y, wide);
    Swapped(t, i, j, y, x, wide);
    hide WriteRegister, ReadRegister;
    RegistersDecide(s, WriteRegister(WriteRegister(t, i, y, wide), j, x, wide), wide);
  }

  lemma {:induction false} WrittenTwice(s: State, i: u3, v: u16, wide: bool)
    requires wide || v < 0x100
    ensures WriteRegister(WriteRegister(s, i, v, wide), i, ReadRegister(s, i, wide), wide) == s
  {
    var x := ReadRegister(s, i, wide);
    var r := WriteRegister(WriteRegister(s, i, v, wide), i, x, wide);
    assert wide || x < 0x100;
    Swapped(s, i, i, v, x, wide);
    hide WriteRegister, ReadRegister;
    RegistersDecide(s, r, wide);
  }

  lemma {:induction false} StoredTwice(m: Memory, a: nat, v: u16, wide: bool)
    requires a + 1 < MEM_SIZE
    ensures Store(Store(m, a, v, wide), a, Load(m, a, wide), wide) == m
  {
    Flags.SplitWord(m[a], m[a + 1]);
    LowOfByte(m[a]);
    hide Lo, Hi, Word;
  }

  /** ... and so XCHG twice changes nothing, for registers, halves of one register, and
      memory. */
  lemma {:induction false} XchgTwice(s: State, d: Decoded)
    requires AddressInRange(d)
    ensures Xchg(Xchg(s, d), d) == s
  {
    var (x, y) := (ReadReg(s, d), ReadRm(s, d));
    XchgSwaps(s, d);
    hide WriteRegister, ReadRegister, Store, Load;
    if d.mod == 3 {
      SwappedTwice(s, d.rm, d.reg, x, y, d.wide);
    } else {
      var m := Store(s.mem, d.rmAddr, x, d.wide);
      var t := WriteRegister(s, d.reg, y, d.wide);
      WrittenTwice(s, d.reg, y, d.wide);
      StoredTwice(s.mem, d.rmAddr, x, d.wide);
    }
  }

  /** The ports that IN itself changes, but for 0x64, which only IN from 0x60 does. */
  const CHANGED := {0x20, 0x40, 0x42, 0x3DA}

  /** IN reads back what OUT wrote, a byte or a word, but for the ports that IN itself changes. */
  lemma {:induction false} OutThenIn(s: State, d: Decoded)
    requires var port := PortOf(s, d); port !in CHANGED && (d.wide ==> PortAfter(port) !in CHANGED)
    ensures var (port, r) := (PortOf(s, d), In(Out(s, d), d));
      r.regs == s.regs && r.io[port] == Lo(s.regs[AX]) && (d.wide ==> r.io[PortAfter(port)] == Hi(s.regs[AX]))
  {
    hide Lo, Hi, Word, U8, U16, Xor8, Or8, PortAfter;
    var (port, r) := (PortOf(s, d), In(Out(s, d), d));
    WordSplits(s.regs[AX]);
    Flags.SplitWord(r.io[port], r.io[PortAfter(port)]);
    AfterIsNext(port);
  }

  lemma AfterIsNext(port: u16)
    ensures PortAfter(port) == if port == 0xFFFF then 0 else port + 1
  {
    hide Wrap, Rem, Quot;
    OperatorsAre();
  }

  // ----- LOOP

  predicate Counts(d: Decoded) { d.reg4bit <= 2 }

  /** How often LOOPNZ, LOOPZ or LOOP branches before it falls through, if nothing else
      changes CX and ZF. */
  function Branches(s: State, d: Decoded): nat
    requires Counts(d)
    decreases U16(s.regs[CX] as int - 1)
  {
    LoopStep(s, d);
    if Loops(s, d).jumped then 1 + Branches(Loops(s, d).s, d) else 0
  }

  lemma LoopStep(s: State, d: Decoded)
    requires Counts(d)
    ensures var r := Loops(s, d);
      && r.s.regs[CX] == U16(s.regs[CX] as int - 1) && r.s.flags == s.flags
      && (r.jumped <==> r.s.regs[CX] != 0 && (d.reg4bit == 0 ==> !s.flags.zf) && (d.reg4bit == 1 ==> s.flags.zf))
      && (r.jumped ==> U16(r.s.regs[CX] as int - 1) < r.s.regs[CX])
  {}

  /** CX - 1 times, so 65535 times for CX = 0; LOOPNZ and LOOPZ not at all if ZF is against it. */
  lemma {:induction false} LoopBranches(s: State, d: Decoded)
    requires Counts(d)
    ensures Branches(s, d) == if (d.reg4bit == 0 && s.flags.zf) || (d.reg4bit == 1 && !s.flags.zf) then 0
                              else U16(s.regs[CX] as int - 1)
    decreases U16(s.regs[CX] as int - 1)
  {
    LoopStep(s, d);
    hide Loops;
    if Loops(s, d).jumped {
      LoopBranches(Loops(s, d).s, d);
    }
  }

  // ----- calls and returns

  /** E8, and C3. */
  predicate NearCall(d: Decoded) { d.xlat == 14 && !d.direction && !d.wide }
  predicate NearRet(d: Decoded) { d.xlat == 19 && d.extra == 0 && d.wide }

  /** The address behind a near call. */
  function Behind(s: State): u16 { U16(s.ip as int + 3) }

  lemma {:induction false} CallEffect(s: State, d: Decoded)
    requires NearCall(d)
    ensures var t := ControlFlow(s, d).s;
      var (ss, sp) := (s.sregs[SS], s.regs[SP]);
      && t == s.(regs := s.regs[SP := Add16(sp, -2)], ip := t.ip, mem := t.mem)
      && Read16(t.mem, FrameWord(ss, sp, 0)) == Behind(s)
      && SameOutside(s.mem, t.mem, ss, sp, 1)
  {
    WordSplits(Behind(s));
    hide Word, Lo, Hi;
  }

  lemma {:induction false} RetEffect(u: State, d: Decoded, sp: u16)
    requires NearRet(d) && u.regs[SP] == Add16(sp, -2)
    ensures ControlFlow(u, d).s
         == u.(regs := u.regs[SP := sp], ip := Read16(u.mem, FrameWord(u.sregs[SS], sp, 0)))
  {
    assert Add16(Add16(sp, -2), 2) == sp;
    hide Read16, Iret;
  }

  /** Calls made one inside the other, and n returns. */
  function Calls(s: State, ds: seq<Decoded>): State
    decreases |ds|
  {
    if ds == [] then s else Calls(ControlFlow(s, ds[0]).s, ds[1..])
  }

  function Returned(s: State, d: Decoded, n: nat): State {
    if n == 0 then s else ControlFlow(Returned(s, d, n - 1), d).s
  }

  lemma {:induction false} OuterCallReturns(s: State, c: Decoded, t: State, u: State, d: Decoded, n: nat)
    requires NearCall(c) && NearRet(d) && 2 * (n + 1) <= 0x1_0000
    requires t == ControlFlow(s, c).s && u == t.(mem := u.mem, ip := u.ip)
    requires SameOutside(t.mem, u.mem, t.sregs[SS], t.regs[SP], n)
    ensures ControlFlow(u, d).s == s.(mem := u.mem, ip := Behind(s))
    ensures SameOutside(s.mem, u.mem, s.sregs[SS], s.regs[SP], n + 1)
  {
    hide ControlFlow, SameOutside, FrameWord, Read16, Behind, Add16;
    var (ss, sp) := (s.sregs[SS], s.regs[SP]);
    CallEffect(s, c);
    FrameSurvives(t.mem, u.mem, ss, sp, 1, n, 0);
    SameOutsideJoins(s.mem, t.mem, u.mem, ss, sp, 1, n);
    RetEffect(u, d, sp);
    assert s.regs[SP := Add16(sp, -2)][SP := sp] == s.regs;
  }

  lemma NestedCalls(s: State, ds: seq<Decoded>, d: Decoded)
    ensures ds == [] ==> Returned(Calls(s, ds), d, 0) == s
    ensures ds != [] ==> (var t := ControlFlow(s, ds[0]).s;
      Returned(Calls(s, ds), d, |ds|) == ControlFlow(Returned(Calls(t, ds[1..]), d, |ds| - 1), d).s)
    ensures SameOutside(s.mem, s.mem, s.sregs[SS], s.regs[SP], 0)
  {
    hide ControlFlow;
  }

  /** n nested near calls and n returns, for every n whose return addresses fit the stack
      segment and for every SP: execution goes on behind the first call, all registers are
      as before, and memory differs in the return addresses at most. */
  lemma {:induction false} CallsReturn(s: State, ds: seq<Decoded>, d: Decoded)
    requires NearRet(d) && 2 * |ds| <= 0x1_0000 && forall i :: 0 <= i < |ds| ==> NearCall(ds[i])
    ensures var r := Returned(Calls(s, ds), d, |ds|);
      && r == s.(mem := r.mem, ip := if ds == [] then s.ip else Behind(s))
      && SameOutside(s.mem, r.mem, s.sregs[SS], s.regs[SP], |ds|)
    decreases |ds|
  {
    hide ControlFlow, SameOutside, Behind, NearCall, NearRet, Returned, Calls;
    NestedCalls(s, ds, d);
    if ds != [] {
      var t := ControlFlow(s, ds[0]).s;
      CallsReturn(t, ds[1..], d);
      OuterCallReturns(s, ds[0], t, Returned(Calls(t, ds[1..]), d, |ds| - 1), d, |ds| - 1);
    }
  }

}

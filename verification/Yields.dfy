/**
 Why emu86_run returns (run.c): what each yield reason says about the machine, when console
 output makes it return, and that the console loses no byte meanwhile.
 */
module Yields {
  import opened Words
  import opened State
  import opened Decode
  import opened Execute
  import opened Ring
  import opened BatchLoop
  import opened Run
  import opened RunTheorems

  // ----- the threshold

  /** More than three quarters of the slots hold a byte. For the one size whose triple does not
      fit 32 bits, 2^31, more than one quarter do. */
  predicate Crowded(r: Ring) { 4 * |Contents(r)| > if |r.buf| <= 0x4000_0000 then 3 * |r.buf| else |r.buf| }

  lemma {:induction false} LargestSize(n: nat, k: nat)
    requires IsPow2(n) && Pow2(k) < n < 2 * Pow2(k + 1)
    ensures n == Pow2(k + 1)
    decreases k
  {
    if k > 0 {
      assert Pow2(k) == 2 * Pow2(k - 1) && Pow2(k + 1) == 2 * Pow2(k);
      LargestSize(n / 2, k - 1);
    }
  }

  lemma {:induction false} ThreeQuarters(n: nat)
    requires IsPow2(n) && n < 0x1_0000_0000
    ensures U32(n * 3) == if n <= 0x4000_0000 then 3 * n else n
  {
    if n > 0x4000_0000 {
      Pow2Values();
      Pow2Add(15, 15);
      assert Pow2(30) == 0x4000_0000 && Pow2(31) == 0x8000_0000;
      LargestSize(n, 30);
    }
    hide *;
    WrapNear(n * 3, 0x1_0000_0000);
  }

  lemma {:induction false} WaitingIff(r: Ring)
    ensures OutputWaiting(r) <==> Crowded(r)
  {
    hide Available, U32;
    AvailableIsGap(r);
    ThreeQuarters(|r.buf|);
  }

  // ----- one pass

  /** One pass ends the run at 0000:0000, or while halted (by then a pending interrupt has been
      taken), and otherwise executes an instruction, after which the run waits exactly if the
      console output is crowded. */
  lemma {:induction false} PassReasons(m: Machine, t: Tables)
    ensures var p := OnePass(m, t);
      if m.s.sregs[CS] == 0 && m.s.ip == 0 then p == AtEnd(m)
      else if m.s.ctl.halted != 0 then p == Halted(m.(s := TakeHardware(m.s)))
      else p.Ran? && p.m == StepBody(m.(s := TakeHardware(m.s)), t) && (p.waiting <==> Crowded(p.m.consoleOut))
  {
    hide StepBody, Interrupt, Crowded, OutputWaiting;
    InterruptKeepsHalted(m.s);
    WaitingIff(StepBody(m.(s := TakeHardware(m.s)), t).consoleOut);
  }

  lemma InterruptKeepsHalted(s: State)
    ensures TakeHardware(s).ctl.halted == s.ctl.halted
  {
    hide Write16, Linear, Add16, Read16;
  }

  // ----- whole runs

  /** For every run, each reason is what it names; and a run that is entered with room in the
      console output returns for it exactly if the output is crowded when it returns. */
  lemma {:induction false} RunReasons(m: Machine, t: Tables, budget: u32, cycles: u32)
    requires budget <= LARGEST
    ensures var y := RunFrom(m, t, budget, cycles);
      && (y.reason == EXIT ==> y.m.s.sregs[CS] == 0 && y.m.s.ip == 0)
      && (y.reason == HALTED ==> y.m.s.ctl.halted != 0)
      && (y.reason == BUDGET <==> y.cycles >= budget && (cycles >= budget || !Crowded(y.m.consoleOut)))
      && (y.reason == IO_NEEDED ==> Crowded(y.m.consoleOut))
      && (!Crowded(m.consoleOut) ==> (y.reason == IO_NEEDED <==> Crowded(y.m.consoleOut)))
    decreases if cycles < budget then budget - cycles else 0
  {
    hide OnePass, Crowded, TakeHardware, StepBody;
    if cycles < budget {
      PassReasons(m, t);
      InterruptKeepsHalted(m.s);
      TakesNoOutput(m);
      var p := Turns(t)(m);
      assert p == OnePass(m, t);
      if p.Ran? && !p.waiting { RunReasons(p.m, t, budget, cycles + CYCLES); }
    }
  }

  lemma TakesNoOutput(m: Machine)
    ensures m.(s := TakeHardware(m.s)).consoleOut == m.consoleOut
  {}

  // ----- no byte is lost

  /** The byte that the instruction at CS:IP prints, if it is PUTCHAR_AL: 0F 00 under the
      shipped tables. */
  function Prints(s: State, t: Tables): seq<u8> {
    var a := FetchAddress(s);
    if At(t, XLAT_OPCODE, s.mem[a]) == 48 && s.mem[a + 1] == 0 then [Lo(s.regs[AX])] else []
  }

  /** What the instructions of a run print, in order. */
  function Printed(m: Machine, t: Tables, budget: u32, cycles: u32): seq<u8>
    requires budget <= LARGEST
    decreases if cycles < budget then budget - cycles else 0
  {
    var p := OnePass(m, t);
    if cycles >= budget || !p.Ran? then []
    else Prints(TakeHardware(m.s), t) + if p.waiting then [] else Printed(p.m, t, budget, cycles + CYCLES)
  }

  lemma LowOfFetched(s: State, t: Tables)
    ensures Lo(DecodeAt(s, t).data0) == s.mem[FetchAddress(s) + 1]
    ensures DecodeAt(s, t).xlat == At(t, XLAT_OPCODE, s.mem[FetchAddress(s)])
  {
    var a := FetchAddress(s);
    Flags.SplitWord(s.mem[a + 1], s.mem[a + 2]);
    hide Lo, EffectiveAddress, SignExtend, U8, At, ModOf, ImmediateSize;
  }

  /** What a step writes to the console. */
  lemma {:induction false} StepWrites(m: Machine, t: Tables)
    ensures var (out, p) := (StepBody(m, t).consoleOut, Prints(m.s, t));
      out == if p == [] then m.consoleOut else Write(m.consoleOut, p[0]).0
  {
    hide DecodeAt, Perform, CountAndTrap, Tick, Write, Lo, At;
    var s := CountDown(m.s);
    var d := DecodeAt(s, t);
    LowOfFetched(s, t);
    DecodedInRange(s, t);
    assert FetchAddress(s) == FetchAddress(m.s);
    TakeTimerKeeps(Machine(Tick(CountAndTrap(Perform(s, t, d))), m.consoleIn, Echo(m.consoleOut, s, d)));
    hide TakeTimer;
  }

  /** A ring of eight bytes or more that is not crowded takes a byte. */
  lemma {:induction false} RoomForOne(r: Ring, b: u8)
    requires |r.buf| >= 8 && !Crowded(r)
    ensures Contents(Write(r, b).0) == Contents(r) + [b] && |Write(r, b).0.buf| == |r.buf|
  {
    hide Write, Contents;
    WriteAppends(r, b);
  }

  /** A run that is entered with an output ring of at least eight bytes, at most three quarters
      full, drops nothing: the ring gains exactly what the instructions print, in order. */
  lemma {:induction false} RunLosesNothing(m: Machine, t: Tables, budget: u32, cycles: u32)
    requires budget <= LARGEST && |m.consoleOut.buf| >= 8 && !Crowded(m.consoleOut)
    ensures var out := RunFrom(m, t, budget, cycles).m.consoleOut;
      |out.buf| == |m.consoleOut.buf| && Contents(out) == Contents(m.consoleOut) + Printed(m, t, budget, cycles)
    decreases if cycles < budget then budget - cycles else 0
  {
    hide OnePass, Crowded, TakeHardware, StepBody, Contents, Prints, Write;
    if cycles < budget {
      PassReasons(m, t);
      TakesNoOutput(m);
      var p := Turns(t)(m);
      assert p == OnePass(m, t);
      if p.Ran? {
        var m1 := m.(s := TakeHardware(m.s));
        var x := Prints(m1.s, t);
        StepWrites(m1, t);
        PrintsOne(m1.s, t);
        if x != [] { RoomForOne(m.consoleOut, x[0]); }
        assert Contents(p.m.consoleOut) == Contents(m.consoleOut) + x;
        if !p.waiting { RunLosesNothing(p.m, t, budget, cycles + CYCLES); }
      }
    }
  }

  lemma PrintsOne(s: State, t: Tables)
    ensures |Prints(s, t)| <= 1
  {}
}

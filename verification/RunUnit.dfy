/**
 The stepping machine in place (run.c): emu86_run and emu86_step_single on the machine
 object and the platform's console rings, proved equal to RunFrom and StepSingle.
 */
module RunUnit {
  import opened Words
  import opened State
  import opened Decode
  import opened Execute
  import opened Ring
  import opened Run
  import opened BatchLoop
  import opened Emulator
  import opened Accessors
  import opened ExecuteUnit

  /** Emu86Platform: the two console rings. A console that is not connected acts like a
      ring of size 1, which holds nothing. */
  class Platform {
    const consoleIn: RingBuf
    const consoleOut: RingBuf

    constructor (consoleIn: RingBuf, consoleOut: RingBuf)
      ensures this.consoleIn == consoleIn && this.consoleOut == consoleOut
    {
      this.consoleIn, this.consoleOut := consoleIn, consoleOut;
    }
  }

  ghost predicate Separate(e: Emu86State, p: Platform) {
    && e.Valid() && p.consoleIn != p.consoleOut && p.consoleIn.buf != p.consoleOut.buf
    && p.consoleIn.buf != e.mem && p.consoleIn.buf != e.io
    && p.consoleOut.buf != e.mem && p.consoleOut.buf != e.io
  }

  ghost predicate Connected(e: Emu86State, p: Platform)
    reads p.consoleIn, p.consoleIn.buf, p.consoleOut, p.consoleOut.buf
  {
    Separate(e, p) && p.consoleIn.Valid() && p.consoleOut.Valid()
  }

  ghost function ViewOf(e: Emu86State, p: Platform): Machine
    requires Connected(e, p)
    reads e, e.mem, e.io, p.consoleIn, p.consoleIn.buf, p.consoleOut, p.consoleOut.buf
  {
    Machine(e.View(), p.consoleIn.View(), p.consoleOut.View())
  }

  method DeliverHardware(e: Emu86State)
    requires e.Valid()
    modifies e, e.mem
    ensures e.View() == TakeHardware(old(e.View()))
  {
    hide Interrupt;
    if e.ctl.intPending != 0 && e.flags.intf && e.prefix.segEn == 0 && e.prefix.repEn == 0 {
      e.PcInterrupt(e.ctl.intVector);
      e.SetControl(e.ctl.(intPending := 0));
    }
  }

  method CountPrefixesDown(e: Emu86State)
    requires e.Valid()
    modifies e
    ensures e.View() == CountDown(old(e.View()))
  {
    if e.prefix.segEn > 0 { e.SetPrefix(e.prefix.(segEn := e.prefix.segEn - 1)); }
    if e.prefix.repEn > 0 { e.SetPrefix(e.prefix.(repEn := e.prefix.repEn - 1)); }
  }

  /** Execute, echo a PUTCHAR to the console, and advance IP. */
  method ExecuteDecoded(e: Emu86State, p: Platform, t: Tables, d: Decoded)
    requires Connected(e, p) && AddressInRange(d)
    modifies e, e.mem, e.io, p.consoleOut, p.consoleOut.buf
    ensures Connected(e, p)
    ensures ViewOf(e, p)
      == Machine(Perform(old(e.View()), t, d), old(p.consoleIn.View()), Echo(old(p.consoleOut.View()),
        old(e.View()), d))
  {
    hide Body, Write;
    if d.xlat == 48 && Lo(d.data0) == 0 {
      var rc := p.consoleOut.WriteByte(Lo(e.regs[AX]));
    }
    var jumped, length := ExecuteInstruction(e, t, d);
    if !jumped {
      e.SetIp(U16(e.ip as int + length as int));
    }
  }

  method CountInstruction(e: Emu86State)
    requires e.Valid()
    modifies e, e.mem
    ensures e.View() == CountAndTrap(old(e.View()))
  {
    hide Interrupt, U64;
    e.SetTiming(U64(e.instCount as int + 1), e.int8Asap);
    if e.ctl.trapFlag != 0 {
      e.PcInterrupt(1);
      e.SetControl(e.ctl.(trapFlag := 0));
    }
    if e.flags.tf { e.SetControl(e.ctl.(trapFlag := 1)); }
  }

  method PollTimer(e: Emu86State)
    requires e.Valid()
    modifies e
    ensures e.View() == Tick(old(e.View()))
  {
    if e.instCount % 20000 == 0 { e.SetTiming(e.instCount, 1); }
  }

  method ServiceTimer(e: Emu86State, p: Platform)
    requires Connected(e, p)
    modifies e, e.mem, p.consoleIn
    ensures Connected(e, p)
    ensures ViewOf(e, p) == TakeTimer(old(ViewOf(e, p)))
  {
    hide Interrupt, Read;
    if e.int8Asap != 0 && e.flags.intf && e.prefix.segEn == 0 && e.prefix.repEn == 0 {
      e.PcInterrupt(0xA);
      e.SetTiming(e.instCount, 0);
      var rc, key := p.consoleIn.ReadByte();
      if rc == 0 {
        e.MemWrite8(0x4A6, key);
        if key == 0x1B { e.SetTiming(e.instCount, 1); }
        e.PcInterrupt(7);
      }
    }
  }

  /** Steps 4 to 10 of the loop. */
  method Step(e: Emu86State, p: Platform, t: Tables)
    requires Connected(e, p)
    modifies e, e.mem, e.io, p.consoleIn, p.consoleOut, p.consoleOut.buf
    ensures Connected(e, p)
    ensures ViewOf(e, p) == StepBody(old(ViewOf(e, p)), t)
  {
    hide Perform, Echo, CountAndTrap, Tick, TakeTimer, DecodeAt, CountDown;
    CountPrefixesDown(e);
    var d := DecodeInstruction(e, t);
    ExecuteDecoded(e, p, t, d);
    CountInstruction(e);
    PollTimer(e);
    ServiceTimer(e, p);
  }

  method OutputIsWaiting(p: Platform) returns (waiting: bool)
    requires p.consoleOut.Valid()
    ensures waiting == OutputWaiting(p.consoleOut.View())
  {
    AvailableIsGap(p.consoleOut.View());
    var n := p.consoleOut.AvailableBytes();
    waiting := n > U32(p.consoleOut.buf.Length * 3) / 4;
  }

  /** emu86_run */
  method RunBatch(e: Emu86State, p: Platform, t: Tables, budget: u32) returns (reason: Reason, cycles: u32)
    requires Connected(e, p) && budget <= LARGEST
    modifies e, e.mem, e.io, p.consoleIn, p.consoleOut, p.consoleOut.buf
    ensures Connected(e, p)
    ensures BatchLoop.Yield(ViewOf(e, p), reason, cycles) == RunFrom(old(ViewOf(e, p)), t, budget, 0)
  {
    hide StepBody, TakeHardware, OutputWaiting;
    cycles := 0;
    while cycles < budget
      invariant Connected(e, p)
      invariant RunFrom(ViewOf(e, p), t, budget, cycles) == RunFrom(old(ViewOf(e, p)), t, budget, 0)
    {
      ghost var pass := Turns(t)(ViewOf(e, p));
      if e.sregs[CS] == 0 && e.ip == 0 { return EXIT, cycles; }
      DeliverHardware(e);
      if e.ctl.halted != 0 { return HALTED, cycles; }
      Step(e, p, t);
      cycles := cycles + 4;
      var waiting := OutputIsWaiting(p);
      if waiting { return IO_NEEDED, cycles; }
    }
    reason := BUDGET;
  }

  /** emu86_step_single */
  method StepOnce(e: Emu86State, p: Platform, t: Tables) returns (cycles: nat)
    requires Connected(e, p)
    modifies e, e.mem, e.io, p.consoleIn, p.consoleOut, p.consoleOut.buf
    ensures Connected(e, p) && cycles == 4
    ensures ViewOf(e, p) == Run.StepSingle(old(ViewOf(e, p)), t)
  {
    hide Perform, Echo, CountAndTrap, DecodeAt, CountDown;
    var d := DecodeInstruction(e, t);
    CountPrefixesDown(e);
    ExecuteDecoded(e, p, t, d);
    CountInstruction(e);
    cycles := 4;
  }
}

/**
 The stepping machine (run.c): one step of the batch loop, the loop itself with its
 yields, and the single step.
 */
module Run {
  import opened Words
  import opened State
  import opened Decode
  import opened Execute
  import opened Ring
  import opened BatchLoop

  /** The state with the two console rings of the platform. */
  datatype Machine = Machine(s: State, consoleIn: Ring, consoleOut: Ring)

  /** Interrupts are held back while a prefix is in force. */
  predicate NoPrefix(s: State) { s.prefix.segEn == 0 && s.prefix.repEn == 0 }

  predicate AtExit(s: State) { s.sregs[CS] == 0 && s.ip == 0 }

  predicate HardwareDue(s: State) { s.ctl.intPending != 0 && s.flags.intf && NoPrefix(s) }

  /** Deliver a pending hardware interrupt, if it may be delivered. */
  function TakeHardware(s: State): State {
    if HardwareDue(s)
    then var t := Interrupt(s, s.ctl.intVector); t.(ctl := t.ctl.(intPending := 0))
    else s
  }

  /** Count the two prefix countdowns down. */
  function CountDown(s: State): State {
    var p := s.prefix;
    s.(prefix := p.(segEn := if p.segEn > 0 then p.segEn - 1 else 0,
                    repEn := if p.repEn > 0 then p.repEn - 1 else 0))
  }

  /** Execute a decoded instruction and advance IP, on the state alone. */
  function Perform(s: State, t: Tables, d: Decoded): State
    requires AddressInRange(d)
  {
    var o := Body(s, t, d);
    if o.jumped then o.s else o.s.(ip := U16(o.s.ip as int + o.length as int))
  }

  /** The instruction is the emulator's PUTCHAR_AL call. */
  predicate IsPutchar(d: Decoded) { d.xlat == 48 && Lo(d.data0) == 0 }

  /** exec_bios_putchar drops the byte if the ring is full. */
  function Echo(out: Ring, s: State, d: Decoded): Ring {
    if IsPutchar(d) then Write(out, Lo(s.regs[AX])).0 else out
  }

  /** inst_count++, then the trap: INT 1 if one was latched, and latch TF for the next step. */
  function CountAndTrap(s: State): State {
    var s1 := s.(instCount := U64(s.instCount as int + 1));
    var s2 := if s1.ctl.trapFlag != 0
              then var t := Interrupt(s1, 1); t.(ctl := t.ctl.(trapFlag := 0))
              else s1;
    if s2.flags.tf then s2.(ctl := s2.ctl.(trapFlag := 1)) else s2
  }

  /** Every 20000 instructions a timer tick becomes due. */
  function Tick(s: State): State {
    if s.instCount % 20000 == 0 then s.(int8Asap := 1) else s
  }

  predicate TimerDue(s: State) { s.int8Asap != 0 && s.flags.intf && NoPrefix(s) }

  /** A key from the console goes to 0x4A6 and raises INT 7; ESC asks for another tick. */
  function TakeKey(s: State, key: u8): State {
    Interrupt(s.(mem := s.mem[0x4A6 := key], int8Asap := if key == 0x1B then 1 else s.int8Asap), 7)
  }

  function TakeTimer(m: Machine): Machine {
    if TimerDue(m.s) then
      var t := Interrupt(m.s, 0xA).(int8Asap := 0);
      match Read(m.consoleIn)
      case Empty => m.(s := t)
      case Got(ring, key) => m.(s := TakeKey(t, key), consoleIn := ring)
    else m
  }

  /** Steps 4 to 10 of the loop. */
  function StepBody(m: Machine, t: Tables): Machine {
    var s := CountDown(m.s);
    var d := DecodeAt(s, t);
    TakeTimer(Machine(Tick(CountAndTrap(Perform(s, t, d))), m.consoleIn, Echo(m.consoleOut, s, d)))
  }

  /** console_out is more than three quarters full (in uint32_t arithmetic). */
  predicate OutputWaiting(r: Ring) { Available(r) > U32(|r.buf| * 3) / 4 }

  /** One pass of the loop: exit address, hardware interrupt, HLT, instruction. */
  function OnePass(m: Machine, t: Tables): Turn<Machine> {
    if AtExit(m.s) then AtEnd(m)
    else
      var m1 := m.(s := TakeHardware(m.s));
      if m1.s.ctl.halted != 0 then Halted(m1)
      else
        var m2 := StepBody(m1, t);
        Ran(m2, OutputWaiting(m2.consoleOut))
  }

  function Turns(t: Tables): Machine -> Turn<Machine> { m => OnePass(m, t) }

  /** emu86_run, entered with `cycles` already used. */
  function RunFrom(m: Machine, t: Tables, budget: u32, cycles: u32): Yield<Machine>
    requires budget <= LARGEST
  {
    Loop(Turns(t), m, budget, cycles)
  }

  /** emu86_step_single: decode, count down, execute, trap. */
  function StepSingle(m: Machine, t: Tables): Machine {
    var d := DecodeAt(m.s, t);
    var s := CountDown(m.s);
    Machine(CountAndTrap(Perform(s, t, d)), m.consoleIn, Echo(m.consoleOut, s, d))
  }
}

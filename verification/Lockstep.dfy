/**
 The two emulators in lockstep: one instruction, one step and whole runs of emu86_run against
 the loop of the reference (main in reference/8086tiny.c), from the bytes at CS:IP to the last
 flag, the trap, the timer and the keyboard.
 */
module Lockstep {
  import opened Words
  import opened Flags
  import opened State
  import opened Decode
  import opened Execute
  import opened Ring
  import opened BatchLoop
  import opened Run
  import opened Yields
  import opened Addressing
  import opened InstructionReference
  import opened InstructionAgreement
  import opened ReferenceCases
  import opened DecodeAgreement
  import opened StackAgreement
  import opened ControlAgreement
  import opened TransferAgreement
  import opened OtherAgreement
  import opened ArithmeticAgreement
  import opened PlainFlags
  import opened Harness

  /** The tables of the BIOS image. */
  predicate TablesShipped(t: Tables) { ShippedTables(t) && WellFormedAddressing(t) }

  // ----- one instruction

  /** The instruction as the reference decodes and executes it, if this model holds its case. */
  predicate HasCase(s: State, t: Tables) { Executable(s, t, RefDecode(s, t)) }

  function RefInstruction(s: State, t: Tables, earlier: int): State
    requires HasCase(s, t)
  {
    RefExecute(s, t, RefDecode(s, t), earlier)
  }

  /** The instructions that leave another state in the reference: a far call, LAHF before the first
      POPF, HLT, OUT to port 0x61 between two bytes of a PIT word, a repeated comparison in a third
      REP mode, a failing division, a rotate by an immediate, and decimal and ASCII adjustments
      where DecimalDiffers, AsciiDiffers and MultiplyDiffers say so. */
  predicate Differs(s: State, d: Decoded, earlier: int)
    requires AddressInRange(d)
  {
    || d.xlat == 32 || (d.xlat == 36 && !s.flags.r1) || (IsHlt(d) && s.ctl.halted != 1)
    || OtherDiffers(s, d) || ArithmeticDiffers(s, d, earlier)
  }

  lemma OneGroup(s: State, d: Decoded, earlier: int)
    requires AddressInRange(d)
    ensures InArithmetic(d.xlat) ==> (Differs(s, d, earlier) <==> ArithmeticDiffers(s, d, earlier))
    ensures InControl(d.xlat) ==> (Differs(s, d, earlier) <==> d.xlat == 32)
    ensures InOther(d.xlat) ==> (Differs(s, d, earlier) <==> OtherDiffers(s, d))
    ensures !InArithmetic(d.xlat) && !InControl(d.xlat) && !InOther(d.xlat) ==>
      (Differs(s, d, earlier) <==> (d.xlat == 36 && !s.flags.r1) || (IsHlt(d) && s.ctl.halted != 1))
  {
    hide DivideFails, DecimalDiffers, AsciiDiffers, MultiplyDiffers, RefPort;
  }

  /** Every covered instruction, whatever its bytes, leaves the same state in both emulators
      exactly if it is not one of those. */
  lemma {:induction false} InstructionAgreesIff(s: State, t: Tables, earlier: int)
    requires TablesShipped(t) && Plain(s.flags) && Covered(s, DecodeAt(s, t))
    ensures HasCase(s, t) && AddressInRange(DecodeAt(s, t))
    ensures Perform(s, t, DecodeAt(s, t)) == RefInstruction(s, t, earlier) <==> !Differs(s, DecodeAt(s, t), earlier)
  {
    hide ShippedTables, WellFormedAddressing, Plain, Covered, DecodedBy, Executable, DecodeAt, RefDecode, Perform, Differs,
      RefArithmetic, RefControl, RefOther, RefTransfer, InArithmetic, InControl, InOther, ArithmeticDiffers, OtherDiffers;
    var d := DecodeAt(s, t);
    RefDecodes(s, t);
    DecodedByTables(s, t);
    Executes(s, t, d);
    InRange(s, t, d);
    OneGroup(s, d, earlier);
    PlainLow(s.flags);
    if InArithmetic(d.xlat) { ArithmeticAgreesIff(s, t, d, earlier); }
    else if InControl(d.xlat) { ControlAgreesIff(s, t, d); }
    else if InOther(d.xlat) { OtherAgreesIff(s, t, d); }
    else { TransferAgreesIff(s, t, d); }
  }

  lemma InRange(s: State, t: Tables, d: Decoded)
    requires Executable(s, t, d)
    ensures AddressInRange(d)
  {}

  lemma PlainLow(f: Flags)
    requires Plain(f)
    ensures !f.r3 && !f.r5
  {}

  // ----- one step

  /** PUTCHAR_AL writes AL to standard output, here the console ring. */
  function RefEcho(out: Ring, s: State, d: Decoded): Ring {
    if d.xlat == 48 && d.data0 % 0x100 == 0 then Write(out, FileByte(s, 0)).0 else out
  }

  /** seg_override_en and rep_override_en, one less if they are not 0. */
  function RefCountDown(s: State): State {
    var s1 := if s.prefix.segEn != 0 then s.(prefix := s.prefix.(segEn := s.prefix.segEn - 1)) else s;
    if s1.prefix.repEn != 0 then s1.(prefix := s1.prefix.(repEn := s1.prefix.repEn - 1)) else s1
  }

  /** One pass of the reference's loop. */
  function RefStep(m: Machine, t: Tables, earlier: int): Machine
    requires HasCase(RefCountDown(m.s), t)
  {
    var s := RefCountDown(m.s);
    var out := RefEcho(m.consoleOut, s, RefDecode(s, t));
    ReferenceTail(Machine(RefInstruction(s, t, earlier), m.consoleIn, out), t)
  }

  /** The reference's loop ends where the next opcode is the first byte of memory. */
  predicate RefEnds(s: State) { 16 * s.sregs[CS] as int + s.ip as int == 0 }

  lemma CountsAlike(s: State)
    ensures RefCountDown(s) == CountDown(s) && RefEnds(s) == AtExit(s) && CountDown(s).flags == s.flags
  {}

  lemma EchoesAlike(out: Ring, s: State, d: Decoded)
    ensures RefEcho(out, s, d) == Echo(out, s, d)
  {
    OperatorsAre();
    hide Write, Wrap;
  }

  /** The state behind our instruction, before the tail. */
  function Performed1(m: Machine, t: Tables): State {
    var s := CountDown(m.s);
    Perform(s, t, DecodeAt(s, t))
  }

  /** The tails of the two steps meet behind our instruction (see TailsAgreeIff). */
  predicate TailsMeetAt(m: Machine, t: Tables) {
    var p := Performed1(m, t);
    var c := U64(p.instCount as int + 1);
    TailsMeet(CountAndTrap(p), Latch(p.int8Asap, c), Latch(p.int8Asap, U32(c)))
  }

  /** The step is of a covered instruction that does not differ. */
  predicate Alike(m: Machine, t: Tables, earlier: int) {
    var s := CountDown(m.s);
    Covered(s, DecodeAt(s, t)) && !Differs(s, DecodeAt(s, t), earlier)
  }

  lemma {:induction false} StepParts(m: Machine, t: Tables)
    ensures var s := CountDown(m.s);
      StepBody(m, t) == OurTail(Machine(Performed1(m, t), m.consoleIn, Echo(m.consoleOut, s, DecodeAt(s, t))))
  {
    hide CountDown, DecodeAt, Perform, TakeTimer, Tick, CountAndTrap, Echo;
  }

  /** A step of such an instruction leaves equal machines, memory, ports, flags, counters and
      rings, exactly if the tails meet. */
  lemma {:induction false} StepAgreesIff(m: Machine, t: Tables, earlier: int)
    requires TablesShipped(t) && Plain(m.s.flags) && Alike(m, t, earlier)
    ensures HasCase(RefCountDown(m.s), t)
    ensures StepBody(m, t) == RefStep(m, t, earlier) <==> TailsMeetAt(m, t)
  {
    hide TablesShipped, Plain, Covered, Differs, DecodeAt, RefDecode, Perform, HasCase, RefInstruction, RefCountDown,
      CountDown, StepBody, ReferenceTail, OurTail, Echo, RefEcho, TailsMeet, CountAndTrap, Latch, U64, U32;
    var s := CountDown(m.s);
    var d := DecodeAt(s, t);
    CountsAlike(m.s);
    InstructionAgreesIff(s, t, earlier);
    Decodings(s, t);
    EchoesAlike(m.consoleOut, s, d);
    StepParts(m, t);
    PerformPlain(s, t, d);
    TailsAgree(Machine(Perform(s, t, d), m.consoleIn, Echo(m.consoleOut, s, d)), t);
  }

  lemma Decodings(s: State, t: Tables)
    requires TablesShipped(t)
    ensures RefDecode(s, t) == DecodeAt(s, t)
  {
    hide *;
    TablesBoth(t);
    RefDecodes(s, t);
  }

  lemma TablesBoth(t: Tables)
    ensures TablesShipped(t) <==> ShippedTables(t) && WellFormedAddressing(t)
  {
    hide ShippedTables, WellFormedAddressing;
  }

  lemma TailsAgree(m: Machine, t: Tables)
    requires TablesShipped(t) && Plain(m.s.flags)
    ensures var (x, c) := (CountAndTrap(m.s), U64(m.s.instCount as int + 1));
      OurTail(m) == ReferenceTail(m, t)
      <==> TailsMeet(x, Latch(m.s.int8Asap, c), Latch(m.s.int8Asap, U32(c)))
  {
    hide *;
    TablesBoth(t);
    TailsAgreeIff(m, t);
  }

  // ----- whole runs

  /** One pass of emu86_run that executes its instruction and does not return, and leaves what the
      reference leaves: no exit, HLT, pending hardware interrupt or crowded output. */
  predicate Together(m: Machine, t: Tables, earlier: int) {
    && !AtExit(m.s) && m.s.ctl.halted == 0 && !HardwareDue(m.s) && !Crowded(StepBody(m, t).consoleOut)
    && Alike(m, t, earlier) && TailsMeetAt(m, t)
  }

  /** Every pass of the run is such a pass; `results` are the values of op_result before each. */
  predicate AllTogether(m: Machine, t: Tables, results: seq<int>)
    decreases |results|
  {
    results == [] || (Together(m, t, results[0]) && AllTogether(StepBody(m, t), t, results[1..]))
  }

  /** A pass of the reference's loop; Over also where this model does not hold the case. */
  datatype Passed = Over | Went(m: Machine)

  function RefPass(m: Machine, t: Tables, earlier: int): Passed {
    if RefEnds(m.s) || !HasCase(RefCountDown(m.s), t) then Over else Went(RefStep(m, t, earlier))
  }

  /** |results| passes of it. */
  function RefRun(m: Machine, t: Tables, results: seq<int>): Passed
    decreases |results|
  {
    if results == [] then Went(m)
    else
      match RefPass(m, t, results[0])
      case Over => Over
      case Went(m1) => RefRun(m1, t, results[1..])
  }

  lemma {:induction false} PassTogether(m: Machine, t: Tables, earlier: int)
    requires Together(m, t, earlier)
    ensures OnePass(m, t) == Ran(StepBody(m, t), false)
  {
    hide StepBody, Crowded, Alike, TailsMeetAt, OutputWaiting, Interrupt;
    PassReasons(m, t);
    assert m.(s := TakeHardware(m.s)) == m;
  }

  /** emu86_run with a budget of 4n leaves, for every n, exactly the machine that n passes of the
      reference's loop leave, if every pass is such a pass. */
  lemma {:induction false} RunsInLockstep(m: Machine, t: Tables, results: seq<int>, budget: u32, cycles: u32)
    requires TablesShipped(t) && Plain(m.s.flags) && AllTogether(m, t, results)
    requires budget as int == cycles as int + CYCLES * |results| && budget <= LARGEST
    ensures var y := RunFrom(m, t, budget, cycles);
      y.reason == BUDGET && y.cycles == budget && RefRun(m, t, results) == Went(y.m)
    decreases |results|
  {
    hide TablesShipped, Plain, Alike, TailsMeetAt, StepBody, RefStep, OnePass, Crowded, HasCase, AtExit, RefEnds, HardwareDue;
    if results != [] {
      var next := StepBody(m, t);
      PassTogether(m, t, results[0]);
      CountsAlike(m.s);
      StepAgreesIff(m, t, results[0]);
      StepPlainly(m, t);
      RunsInLockstep(next, t, results[1..], budget, cycles + CYCLES);
      assert Turns(t)(m) == Ran(next, false);
    }
  }
}

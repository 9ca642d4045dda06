/**
 What steps and whole runs keep: the prefix state, the bound on its countdowns, and the
 instruction counter.
 */
module RunTheorems {
  import opened Words
  import opened State
  import opened Decode
  import opened Execute
  import opened Frames
  import opened Run
  import opened BatchLoop

  // ----- one step

  /** Perform adds IP to what BodyKeeps says. */
  lemma {:induction false} PerformKeeps(s: State, t: Tables, d: Decoded)
    requires AddressInRange(d)
    ensures var r := Perform(s, t, d);
      && r.prefix == PrefixAfter(s.prefix, d)
      && r.ctl == (if d.xlat == 53 && d.opcode == 0xF4 then s.ctl.(halted := 1) else s.ctl)
      && r.instCount == s.instCount && r.int8Asap == s.int8Asap
  {
    BodyKeeps(s, t, d);
    hide Body, PrefixAfter;
  }

  lemma {:induction false} CountAndTrapKeeps(s: State)
    ensures var r := CountAndTrap(s);
      r.prefix == s.prefix && r.instCount == U64(s.instCount as int + 1) && r.int8Asap == s.int8Asap
  {
    hide Interrupt, U64;
    InterruptKeeps(s.(instCount := U64(s.instCount as int + 1)), 1);
  }

  lemma {:induction false} TakeTimerKeeps(m: Machine)
    ensures TakeTimer(m).s.prefix == m.s.prefix && TakeTimer(m).s.instCount == m.s.instCount
    ensures TakeTimer(m).s.ctl == m.s.ctl && TakeTimer(m).consoleOut == m.consoleOut
  {}

  /** The prefix state after a step is decided by its instruction alone, and every step
      counts one instruction. */
  lemma {:induction false} StepKeeps(m: Machine, t: Tables)
    ensures var s := CountDown(m.s); var d := DecodeAt(s, t); var r := StepBody(m, t);
      r.s.prefix == PrefixAfter(s.prefix, d) && r.s.instCount == U64(m.s.instCount as int + 1)
  {
    hide Perform, CountAndTrap, TakeTimer, PrefixAfter, DecodeAt, Echo, U64;
    var s := CountDown(m.s);
    var d := DecodeAt(s, t);
    DecodedInRange(s, t);
    PerformKeeps(s, t, d);
    CountAndTrapKeeps(Perform(s, t, d));
    TakeTimerKeeps(Machine(Tick(CountAndTrap(Perform(s, t, d))), m.consoleIn, Echo(m.consoleOut, s, d)));
  }

  lemma {:induction false} TakeHardwareKeeps(s: State)
    ensures TakeHardware(s).prefix == s.prefix && TakeHardware(s).instCount == s.instCount
  {}

  // ----- the prefix countdowns

  predicate Bounded(s: State) { s.prefix.segEn <= 2 && s.prefix.repEn <= 2 }

  lemma {:induction false} StepBounded(m: Machine, t: Tables)
    requires Bounded(m.s)
    ensures Bounded(StepBody(m, t).s)
  {
    hide StepBody, DecodeAt;
    StepKeeps(m, t);
  }

  lemma {:induction false} PassBounded(m: Machine, t: Tables)
    requires Bounded(m.s)
    ensures Bounded(OnePass(m, t).m.s)
  {
    hide StepBody, TakeHardware, OutputWaiting;
    TakeHardwareKeeps(m.s);
    StepBounded(m.(s := TakeHardware(m.s)), t);
  }

  /** In every state that a run reaches, both countdowns are at most 2. */
  lemma {:induction false} RunBounded(m: Machine, t: Tables, budget: u32, cycles: u32)
    requires budget <= LARGEST && Bounded(m.s)
    ensures Bounded(RunFrom(m, t, budget, cycles).m.s)
  {
    hide OnePass, Loop;
    forall x: Machine | Bounded(x.s)
      ensures Bounded(Turns(t)(x).m.s)
    {
      PassBounded(x, t);
    }
    LoopKeeps(Turns(t), (x: Machine) => Bounded(x.s), m, budget, cycles);
  }

  lemma {:induction false} SingleBounded(m: Machine, t: Tables)
    requires Bounded(m.s)
    ensures Bounded(StepSingle(m, t).s)
  {
    hide Perform, CountAndTrap, DecodeAt;
    var d, s := DecodeAt(m.s, t), CountDown(m.s);
    DecodedInRange(m.s, t);
    PerformKeeps(s, t, d);
    CountAndTrapKeeps(Perform(s, t, d));
  }

  // ----- the REP mode

  lemma {:induction false} PassRepMode(m: Machine, t: Tables)
    requires m.s.prefix.repMode <= 1
    ensures OnePass(m, t).m.s.prefix.repMode <= 1
  {
    hide StepBody, TakeHardware, OutputWaiting, DecodeAt;
    TakeHardwareKeeps(m.s);
    StepKeeps(m.(s := TakeHardware(m.s)), t);
  }

  /** rep_mode is 0 or 1 in every state that a run reaches from such a state. */
  lemma {:induction false} RunRepMode(m: Machine, t: Tables, budget: u32, cycles: u32)
    requires budget <= LARGEST && m.s.prefix.repMode <= 1
    ensures RunFrom(m, t, budget, cycles).m.s.prefix.repMode <= 1
  {
    hide OnePass, Loop;
    forall x: Machine | x.s.prefix.repMode <= 1
      ensures Turns(t)(x).m.s.prefix.repMode <= 1
    {
      PassRepMode(x, t);
    }
    LoopKeeps(Turns(t), (x: Machine) => x.s.prefix.repMode <= 1, m, budget, cycles);
  }

  // ----- the trap latch

  /** With TF set, the trap of the next instruction is latched. */
  predicate TrapLatched(s: State) { s.flags.tf ==> s.ctl.trapFlag != 0 }

  /** Every executed instruction leaves it so, whatever it started from. */
  lemma {:induction false} StepLatches(m: Machine, t: Tables)
    ensures TrapLatched(StepBody(m, t).s)
  {
    hide Perform, DecodeAt, Echo, U64, Interrupt;
    var s := CountDown(m.s);
    var d := DecodeAt(s, t);
    DecodedInRange(s, t);
    TimerLatches(Machine(Tick(CountAndTrap(Perform(s, t, d))), m.consoleIn, Echo(m.consoleOut, s, d)));
  }

  lemma TimerLatches(m: Machine)
    requires TrapLatched(m.s)
    ensures TrapLatched(TakeTimer(m).s)
  {}

  lemma {:induction false} PassLatches(m: Machine, t: Tables)
    requires TrapLatched(m.s)
    ensures TrapLatched(OnePass(m, t).m.s)
  {
    hide StepBody, OutputWaiting;
    StepLatches(m.(s := TakeHardware(m.s)), t);
  }

  lemma {:induction false} RunLatches(m: Machine, t: Tables, budget: u32, cycles: u32)
    requires budget <= LARGEST && TrapLatched(m.s)
    ensures TrapLatched(RunFrom(m, t, budget, cycles).m.s)
  {
    hide OnePass, Loop, TrapLatched;
    forall x: Machine | TrapLatched(x.s)
      ensures TrapLatched(Turns(t)(x).m.s)
    {
      PassLatches(x, t);
    }
    LoopKeeps(Turns(t), (x: Machine) => TrapLatched(x.s), m, budget, cycles);
  }

  // ----- cycle accounting

  lemma {:induction false} PassCounts(m: Machine, t: Tables)
    ensures var r := OnePass(m, t);
      r.m.s.instCount == U64(m.s.instCount + if r.Ran? then 1 else 0)
  {
    hide StepBody, TakeHardware, OutputWaiting, U64, CountDown, DecodeAt, PrefixAfter;
    CountsAdd(m.s.instCount, 0, 0);
    TakeHardwareKeeps(m.s);
    StepKeeps(m.(s := TakeHardware(m.s)), t);
  }

  /** For every yield reason, cycles_used is four times the instructions that inst_count
      counted. */
  lemma {:induction false} RunCycles(m: Machine, t: Tables, budget: u32, cycles: u32) returns (n: nat)
    requires budget <= LARGEST
    ensures var y := RunFrom(m, t, budget, cycles);
      y.cycles == cycles + CYCLES * n && y.m.s.instCount == U64(m.s.instCount + n)
  {
    hide OnePass, Loop, U64;
    n := Instructions(Turns(t), m, budget, cycles);
    CyclesCount(Turns(t), m, budget, cycles);
    forall x: Machine
      ensures var r := Turns(t)(x); r.m.s.instCount == U64(x.s.instCount + if r.Ran? then 1 else 0)
    {
      PassCounts(x, t);
    }
    CounterCounts(Turns(t), (x: Machine) => x.s.instCount, m, budget, cycles);
  }

  // ----- budgets

  /** A run that ends in BUDGET is continued by the next one as if it had never stopped. */
  lemma {:induction false} RunContinues(m: Machine, t: Tables, budget: u32, total: u32, cycles: u32)
    requires budget <= total <= LARGEST && RunFrom(m, t, budget, cycles).reason == BUDGET
    ensures var y := RunFrom(m, t, budget, cycles);
      RunFrom(m, t, total, cycles) == RunFrom(y.m, t, total, y.cycles)
  {
    hide Loop;
    Continues(Turns(t), m, budget, total, cycles);
  }

  lemma {:induction false} RunShifts(m: Machine, t: Tables, budget: u32, cycles: u32, k: u32)
    requires budget + k <= LARGEST && cycles + k < 0x1_0000_0000
    ensures var (y, z) := (RunFrom(m, t, budget, cycles), RunFrom(m, t, budget + k, cycles + k));
      z.m == y.m && z.reason == y.reason && z.cycles == y.cycles + k
  {
    hide Loop;
    Shifts(Turns(t), m, budget, cycles, k);
  }

  /** A run that ends in BUDGET has used the budget, rounded up to a multiple of 4. */
  lemma {:induction false} RunBudgetReached(m: Machine, t: Tables, budget: u32)
    requires budget <= LARGEST && RunFrom(m, t, budget, 0).reason == BUDGET
    ensures RunFrom(m, t, budget, 0).cycles == (budget + 3) / CYCLES * CYCLES
  {
    hide Loop;
    BudgetReached(Turns(t), m, budget, 0);
    LoopOfNone(Turns(t), m);
  }

  /** emu86_run(b1) that ends in BUDGET and then emu86_run(b2) are one emu86_run of b1,
      rounded up to a multiple of 4, plus b2. */
  lemma {:induction false} RunSplits(m: Machine, t: Tables, b1: u32, b2: u32)
    requires (b1 + 3) / CYCLES * CYCLES + b2 <= LARGEST && RunFrom(m, t, b1, 0).reason == BUDGET
    ensures var y1 := RunFrom(m, t, b1, 0);
      var (y2, y) := (RunFrom(y1.m, t, b2, 0), RunFrom(m, t, (b1 + 3) / CYCLES * CYCLES + b2, 0));
      y.m == y2.m && y.reason == y2.reason && y.cycles == y1.cycles + y2.cycles
  {
    hide Loop;
    Splits(Turns(t), m, b1, b2);
  }

  /** emu86_run with its uint32_t counter as it is ends for every budget up to LARGEST,
      after at most budget / 4 instructions, rounded up ... */
  lemma {:induction false} RunEnds(m: Machine, t: Tables, budget: u32, fuel: nat)
    requires budget <= LARGEST && budget <= CYCLES * fuel
    ensures Wrapped(Turns(t), m, budget, 0, fuel) == Ended(RunFrom(m, t, budget, 0))
  {
    hide Loop, Wrapped;
    LoopEnds(Turns(t), m, budget, 0, fuel);
  }

  /** ... and never yields BUDGET for a larger one, however many instructions run. */
  lemma {:induction false} LargeBudgetNeverReached(m: Machine, t: Tables, budget: u32, fuel: nat)
    requires budget > LARGEST
    ensures var r := Wrapped(Turns(t), m, budget, 0, fuel); r.Ended? ==> r.y.reason != BUDGET
  {
    hide Wrapped;
    BudgetNeverReached(Turns(t), m, budget, 0, fuel);
  }
}

/**
 The batch loop of emu86_run (run.c) around one pass of it: cycle accounting, splitting a
 budget, and the wrap of the 32-bit cycle counter. What a pass does is a parameter, so all
 of this holds whatever the instructions are.
 */
module BatchLoop {
  import opened Words

  datatype Reason = BUDGET | HALTED | IO_NEEDED | EXIT

  /** One pass: the machine is at the exit address, or halted, or ran an instruction after
      which the console output may be waiting. */
  datatype Turn<M> = AtEnd(m: M) | Halted(m: M) | Ran(m: M, waiting: bool)

  /** The machine when emu86_run returns, with yield->reason and yield->cycles_used. */
  datatype Yield<M> = Yield(m: M, reason: Reason, cycles: u32)

  const CYCLES := 4
  const LARGEST: u32 := 0xFFFF_FFFC

  /** The loop, entered with `cycles` already used. It ends for every budget up to LARGEST;
      above that the uint32_t counter wraps past the budget (see BudgetNeverReached). */
  function Loop<M>(turn: M -> Turn<M>, m: M, budget: u32, cycles: u32): Yield<M>
    requires budget <= LARGEST
    decreases if cycles < budget then budget - cycles else 0
  {
    if cycles >= budget then Yield(m, BUDGET, cycles)
    else
      match turn(m)
      case AtEnd(m1) => Yield(m1, EXIT, cycles)
      case Halted(m1) => Yield(m1, HALTED, cycles)
      case Ran(m1, waiting) =>
        if waiting then Yield(m1, IO_NEEDED, cycles + CYCLES) else Loop(turn, m1, budget, cycles + CYCLES)
  }

  /** What every pass keeps holds when the loop returns. */
  lemma {:induction false} LoopKeeps<M(!new)>(turn: M -> Turn<M>, p: M -> bool, m: M, budget: u32, cycles: u32)
    requires budget <= LARGEST && p(m) && forall x :: p(x) ==> p(turn(x).m)
    ensures p(Loop(turn, m, budget, cycles).m)
    decreases if cycles < budget then budget - cycles else 0
  {
    if cycles < budget && turn(m).Ran? && !turn(m).waiting {
      LoopKeeps(turn, p, turn(m).m, budget, cycles + CYCLES);
    }
  }

  /** Passes that ran an instruction. */
  function Instructions<M>(turn: M -> Turn<M>, m: M, budget: u32, cycles: u32): nat
    requires budget <= LARGEST
    decreases if cycles < budget then budget - cycles else 0
  {
    if cycles >= budget || !turn(m).Ran? then 0
    else 1 + if turn(m).waiting then 0 else Instructions(turn, turn(m).m, budget, cycles + CYCLES)
  }

  /** For every yield reason, cycles_used is four times the instructions executed. */
  lemma {:induction false} CyclesCount<M>(turn: M -> Turn<M>, m: M, budget: u32, cycles: u32)
    requires budget <= LARGEST
    ensures Loop(turn, m, budget, cycles).cycles == cycles + CYCLES * Instructions(turn, m, budget, cycles)
    decreases if cycles < budget then budget - cycles else 0
  {
    if cycles < budget && turn(m).Ran? && !turn(m).waiting {
      CyclesCount(turn, turn(m).m, budget, cycles + CYCLES);
    }
  }

  /** A uint64_t counter that each instruction increments has counted them. */
  lemma {:induction false} CounterCounts<M(!new)>(turn: M -> Turn<M>, count: M -> u64, m: M, budget: u32, cycles: u32)
    requires budget <= LARGEST
    requires forall x :: count(turn(x).m) == U64(count(x) + if turn(x).Ran? then 1 else 0)
    ensures count(Loop(turn, m, budget, cycles).m) == U64(count(m) + Instructions(turn, m, budget, cycles))
    decreases if cycles < budget then budget - cycles else 0
  {
    hide U64;
    CountsAdd(count(m), 1, 0);
    if cycles < budget && turn(m).Ran? && !turn(m).waiting {
      CounterCounts(turn, count, turn(m).m, budget, cycles + CYCLES);
      CountsAdd(count(m), 1, Instructions(turn, turn(m).m, budget, cycles + CYCLES));
    }
  }

  lemma CountsAdd(c: u64, j: nat, k: nat)
    ensures U64(U64(c + j) + k) == U64(c + (j + k)) && U64(c + 0) == c
  {
    hide Wrap, Rem, Quot;
    OperatorsAre();
  }

  /** A run that ends in BUDGET can be continued under a larger budget as if it had never
      stopped. */
  lemma {:induction false} Continues<M>(turn: M -> Turn<M>, m: M, budget: u32, total: u32, cycles: u32)
    requires budget <= total <= LARGEST && Loop(turn, m, budget, cycles).reason == BUDGET
    ensures var y := Loop(turn, m, budget, cycles); Loop(turn, m, total, cycles) == Loop(turn, y.m, total, y.cycles)
    decreases if cycles < budget then budget - cycles else 0
  {
    if cycles < budget {
      Continues(turn, turn(m).m, budget, total, cycles + CYCLES);
    }
  }

  /** Only the cycles left matter, not where the counter stands. */
  lemma {:induction false} Shifts<M>(turn: M -> Turn<M>, m: M, budget: u32, cycles: u32, k: u32)
    requires budget + k <= LARGEST && cycles + k < 0x1_0000_0000
    ensures var (y, z) := (Loop(turn, m, budget, cycles), Loop(turn, m, budget + k, cycles + k));
      z.m == y.m && z.reason == y.reason && z.cycles == y.cycles + k
    decreases if cycles < budget then budget - cycles else 0
  {
    if cycles < budget && turn(m).Ran? && !turn(m).waiting {
      Shifts(turn, turn(m).m, budget, cycles + CYCLES, k);
    }
  }

  /** The cycles of a run that ends in BUDGET are the budget, rounded up to a multiple of 4. */
  lemma {:induction false} BudgetReached<M>(turn: M -> Turn<M>, m: M, budget: u32, cycles: u32)
    requires budget <= LARGEST && cycles % CYCLES == 0 && Loop(turn, m, budget, cycles).reason == BUDGET
    ensures Loop(turn, m, budget, cycles).cycles == if cycles >= budget then cycles else (budget + 3) / CYCLES * CYCLES
    decreases if cycles < budget then budget - cycles else 0
  {
    if cycles < budget {
      BudgetReached(turn, turn(m).m, budget, cycles + CYCLES);
    }
  }

  /** Splitting a run: run(b1) that ends in BUDGET, then run(b2), is one run whose budget is
      b1, rounded up, plus b2; so run(b1 + b2) if b1 is a multiple of 4. */
  lemma {:induction false} Splits<M>(turn: M -> Turn<M>, m: M, b1: u32, b2: u32)
    requires (b1 + 3) / CYCLES * CYCLES + b2 <= LARGEST && Loop(turn, m, b1, 0).reason == BUDGET
    ensures var y1 := Loop(turn, m, b1, 0);
      var (y2, y) := (Loop(turn, y1.m, b2, 0), Loop(turn, m, (b1 + 3) / CYCLES * CYCLES + b2, 0));
      y.m == y2.m && y.reason == y2.reason && y.cycles == y1.cycles + y2.cycles
  {
    hide Loop;
    var y1 := Loop(turn, m, b1, 0);
    BudgetReached(turn, m, b1, 0);
    assert y1.cycles == (b1 + 3) / CYCLES * CYCLES by { LoopOfNone(turn, m); }
    Continues(turn, m, b1, y1.cycles + b2, 0);
    Shifts(turn, y1.m, b2, 0, y1.cycles);
  }

  lemma LoopOfNone<M>(turn: M -> Turn<M>, m: M)
    ensures Loop(turn, m, 0, 0) == Yield(m, BUDGET, 0)
  {}

  // ----- the wrap of the cycle counter

  datatype Fueled<M> = Running | Ended(y: Yield<M>)

  /** The loop with its uint32_t counter as it is, for at most `fuel` instructions. */
  function Wrapped<M>(turn: M -> Turn<M>, m: M, budget: u32, cycles: u32, fuel: nat): Fueled<M>
    decreases fuel
  {
    if cycles >= budget then Ended(Yield(m, BUDGET, cycles))
    else
      match turn(m)
      case AtEnd(m1) => Ended(Yield(m1, EXIT, cycles))
      case Halted(m1) => Ended(Yield(m1, HALTED, cycles))
      case Ran(m1, waiting) =>
        if fuel == 0 then Running
        else if waiting then Ended(Yield(m1, IO_NEEDED, U32(cycles as int + CYCLES)))
        else Wrapped(turn, m1, budget, U32(cycles as int + CYCLES), fuel - 1)
  }

  /** With a budget up to LARGEST the loop ends, and Loop is its result ... */
  lemma {:induction false} LoopEnds<M>(turn: M -> Turn<M>, m: M, budget: u32, cycles: u32, fuel: nat)
    requires budget <= LARGEST && budget as int - cycles as int <= CYCLES * fuel
    ensures Wrapped(turn, m, budget, cycles, fuel) == Ended(Loop(turn, m, budget, cycles))
    decreases fuel
  {
    if cycles < budget && turn(m).Ran? && !turn(m).waiting {
      LoopEnds(turn, turn(m).m, budget, cycles + CYCLES, fuel - 1);
    }
  }

  lemma CounterWraps(c: u32)
    requires c % CYCLES == 0
    ensures c <= LARGEST && U32(c as int + CYCLES) % CYCLES == 0
  {}

  /** ... but with a larger budget it never ends for the reason BUDGET: the counter wraps
      to 0 before it reaches the budget. */
  lemma {:induction false} BudgetNeverReached<M>(turn: M -> Turn<M>, m: M, budget: u32, cycles: u32, fuel: nat)
    requires budget > LARGEST && cycles % CYCLES == 0
    ensures var r := Wrapped(turn, m, budget, cycles, fuel); r.Ended? ==> r.y.reason != BUDGET
    decreases fuel
  {
    CounterWraps(cycles);
    hide U32;
    if fuel > 0 && turn(m).Ran? && !turn(m).waiting {
      BudgetNeverReached(turn, turn(m).m, budget, U32(cycles as int + CYCLES), fuel - 1);
    }
  }
}

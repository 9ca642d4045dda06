/**
 The scope of instruction prefixes in emu86_run: a chain of segment-override and REP
 prefixes of any length reaches exactly the next instruction, and nothing is delivered
 in between.
 */
module PrefixScope {
  import opened Words
  import opened Flags
  import opened State
  import opened Decode
  import opened Execute
  import opened Frames
  import opened Run
  import opened BatchLoop
  import Interrupts
  import opened RunTheorems
  import opened Yields

  const REP := 23
  const OVERRIDE := 27

  /** The decode tables describe `op` as a one-byte prefix. */
  predicate IsPrefixOp(t: Tables, op: u8) {
    && (At(t, XLAT_OPCODE, op) == REP || At(t, XLAT_OPCODE, op) == OVERRIDE)
    && At(t, I_MOD_SIZE, op) == 0 && At(t, BASE_INST_SIZE, op) == 1 && At(t, I_W_SIZE, op) == 0
  }

  /** The bytes of memory from CS:IP on, where IP wraps at 64 KB, are the prefixes `ops`. */
  predicate ChainAt(s: State, t: Tables, ops: seq<u8>) {
    forall i :: 0 <= i < |ops| ==> FetchByte(s, i) == ops[i] && IsPrefixOp(t, ops[i])
  }

  function FetchByte(s: State, i: nat): u8 { s.mem[Linear(s.sregs[CS], Add16(s.ip, i))] }

  /** One pass of the run loop that executes an instruction. */
  function Turn(m: Machine, t: Tables): Machine {
    StepBody(m.(s := TakeHardware(m.s)), t)
  }

  function After(m: Machine, t: Tables, n: nat): Machine {
    if n == 0 then m else Turn(After(m, t, n - 1), t)
  }

  /** Index of the last of `ops` that is translated to x, or -1. */
  function Last(t: Tables, ops: seq<u8>, x: u8): (k: int)
    ensures -1 <= k < |ops|
    ensures k >= 0 ==> At(t, XLAT_OPCODE, ops[k]) == x
    ensures forall j :: k < j < |ops| ==> At(t, XLAT_OPCODE, ops[j]) != x
  {
    if ops == [] then -1
    else if At(t, XLAT_OPCODE, ops[|ops| - 1]) == x then |ops| - 1
    else Last(t, ops[..|ops| - 1], x)
  }

  /** The prefix state in which the chain should leave the machine: the last override and
      the last REP mode, each in force iff the chain has one. */
  function Scope(p: Prefix, t: Tables, ops: seq<u8>): Prefix {
    var k, r := Last(t, ops, OVERRIDE), Last(t, ops, REP);
    Prefix(if k >= 0 then 2 else 0, if k >= 0 then U8(At(t, XLAT_SUBFUNCTION, ops[k]) as int - 8) else p.seg,
           if r >= 0 then 2 else 0, if r >= 0 then Rem(ops[r], 2) else p.repMode)
  }

  /** int8_asap after n instructions that deliver no timer tick. */
  function TickAfter(count: u64, asap: u8, n: nat): u8 {
    if n == 0 then asap
    else if U64(count as int + n) % 20000 == 0 then 1
    else TickAfter(count, asap, n - 1)
  }

  /** The machine after a chain: IP, the instruction counter, the prefix state, the timer
      latch and the trap latch moved; registers, memory, stack and rings did not. */
  function ChainResult(m: Machine, t: Tables, ops: seq<u8>): Machine {
    var n := |ops|;
    m.(s := m.s.(ip := Add16(m.s.ip, n), instCount := U64(m.s.instCount as int + n),
                 prefix := Scope(m.s.prefix, t, ops),
                 int8Asap := TickAfter(m.s.instCount, m.s.int8Asap, n),
                 ctl := if n > 0 && m.s.flags.tf then m.s.ctl.(trapFlag := 1) else m.s.ctl))
  }

  /** What a chain starts from: no prefix in force and no hardware interrupt to deliver. */
  predicate Fresh(m: Machine) { NoPrefix(m.s) && !HardwareDue(m.s) }

  /** No trap is latched, and none will be before the chain ends. */
  predicate Untrapped(s: State, n: nat) { s.ctl.trapFlag == 0 && (s.flags.tf ==> n <= 1) }

  lemma {:induction false} PrefixDecoded(s: State, t: Tables)
    requires IsPrefixOp(t, s.mem[FetchAddress(s)])
    ensures var op, d := s.mem[FetchAddress(s)], DecodeAt(s, t);
      && d.xlat == At(t, XLAT_OPCODE, op) && d.extra == At(t, XLAT_SUBFUNCTION, op)
      && d.wide == (Rem(op, 2) == 1) && d.length == 1
  {
    hide Read16, Linear, EffectiveAddress, SignExtend;
  }

  lemma {:induction false} PrefixBody(s: State, t: Tables, d: Decoded)
    requires AddressInRange(d) && (d.xlat == REP || d.xlat == OVERRIDE) && d.length == 1
    ensures Perform(s, t, d) == s.(ip := Add16(s.ip, 1),
      prefix := if d.xlat == REP then RepPrefix(s.prefix, d.wide) else SegmentPrefix(s.prefix, SRegIndex(d)))
  {
    hide RepPrefix, SegmentPrefix, Arithmetic, Transfer, ControlFlow;
  }

  /** The prefix state that one more prefix leaves. */
  function PrefixStep(p: Prefix, t: Tables, op: u8): Prefix {
    var q := p.(segEn := if p.segEn > 0 then p.segEn - 1 else 0, repEn := if p.repEn > 0 then p.repEn - 1 else 0);
    if At(t, XLAT_OPCODE, op) == REP then RepPrefix(q, Rem(op, 2) == 1)
    else SegmentPrefix(q, U8(At(t, XLAT_SUBFUNCTION, op) as int - 8))
  }

  /** The machine after one prefix instruction that nothing interrupts. */
  function Advance(m: Machine, t: Tables, op: u8): Machine {
    m.(s := m.s.(ip := Add16(m.s.ip, 1), instCount := U64(m.s.instCount as int + 1),
                 prefix := PrefixStep(m.s.prefix, t, op),
                 int8Asap := if U64(m.s.instCount as int + 1) % 20000 == 0 then 1 else m.s.int8Asap,
                 ctl := if m.s.flags.tf then m.s.ctl.(trapFlag := 1) else m.s.ctl))
  }

  lemma {:induction false} PrefixStepInForce(s: State, t: Tables, d: Decoded, op: u8)
    requires d.xlat == At(t, XLAT_OPCODE, op) && d.extra == At(t, XLAT_SUBFUNCTION, op) && d.wide == (Rem(op, 2) == 1)
    requires d.xlat == REP || d.xlat == OVERRIDE
    ensures var p, q := CountDown(s).prefix, PrefixStep(s.prefix, t, op);
      && q == (if d.xlat == REP then RepPrefix(p, d.wide) else SegmentPrefix(p, SRegIndex(d)))
      && (q.segEn != 0 || q.repEn != 0)
  {}

  /** The byte at CS:IP is the prefix op. */
  predicate PrefixNext(s: State, t: Tables, op: u8) { s.mem[FetchAddress(s)] == op && IsPrefixOp(t, op) }

  /** One prefix instruction, with no interrupt and no trap to deliver. */
  lemma {:induction false} PrefixTurn(m: Machine, t: Tables, op: u8)
    ensures PrefixNext(m.s, t, op) && !HardwareDue(m.s) && m.s.ctl.trapFlag == 0 ==>
      Turn(m, t) == Advance(m, t, op)
  {
    hide *;
    if PrefixNext(m.s, t, op) && !HardwareDue(m.s) && m.s.ctl.trapFlag == 0 {
      var d := DecodeAt(CountDown(m.s), t);
      PrefixPerformed(m.s, t, d, op);
      NotTaken(m.s);
      TurnIs(m, t, d);
      AdvanceIs(m, t, op);
    }
  }

  /** A step up to its tail, for a prefix. */
  lemma {:induction false} PrefixPerformed(s: State, t: Tables, d: Decoded, op: u8)
    requires PrefixNext(s, t, op) && d == DecodeAt(CountDown(s), t)
    ensures AddressInRange(d) && !IsPutchar(d)
    ensures var p := PrefixStep(s.prefix, t, op);
      Perform(CountDown(s), t, d) == s.(ip := Add16(s.ip, 1), prefix := p) && (p.segEn != 0 || p.repEn != 0)
  {
    hide DecodeAt, Perform, FetchAddress, PrefixStep, RepPrefix, SegmentPrefix, SRegIndex, At, Add16;
    var c := CountDown(s);
    FetchCounted(s);
    PrefixDecoded(c, t);
    DecodedInRange(c, t);
    PrefixStepInForce(s, t, d, op);
    PrefixBody(c, t, d);
  }

  lemma {:induction false} AdvanceIs(m: Machine, t: Tables, op: u8)
    requires m.s.ctl.trapFlag == 0
    requires var p := PrefixStep(m.s.prefix, t, op); p.segEn != 0 || p.repEn != 0
    ensures var e := m.s.(ip := Add16(m.s.ip, 1), prefix := PrefixStep(m.s.prefix, t, op));
      TakeTimer(m.(s := Tick(CountAndTrap(e)))) == Advance(m, t, op)
  {}

  lemma FetchCounted(s: State)
    ensures FetchAddress(CountDown(s)) == FetchAddress(s)
  {
    hide Linear;
  }

  lemma TurnIs(m: Machine, t: Tables, d: Decoded)
    requires TakeHardware(m.s) == m.s && d == DecodeAt(CountDown(m.s), t) && AddressInRange(d) && !IsPutchar(d)
    ensures Turn(m, t) == TakeTimer(m.(s := Tick(CountAndTrap(Perform(CountDown(m.s), t, d)))))
  {
    hide TakeTimer, Tick, CountAndTrap, Perform, CountDown, DecodeAt, TakeHardware, IsPutchar;
  }

  lemma NotTaken(s: State)
    requires !HardwareDue(s)
    ensures TakeHardware(s) == s
  {
    hide HardwareDue;
  }

  lemma {:induction false} ScopeAppends(p: Prefix, t: Tables, ops: seq<u8>)
    requires ops != [] && IsPrefixOp(t, ops[|ops| - 1])
    ensures Scope(p, t, ops) == PrefixStep(Scope(p, t, ops[..|ops| - 1]), t, ops[|ops| - 1])
  {}

  lemma TickAppends(count: u64, asap: u8, n: nat)
    ensures U64(U64(count as int + n) as int + 1) == U64(count as int + (n + 1))
    ensures TickAfter(count, asap, n + 1)
         == if U64(count as int + (n + 1)) % 20000 == 0 then 1 else TickAfter(count, asap, n)
  {
    hide Wrap, Rem, Quot;
    OperatorsAre();
  }

  lemma {:induction false} ResultAppends(m: Machine, t: Tables, ops: seq<u8>)
    requires ops != [] && IsPrefixOp(t, ops[|ops| - 1])
    ensures ChainResult(m, t, ops) == Advance(ChainResult(m, t, ops[..|ops| - 1]), t, ops[|ops| - 1])
  {
    hide Scope, PrefixStep, TickAfter, Add16, U64, IsPrefixOp;
    var n := |ops| - 1;
    ScopeAppends(m.s.prefix, t, ops);
    TickAppends(m.s.instCount, m.s.int8Asap, n);
    Add16Twice(m.s.ip, n, 1);
  }

  /** Between two prefixes of a chain no interrupt is deliverable ... */
  lemma {:induction false} ResultQuiet(m: Machine, t: Tables, ops: seq<u8>)
    requires Fresh(m) && ChainAt(m.s, t, ops)
    ensures var r := ChainResult(m, t, ops);
      && !HardwareDue(r.s) && (ops != [] ==> !NoPrefix(r.s))
      && r.s.ctl.trapFlag == (if ops != [] && m.s.flags.tf then 1 else m.s.ctl.trapFlag)
  {}

  /** ... and the next byte fetched is the next prefix. */
  lemma {:induction false} ResultFetches(m: Machine, t: Tables, ops: seq<u8>, n: nat)
    requires ChainAt(m.s, t, ops) && n < |ops|
    ensures ChainAt(m.s, t, ops[..n]) && PrefixNext(ChainResult(m, t, ops[..n]).s, t, ops[n])
    ensures IsPrefixOp(t, ops[n])
  {
    hide Linear, IsPrefixOp, Scope, TickAfter;
    assert FetchByte(m.s, n) == ops[n];
  }

  lemma AfterStep(m: Machine, t: Tables, n: nat)
    ensures After(m, t, 0) == m && After(m, t, n + 1) == Turn(After(m, t, n), t)
  {
    hide Turn;
  }

  lemma UntrappedShorter(s: State, n: nat)
    requires Untrapped(s, n + 1)
    ensures Untrapped(s, n) && s.ctl.trapFlag == 0 && (s.flags.tf ==> n == 0)
  {}

  lemma ResultOfNone(m: Machine, t: Tables)
    requires Fresh(m)
    ensures ChainResult(m, t, []) == m
  {
    hide HardwareDue;
  }

  /** A chain of prefixes, uninterrupted: for every length, if no trap comes up. */
  lemma {:induction false} ChainRuns(m: Machine, t: Tables, ops: seq<u8>)
    requires Fresh(m) && ChainAt(m.s, t, ops) && Untrapped(m.s, |ops|)
    ensures After(m, t, |ops|) == ChainResult(m, t, ops)
    decreases |ops|
  {
    hide *;
    if ops == [] {
      AfterStep(m, t, 0);
      ResultOfNone(m, t);
    } else {
      var n := |ops| - 1;
      ResultFetches(m, t, ops, n);
      UntrappedShorter(m.s, n);
      ChainRuns(m, t, ops[..n]);
      ResultQuiet(m, t, ops[..n]);
      ResultAppends(m, t, ops);
      AfterStep(m, t, n);
      PrefixTurn(ChainResult(m, t, ops[..n]), t, ops[n]);
    }
  }

  // ----- what the chain means for the instruction behind it

  /** The first instruction behind the chain is decoded and executed, not interrupted, with
      exactly the last override and the last REP mode of the chain in force. */
  lemma {:induction false} ChainReachesNext(m: Machine, t: Tables, ops: seq<u8>)
    requires Fresh(m) && ChainAt(m.s, t, ops) && ops != [] && Untrapped(m.s, |ops|)
    ensures var r := After(m, t, |ops|).s;
      var (p, k, n) := (CountDown(r).prefix, Last(t, ops, OVERRIDE), Last(t, ops, REP));
      && TakeHardware(r) == r
      && p.segEn == (if k >= 0 then 1 else 0) && (k >= 0 ==> p.seg == U8(At(t, XLAT_SUBFUNCTION, ops[k]) as int - 8))
      && p.repEn == (if n >= 0 then 1 else 0) && (n >= 0 ==> p.repMode == Rem(ops[n], 2))
  {
    hide *;
    ChainRuns(m, t, ops);
    ResultQuiet(m, t, ops);
    ResultPrefix(m, t, ops);
    ScopeCounted(ChainResult(m, t, ops).s, m.s.prefix, t, ops);
    NotTaken(ChainResult(m, t, ops).s);
  }

  lemma ResultPrefix(m: Machine, t: Tables, ops: seq<u8>)
    ensures ChainResult(m, t, ops).s.prefix == Scope(m.s.prefix, t, ops)
  {
    hide Scope, TickAfter, Add16, U64;
  }

  lemma ScopeCounted(s: State, p0: Prefix, t: Tables, ops: seq<u8>)
    requires s.prefix == Scope(p0, t, ops)
    ensures var (p, k, n) := (CountDown(s).prefix, Last(t, ops, OVERRIDE), Last(t, ops, REP));
      && p.segEn == (if k >= 0 then 1 else 0) && (k >= 0 ==> p.seg == U8(At(t, XLAT_SUBFUNCTION, ops[k]) as int - 8))
      && p.repEn == (if n >= 0 then 1 else 0) && (n >= 0 ==> p.repMode == Rem(ops[n], 2))
  {
    hide Last, U8;
  }

  /** The instruction after that sees neither: whatever instruction other than a prefix
      runs, LEA with its side effect on seg_override_en included, the countdowns read zero
      when the next one is decoded. */
  lemma {:induction false} ScopeEnds(m: Machine, t: Tables)
    requires Bounded(m.s)
    ensures var d := DecodeAt(CountDown(TakeHardware(m.s)), t);
      d.xlat != REP && d.xlat != OVERRIDE ==> NoPrefix(CountDown(Turn(m, t).s))
  {
    hide StepBody, DecodeAt, TakeHardware;
    TakeHardwareKeeps(m.s);
    StepKeeps(m.(s := TakeHardware(m.s)), t);
  }

  /** While a prefixed instruction executes, and at the top of the step behind it, nothing
      is deliverable either: an instruction under a prefix delays interrupts by one more. */
  lemma {:induction false} PrefixedDelays(m: Machine, t: Tables)
    requires Bounded(m.s) && !NoPrefix(CountDown(m.s))
    ensures var (d, r) := (DecodeAt(CountDown(m.s), t), StepBody(m, t).s);
      !IsLea(d) && d.xlat != REP && d.xlat != OVERRIDE ==> !HardwareDue(r) && !TimerDue(r)
  {
    hide StepBody, DecodeAt;
    StepKeeps(m, t);
  }

  // ----- the trap, which is not held back

  /** Nothing has been pushed up to the n-th step. */
  ghost predicate Undisturbed(m: Machine, t: Tables, n: nat) {
    forall k :: 0 <= k <= n ==> After(m, t, k).s.regs[SP] == m.s.regs[SP]
  }

  /** With TF set, the second prefix of a chain is followed by INT 1. */
  lemma {:induction false} TrapInChain(m: Machine, t: Tables, ops: seq<u8>)
    requires Fresh(m) && ChainAt(m.s, t, ops) && m.s.ctl.trapFlag == 0 && m.s.flags.tf && |ops| >= 2
    ensures After(m, t, 2).s.regs[SP] == Add16(m.s.regs[SP], -6)
  {
    hide Fresh, ChainAt, ChainResult, HardwareDue, Turn, After, Add16, PrefixNext, IsPrefixOp;
    ResultFetches(m, t, ops, 1);
    ChainRuns(m, t, ops[..1]);
    ResultQuiet(m, t, ops[..1]);
    AfterStep(m, t, 1);
    ResultRegisters(m, t, ops[..1]);
    TrappedTurn(ChainResult(m, t, ops[..1]), t, ops[1]);
  }

  /** With a trap latched, already the first one is. */
  lemma {:induction false} TrapAtOnce(m: Machine, t: Tables, ops: seq<u8>)
    requires Fresh(m) && ChainAt(m.s, t, ops) && m.s.ctl.trapFlag != 0 && ops != []
    ensures After(m, t, 1).s.regs[SP] == Add16(m.s.regs[SP], -6)
  {
    hide ChainAt, ChainResult, HardwareDue, Turn, After, Add16, PrefixNext, IsPrefixOp;
    ResultFetches(m, t, ops, 0);
    assert ops[..0] == [];
    ResultOfNone(m, t);
    AfterStep(m, t, 0);
    TrappedTurn(m, t, ops[0]);
  }

  lemma ResultRegisters(m: Machine, t: Tables, ops: seq<u8>)
    ensures ChainResult(m, t, ops).s.regs == m.s.regs && ChainResult(m, t, ops).s.flags == m.s.flags
  {
    hide Scope, TickAfter, Add16, U64;
  }

  lemma {:induction false} TrappedTurn(m: Machine, t: Tables, op: u8)
    ensures PrefixNext(m.s, t, op) && !HardwareDue(m.s) && m.s.ctl.trapFlag != 0 ==>
      Turn(m, t).s.regs[SP] == Add16(m.s.regs[SP], -6)
  {
    hide *;
    if PrefixNext(m.s, t, op) && !HardwareDue(m.s) && m.s.ctl.trapFlag != 0 {
      var d := DecodeAt(CountDown(m.s), t);
      PrefixPerformed(m.s, t, d, op);
      NotTaken(m.s);
      TurnIs(m, t, d);
      TrappedTail(m.(s := Perform(CountDown(m.s), t, d)));
    }
  }

  lemma {:induction false} TrappedTail(m: Machine)
    requires m.s.ctl.trapFlag != 0 && (m.s.prefix.segEn != 0 || m.s.prefix.repEn != 0)
    ensures TakeTimer(m.(s := Tick(CountAndTrap(m.s)))).s.regs[SP] == Add16(m.s.regs[SP], -6)
  {
    hide Interrupt, U64, Add16, Interrupts.SameOutside, Interrupts.FrameWord, Read16, Pack;
    Interrupts.InterruptEffect(m.s.(instCount := U64(m.s.instCount as int + 1)), 1);
  }

  /** So a chain runs through with nothing delivered inside it exactly when no trap is
      latched before it and TF is clear or the chain is a single prefix. */
  lemma {:induction false} UndisturbedIff(m: Machine, t: Tables, ops: seq<u8>)
    requires Fresh(m) && ChainAt(m.s, t, ops) && ops != []
    ensures Undisturbed(m, t, |ops|) <==> m.s.ctl.trapFlag == 0 && (!m.s.flags.tf || |ops| < 2)
  {
    hide After, ChainAt, ChainResult, Fresh, Add16;
    Interrupts.SpMoves(m.s.regs[SP]);
    if m.s.ctl.trapFlag != 0 {
      TrapAtOnce(m, t, ops);
    } else if m.s.flags.tf && |ops| >= 2 {
      TrapInChain(m, t, ops);
    } else {
      forall k | 0 <= k <= |ops|
        ensures After(m, t, k).s.regs[SP] == m.s.regs[SP]
      {
        ChainShortens(m, t, ops, k);
        ChainRuns(m, t, ops[..k]);
        ResultRegisters(m, t, ops[..k]);
      }
    }
  }

  /** Behind an executed instruction (see StepLatches and RunLatches) that is: exactly when
      no trap is latched, whatever the length of the chain. */
  lemma {:induction false} ReachedUndisturbedIff(m: Machine, t: Tables, ops: seq<u8>)
    requires Fresh(m) && ChainAt(m.s, t, ops) && ops != [] && TrapLatched(m.s)
    ensures Undisturbed(m, t, |ops|) <==> m.s.ctl.trapFlag == 0
  {
    hide Undisturbed, ChainAt, Fresh;
    UndisturbedIff(m, t, ops);
  }

  lemma ChainShortens(m: Machine, t: Tables, ops: seq<u8>, k: nat)
    requires ChainAt(m.s, t, ops) && k <= |ops|
    ensures ChainAt(m.s, t, ops[..k])
  {}

  // ----- the chain inside emu86_run

  lemma {:induction false} LoopTurn(m: Machine, t: Tables, budget: u32, cycles: u32)
    requires cycles < budget <= LARGEST && !AtExit(m.s) && TakeHardware(m.s).ctl.halted == 0
    requires !Crowded(Turn(m, t).consoleOut)
    ensures RunFrom(m, t, budget, cycles) == RunFrom(Turn(m, t), t, budget, cycles + CYCLES)
  {
    WaitingIff(Turn(m, t).consoleOut);
    hide StepBody, OutputWaiting, Crowded, TakeHardware;
    assert Turns(t)(m) == Ran(Turn(m, t), false);
  }

  lemma ResultInLoop(m: Machine, t: Tables, ops: seq<u8>)
    ensures var r := ChainResult(m, t, ops);
      && r.consoleOut == m.consoleOut && r.s.ctl.halted == m.s.ctl.halted
      && r.s.sregs == m.s.sregs && r.s.ip == Add16(m.s.ip, |ops|)
  {
    hide Scope, TickAfter, Add16, U64;
  }

  /** A run whose budget covers the chain continues from its result, unless the chain
      crosses CS:IP = 0000:0000. */
  lemma {:induction false} ChainInRun(m: Machine, t: Tables, ops: seq<u8>, budget: u32, cycles: u32)
    requires Fresh(m) && ChainAt(m.s, t, ops) && Untrapped(m.s, |ops|)
    requires m.s.ctl.halted == 0 && !Crowded(m.consoleOut)
    requires forall i :: 0 <= i < |ops| ==> m.s.sregs[CS] != 0 || Add16(m.s.ip, i) != 0
    requires cycles + 4 * |ops| <= budget <= LARGEST
    ensures RunFrom(m, t, budget, cycles) == RunFrom(ChainResult(m, t, ops), t, budget, cycles + 4 * |ops|)
    decreases |ops|
  {
    hide Fresh, ChainAt, Crowded, ChainResult, RunFrom, Turn, TakeHardware, HardwareDue, Add16;
    if ops == [] {
      ResultOfNone(m, t);
    } else {
      var n := |ops| - 1;
      var r := ChainResult(m, t, ops[..n]);
      ResultFetches(m, t, ops, n);
      ChainInRun(m, t, ops[..n], budget, cycles);
      ResultInLoop(m, t, ops[..n]);
      ResultInLoop(m, t, ops);
      ResultQuiet(m, t, ops[..n]);
      NotTaken(r.s);
      ChainRuns(m, t, ops[..n]);
      ChainRuns(m, t, ops);
      AfterStep(m, t, n);
      LoopTurn(r, t, budget, cycles + 4 * n);
    }
  }
}

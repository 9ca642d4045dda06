/**
 The lockstep harness (harness.c): the state comparator, the decision to skip its memory
 scan, and where the two emulators' step tails differ.
 */
module Harness {
  import opened Words
  import opened Flags
  import opened State
  import opened Decode
  import opened Frames
  import opened Ring
  import opened Run
  import opened RunTheorems
  import opened Interrupts
  import opened Emulator
  import opened InstructionReference
  import opened StackAgreement

  const REF_RAM_SIZE := 0x10_FFF0
  const REF_REGS_BASE := 0xF_0000
  const REG_ZERO := 12
  const NO_DIFFERENCE: u32 := 0xFFFF_FFFF

  type RefMemory = m: seq<u8> | |m| == REF_RAM_SIZE witness seq(REF_RAM_SIZE, _ => 0)

  /** What the comparator sees of the reference emulator. Its segment override is numbered
      8 to 11, or REG_ZERO; its flags are the nine defined ones. */
  datatype Reference = Reference(
    regs: Regs, sregs: SRegs, ip: u16, flags: Flags, prefix: Prefix,
    trapFlag: u8, int8Asap: u8, instCounter: u32, spkrEn: u8, ioHiLo: u8, mem: RefMemory, io: Ports)

  /** The bits DIV_IP to DIV_IO_HI_LO of the comparator's result. */
  datatype Divergence = Divergence(
    ip: bool, regs: bool, sregs: bool, flags: bool, prefix: bool, trapFlag: bool, int8Asap: bool, instCount: bool,
    mem: bool, ioPorts: bool, spkrEn: bool, ioHiLo: bool)

  const NONE := Divergence(false, false, false, false, false, false, false, false, false, false, false, false)

  /** ref_to_ours_sreg */
  function ToOurs(refSreg: u8): u8 { if 8 <= refSreg <= 11 then refSreg - 8 else 0xFF }

  // ----- agreement, field by field

  predicate SamePrefix(p: Prefix, q: Prefix) {
    && p.segEn == q.segEn && p.repEn == q.repEn
    && (q.segEn != 0 && q.seg != REG_ZERO ==> p.seg == ToOurs(q.seg))
    && (q.repEn != 0 ==> p.repMode == q.repMode)
  }

  /** Memory is compared outside the 256 bytes in which the reference keeps its registers,
      and up to the end of the reference's memory. */
  predicate Compared(a: nat) { a < REF_REGS_BASE || REF_REGS_BASE + 0x100 <= a < REF_RAM_SIZE }

  predicate SameMemory(m: Memory, n: RefMemory) {
    forall a :: 0 <= a < REF_RAM_SIZE && Compared(a) ==> m[a] == n[a]
  }

  /** The bits that cost no scan say exactly which of their fields differ. */
  predicate CheapExact(d: Divergence, s: State, r: Reference) {
    && (d.ip <==> s.ip != r.ip) && (d.regs <==> s.regs != r.regs) && (d.sregs <==> s.sregs != r.sregs)
    && (d.flags <==> !SameDefined(s.flags, r.flags)) && (d.prefix <==> !SamePrefix(s.prefix, r.prefix))
    && (d.trapFlag <==> s.ctl.trapFlag != r.trapFlag) && (d.int8Asap <==> s.int8Asap != r.int8Asap)
    && (d.instCount <==> U32(s.instCount) != r.instCounter)
    && (d.spkrEn <==> s.devices.spkrEn != r.spkrEn) && (d.ioHiLo <==> s.devices.pitLobyte != r.ioHiLo)
  }

  predicate ScanExact(d: Divergence, s: State, r: Reference) {
    (d.mem <==> !SameMemory(s.mem, r.mem)) && (d.ioPorts <==> s.io != r.io)
  }

  /** The two machines agree on every compared field. */
  predicate Agree(s: State, r: Reference) {
    && s.ip == r.ip && s.regs == r.regs && s.sregs == r.sregs && SameDefined(s.flags, r.flags)
    && SamePrefix(s.prefix, r.prefix) && s.ctl.trapFlag == r.trapFlag && s.int8Asap == r.int8Asap
    && U32(s.instCount) == r.instCounter && s.devices.spkrEn == r.spkrEn && s.devices.pitLobyte == r.ioHiLo
    && SameMemory(s.mem, r.mem) && s.io == r.io
  }

  // ----- the comparator

  /** The first index below n at which two runs of words differ, or n. */
  method FirstDifference(x: seq<u16>, y: seq<u16>) returns (i: nat)
    requires |x| == |y|
    ensures i <= |x| && x[..i] == y[..i] && (i < |x| ==> x[i] != y[i])
    ensures i == |x| <==> x == y
  {
    i := 0;
    while i < |x|
      invariant i <= |x| && x[..i] == y[..i]
    {
      if x[i] != y[i] { return; }
      i := i + 1;
    }
    assert x[..|x|] == x && y[..|y|] == y;
  }

  method ComparePrefix(e: Emu86State, r: Reference) returns (differs: bool)
    ensures differs == !SamePrefix(e.prefix, r.prefix)
  {
    var overrideDiffers := r.prefix.segEn != 0 && r.prefix.seg != REG_ZERO && e.prefix.seg != ToOurs(r.prefix.seg);
    differs := e.prefix.segEn != r.prefix.segEn || overrideDiffers || e.prefix.repEn != r.prefix.repEn
               || (r.prefix.repEn != 0 && e.prefix.repMode != r.prefix.repMode);
  }

  /** compare_states_cheap: everything but memory and ports, with the first register that
      differs. */
  method CompareCheap(e: Emu86State, r: Reference) returns (d: Divergence, reg: u32)
    requires e.Valid()
    ensures CheapExact(d, e.View(), r) && !d.mem && !d.ioPorts
    ensures d.regs ==> reg < 8 && e.regs[reg] != r.regs[reg] && e.regs[..reg] == r.regs[..reg]
    ensures !d.regs ==> reg == NO_DIFFERENCE
  {
    hide SameDefined, SamePrefix;
    var i := FirstDifference(e.regs, r.regs);
    var j := FirstDifference(e.sregs, r.sregs);
    var ip, regs, sregs, flags := e.ip != r.ip, i < 8, j < 4, !SameDefined(e.flags, r.flags);
    var prefix := ComparePrefix(e, r);
    var trap, asap := e.ctl.trapFlag != r.trapFlag, e.int8Asap != r.int8Asap;
    var count := U32(e.instCount) != r.instCounter;
    var speaker, half := e.devices.spkrEn != r.spkrEn, e.devices.pitLobyte != r.ioHiLo;
    reg := if regs then i else NO_DIFFERENCE;
    d := Divergence(ip, regs, sregs, flags, prefix, trap, asap, count, false, false, speaker, half);
  }

  /** The first address in [lo, hi) that differs, or hi. */
  method ScanMemory(e: Emu86State, r: Reference, lo: nat, hi: nat) returns (a: nat)
    requires e.Valid() && lo <= hi <= REF_RAM_SIZE
    ensures lo <= a <= hi && (forall k :: lo <= k < a ==> e.mem[k] == r.mem[k])
    ensures a < hi ==> e.mem[a] != r.mem[a]
  {
    a := lo;
    while a < hi
      invariant lo <= a <= hi && forall k :: lo <= k < a ==> e.mem[k] == r.mem[k]
    {
      if e.mem[a] != r.mem[a] { return; }
      a := a + 1;
    }
  }

  /** Both parts of the memory: the least compared address that differs, or the end. */
  method ScanAllMemory(e: Emu86State, r: Reference) returns (a: nat)
    requires e.Valid()
    ensures a < REF_RAM_SIZE <==> !SameMemory(e.View().mem, r.mem)
    ensures a < REF_RAM_SIZE ==> Compared(a) && e.mem[a] != r.mem[a]
    ensures a < REF_RAM_SIZE ==> forall k :: 0 <= k < a && Compared(k) ==> e.mem[k] == r.mem[k]
  {
    a := ScanMemory(e, r, 0, REF_REGS_BASE);
    if a == REF_REGS_BASE {
      a := ScanMemory(e, r, REF_REGS_BASE + 0x100, REF_RAM_SIZE);
    }
  }

  method ScanPorts(e: Emu86State, r: Reference) returns (p: nat)
    requires e.Valid()
    ensures p <= IO_PORTS && e.io[..p] == r.io[..p] && (p < IO_PORTS ==> e.io[p] != r.io[p])
    ensures p == IO_PORTS <==> e.io[..] == r.io
  {
    p := 0;
    while p < IO_PORTS
      invariant p <= IO_PORTS && e.io[..p] == r.io[..p]
    {
      if e.io[p] != r.io[p] { return; }
      p := p + 1;
    }
    assert e.io[..IO_PORTS] == e.io[..] && r.io[..IO_PORTS] == r.io;
  }

  function WithScan(d: Divergence, mem: bool, ports: bool): (r: Divergence)
    ensures r.mem == mem && r.ioPorts == ports && r.regs == d.regs
  {
    d.(mem := mem, ioPorts := ports)
  }

  /** compare_states_full reports nothing exactly if the machines agree on every compared
      field, and otherwise the least differing memory address, port and register. */
  method CompareFull(e: Emu86State, r: Reference) returns (d: Divergence, memAddr: u32, port: u32, reg: u32)
    requires e.Valid()
    ensures d == NONE <==> Agree(e.View(), r)
    ensures CheapExact(d, e.View(), r) && ScanExact(d, e.View(), r)
    ensures d.mem ==> memAddr < REF_RAM_SIZE && Compared(memAddr) && e.mem[memAddr] != r.mem[memAddr]
    ensures d.mem ==> forall a :: 0 <= a < memAddr && Compared(a) ==> e.mem[a] == r.mem[a]
    ensures d.ioPorts ==> port < IO_PORTS && e.io[port] != r.io[port] && e.io[..port] == r.io[..port]
    ensures d.regs ==> reg < 8 && e.regs[reg] != r.regs[reg] && e.regs[..reg] == r.regs[..reg]
    ensures (!d.mem ==> memAddr == NO_DIFFERENCE) && (!d.ioPorts ==> port == NO_DIFFERENCE)
  {
    hide SameMemory, CheapExact, Agree, WithScan;
    var cheap;
    cheap, reg := CompareCheap(e, r);
    memAddr, port := NO_DIFFERENCE, NO_DIFFERENCE;
    var a := ScanAllMemory(e, r);
    var mem := a < REF_RAM_SIZE;
    if mem { memAddr := a; }
    var p := ScanPorts(e, r);
    var ports := p < IO_PORTS;
    if ports { port := p; }
    d := WithScan(cheap, mem, ports);
    CheapOnly(cheap, mem, ports, e.View(), r);
    NoneIsAgreement(d, e.View(), r);
  }

  lemma CheapOnly(d: Divergence, mem: bool, ports: bool, s: State, r: Reference)
    requires CheapExact(d, s, r)
    ensures CheapExact(WithScan(d, mem, ports), s, r)
  {
    hide SameDefined, SamePrefix;
  }

  /** No bit is set exactly if the machines agree. */
  lemma NoneIsAgreement(d: Divergence, s: State, r: Reference)
    requires CheapExact(d, s, r) && ScanExact(d, s, r)
    ensures d == NONE <==> Agree(s, r)
  {
    hide SameDefined, SamePrefix, SameMemory;
  }

  // ----- the decision to scan (fast mode)

  /** rep_override_en is nonzero after a step exactly if REP was in force for its
      instruction, or the instruction was a REP prefix itself ... */
  lemma {:induction false} RepVisibleIff(m: Machine, t: Tables)
    requires Bounded(m.s)
    ensures var s := CountDown(m.s);
      StepBody(m, t).s.prefix.repEn != 0 <==> s.prefix.repEn != 0 || DecodeAt(s, t).xlat == 23
  {
    hide StepBody, DecodeAt;
    StepKeeps(m, t);
  }

  /** The fast mode scans after a step if the cheap comparison found something or either
      side's rep_override_en is nonzero. */
  predicate NeedsFull(cheap: Divergence, repEn: u8, refRepEn: u8) {
    cheap != NONE || repEn != 0 || refRepEn != 0
  }

  /** ... so after every step whose string instruction looped, memory is scanned. */
  lemma {:induction false} LoopsAreScanned(m: Machine, t: Tables, cheap: Divergence, refRepEn: u8)
    requires Bounded(m.s) && CountDown(m.s).prefix.repEn > 0
    ensures var d := DecodeAt(CountDown(m.s), t);
      d.xlat == 17 || d.xlat == 18 ==> NeedsFull(cheap, StepBody(m, t).s.prefix.repEn, refRepEn)
  {
    hide StepBody, DecodeAt;
    RepVisibleIff(m, t);
  }

  // ----- the tail of a step, ours and the reference's

  function OurTail(m: Machine): Machine { TakeTimer(m.(s := Tick(CountAndTrap(m.s)))) }

  /** int8_asap after the tick test of a counter. */
  function Latch(asap: u8, counter: nat): u8 { if counter % 20000 == 0 then 1 else asap }

  /** KEYBOARD_DRIVER, where the next byte of standard input is that of the console. */
  function KeyboardDriver(m: Machine, t: Tables): Machine {
    match Read(m.consoleIn)
    case Empty => m
    case Got(ring, key) =>
      var s := m.s.(mem := m.s.mem[0x4A6 := key], int8Asap := if key == 0x1B then 1 else 0);
      Machine(PcInterrupt(s, t, 7), ring, m.consoleOut)
  }

  /** The same tail in the reference: its counter has 32 bits, it tests the tick before the
      trap, and it holds the timer back while TF is set. */
  function ReferenceTail(m: Machine, t: Tables): Machine {
    var c := U64(m.s.instCount as int + 1);
    var s1 := m.s.(instCount := c, int8Asap := Latch(m.s.int8Asap, U32(c)));
    var s2 := if s1.ctl.trapFlag != 0 then PcInterrupt(s1, t, 1) else s1;
    var s3 := s2.(ctl := s2.ctl.(trapFlag := if s2.flags.tf then 1 else 0));
    if s3.int8Asap != 0 && s3.prefix.segEn == 0 && s3.prefix.repEn == 0 && s3.flags.intf && !s3.flags.tf
    then KeyboardDriver(m.(s := PcInterrupt(s3, t, 0xA).(int8Asap := 0)), t)
    else m.(s := s3)
  }

  /** ... in terms of our interrupts, which are the same (InterruptsAgree). */
  function SharedTail(m: Machine): Machine {
    var c := U64(m.s.instCount as int + 1);
    var s1 := m.s.(instCount := c, int8Asap := Latch(m.s.int8Asap, U32(c)));
    var s2 := if s1.ctl.trapFlag != 0 then Interrupt(s1, 1) else s1;
    var s3 := s2.(ctl := s2.ctl.(trapFlag := if s2.flags.tf then 1 else 0));
    if s3.flags.tf then m.(s := s3) else TakeTimer(m.(s := s3))
  }

  lemma InterruptKeepsPlain(s: State, v: u8)
    ensures var f := Interrupt(s, v).flags; f == s.flags.(intf := false, tf := false)
  {
    hide Pack, Write16, Read16, Linear, Add16;
  }

  lemma {:induction false} TailsShare(m: Machine, t: Tables)
    requires ShippedTables(t) && Plain(m.s.flags)
    ensures ReferenceTail(m, t) == SharedTail(m)
  {
    hide Interrupt, PcInterrupt, U64, U32, Latch, Read, ShippedTables;
    var c := U64(m.s.instCount as int + 1);
    var s1 := m.s.(instCount := c, int8Asap := Latch(m.s.int8Asap, U32(c)));
    InterruptsAgree(s1, t, 1);
    InterruptKeepsPlain(s1, 1);
    var s2 := if s1.ctl.trapFlag != 0 then Interrupt(s1, 1) else s1;
    var s3 := s2.(ctl := s2.ctl.(trapFlag := if s2.flags.tf then 1 else 0));
    InterruptsAgree(s3, t, 0xA);
    InterruptKeepsPlain(s3, 0xA);
    var s4 := Interrupt(s3, 0xA).(int8Asap := 0);
    if Read(m.consoleIn).Got? {
      var key := Read(m.consoleIn).byte;
      InterruptsAgree(s4.(mem := s4.mem[0x4A6 := key], int8Asap := if key == 0x1B then 1 else 0), t, 7);
    }
  }

  lemma InterruptIgnoresLatch(s: State, v: u8, asap: u8)
    ensures Interrupt(s.(int8Asap := asap), v) == Interrupt(s, v).(int8Asap := asap)
  {
    hide Pack, Write16, Read16, Linear, Add16;
  }

  lemma {:induction false} TailsBeforeTimer(s: State)
    ensures var (t, c) := (CountAndTrap(s), U64(s.instCount as int + 1));
      Tick(t) == t.(int8Asap := Latch(s.int8Asap, c))
  {
    hide Interrupt, U64;
    CountAndTrapKeeps(s);
  }

  lemma {:induction false} ReferenceBeforeTimer(m: Machine)
    ensures var (t, c) := (CountAndTrap(m.s), U64(m.s.instCount as int + 1));
      var r := m.(s := t.(int8Asap := Latch(m.s.int8Asap, U32(c))));
      SharedTail(m) == (if t.flags.tf then r else TakeTimer(r))
  {
    hide Interrupt, U64, U32, Latch, TakeTimer;
    var c := U64(m.s.instCount as int + 1);
    InterruptIgnoresLatch(m.s.(instCount := c), 1, Latch(m.s.int8Asap, U32(c)));
    InterruptKeeps(m.s.(instCount := c), 1);
  }

  /** A delivered timer moves SP, and what it leaves does not depend on the latch. */
  lemma {:induction false} TimerMovesSp(m: Machine)
    requires TimerDue(m.s)
    ensures TakeTimer(m).s.regs[SP] != m.s.regs[SP]
    ensures forall asap: u8 :: asap != 0 ==> TakeTimer(m.(s := m.s.(int8Asap := asap))) == TakeTimer(m)
  {
    hide Interrupt, Read, Add16, Interrupts.SameOutside, Interrupts.FrameWord, Read16, Pack;
    forall asap: u8
      ensures Interrupt(m.s.(int8Asap := asap), 0xA) == Interrupt(m.s, 0xA).(int8Asap := asap)
    {
      InterruptIgnoresLatch(m.s, 0xA, asap);
    }
    InterruptEffect(m.s, 0xA);
    var t := Interrupt(m.s, 0xA).(int8Asap := 0);
    if Read(m.consoleIn).Got? {
      InterruptEffect(KeyStored(m.s, Read(m.consoleIn).byte), 7);
      TimerDeliversKey(m);
    }
    SpMoves(m.s.regs[SP]);
  }

  /** The timer, tested on a state t whose latch reads `asap`, would be delivered. */
  predicate Due(t: State, asap: u8) { asap != 0 && t.flags.intf && NoPrefix(t) }

  /** The two tails leave equal machines exactly if both deliver the timer, or neither does
      and their latches are equal; the reference delivers only while TF is clear. */
  predicate TailsMeet(t: State, ours: u8, refs: u8) {
    var (d, e) := (Due(t, ours), Due(t, refs) && !t.flags.tf);
    (d <==> e) && (d || ours == refs)
  }

  lemma {:induction false} TailsAgreeIff(m: Machine, t: Tables)
    requires ShippedTables(t) && Plain(m.s.flags)
    ensures var (x, c) := (CountAndTrap(m.s), U64(m.s.instCount as int + 1));
      OurTail(m) == ReferenceTail(m, t)
      <==> TailsMeet(x, Latch(m.s.int8Asap, c), Latch(m.s.int8Asap, U32(c)))
  {
    hide CountAndTrap, Tick, TakeTimer, U64, U32, Latch, TailsMeet, ReferenceTail, SharedTail, ShippedTables;
    var (x, c) := (CountAndTrap(m.s), U64(m.s.instCount as int + 1));
    TailsShare(m, t);
    TailsBeforeTimer(m.s);
    ReferenceBeforeTimer(m);
    TimersMeetIff(m.(s := x), Latch(m.s.int8Asap, c), Latch(m.s.int8Asap, U32(c)));
  }

  lemma {:induction false} TimersMeetIff(m: Machine, ours: u8, refs: u8)
    ensures var (x, y) := (m.(s := m.s.(int8Asap := ours)), m.(s := m.s.(int8Asap := refs)));
      TakeTimer(x) == (if m.s.flags.tf then y else TakeTimer(y)) <==> TailsMeet(m.s, ours, refs)
  {
    var (x, y) := (m.(s := m.s.(int8Asap := ours)), m.(s := m.s.(int8Asap := refs)));
    NotDue(x);
    NotDue(y);
    if TimerDue(x.s) { TimerMovesSp(x); }
    if TimerDue(y.s) { TimerMovesSp(y); }
    hide TakeTimer;
    assert x.(s := x.s.(int8Asap := refs)) == y;
  }

  lemma NotDue(m: Machine)
    ensures !TimerDue(m.s) ==> TakeTimer(m) == m
  {
    hide Interrupt, Read;
  }

  /** The 64-bit and the 32-bit counter tick on the same steps while the quotient by 2^32
      is a multiple of 625, so for the first 2^32 instructions; otherwise they never tick
      on the same step. */
  lemma {:induction false} TicksAgreeIff(c: u64)
    ensures var q := c / 0x1_0000_0000;
      if q % 625 == 0 then c % 20000 == 0 <==> U32(c) % 20000 == 0
      else !(c % 20000 == 0 && U32(c) % 20000 == 0)
  {
    hide Wrap, Rem, Quot;
    OperatorsAre();
    var q, r := c / 0x1_0000_0000, c % 0x1_0000_0000;
    if q % 625 == 0 {
      SameTick(c, q / 625, r);
    } else if c % 20000 == 0 && r % 20000 == 0 {
      NoCommonTick(q, c / 20000 - r / 20000);
    }
  }

  lemma SameTick(c: int, k: int, r: int)
    requires c == 0x1_0000_0000 * (625 * k) + r
    ensures c % 20000 == 0 <==> r % 20000 == 0
  {
    assert c == 20000 * (134217728 * k) + r;
  }

  lemma NoCommonTick(q: int, k: int)
    requires 0x1_0000_0000 * q == 20000 * k
    ensures q % 625 == 0
  {
    assert q == 625 * (481 * 32 * k - 3305406831 * q);
  }
}

/**
 Interrupt entry and return (control.h, transfer.h): any nesting of interrupts is
 undone by as many IRETs, and the memory they touch is their own stack frames.
 */
module Interrupts {
  import opened Words
  import opened Flags
  import opened State
  import opened Ring
  import opened Run

  /** The address of the j-th word pushed on a stack that starts at SS:SP. */
  function FrameWord(ss: u16, sp: u16, j: nat): (a: nat)
    ensures a + 1 < MEM_SIZE
  {
    Linear(ss, Add16(sp, -2 * (j + 1)))
  }

  /** Address a is in none of the first n words. */
  predicate Outside(a: nat, ss: u16, sp: u16, n: nat) {
    forall j :: 0 <= j < n ==> a != FrameWord(ss, sp, j) && a != FrameWord(ss, sp, j) + 1
  }

  /** The two memories agree outside the first n words. */
  predicate SameOutside(m: Memory, m': Memory, ss: u16, sp: u16, n: nat) {
    forall a :: 0 <= a < MEM_SIZE && Outside(a, ss, sp, n) ==> m'[a] == m[a]
  }

  predicate Apart(a: nat, b: nat) { a + 1 < b || b + 1 < a }

  /** Different words of up to 64 KB of stack do not overlap, for odd SP and across the
      wrap of SP too. */
  lemma {:induction false} WordsApart(ss: u16, sp: u16, i: nat, j: nat)
    requires i < j && 2 * (j - i) < 0x1_0000
    ensures Apart(FrameWord(ss, sp, i), FrameWord(ss, sp, j))
  {
    hide Wrap, Rem, Quot;
    OperatorsAre();
  }

  lemma FrameShifts(ss: u16, sp: u16, k: nat, j: nat)
    ensures FrameWord(ss, Add16(sp, -2 * k), j) == FrameWord(ss, sp, j + k)
  {
    hide Add16, Linear;
    Add16Twice(sp, -2 * k, -2 * (j + 1));
  }

  /** k words, and then n more behind them. */
  lemma {:induction false} SameOutsideJoins(m: Memory, m1: Memory, m2: Memory, ss: u16, sp: u16, k: nat, n: nat)
    requires SameOutside(m, m1, ss, sp, k) && SameOutside(m1, m2, ss, Add16(sp, -2 * k), n)
    ensures SameOutside(m, m2, ss, sp, n + k)
  {
    forall a | 0 <= a < MEM_SIZE && Outside(a, ss, sp, n + k)
      ensures m2[a] == m[a]
    {
      assert Outside(a, ss, sp, k);
      forall j | 0 <= j < n
        ensures a != FrameWord(ss, Add16(sp, -2 * k), j) && a != FrameWord(ss, Add16(sp, -2 * k), j) + 1
      {
        FrameShifts(ss, sp, k, j);
      }
    }
  }

  /** A word of the outer frame survives what the inner frames write. */
  lemma {:induction false} FrameSurvives(m: Memory, m': Memory, ss: u16, sp: u16, k: nat, n: nat, j: nat)
    requires SameOutside(m, m', ss, Add16(sp, -2 * k), n) && j < k && 2 * (n + k) <= 0x1_0000
    ensures Read16(m', FrameWord(ss, sp, j)) == Read16(m, FrameWord(ss, sp, j))
  {
    var a := FrameWord(ss, sp, j);
    forall i | 0 <= i < n
      ensures Apart(a, FrameWord(ss, Add16(sp, -2 * k), i))
    {
      FrameShifts(ss, sp, k, i);
      WordsApart(ss, sp, j, i + k);
    }
    hide FrameWord, Linear;
    assert Outside(a, ss, Add16(sp, -2 * k), n) && Outside(a + 1, ss, Add16(sp, -2 * k), n);
  }

  // ----- one interrupt and one return

  lemma {:induction false} ThreeWords(m: Memory, a: nat, b: nat, c: nat, x: u16, y: u16, z: u16)
    requires a + 1 < MEM_SIZE && b + 1 < MEM_SIZE && c + 1 < MEM_SIZE && Apart(a, b) && Apart(a, c) && Apart(b, c)
    ensures var m' := Write16(Write16(Write16(m, a, x), b, y), c, z);
      && Read16(m', a) == x && Read16(m', b) == y && Read16(m', c) == z
      && forall k :: 0 <= k < MEM_SIZE && k !in {a, a + 1, b, b + 1, c, c + 1} ==> m'[k] == m[k]
  {
    hide Lo, Hi, Word;
    WordSplits(x);
    WordSplits(y);
    WordSplits(z);
  }

  lemma WordSplits(w: u16)
    ensures Word(Lo(w), Hi(w)) == w
  {
    hide Wrap, Rem, Quot;
    OperatorsAre();
  }

  /** CS:IP is the far pointer in the four bytes of vector v. */
  predicate LeadsTo(m: Memory, v: u8, cs: u16, ip: u16) {
    && ip as int == m[4 * v] as int + 0x100 * m[4 * v + 1] as int
    && cs as int == m[4 * v + 2] as int + 0x100 * m[4 * v + 3] as int
  }

  /** The three words of a frame do not meet the four bytes of vector v. */
  predicate VectorSpared(v: u8, ss: u16, sp: u16) {
    forall a :: 4 * v <= a < 4 * v + 4 ==> Outside(a, ss, sp, 3)
  }

  /** t is s after an interrupt: SP six lower, FLAGS, CS and IP in the frame, IF and TF clear,
      CS:IP from the vector as the frame left it, and nothing but CS, IP and the frame changed
      besides. */
  predicate Entered(s: State, v: u8, t: State) {
    var (ss, sp) := (s.sregs[SS], s.regs[SP]);
    && t == s.(regs := s.regs[SP := Add16(sp, -6)], sregs := s.sregs[CS := t.sregs[CS]], ip := t.ip,
               mem := t.mem, flags := s.flags.(intf := false, tf := false))
    && Read16(t.mem, FrameWord(ss, sp, 0)) == Pack(s.flags)
    && Read16(t.mem, FrameWord(ss, sp, 1)) == s.sregs[CS]
    && Read16(t.mem, FrameWord(ss, sp, 2)) == s.ip
    && SameOutside(s.mem, t.mem, ss, sp, 3)
    && LeadsTo(t.mem, v, t.sregs[CS], t.ip)
  }

  /** Every interrupt enters so; and through the vector as it was before, wherever the frame
      does not lie on it. */
  lemma {:induction false} InterruptEffect(s: State, v: u8)
    ensures var t := Interrupt(s, v);
      Entered(s, v, t) && (VectorSpared(v, s.sregs[SS], s.regs[SP]) ==> LeadsTo(s.mem, v, t.sregs[CS], t.ip))
  {
    hide Pack, Push, FrameWord, Linear, Write16, Add16, Apart;
    var (ss, sp) := (s.sregs[SS], s.regs[SP]);
    WordsApart(ss, sp, 0, 1);
    WordsApart(ss, sp, 0, 2);
    WordsApart(ss, sp, 1, 2);
    ThreeWords(s.mem, FrameWord(ss, sp, 0), FrameWord(ss, sp, 1), FrameWord(ss, sp, 2),
      Pack(s.flags), s.sregs[CS], s.ip);
    ThreePushes(s, Pack(s.flags), s.sregs[CS], s.ip);
  }

  lemma {:induction false} ThreePushes(s: State, x: u16, y: u16, z: u16)
    ensures var (ss, sp) := (s.sregs[SS], s.regs[SP]);
      Push(Push(Push(s, x), y), z) == s.(regs := s.regs[SP := Add16(sp, -6)],
        mem := Write16(Write16(Write16(s.mem, FrameWord(ss, sp, 0), x), FrameWord(ss, sp, 1), y),
                       FrameWord(ss, sp, 2), z))
  {
    var sp := s.regs[SP];
    assert Add16(Add16(sp, -2), -2) == Add16(sp, -4) && Add16(Add16(sp, -4), -2) == Add16(sp, -6);
    hide Write16, Linear, Add16;
    assert s.regs[SP := Add16(sp, -2)][SP := Add16(sp, -4)][SP := Add16(sp, -6)] == s.regs[SP := Add16(sp, -6)];
  }

  lemma DropTo(s: State, sp: u16, k: u16)
    requires s.regs[SP] == Add16(sp, -(k as int) - 2)
    ensures Drop(s) == s.(regs := s.regs[SP := Add16(sp, -(k as int))])
  {
    hide Wrap, Rem, Quot;
    OperatorsAre();
  }

  /** IRET from a frame with the stack pointer below it. */
  lemma {:induction false} IretEffect(u: State, sp: u16)
    requires u.regs[SP] == Add16(sp, -6)
    ensures var ss := u.sregs[SS];
      Iret(u) == u.(regs := u.regs[SP := sp], sregs := u.sregs[CS := Read16(u.mem, FrameWord(ss, sp, 1))],
                    ip := Read16(u.mem, FrameWord(ss, sp, 2)), flags := Unpack(Read16(u.mem, FrameWord(ss, sp, 0))))
  {
    assert Add16(sp, 0) == sp;
    hide Add16, Read16, Unpack, Top, Drop, FrameWord;
    DropTo(u, sp, 4);
    var s1 := Drop(u).(ip := Top(u));
    DropTo(s1, sp, 2);
    var s2 := SetSReg(Drop(s1), CS, Top(s1));
    DropTo(s2, sp, 0);
    assert u.regs[SP := Add16(sp, -4)][SP := Add16(sp, -2)][SP := sp] == u.regs[SP := sp];
  }

  /** One interrupt moves SP, and two do. */
  lemma SpMoves(sp: u16)
    ensures Add16(sp, -6) != sp && Add16(Add16(sp, -6), -6) != sp
  {
    hide Wrap, Rem, Quot;
    OperatorsAre();
  }

  // ----- nesting

  /** Interrupts delivered one inside the other. */
  function Nest(s: State, vectors: seq<u8>): State
    decreases |vectors|
  {
    if vectors == [] then s else Nest(Interrupt(s, vectors[0]), vectors[1..])
  }

  function Unwind(s: State, n: nat): State {
    if n == 0 then s else Iret(Unwind(s, n - 1))
  }

  /** IRET from an interrupt inside which only n inner frames were written. */
  lemma {:induction false} OuterReturns(s: State, v: u8, t: State, u: State, n: nat)
    requires 6 * (n + 1) <= 0x1_0000
    requires t == Interrupt(s, v) && u == t.(mem := u.mem, flags := u.flags)
    requires SameOutside(t.mem, u.mem, t.sregs[SS], t.regs[SP], 3 * n)
    ensures Iret(u) == s.(mem := u.mem, flags := Normalised(s.flags))
    ensures SameOutside(s.mem, u.mem, s.sregs[SS], s.regs[SP], 3 * (n + 1))
  {
    hide SameOutside, FrameWord, Read16, Linear, Interrupt, Iret, Pack, Unpack, Normalised, Add16;
    var (ss, sp) := (s.sregs[SS], s.regs[SP]);
    InterruptEffect(s, v);
    FrameSurvives(t.mem, u.mem, ss, sp, 3, 3 * n, 0);
    FrameSurvives(t.mem, u.mem, ss, sp, 3, 3 * n, 1);
    FrameSurvives(t.mem, u.mem, ss, sp, 3, 3 * n, 2);
    SameOutsideJoins(s.mem, t.mem, u.mem, ss, sp, 3, 3 * n);
    IretEffect(u, sp);
    UnpackPack(s.flags);
    Restored(s, t, u, Iret(u));
  }

  lemma Restored(s: State, t: State, u: State, r: State)
    requires t == s.(regs := s.regs[SP := Add16(s.regs[SP], -6)], sregs := s.sregs[CS := t.sregs[CS]], ip := t.ip,
                     mem := t.mem, flags := t.flags)
    requires u == t.(mem := u.mem, flags := u.flags)
    requires r == u.(regs := u.regs[SP := s.regs[SP]], sregs := u.sregs[CS := s.sregs[CS]], ip := s.ip,
      flags := r.flags)
    ensures r == s.(mem := u.mem, flags := r.flags)
  {}

  /** n nested interrupts and n IRETs, for every n whose frames fit the 64 KB of the stack
      segment and for every SP: registers, segment registers and IP are back, the flags are
      the nine defined ones of before, and memory differs in the frames at most. */
  lemma {:induction false} NestUnwinds(s: State, vectors: seq<u8>)
    requires 6 * |vectors| <= 0x1_0000
    ensures var r := Unwind(Nest(s, vectors), |vectors|);
      && r == s.(mem := r.mem, flags := if vectors == [] then s.flags else Normalised(s.flags))
      && SameDefined(r.flags, s.flags)
      && SameOutside(s.mem, r.mem, s.sregs[SS], s.regs[SP], 3 * |vectors|)
    decreases |vectors|
  {
    hide SameOutside, Interrupt, Iret, Normalised, SameDefined;
    NestSteps(s, vectors);
    NormalisedKeepsDefined(s.flags);
    if vectors != [] {
      var n := |vectors| - 1;
      var t := Interrupt(s, vectors[0]);
      NestUnwinds(t, vectors[1..]);
      OuterReturns(s, vectors[0], t, Unwind(Nest(t, vectors[1..]), n), n);
    }
  }

  lemma NestSteps(s: State, vectors: seq<u8>)
    ensures vectors == [] ==> Unwind(Nest(s, vectors), 0) == s && SameOutside(s.mem, s.mem, s.sregs[SS], s.regs[SP], 0)
    ensures SameDefined(s.flags, s.flags)
  {}

  // ----- what the run loop delivers

  /** A hardware interrupt is taken exactly if one is pending, IF is set and no prefix is in
      force; it enters through int_vector and is no longer pending. */
  lemma {:induction false} HardwareEntry(s: State)
    ensures var t := TakeHardware(s);
      if s.ctl.intPending != 0 && s.flags.intf && s.prefix.segEn == 0 && s.prefix.repEn == 0
      then t.ctl == s.ctl.(intPending := 0) && Entered(s, s.ctl.intVector, t.(ctl := s.ctl))
      else t == s
  {
    hide Interrupt, Entered;
    InterruptEffect(s, s.ctl.intVector);
    InterruptKeepsControl(s, s.ctl.intVector);
  }

  lemma InterruptKeepsControl(s: State, v: u8)
    ensures Interrupt(s, v).ctl == s.ctl && Interrupt(s, v).int8Asap == s.int8Asap && !Interrupt(s, v).flags.tf
  {
    hide Write16, Linear, Add16, Pack, Read16;
  }

  /** A latched trap enters through vector 1 behind the counted instruction, and is no longer
      latched; otherwise TF is latched. */
  lemma {:induction false} TrapEntry(s: State)
    ensures var (c, t) := (s.(instCount := U64(s.instCount as int + 1)), CountAndTrap(s));
      if s.ctl.trapFlag != 0 then t.ctl == s.ctl.(trapFlag := 0) && Entered(c, 1, t.(ctl := s.ctl))
      else t == c.(ctl := if s.flags.tf then s.ctl.(trapFlag := 1) else s.ctl)
  {
    hide Interrupt, Entered, U64;
    var c := s.(instCount := U64(s.instCount as int + 1));
    InterruptEffect(c, 1);
    InterruptKeepsControl(c, 1);
  }

  /** A key taken from the console goes to 0x4A6, and ESC asks for another tick. */
  function Polled(u: State, key: u8): State {
    u.(mem := u.mem[0x4A6 := key], int8Asap := if key == 0x1B then 1 else 0)
  }

  /** r is m after the timer was delivered, u the state before a waiting key is. */
  predicate TimerTaken(m: Machine, u: State, r: Machine) {
    && Entered(m.s, 10, u.(int8Asap := m.s.int8Asap)) && u.int8Asap == 0 && r.consoleOut == m.consoleOut
    && (Contents(m.consoleIn) == [] ==> r == m.(s := u))
    && (Contents(m.consoleIn) != [] ==>
          && Entered(Polled(u, Contents(m.consoleIn)[0]), 7, r.s)
          && Contents(r.consoleIn) == Contents(m.consoleIn)[1..])
  }

  /** The timer is delivered exactly if it is due, IF is set and no prefix is in force, through
      vector 10; the oldest byte of the console, if there is one, then enters through vector 7. */
  lemma {:induction false} TimerEntry(m: Machine) returns (u: State)
    ensures if m.s.int8Asap != 0 && m.s.flags.intf && m.s.prefix.segEn == 0 && m.s.prefix.repEn == 0
            then TimerTaken(m, u, TakeTimer(m))
            else TakeTimer(m) == m
  {
    hide Interrupt, Entered, Read, Contents;
    u := Interrupt(m.s, 10).(int8Asap := 0);
    TimerFirst(m, u);
    ReadTakesOldest(m.consoleIn);
    if Read(m.consoleIn).Got? { InterruptEffect(Polled(u, Read(m.consoleIn).byte), 7); }
  }

  lemma TimerFirst(m: Machine, u: State)
    requires u == Interrupt(m.s, 10).(int8Asap := 0)
    ensures Entered(m.s, 10, u.(int8Asap := m.s.int8Asap))
  {
    hide Interrupt, Entered;
    InterruptEffect(m.s, 10);
    InterruptKeepsControl(m.s, 10);
  }

  // ----- the timer tick with a key

  const KEY := 0x4A6

  /** Word j of the frame, which held w, after the key was stored at 0x4A6. */
  function WithKey(ss: u16, sp: u16, key: u8, j: nat, w: u16): u16 {
    if FrameWord(ss, sp, j) == KEY then Word(key, Hi(w))
    else if FrameWord(ss, sp, j) + 1 == KEY then Word(Lo(w), key)
    else w
  }

  lemma {:induction false} KeyInWord(m: Memory, ss: u16, sp: u16, key: u8, j: nat)
    ensures Read16(m[KEY := key], FrameWord(ss, sp, j)) == WithKey(ss, sp, key, j, Read16(m, FrameWord(ss, sp, j)))
  {
    SplitWord(m[FrameWord(ss, sp, j)], m[FrameWord(ss, sp, j) + 1]);
    hide FrameWord, Linear, Word, Lo, Hi;
  }

  /** The state in which the timer's handler is interrupted for the key. */
  function KeyStored(s: State, key: u8): State {
    var t := Interrupt(s, 0xA).(int8Asap := 0);
    t.(mem := t.mem[KEY := key], int8Asap := if key == 0x1B then 1 else 0)
  }

  /** What two IRETs come back to, but for the memory: the three words of the first frame,
      as the key's store left them. */
  function Resumed(s: State, key: u8): State {
    var (ss, sp) := (s.sregs[SS], s.regs[SP]);
    s.(ip := WithKey(ss, sp, key, 2, s.ip), sregs := s.sregs[CS := WithKey(ss, sp, key, 1, s.sregs[CS])],
       flags := Unpack(WithKey(ss, sp, key, 0, Pack(s.flags))), int8Asap := if key == 0x1B then 1 else 0)
  }

  predicate ComesBack(s: State, key: u8, r: State) {
    r == Resumed(s, key).(mem := r.mem) && SameOutside(s.mem[KEY := key], r.mem, s.sregs[SS], s.regs[SP], 6)
  }

  /** The IRET of the timer's handler, after the key's handler has returned. */
  lemma {:induction false} OuterReturnsAfterKey(s: State, key: u8, w: State, u: State)
    requires w == KeyStored(s, key) && u == w.(mem := u.mem, flags := u.flags)
    requires SameOutside(w.mem, u.mem, w.sregs[SS], w.regs[SP], 3)
    ensures ComesBack(s, key, Iret(u))
  {
    hide SameOutside, FrameWord, Read16, Linear, Interrupt, Iret, Pack, Unpack, Add16, WithKey;
    var (ss, sp) := (s.sregs[SS], s.regs[SP]);
    var t := Interrupt(s, 0xA);
    InterruptEffect(s, 0xA);
    FrameSurvives(w.mem, u.mem, ss, sp, 3, 3, 0);
    FrameSurvives(w.mem, u.mem, ss, sp, 3, 3, 1);
    FrameSurvives(w.mem, u.mem, ss, sp, 3, 3, 2);
    KeyInWord(t.mem, ss, sp, key, 0);
    KeyInWord(t.mem, ss, sp, key, 1);
    KeyInWord(t.mem, ss, sp, key, 2);
    IretEffect(u, sp);
    KeyOutside(s.mem, t.mem, ss, sp, key);
    SameOutsideJoins(s.mem[KEY := key], w.mem, u.mem, ss, sp, 3, 3);
    assert s.regs[SP := Add16(sp, -6)][SP := sp] == s.regs;
    assert s.sregs[CS := t.sregs[CS]][CS := WithKey(ss, sp, key, 1, s.sregs[CS])]
        == s.sregs[CS := WithKey(ss, sp, key, 1, s.sregs[CS])];
  }

  lemma KeyOutside(m: Memory, m': Memory, ss: u16, sp: u16, key: u8)
    requires SameOutside(m, m', ss, sp, 3)
    ensures SameOutside(m[KEY := key], m'[KEY := key], ss, sp, 3)
  {}

  /** A timer tick that also delivers a key interrupts twice, with the key stored in
      between. Two IRETs restore everything but what that store changed in the first frame,
      and memory differs from the store's in the two frames at most. */
  lemma {:induction false} TimerAndKeyReturn(s: State, key: u8)
    ensures ComesBack(s, key, Iret(Iret(Interrupt(KeyStored(s, key), 7))))
  {
    hide SameOutside, Interrupt, Iret, Normalised, Resumed, Add16, KeyStored;
    var w := KeyStored(s, key);
    var v := Interrupt(w, 7);
    SameOutsideSelf(v.mem, v.sregs[SS], v.regs[SP]);
    OuterReturns(w, 7, v, v, 0);
    OuterReturnsAfterKey(s, key, w, Iret(v));
  }

  /** The key's store missed word j of the frame, or stored the byte of w that was there. */
  predicate Spared(ss: u16, sp: u16, key: u8, j: nat, w: u16) {
    && (FrameWord(ss, sp, j) == KEY ==> key == Lo(w))
    && (FrameWord(ss, sp, j) + 1 == KEY ==> key == Hi(w))
  }

  lemma {:induction false} SparedIff(ss: u16, sp: u16, key: u8, j: nat, w: u16)
    ensures WithKey(ss, sp, key, j, w) == w <==> Spared(ss, sp, key, j, w)
  {
    hide Wrap, Rem, Quot;
    OperatorsAre();
    hide FrameWord;
  }

  /** CS, IP and the nine flags are those of s. */
  predicate BackIn(r: State, s: State) {
    r.sregs[CS] == s.sregs[CS] && r.ip == s.ip && SameDefined(r.flags, s.flags)
  }

  /** The same for the word of FLAGS, in whose low byte bits 0, 2, 4, 6 and 7 are flags, and
      in whose high byte the lower four. */
  predicate FlagsSpared(ss: u16, sp: u16, key: u8, w: u16) {
    var (k, l, h) := (BitsOf(key), BitsOf(Lo(w)), BitsOf(Hi(w)));
    && (FrameWord(ss, sp, 0) == KEY ==>
          k.b0 == l.b0 && k.b2 == l.b2 && k.b4 == l.b4 && k.b6 == l.b6 && k.b7 == l.b7)
    && (FrameWord(ss, sp, 0) + 1 == KEY ==> k.b0 == h.b0 && k.b1 == h.b1 && k.b2 == h.b2 && k.b3 == h.b3)
  }

  lemma {:induction false} FlagsSparedIff(ss: u16, sp: u16, key: u8, w: u16)
    ensures Unpack(WithKey(ss, sp, key, 0, w)) == Unpack(w) <==> FlagsSpared(ss, sp, key, w)
  {
    hide FrameWord, Word, Lo, Hi, BitsOf;
    SplitWord(key, Hi(w));
    SplitWord(Lo(w), key);
  }

  /** So after the two IRETs CS, IP and the nine flags are all back exactly if the store
      spared the words of CS and IP and the flags in the word of FLAGS. */
  lemma {:induction false} ReturnsIff(s: State, key: u8)
    ensures var (ss, sp) := (s.sregs[SS], s.regs[SP]);
      BackIn(Iret(Iret(Interrupt(KeyStored(s, key), 7))), s)
      <==> && Spared(ss, sp, key, 1, s.sregs[CS]) && Spared(ss, sp, key, 2, s.ip)
           && FlagsSpared(ss, sp, key, Pack(s.flags))
  {
    hide Spared, FlagsSpared, WithKey, Pack, Unpack, SameDefined, Normalised, Interrupt, KeyStored, Iret, SameOutside,
      FrameWord;
    var (ss, sp) := (s.sregs[SS], s.regs[SP]);
    TimerAndKeyReturn(s, key);
    SparedIff(ss, sp, key, 1, s.sregs[CS]);
    SparedIff(ss, sp, key, 2, s.ip);
    FlagsSparedIff(ss, sp, key, Pack(s.flags));
    var w := WithKey(ss, sp, key, 0, Pack(s.flags));
    UnpackPack(s.flags);
    UnpackedIsNormal(w);
    SameIffNormal(Unpack(w), s.flags);
  }

  lemma SameIffNormal(g: Flags, f: Flags)
    requires Normalised(g) == g
    ensures SameDefined(g, f) <==> g == Normalised(f)
  {}

  lemma UnpackedIsNormal(w: u16)
    ensures Normalised(Unpack(w)) == Unpack(w)
  {
    hide OfWord;
  }

  /** With SS:SP at 0000:04AC the timer's frame has IP at 0x4A6: every key other than the low
      byte of IP replaces that byte, and so fails the condition. */
  lemma {:induction false} KeyHitsIp(ip: u16, key: u8)
    requires key != Lo(ip)
    ensures WithKey(0, 0x4AC, key, 2, ip) == Word(key, Hi(ip)) != ip && !Spared(0, 0x4AC, key, 2, ip)
  {
    SplitWord(key, Hi(ip));
    SparedIff(0, 0x4AC, key, 2, ip);
  }

  lemma SameOutsideSelf(m: Memory, ss: u16, sp: u16)
    ensures SameOutside(m, m, ss, sp, 0)
  {}

  /** TakeTimer does exactly this when a key is waiting. */
  lemma {:induction false} TimerDeliversKey(m: Machine)
    requires TimerDue(m.s) && Read(m.consoleIn).Got?
    ensures TakeTimer(m).s == Interrupt(KeyStored(m.s, Read(m.consoleIn).byte), 7)
  {
    hide Interrupt, Read;
  }
}

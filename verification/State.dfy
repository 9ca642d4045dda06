/**
 The machine state (state.h), the memory accessors (decode.h), the stack
 (transfer.h) and interrupt entry and return (control.h), on values.
 */
module State {
  import opened Words
  import opened Flags

  const MEM_SIZE := 0x11_0000
  const IO_PORTS := 0x1_0000

  const AX := 0
  const CX := 1
  const DX := 2
  const BX := 3
  const SP := 4
  const BP := 5
  const SI := 6
  const DI := 7

  const ES := 0
  const CS := 1
  const SS := 2
  const DS := 3

  datatype Control = Control(halted: u8, trapFlag: u8, intPending: u8, intVector: u8)

  /** The two prefix countdowns with the override and the repeat mode they guard. */
  datatype Prefix = Prefix(segEn: u8, seg: u8, repEn: u8, repMode: u8)

  datatype Disk = Disk(size: u32, cylinders: u16, heads: u8, sectors: u8, position: u32)
  datatype Pit = Pit(reload: u16, counter: u16, mode: u8)

  const NUM_DISKS := 3
  const NUM_PIT := 3
  const KB_BUF_SIZE := 16

  type Disks = d: seq<Disk> | |d| == NUM_DISKS witness seq(NUM_DISKS, _ => Disk(0, 0, 0, 0, 0))
  type Pits = p: seq<Pit> | |p| == NUM_PIT witness seq(NUM_PIT, _ => Pit(0, 0, 0))
  type KbBuffer = k: seq<u8> | |k| == KB_BUF_SIZE witness seq(KB_BUF_SIZE, _ => 0)

  datatype Devices = Devices(
    disks: Disks, pits: Pits, pitLobyte: u8,
    kbBuffer: KbBuffer, kbHead: u8, kbTail: u8,
    videoMode: u8, cursorRow: u16, cursorCol: u16,
    spkrEn: u8, waveCounter: u16, graphicsX: u16, graphicsY: u16)

  type Memory = m: seq<u8> | |m| == MEM_SIZE witness seq(MEM_SIZE, _ => 0)
  type Ports = m: seq<u8> | |m| == IO_PORTS witness seq(IO_PORTS, _ => 0)
  type Regs = r: seq<u16> | |r| == 8 witness seq(8, _ => 0)
  type SRegs = r: seq<u16> | |r| == 4 witness seq(4, _ => 0)

  /** Emu86State. */
  datatype State = State(
    regs: Regs, sregs: SRegs, ip: u16, flags: Flags,
    ctl: Control, prefix: Prefix,
    mem: Memory, io: Ports, devices: Devices,
    instCount: u64, int8Asap: u8)

  /** segoff_to_linear. Every byte that a word, a far pointer or a fetch window reads
      from here on lies inside the memory array. */
  function Linear(seg: u16, off: u16): (a: nat)
    ensures a + 0x10 < MEM_SIZE
  {
    0x10 * seg + off
  }

  function Read16(m: Memory, a: nat): u16
    requires a + 1 < MEM_SIZE
  {
    Word(m[a], m[a + 1])
  }

  function Write16(m: Memory, a: nat, v: u16): Memory
    requires a + 1 < MEM_SIZE
  {
    m[a := Lo(v)][a + 1 := Hi(v)]
  }

  function SetReg(s: State, r: nat, v: u16): State
    requires r < 8
  {
    s.(regs := s.regs[r := v])
  }

  function SetSReg(s: State, r: nat, v: u16): State
    requires r < 4
  {
    s.(sregs := s.sregs[r := v])
  }

  /** stack_push: SP -= 2, then write at SS:SP. */
  function Push(s: State, v: u16): State {
    var sp := Add16(s.regs[SP], -2);
    SetReg(s, SP, sp).(mem := Write16(s.mem, Linear(s.sregs[SS], sp), v))
  }

  /** stack_pop: the word at SS:SP ... */
  function Top(s: State): u16 {
    Read16(s.mem, Linear(s.sregs[SS], s.regs[SP]))
  }

  /** ... and the state with SP += 2. */
  function Drop(s: State): State {
    SetReg(s, SP, Add16(s.regs[SP], 2))
  }

  /** pc_interrupt: push FLAGS, CS, IP; clear IF and TF; load CS:IP from the vector table. */
  function Interrupt(s: State, vector: u8): State {
    var p := Push(Push(Push(s, Pack(s.flags)), s.sregs[CS]), s.ip);
    p.(flags := p.flags.(intf := false, tf := false),
       ip := Read16(p.mem, 4 * vector),
       sregs := p.sregs[CS := Read16(p.mem, 4 * vector + 2)])
  }

  /** exec_iret: pop IP, CS, FLAGS. */
  function Iret(s: State): State {
    var s1 := Drop(s).(ip := Top(s));
    var s2 := SetSReg(Drop(s1), CS, Top(s1));
    Drop(s2).(flags := Unpack(Top(s2)))
  }
}

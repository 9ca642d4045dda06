/**
 Emu86State as an object that is updated in place (state.h), with the accessors that write
 it (decode.h), the stack (transfer.h) and interrupts (control.h). View() is its value; each
 method equals, on that value, the function of module State that it is named for.
 */
module Emulator {
  import opened Words
  import opened Flags
  import opened State

  class Emu86State {
    const mem: array<u8>
    const io: array<u8>
    var regs: Regs
    var sregs: SRegs
    var ip: u16
    var flags: Flags
    var ctl: Control
    var prefix: Prefix
    var devices: Devices
    var instCount: u64
    var int8Asap: u8

    ghost predicate Valid() {
      mem.Length == MEM_SIZE && io.Length == IO_PORTS && mem != io
    }

    ghost function View(): State
      requires Valid()
      reads this, mem, io
    {
      State(regs, sregs, ip, flags, ctl, prefix, mem[..], io[..], devices, instCount, int8Asap)
    }

    // ----- single fields

    method SetRegister(r: nat, v: u16)
      requires Valid() && r < 8
      modifies this`regs
      ensures View() == SetReg(old(View()), r, v)
    {
      regs := regs[r := v];
      assert mem[..] == old(mem[..]) && io[..] == old(io[..]);
    }

    method SetSegment(r: nat, v: u16)
      requires Valid() && r < 4
      modifies this`sregs
      ensures View() == SetSReg(old(View()), r, v)
    {
      sregs := sregs[r := v];
      assert mem[..] == old(mem[..]) && io[..] == old(io[..]);
    }

    method SetIp(v: u16)
      requires Valid()
      modifies this`ip
      ensures View() == old(View()).(ip := v)
    {
      ip := v;
      assert mem[..] == old(mem[..]) && io[..] == old(io[..]);
    }

    method SetFlags(f: Flags)
      requires Valid()
      modifies this`flags
      ensures View() == old(View()).(flags := f)
    {
      flags := f;
      assert mem[..] == old(mem[..]) && io[..] == old(io[..]);
    }

    method SetControl(c: Control)
      requires Valid()
      modifies this`ctl
      ensures View() == old(View()).(ctl := c)
    {
      ctl := c;
      assert mem[..] == old(mem[..]) && io[..] == old(io[..]);
    }

    method SetPrefix(p: Prefix)
      requires Valid()
      modifies this`prefix
      ensures View() == old(View()).(prefix := p)
    {
      prefix := p;
      assert mem[..] == old(mem[..]) && io[..] == old(io[..]);
    }

    method SetDevices(d: Devices)
      requires Valid()
      modifies this`devices
      ensures View() == old(View()).(devices := d)
    {
      devices := d;
      assert mem[..] == old(mem[..]) && io[..] == old(io[..]);
    }

    method SetTiming(count: u64, asap: u8)
      requires Valid()
      modifies this`instCount, this`int8Asap
      ensures View() == old(View()).(instCount := count, int8Asap := asap)
    {
      instCount, int8Asap := count, asap;
      assert mem[..] == old(mem[..]) && io[..] == old(io[..]);
    }

    method WritePort(port: u16, v: u8)
      requires Valid()
      modifies io
      ensures View() == old(View()).(io := old(io[..])[port := v])
    {
      io[port] := v;
      assert mem[..] == old(mem[..]) && io[..] == old(io[..])[port := v];
    }

    // ----- memory

    method MemWrite8(a: nat, v: u8)
      requires Valid() && a < MEM_SIZE
      modifies mem
      ensures View() == old(View()).(mem := old(mem[..])[a := v])
    {
      mem[a] := v;
      assert mem[..] == old(mem[..])[a := v] && io[..] == old(io[..]);
    }

    method MemRead16(a: nat) returns (v: u16)
      requires Valid() && a + 1 < MEM_SIZE
      ensures v == Read16(View().mem, a)
    {
      v := Word(mem[a], mem[a + 1]);
    }

    method MemWrite16(a: nat, v: u16)
      requires Valid() && a + 1 < MEM_SIZE
      modifies mem
      ensures View() == old(View()).(mem := Write16(old(mem[..]), a, v))
    {
      MemWrite8(a, Lo(v));
      MemWrite8(a + 1, Hi(v));
    }

    // ----- stack and interrupts

    method StackPush(v: u16)
      requires Valid()
      modifies this`regs, mem
      ensures View() == Push(old(View()), v)
    {
      SetRegister(SP, Add16(regs[SP], -2));
      MemWrite16(Linear(sregs[SS], regs[SP]), v);
    }

    method StackPop() returns (v: u16)
      requires Valid()
      modifies this`regs
      ensures v == Top(old(View())) && View() == Drop(old(View()))
    {
      v := MemRead16(Linear(sregs[SS], regs[SP]));
      SetRegister(SP, Add16(regs[SP], 2));
    }

    method PcInterrupt(vector: u8)
      requires Valid()
      modifies this, mem
      ensures View() == Interrupt(old(View()), vector)
    {
      StackPush(Pack(flags));
      StackPush(sregs[CS]);
      StackPush(ip);
      SetFlags(flags.(intf := false, tf := false));
      var target := MemRead16(4 * vector);
      var segment := MemRead16(4 * vector + 2);
      SetIp(target);
      SetSegment(CS, segment);
    }

    method ExecIret()
      requires Valid()
      modifies this, mem
      ensures View() == Iret(old(View()))
    {
      var target := StackPop();
      SetIp(target);
      var segment := StackPop();
      SetSegment(CS, segment);
      var word := StackPop();
      SetFlags(Unpack(word));
    }
  }
}

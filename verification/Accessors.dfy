/**
 Operand access and decoding on the machine object (decode.h): the reads and writes of
 registers and memory that the instructions are made of.
 */
module Accessors {
  import opened Words
  import opened State
  import opened Strings
  import opened Decode
  import opened Emulator

  method GetRegister(e: Emu86State, i: u3, wide: bool) returns (v: u16)
    requires e.Valid()
    ensures v == ReadRegister(e.View(), i, wide)
  {
    if wide {
      v := e.regs[i];
    } else if i < 4 {
      v := Lo(e.regs[i]);
    } else {
      v := Hi(e.regs[i - 4]);
    }
  }

  method PutRegister(e: Emu86State, i: u3, v: u16, wide: bool)
    requires e.Valid()
    modifies e`regs
    ensures e.View() == WriteRegister(old(e.View()), i, v, wide)
  {
    if wide {
      e.SetRegister(i, v);
    } else if i < 4 {
      e.SetRegister(i, Word(Lo(v), Hi(e.regs[i])));
    } else {
      e.SetRegister(i - 4, Word(Lo(e.regs[i - 4]), Lo(v)));
    }
  }

  method MemRead(e: Emu86State, a: nat, wide: bool) returns (v: u16)
    requires e.Valid() && a + 1 < MEM_SIZE
    ensures v == Load(e.View().mem, a, wide)
  {
    if wide {
      v := e.MemRead16(a);
    } else {
      v := e.mem[a];
    }
  }

  method MemWrite(e: Emu86State, a: nat, v: u16, wide: bool)
    requires e.Valid() && a + 1 < MEM_SIZE
    modifies e.mem
    ensures e.View() == old(e.View()).(mem := Store(old(e.View()).mem, a, v, wide))
  {
    if wide {
      e.MemWrite16(a, v);
    } else {
      e.MemWrite8(a, Lo(v));
    }
  }

  method GetRm(e: Emu86State, d: Decoded) returns (v: u16)
    requires e.Valid() && AddressInRange(d)
    ensures v == ReadRm(e.View(), d)
  {
    if d.mod == 3 {
      v := GetRegister(e, d.rm, d.wide);
    } else {
      v := MemRead(e, d.rmAddr, d.wide);
    }
  }

  method PutRm(e: Emu86State, d: Decoded, v: u16)
    requires e.Valid() && AddressInRange(d)
    modifies e`regs, e.mem
    ensures e.View() == WriteRm(old(e.View()), d, v)
  {
    if d.mod == 3 {
      PutRegister(e, d.rm, v, d.wide);
    } else {
      MemWrite(e, d.rmAddr, v, d.wide);
    }
  }

  method GetDest(e: Emu86State, d: Decoded) returns (v: u16)
    requires e.Valid() && AddressInRange(d)
    ensures v == ReadDest(e.View(), d)
  {
    if d.direction {
      v := GetRegister(e, d.reg, d.wide);
    } else {
      v := GetRm(e, d);
    }
  }

  method GetSrc(e: Emu86State, d: Decoded) returns (v: u16)
    requires e.Valid() && AddressInRange(d)
    ensures v == ReadSrc(e.View(), d)
  {
    if d.direction {
      v := GetRm(e, d);
    } else {
      v := GetRegister(e, d.reg, d.wide);
    }
  }

  method PutDest(e: Emu86State, d: Decoded, v: u16)
    requires e.Valid() && AddressInRange(d)
    modifies e`regs, e.mem
    ensures e.View() == WriteDest(old(e.View()), d, v)
  {
    if d.direction {
      PutRegister(e, d.reg, v, d.wide);
    } else {
      PutRm(e, d, v);
    }
  }

  method GetSegment(e: Emu86State, i: nat) returns (v: u16)
    requires e.Valid()
    ensures v == SRegAt(e.View(), i)
  {
    v := if i < 4 then e.sregs[i] else 0;
  }

  /** string_src_seg */
  method GetSourceSegment(e: Emu86State) returns (v: u16)
    requires e.Valid()
    ensures v == SourceSegment(e.View())
  {
    if e.prefix.segEn > 0 {
      v := GetSegment(e, e.prefix.seg);
    } else {
      v := e.sregs[DS];
    }
  }

  method GetTableReg(e: Emu86State, i: u8) returns (v: u16)
    requires e.Valid()
    ensures v == TableReg(e.View(), i)
  {
    v := if i < 8 then e.regs[i] else 0;
  }

  method GetEffectiveSegment(e: Emu86State, t: Tables, mod: u2, rm: u3) returns (v: u16)
    requires e.Valid()
    ensures v == EffectiveSegment(e.View(), t, mod, rm)
  {
    if e.prefix.segEn > 0 {
      v := GetSegment(e, e.prefix.seg);
    } else {
      var i := At(t, TableSet(mod) + 3, rm);
      v := if 8 <= i < 12 then e.sregs[i - 8] else 0;
    }
  }

  method GetEffectiveAddress(e: Emu86State, t: Tables, mod: u2, rm: u3, disp: u16) returns (a: nat)
    requires e.Valid()
    ensures a == EffectiveAddress(e.View(), t, mod, rm, disp)
  {
    if mod == 3 { return rm; }
    var b := TableSet(mod);
    var x := GetTableReg(e, At(t, b, rm));
    var y := GetTableReg(e, At(t, b + 1, rm));
    var seg := GetEffectiveSegment(e, t, mod, rm);
    MultipleIs(At(t, b + 2, rm), disp);
    a := Linear(seg, U16(x as int + y as int + At(t, b + 2, rm) as int * disp as int));
  }

  /** decode_instruction fills the context step by step. */
  method DecodeInstruction(e: Emu86State, t: Tables) returns (d: Decoded)
    requires e.Valid()
    ensures d == DecodeAt(e.View(), t) && AddressInRange(d)
  {
    hide At, ImmediateSize, DisplacementSize, Read16, EffectiveAddress, SignExtend, U8, Lo, Linear;
    var a := Linear(e.sregs[CS], e.ip);
    var op := e.mem[a];
    d := Decoded(op, At(t, XLAT_OPCODE, op), At(t, XLAT_SUBFUNCTION, op), At(t, I_MOD_SIZE, op) != 0,
                 Rem(op, 2) == 1, Rem(Quot(op, 2), 2) == 1, 0, 0, 0, Rem(op, 8), 0, 0, 0, 0, 0);
    var data0 := e.MemRead16(a + 1);
    var data1 := e.MemRead16(a + 2);
    var data2 := e.MemRead16(a + 3);
    var disp := 0;
    if d.hasModrm {
      var modrm := Lo(data0);
      d := d.(mod := ModOf(modrm), reg := Rem(Quot(modrm, 8), 8), rm := Rem(modrm, 8));
      if (d.mod == 0 && d.rm == 6) || d.mod == 2 {
        data2 := e.MemRead16(a + 4);
      } else if d.mod != 1 {
        data2 := data1;
      } else {
        data1 := SignExtend(Lo(data1));
      }
      var address := GetEffectiveAddress(e, t, d.mod, d.rm, data1);
      d := d.(rmAddr := address);
      disp := DisplacementSize(d.mod, d.rm);
    }
    d := d.(data0 := data0, data1 := data1, data2 := data2,
            length := U8(At(t, BASE_INST_SIZE, op) as int + disp as int
                         + ImmediateSize(t, op, d.wide) as int));
    DecodedInRange(e.View(), t);
  }
}

/**
 The other cases of the reference's switch (reference/8086tiny.c): moves, stack, jumps, strings,
 ports, flags and prefixes, and the whole of one instruction, from its bytes to its last flag.
 Together with InstructionReference every case is here but for the host calls.
 */
module ReferenceCases {
  import opened Words
  import opened Flags
  import opened State
  import opened Strings
  import opened Alu
  import opened Decode
  import opened Execute
  import opened Run
  import opened AluReference
  import opened InstructionReference
  import DecimalReference
  import ShiftReference
  import StringFills
  import StringCompares

  const NO_OP := RefOp(0, 0, 0)

  /** Cases that leave the length and the flags to the tables. */
  function Plainly(s: State, t: Tables, d: Decoded): State { Tail(s, t, d, d.opcode, NO_OP) }

  /** `=` on two places. */
  function Copy(s: State, to: Place, from: Place, wide: bool): State { Put(s, to, Fetch(s, from, wide), wide) }

  // ----- jumps and calls (cases 0, 13, 14, 19, 32, 38 to 40)

  /** regs8[i] for the flags; byte 49 of the register file is never written. */
  predicate JumpByte(f: Flags, i: u8) { i >= 40 && FlagByte(f, i - 40) }

  /** Case 0: i_w inverts. */
  function RefJcc(s: State, t: Tables, d: Decoded): State {
    var pair := d.opcode / 2 % 8;
    var (a, b) := (JumpByte(s.flags, At(t, 15, pair)), JumpByte(s.flags, At(t, 16, pair)));
    var (c, e) := (JumpByte(s.flags, At(t, 17, pair)), JumpByte(s.flags, At(t, 18, pair)));
    var taken := d.wide != (a || b || (c != e));
    Plainly(s.(ip := U16(s.ip as int + if taken then S8(Lo(d.data0)) else 0)), t, d)
  }

  /** Case 13 */
  function RefLoop(s: State, t: Tables, d: Decoded): State {
    var s1 := SetReg(s, CX, U16(s.regs[CX] as int - 1));
    var go := s1.regs[CX] != 0;
    var (s2, taken) := match d.reg4bit
      case 0 => (s1, go && !s.flags.zf)
      case 1 => (s1, go && s.flags.zf)
      case 3 => var s3 := SetReg(s1, CX, U16(s1.regs[CX] as int + 1)); (s3, s3.regs[CX] == 0)
      case _ => (s1, go);
    Plainly(s2.(ip := U16(s2.ip as int + if taken then S8(Lo(d.data0)) else 0)), t, d)
  }

  /** Case 14: short and near jumps, near calls and far jumps. */
  function RefJump(s: State, t: Tables, d: Decoded): State {
    var s1 := s.(ip := U16(s.ip as int + if d.direction then 2 else 3));
    var s2 := if d.wide then s1
              else if d.direction then SetRegs16(s1.(ip := 0), 9, d.data2)
              else RefPush(s1, s1.ip);
    var step: int := if d.direction && d.wide then S8(Lo(d.data0)) else d.data0;
    Plainly(s2.(ip := U16(s2.ip as int + step)), t, d.(wide := d.wide || !d.direction))
  }

  /** Case 19 */
  function RefReturn(s: State, t: Tables, d: Decoded): State {
    var s1 := RefDropped(s).(ip := RefPopped(s));
    var s2 := if d.extra != 0 then SetRegs16(RefDropped(s1), 9, RefPopped(s1)) else s1;
    var s3 := if d.extra / 2 % 2 == 1 then RefDropped(s2).(flags := SetFlags(t, s2.flags, RefPopped(s2)))
              else if d.wide then s2
              else SetReg(s2, SP, U16(s2.regs[SP] as int + d.data0 as int));
    Plainly(s3, t, d.(wide := true))
  }

  /** Case 32 */
  function RefCallFar(s: State, t: Tables, d: Decoded): State {
    var s1 := RefPush(RefPush(s, s.sregs[CS]), U16(s.ip as int + 5));
    Plainly(SetRegs16(s1, 9, d.data2).(ip := d.data0), t, d.(wide := true))
  }

  /** Cases 38 and 39, and 40 with OF set; behind pc_interrupt the opcode is that of INT. */
  function RefInt(s: State, t: Tables, d: Decoded, length: int, n: u8): State {
    Tail(PcInterrupt(s.(ip := U16(s.ip as int + length)), t, n), t, d.(wide := true), INT_OPCODE, NO_OP)
  }

  function RefInto(s: State, t: Tables, d: Decoded): State {
    if s.flags.of then RefInt(s, t, d, 1, 4) else Plainly(s.(ip := U16(s.ip as int + 1)), t, d)
  }

  // ----- INC, DEC, indirect jumps and calls (cases 2 and 5)

  /** INC (reg == 0) and DEC (reg == 1) on a place; `kind` is the opcode of the flags and length. */
  function RefIncDec(s: State, t: Tables, d: Decoded, p: Place, reg: nat, kind: u8): State
    requires reg <= 1
  {
    var a := Fetch(s, p, d.wide);
    var v := Low(U32(a as int + 1 - 2 * reg), d.wide);
    var g := SetAfOfArith(s.flags, RefOp(1, a, v), d.wide).(of := a as int + 1 - reg == Half(d.wide));
    Tail(Put(s, p, v, d.wide).(flags := g), t, d, kind, RefOp(1, a, v))
  }

  function RefIncDecReg(s: State, t: Tables, d: Decoded): State
    requires d.extra <= 1
  {
    RefIncDec(s, t, d.(wide := true), RegPlace(d.reg4bit, true), d.extra, d.opcode)
  }

  /** Case 5. A far pointer is read at the operand's address, also behind the pushes. */
  function RefGroupFf(s: State, t: Tables, d: Decoded): State
    requires AddressInRange(d) && d.reg < 7 && (d.reg == 3 || d.reg == 5 ==> d.mod < 3)
  {
    var from := if d.direction then RmPlace(d) else RegPlace(d.reg, d.wide);
    if d.reg < 2 then RefIncDec(s, t, d, from, d.reg, SHIFTED_OPCODE)
    else if d.reg == 6 then Plainly(RefPush(s, Fetch(s, RmPlace(d), true)), t, d.(wide := true))
    else
      var disp := (if d.mod != 3 then d.mod else 0) as int + if d.mod == 0 && d.rm == 6 then 2 else 0;
      var s1 := if d.reg == 3 then RefPush(s, s.sregs[CS]) else s;
      var s2 := if d.reg / 2 % 2 == 1 then RefPush(s1, U16(s1.ip as int + 2 + disp)) else s1;
      var s3 := if d.reg % 2 == 1 then SetRegs16(s2, 9, Load(s2.mem, d.rmAddr + 2, true)) else s2;
      Tail(s3.(ip := Fetch(s3, from, d.wide)), t, d, FAR_OPCODE, NO_OP)
  }

  // ----- moves (cases 1, 3, 4, 10, 11, 16, 20, 24 to 26, 30, 31, 33 to 37, 44)

  function RefMovRegImm(s: State, t: Tables, d: Decoded): State {
    var wide := d.opcode / 8 % 2 == 1;
    Plainly(Put(s, RegPlace(d.reg4bit, wide), d.data0, wide), t, d.(wide := wide))
  }

  function RefPopTo(s: State, t: Tables, d: Decoded, p: Place): State {
    Plainly(Put(RefDropped(s), p, RefPopped(s), true), t, d.(wide := true))
  }

  /** MOV with a segment register: i_reg += 8, and words. */
  function RefMovSreg(s: State, t: Tables, d: Decoded): State
    requires AddressInRange(d) && d.reg < 4
  {
    var (sreg, rm) := (SegPlace(d.reg), RmPlace(d.(wide := true)));
    var (to, from) := if d.direction then (sreg, rm) else (rm, sreg);
    Plainly(Copy(s, to, from, true), t, d.(wide := true))
  }

  /** LEA decodes its operand again under an override to REG_ZERO. The override stays in force for
      no instruction, and is not kept here. */
  function RefLea(s: State, t: Tables, d: Decoded): State {
    var under := s.(prefix := s.prefix.(segEn := 1, seg := 4));
    var s1 := Put(s, RegPlace(d.reg, true), U16(ModeAddress(under, t, d.mod, d.rm, d.data1)), true);
    Plainly(s1.(prefix := s1.prefix.(segEn := 1)), t, d)
  }

  /** Case 11 decodes a direct address. */
  function RefMovAcc(s: State, t: Tables, d: Decoded): State
    requires ModeAddress(s, t, 0, 6, d.data0) + 1 < MEM_SIZE
  {
    var (reg, mem) := (RegPlace(0, d.wide), InMemory(ModeAddress(s, t, 0, 6, d.data0)));
    Plainly(if d.direction then Copy(s, mem, reg, d.wide) else Copy(s, reg, mem, d.wide), t, d)
  }

  /** XCHG by three exclusive ors, unless both operands are one place. */
  function RefXor(s: State, to: Place, from: Place, wide: bool): State {
    Put(s, to, Low(Xor16(Fetch(s, to, wide), Fetch(s, from, wide)), wide), wide)
  }

  function RefXchg(s: State, a: Place, b: Place, wide: bool): State {
    if a == b then s else RefXor(RefXor(RefXor(s, a, b, wide), b, a, wide), a, b, wide)
  }

  /** LES and LDS: the segment register is at `extra` in the register file. */
  function RefLoadFar(s: State, t: Tables, d: Decoded): State
    requires AddressInRange(d) && d.mod < 3 && d.extra < 23
  {
    var s1 := Copy(s, RegPlace(d.reg, true), RmPlace(d), true);
    Plainly(Copy(s1, InFile(d.extra), InMemory(d.rmAddr + 2), true), t, d.(wide := true))
  }

  function RefMovRmImm(s: State, t: Tables, d: Decoded): State
    requires AddressInRange(d)
  {
    Plainly(Put(s, if d.direction then RmPlace(d) else RegPlace(d.reg, d.wide), d.data2, d.wide), t, d)
  }

  function RefXlat(s: State, t: Tables, d: Decoded): State {
    var seg := if s.prefix.segEn > 0 then 8 + s.prefix.seg else 11;
    var a := 0x10 * Regs16(s, seg) + (FileByte(s, 0) as int + s.regs[BX] as int) % 0x1_0000;
    Plainly(SetFileByte(s, 0, s.mem[a]), t, d)
  }

  // ----- strings (cases 17 and 18)

  /** Case 18 for one element, by `extra`: CMPS or SCAS. */
  function RefCompareOnce(s: State, extra: nat, wide: bool): State {
    var (left, right) := (if extra != 0 then Fetch(s, InFile(0), wide) else Load(s.mem, SourceAddress(s), wide),
                          Load(s.mem, TargetAddress(s), wide));
    var s1 := if extra != 0 then s else StringFills.IndexInc(s, SI, wide);
    StringFills.IndexInc(s1, DI, wide).(flags := CmpRef(s.flags, left, right, wide).flags)
  }

  /** Case 18: with REP, CX counts the elements, and the flags are set behind the last. */
  function RefCompare(s: State, extra: nat, wide: bool): State {
    if s.prefix.repEn > 0 then StringCompares.RepRef(s, if extra != 0 then SCAS else CMPS, wide)
    else RefCompareOnce(s, extra, wide)
  }

  // ----- ports, decimal adjustment, flags and prefixes

  function RefPort(s: State, d: Decoded): u16 { if d.extra != 0 then s.regs[DX] else d.data0 % 0x100 }

  /** Case 21, but for the cursor at port 0x3D5. */
  function RefIn(s: State, t: Tables, d: Decoded): State
    requires RefPort(s, d) < 0xFFFF
  {
    var port := RefPort(s, d);
    var io1 := s.io[0x20 := 0];
    var io2 := io1[0x40 := U8(io1[0x40] as int - 1)];
    var io3 := io2[0x42 := io2[0x40]];
    var io4 := io3[0x3DA := Xor8(io3[0x3DA], 9)];
    var io5 := if port == 0x60 then io4[0x64 := 0] else io4;
    var s1 := SetFileByte(s.(io := io5), 0, io5[port]);
    Plainly(if d.wide then SetFileByte(s1, 1, io5[port + 1]) else s1, t, d)
  }

  /** Case 22, but for the video ports 0x3D5 and 0x3B5. */
  function RefOut(s: State, t: Tables, d: Decoded): State
    requires RefPort(s, d) < 0xFFFF
  {
    var (port, al) := (RefPort(s, d), FileByte(s, 0));
    var io1 := s.io[port := al];
    var io2 := if d.wide then io1[port + 1 := FileByte(s, 1)] else io1;
    var s1 := s.(io := io2);
    var s2 := if port == 0x61
              then s1.(devices := s1.devices.(pitLobyte := 0, spkrEn := Or8(s1.devices.spkrEn, al % 4)))
              else s1;
    var s3 := if (port == 0x40 || port == 0x42) && io2[0x43] / 2 % 4 != 0
              then
                var half := Xor8(s2.devices.pitLobyte, 1);
                s2.(devices := s2.devices.(pitLobyte := half), mem := s2.mem[0x469 + port - half := al])
              else s2;
    Plainly(s3, t, d)
  }

  /** Case 28. op_result is assigned by either adjustment, and otherwise still that of an earlier
      instruction. */
  function RefDecimal(s: State, t: Tables, d: Decoded, earlier: int): State {
    var al := FileByte(s, 0);
    var r := if d.extra != 0 then DecimalReference.DasRef(s.flags, al) else DecimalReference.DaaRef(s.flags, al);
    var s1 := SetFileByte(s, 0, r.al).(flags := s.flags.(cf := r.cf, af := r.af));
    Tail(s1, t, d.(wide := false), d.opcode, RefOp(0, 0, if r.cf || r.af then r.al else earlier))
  }

  /** Case 29: AAA_AAS(extra - 1). */
  function RefAscii(s: State, t: Tables, d: Decoded): State {
    var adjust := FileByte(s, 0) % 0x10 > 9 || s.flags.af;
    var s1 := SetReg(s, AX, U16(s.regs[AX] as int + if adjust then 262 * (d.extra as int - 1) else 0));
    var s2 := SetFileByte(s1, 0, FileByte(s1, 0) % 0x10).(flags := s.flags.(af := adjust, cf := adjust));
    Tail(s2, t, d, d.opcode, RefOp(0, 0, FileByte(s2, 0)))
  }

  /** Case 41, where a zero base is a divide error at the instruction itself. */
  function RefAam(s: State, t: Tables, d: Decoded): State {
    var (al, base) := (FileByte(s, 0), d.data0 % 0x100);
    if base == 0 then Tail(PcInterrupt(s, t, 0), t, d.(wide := true), INT_OPCODE, NO_OP)
    else
      Tail(SetFileByte(SetFileByte(s, 1, U8(al / base)), 0, al % base), t, d, d.opcode, RefOp(0, 0, al % base))
  }

  /** Case 42 */
  function RefAad(s: State, t: Tables, d: Decoded): State {
    var v := (FileByte(s, 0) as int + d.data0 as int * FileByte(s, 1) as int) % 0x100;
    Tail(SetReg(s, AX, v), t, d.(wide := false), d.opcode, RefOp(0, 0, v))
  }

  /** Cases 15 and 47: TEST */
  function RefTest(s: State, t: Tables, d: Decoded, a: u16, b: u16): State {
    Tail(s, t, d, d.opcode, RefOp(b, a, And(a, b)))
  }

  /** Case 23 */
  function RefRep(s: State, t: Tables, d: Decoded): State {
    var p := s.prefix.(repEn := 2, repMode := if d.wide then 1 else 0);
    Plainly(s.(prefix := if p.segEn != 0 then p.(segEn := U8(p.segEn as int + 1)) else p), t, d)
  }

  /** Case 27. Segment registers are numbered from 0 in the state, and from 8 in `extra`. */
  function RefOverride(s: State, t: Tables, d: Decoded): State
    requires d.extra >= 8
  {
    var p := s.prefix.(segEn := 2, seg := d.extra - 8);
    Plainly(s.(prefix := if p.repEn != 0 then p.(repEn := U8(p.repEn as int + 1)) else p), t, d)
  }

  // ----- the whole instruction

  /** The reference has a case for the instruction that this model holds, and C says what it does:
      no host call (0F with an operand above 0), no PUSH of SP, whose macro reads and changes SP
      unsequenced, no undefined encoding, no video port, no word at the last port, and no shift
      outside ShiftReference.Comparable. */
  predicate Covered(s: State, d: Decoded) {
    && (d.xlat == 3 ==> d.reg4bit != SP)
    && (d.xlat == 5 ==> if d.reg >= 2 then d.wide && d.reg != 7 && !((d.reg == 3 || d.reg == 5) && d.mod == 3)
                                           && !(d.reg == 6 && d.mod == 3 && d.rm == SP)
                        else true)
    && (d.xlat == 10 && !d.wide ==> d.reg < 4)
    && (d.xlat == 10 && d.wide && !d.direction ==> d.mod < 3)
    && (d.xlat == 12 ==> ShiftReference.Comparable(d.reg, Count(s, d), d.wide))
    && ((d.xlat == 21 || d.xlat == 22) ==> var p := RefPort(s, d); p != 0x3D5 && p != 0x3B5 && p < 0xFFFF)
    && (d.xlat == 37 ==> d.mod < 3)
    && (d.xlat == 48 ==> d.data0 % 0x100 == 0 || d.data0 % 0x100 > 3)
  }

  /** What the tables give the functions above. */
  predicate Executable(s: State, t: Tables, d: Decoded) {
    && AddressInRange(d) && Covered(s, d)
    && (d.xlat == 2 ==> d.extra <= 1) && (d.xlat == 7 ==> d.extra < 8) && (d.xlat == 9 ==> d.extra <= 8)
    && (d.xlat == 12 ==> RefCount(s, d) == Count(s, d) as int)
    && (d.xlat == 11 ==> ModeAddress(s, t, 0, 6, d.data0) + 1 < MEM_SIZE)
    && ((d.xlat == 25 || d.xlat == 26 || d.xlat == 27) ==> 8 <= d.extra < 12)
    && (d.xlat == 37 ==> d.extra < 23) && (d.xlat == 46 ==> d.extra >= 80)
  }

  /** Cases 1, 3, 4, 10, 11, 16, 20, 24 to 26, 30, 31, 33 to 37 and 44. */
  function RefTransfer(s: State, t: Tables, d: Decoded): State
    requires Executable(s, t, d)
  {
    match d.xlat
    case 1 => RefMovRegImm(s, t, d)
    case 3 => Plainly(RefPush(s, s.regs[d.reg4bit]), t, d.(wide := true))
    case 4 => RefPopTo(s, t, d, RegPlace(d.reg4bit, true))
    case 10 =>
      if !d.wide then RefMovSreg(s, t, d)
      else if !d.direction then RefLea(s, t, d)
      else RefPopTo(s, t, d, RmPlace(d))
    case 11 => RefMovAcc(s, t, d)
    case 16 => Plainly(RefXchg(s, RegPlace(0, true), RegPlace(d.reg4bit, true), true), t, d.(wide := true))
    case 20 => RefMovRmImm(s, t, d)
    case 24 =>
      var (reg, rm) := (RegPlace(d.reg, d.wide), RmPlace(d));
      Plainly(if d.direction then RefXchg(s, reg, rm, d.wide) else RefXchg(s, rm, reg, d.wide), t, d)
    case 25 => Plainly(RefPush(s, Regs16(s, d.extra)), t, d.(wide := true))
    case 26 => Plainly(SetRegs16(RefDropped(s), d.extra, RefPopped(s)), t, d.(wide := true))
    case 30 => Plainly(SetFileByte(s, 1, if Bit(FileByte(s, 0), 7) then 0xFF else 0), t, d)
    case 31 => Plainly(SetReg(s, DX, if Bit(s.regs[AX], 15) then 0xFFFF else 0), t, d)
    case 33 => Plainly(RefPush(s, MakeFlags(t, s.flags)), t, d.(wide := true))
    case 34 => Plainly(RefDropped(s).(flags := SetFlags(t, s.flags, RefPopped(s))), t, d.(wide := true))
    case 35 =>
      Plainly(s.(flags := SetFlags(t, s.flags, Word(FileByte(s, 1), Hi(MakeFlags(t, s.flags))))), t, d)
    case 36 => Plainly(SetFileByte(s, 1, Lo(MakeFlags(t, s.flags))), t, d)
    case 37 => RefLoadFar(s, t, d)
    case 44 => RefXlat(s, t, d)
    case _ => Plainly(s, t, d)
  }

  /** Cases 0, 13, 14, 19, 32 and 38 to 40. */
  function RefControl(s: State, t: Tables, d: Decoded): State {
    match d.xlat
    case 0 => RefJcc(s, t, d)
    case 13 => RefLoop(s, t, d)
    case 14 => RefJump(s, t, d)
    case 19 => RefReturn(s, t, d)
    case 32 => RefCallFar(s, t, d)
    case 38 => RefInt(s, t, d, 1, 3)
    case 39 => RefInt(s, t, d, 2, d.data0 % 0x100)
    case 40 => RefInto(s, t, d)
    case _ => Plainly(s, t, d)
  }

  /** Cases 2, 5 to 9, 12, 15, 28, 29, 41, 42 and 47. */
  function RefArithmetic(s: State, t: Tables, d: Decoded, earlier: int): State
    requires Executable(s, t, d)
  {
    match d.xlat
    case 2 => RefIncDecReg(s, t, d)
    case 5 => RefGroupFf(s, t, d)
    case 6 => RefGroupF6(s, t, d)
    case 7 => RefAluAcc(s, t, d)
    case 8 => RefAluImm(s, t, d, d.reg, d.data2)
    case 9 => RefAluReg(s, t, d)
    case 12 => RefShift(s, t, d)
    case 15 => RefTest(s, t, d, Fetch(s, RegPlace(d.reg, d.wide), d.wide), Fetch(s, RmPlace(d), d.wide))
    case 28 => RefDecimal(s, t, d, earlier)
    case 29 => RefAscii(s, t, d)
    case 41 => RefAam(s, t, d)
    case 42 => RefAad(s, t, d)
    case 47 => RefTest(s, t, d, Fetch(s, InFile(0), d.wide), Low(d.data0, d.wide))
    case _ => Plainly(s, t, d)
  }

  /** Cases 17, 18, 21 to 23, 27, 43, 45, 46 and 48. */
  function RefOther(s: State, t: Tables, d: Decoded): State
    requires Executable(s, t, d)
  {
    match d.xlat
    case 17 => Plainly(StringFills.StringRef(s, d.extra, d.wide), t, d)
    case 18 => Plainly(RefCompare(s, d.extra, d.wide), t, d)
    case 21 => RefIn(s, t, d)
    case 22 => RefOut(s, t, d)
    case 23 => RefRep(s, t, d)
    case 27 => RefOverride(s, t, d)
    case 43 => Plainly(SetFileByte(s, 0, if s.flags.cf then 0xFF else 0), t, d)
    case 45 => Plainly(s.(flags := s.flags.(cf := !s.flags.cf)), t, d)
    case 46 => Plainly(s.(flags := SetFlagByte(s.flags, d.extra / 2 - 40, d.extra % 2 == 1)), t, d)
    case _ => Plainly(s, t, d)
  }

  predicate InArithmetic(x: u8) { x == 2 || (5 <= x <= 9) || x == 12 || x == 15 || x in {28, 29, 41, 42, 47} }
  predicate InControl(x: u8) { x == 0 || x == 13 || x == 14 || x == 19 || x == 32 || (38 <= x <= 40) }
  predicate InOther(x: u8) { x == 17 || x == 18 || (21 <= x <= 23) || x in {27, 43, 45, 46, 48} }

  /** The switch, with what is behind it; `earlier` is op_result of an earlier instruction. */
  function RefExecute(s: State, t: Tables, d: Decoded, earlier: int): State
    requires Executable(s, t, d)
  {
    if InArithmetic(d.xlat) then RefArithmetic(s, t, d, earlier)
    else if InControl(d.xlat) then RefControl(s, t, d)
    else if InOther(d.xlat) then RefOther(s, t, d)
    else RefTransfer(s, t, d)
  }
}

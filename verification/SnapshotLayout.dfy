/**
 Where every field of a snapshot lies (snapshot.c): absolute offsets into the buffer, for every
 saved state and for every buffer that restore accepts. Nothing here speaks of the writers and
 readers of module Snapshot; the offsets are the format's.
 */
module SnapshotLayout {
  import opened Words
  import opened Flags
  import opened State
  import opened Snapshot
  import Crc

  // ----- integers at an offset

  predicate WordAt(b: seq<u8>, i: nat, v: int)
    requires i + 2 <= |b|
  {
    v == b[i] as int + 0x100 * b[i + 1] as int
  }

  predicate LongAt(b: seq<u8>, i: nat, v: int)
    requires i + 4 <= |b|
  {
    v == b[i] as int + 0x100 * b[i + 1] as int + 0x1_0000 * b[i + 2] as int + 0x100_0000 * b[i + 3] as int
  }

  /** uint64_t: eight bytes, lowest first. */
  predicate QuadAt(b: seq<u8>, i: nat, v: int)
    requires i + 8 <= |b|
  {
    v == b[i] as int + 0x100 * b[i + 1] as int + 0x1_0000 * b[i + 2] as int + 0x100_0000 * b[i + 3] as int
         + 0x1_0000_0000 * (b[i + 4] as int + 0x100 * b[i + 5] as int + 0x1_0000 * b[i + 6] as int
                            + 0x100_0000 * b[i + 7] as int)
  }

  // ----- the format

  /** Magic "E86S", version 1 and the size of the field data. */
  predicate HeaderAt(b: seq<u8>)
    requires |b| >= 12
  {
    && b[0] == 0x45 && b[1] == 0x38 && b[2] == 0x36 && b[3] == 0x53
    && LongAt(b, 4, 1) && LongAt(b, 8, 0x12_007F)
  }

  function Bit01(b: bool, place: int): int { if b then place else 0 }

  /** FLAGS: CF, PF, AF, ZF and SF in the byte at 38, TF, IF, DF and OF in the one at 39. */
  predicate FlagsAt(b: seq<u8>, f: Flags)
    requires |b| >= 48
  {
    && b[38] as int == Bit01(f.cf, 1) + Bit01(f.r1, 2) + Bit01(f.pf, 4) + Bit01(f.r3, 8)
                       + Bit01(f.af, 0x10) + Bit01(f.r5, 0x20) + Bit01(f.zf, 0x40) + Bit01(f.sf, 0x80)
    && b[39] as int == Bit01(f.tf, 1) + Bit01(f.intf, 2) + Bit01(f.df, 4) + Bit01(f.of, 8)
                       + Bit01(f.r12, 0x10) + Bit01(f.r13, 0x20) + Bit01(f.r14, 0x40) + Bit01(f.r15, 0x80)
  }

  /** Registers, control and prefix state. */
  predicate ProcessorAt(b: seq<u8>, s: State)
    requires |b| >= 48
  {
    && (forall i :: 0 <= i < 8 ==> WordAt(b, 12 + 2 * i, s.regs[i]))
    && (forall i :: 0 <= i < 4 ==> WordAt(b, 28 + 2 * i, s.sregs[i]))
    && WordAt(b, 36, s.ip) && FlagsAt(b, s.flags)
    && s.ctl.halted == b[40] && s.ctl.trapFlag == b[41] && s.ctl.intPending == b[42] && s.ctl.intVector == b[43]
    && s.prefix.segEn == b[44] && s.prefix.seg == b[45] && s.prefix.repEn == b[46] && s.prefix.repMode == b[47]
  }

  const MEMORY_OFFSET := 0x30
  const PORTS_OFFSET := 0x11_0030
  const DEVICES_OFFSET := 0x12_0030
  const CRC_OFFSET := 0x12_008B

  predicate MemoryAt(b: seq<u8>, s: State)
    requires |b| >= CRC_OFFSET
  {
    && s.mem == b[MEMORY_OFFSET..PORTS_OFFSET]
    && s.io == b[PORTS_OFFSET..DEVICES_OFFSET]
  }

  predicate DiskAt(b: seq<u8>, i: nat, d: Disk)
    requires i + 12 <= |b|
  {
    LongAt(b, i, d.size) && WordAt(b, i + 4, d.cylinders) && d.heads == b[i + 6] && d.sectors == b[i + 7]
    && LongAt(b, i + 8, d.position)
  }

  predicate PitAt(b: seq<u8>, i: nat, p: Pit)
    requires i + 5 <= |b|
  {
    WordAt(b, i, p.reload) && WordAt(b, i + 2, p.counter) && p.mode == b[i + 4]
  }

  /** Disks, timers, keyboard, video, audio and graphics. */
  predicate DevicesAt(b: seq<u8>, d: Devices)
    requires |b| >= CRC_OFFSET
  {
    && (forall i :: 0 <= i < 3 ==> DiskAt(b, 0x12_0030 + 12 * i, d.disks[i]))
    && (forall i :: 0 <= i < 3 ==> PitAt(b, 0x12_0054 + 5 * i, d.pits[i]))
    && d.pitLobyte == b[0x12_0063]
    && d.kbBuffer == b[0x12_0064..0x12_0074] && d.kbHead == b[0x12_0074] && d.kbTail == b[0x12_0075]
    && d.videoMode == b[0x12_0076] && WordAt(b, 0x12_0077, d.cursorRow) && WordAt(b, 0x12_0079, d.cursorCol)
    && d.spkrEn == b[0x12_007B] && WordAt(b, 0x12_007C, d.waveCounter)
    && WordAt(b, 0x12_007E, d.graphicsX) && WordAt(b, 0x12_0080, d.graphicsY)
  }

  predicate TimingAt(b: seq<u8>, s: State)
    requires |b| >= CRC_OFFSET
  {
    QuadAt(b, 0x12_0082, s.instCount) && s.int8Asap == b[0x12_008A]
  }

  /** The buffer holds exactly the fields of s. */
  predicate StateAt(b: seq<u8>, s: State)
    requires |b| >= CRC_OFFSET
  {
    ProcessorAt(b, s) && MemoryAt(b, s) && DevicesAt(b, s.devices) && TimingAt(b, s)
  }

  /** A checksum, lowest byte first. */
  function ChecksumBytes(c: bv32): seq<u8> {
    [Crc.LowByte(c), Crc.LowByte(c >> 8), Crc.LowByte(c >> 16), Crc.LowByte(c >> 24)]
  }

  /** The last four bytes are the checksum of everything before them. */
  predicate ChecksumAt(b: seq<u8>)
    requires |b| == CRC_OFFSET + 4
  {
    b[CRC_OFFSET..] == ChecksumBytes(Crc.Crc32(b[..CRC_OFFSET]))
  }

  // ----- the readers, at an offset

  lemma Behind(b: seq<u8>, i: nat, n: nat)
    requires i + n <= |b|
    ensures b[i..][n..] == b[i + n..]
  {}

  lemma Get16At(b: seq<u8>, i: nat)
    requires i + 2 <= |b|
    ensures WordAt(b, i, Get16(b[i..]).value) && Get16(b[i..]).rest == b[i + 2..]
  {}

  lemma Get32At(b: seq<u8>, i: nat)
    requires i + 4 <= |b|
    ensures LongAt(b, i, Get32(b[i..]).value) && Get32(b[i..]).rest == b[i + 4..]
  {
    hide Get16;
    Get16At(b, i);
    Get16At(b, i + 2);
  }

  lemma Get64At(b: seq<u8>, i: nat)
    requires i + 8 <= |b|
    ensures QuadAt(b, i, Get64(b[i..]).value) && Get64(b[i..]).rest == b[i + 8..]
  {
    hide Get32;
    Get32At(b, i);
    Get32At(b, i + 4);
  }

  lemma {:induction false} GetWordsAt(b: seq<u8>, i: nat, n: nat)
    requires i + 2 * n <= |b|
    ensures GetWords(b[i..], n).rest == b[i + 2 * n..]
    ensures forall k :: 0 <= k < n ==> WordAt(b, i + 2 * k, GetWords(b[i..], n).value[k])
  {
    hide Get16, WordAt;
    if n > 0 {
      GetWordsAt(b, i, n - 1);
      Get16At(b, i + 2 * (n - 1));
    }
  }

  lemma {:induction false} GetDiskAt(b: seq<u8>, i: nat)
    requires i + 12 <= |b|
    ensures DiskAt(b, i, GetDisk(b[i..]).value) && GetDisk(b[i..]).rest == b[i + 12..]
  {
    hide Get16, Get32, WordAt, LongAt;
    Get32At(b, i);
    Get16At(b, i + 4);
    Behind(b, i + 6, 1);
    Behind(b, i + 7, 1);
    Get32At(b, i + 8);
  }

  lemma {:induction false} GetDisksAt(b: seq<u8>, i: nat, n: nat)
    requires i + 12 * n <= |b|
    ensures GetDisks(b[i..], n).rest == b[i + 12 * n..]
    ensures forall k :: 0 <= k < n ==> DiskAt(b, i + 12 * k, GetDisks(b[i..], n).value[k])
  {
    hide GetDisk, DiskAt;
    if n > 0 {
      GetDisksAt(b, i, n - 1);
      GetDiskAt(b, i + 12 * (n - 1));
    }
  }

  lemma {:induction false} GetPitAt(b: seq<u8>, i: nat)
    requires i + 5 <= |b|
    ensures PitAt(b, i, GetPit(b[i..]).value) && GetPit(b[i..]).rest == b[i + 5..]
  {
    hide Get16, WordAt;
    Get16At(b, i);
    Get16At(b, i + 2);
    Behind(b, i + 4, 1);
  }

  lemma {:induction false} GetPitsAt(b: seq<u8>, i: nat, n: nat)
    requires i + 5 * n <= |b|
    ensures GetPits(b[i..], n).rest == b[i + 5 * n..]
    ensures forall k :: 0 <= k < n ==> PitAt(b, i + 5 * k, GetPits(b[i..], n).value[k])
  {
    hide GetPit, PitAt;
    if n > 0 {
      GetPitsAt(b, i, n - 1);
      GetPitAt(b, i + 5 * (n - 1));
    }
  }

  lemma FlagsByBytes(b: seq<u8>, f: Flags)
    requires |b| >= 48 && LowByte(f) == b[38] && HighByte(f) == b[39]
    ensures FlagsAt(b, f)
  {}

  lemma {:induction false} FlagsOfBytes(b: seq<u8>)
    requires |b| >= 48
    ensures FlagsAt(b, OfWord(Word(b[38], b[39])))
  {
    hide OfBytes, LowByte, HighByte, FlagsAt, Lo, Hi;
    SplitWord(b[38], b[39]);
    BytesOf(b[38], b[39]);
    FlagsByBytes(b, OfBytes(b[38], b[39]));
  }

  lemma {:induction false} GetHeadAt(b: seq<u8>, s: State)
    requires |b| >= 48 && HeadOf(s) == GetHead(b[12..]).value
    ensures ProcessorAt(b, s) && GetHead(b[12..]).rest == b[48..]
  {
    hide GetWords, Get16, OfWord, WordAt, FlagsAt;
    GetWordsAt(b, 12, 8);
    GetWordsAt(b, 28, 4);
    Get16At(b, 36);
    Get16At(b, 38);
    Word38(b);
    FlagsOfBytes(b);
    assert s.flags == OfWord(Get16(b[38..]).value);
    Behind(b, 40, 4);
    Behind(b, 44, 4);
  }

  lemma Word38(b: seq<u8>)
    requires |b| >= 48
    ensures Get16(b[38..]).value == Word(b[38], b[39])
  {}

  lemma {:induction false} GetScreenAt(b: seq<u8>, i: nat)
    requires i + 23 <= |b|
    ensures var s := GetScreen(b[i..]).value;
      && s.kbBuffer == b[i..i + 16] && s.kbHead == b[i + 16] && s.kbTail == b[i + 17] && s.videoMode == b[i + 18]
      && WordAt(b, i + 19, s.cursorRow) && WordAt(b, i + 21, s.cursorCol)
    ensures GetScreen(b[i..]).rest == b[i + 23..]
  {
    hide Get16, WordAt;
    Behind(b, i, 19);
    Get16At(b, i + 19);
    Get16At(b, i + 21);
    assert b[i..][..16] == b[i..i + 16];
  }

  lemma {:induction false} GetSoundAt(b: seq<u8>, i: nat)
    requires i + 7 <= |b|
    ensures var s := GetSound(b[i..]).value;
      && s.spkrEn == b[i] && WordAt(b, i + 1, s.waveCounter)
      && WordAt(b, i + 3, s.graphicsX) && WordAt(b, i + 5, s.graphicsY)
    ensures GetSound(b[i..]).rest == b[i + 7..]
  {
    hide Get16, WordAt;
    Behind(b, i, 1);
    Get16At(b, i + 1);
    Get16At(b, i + 3);
    Get16At(b, i + 5);
  }

  /** The first three groups of device fields. */
  lemma {:induction false} GetTimersAt(b: seq<u8>)
    requires |b| >= CRC_OFFSET
    ensures var d := GetDisks(b[DEVICES_OFFSET..], NUM_DISKS);
      var p := GetPits(d.rest, NUM_PIT);
      && (forall i :: 0 <= i < 3 ==> DiskAt(b, 0x12_0030 + 12 * i, d.value[i]))
      && (forall i :: 0 <= i < 3 ==> PitAt(b, 0x12_0054 + 5 * i, p.value[i]))
      && Get8(p.rest).value == b[0x12_0063] && Get8(p.rest).rest == b[0x12_0064..]
  {
    hide GetDisks, GetPits, DiskAt, PitAt;
    GetDisksAt(b, 0x12_0030, 3);
    GetPitsAt(b, 0x12_0054, 3);
    Behind(b, 0x12_0063, 1);
  }

  lemma {:induction false} GetDevicesAt(b: seq<u8>)
    requires |b| >= CRC_OFFSET
    ensures var d := GetDevices(b[DEVICES_OFFSET..]);
      DevicesAt(b, d.value) && d.rest == b[0x12_0082..]
  {
    hide GetDisks, GetPits, GetScreen, GetSound, Get8, DiskAt, PitAt, WordAt;
    GetTimersAt(b);
    GetScreenAt(b, 0x12_0064);
    GetSoundAt(b, 0x12_007B);
  }

  /** What decoding yields lies at those offsets. */
  lemma {:induction false} GetStateAt(b: seq<u8>)
    requires |b| >= CRC_OFFSET
    ensures StateAt(b, GetState(b[HEADER_SIZE..]).value)
  {
    hide GetHead, GetDevices, Get64, ProcessorAt, DevicesAt, QuadAt;
    GetHeadAt(b, GetState(b[HEADER_SIZE..]).value);
    Behind(b, 0x30, MEM_SIZE);
    Behind(b, 0x11_0030, IO_PORTS);
    assert b[0x30..][..MEM_SIZE] == b[0x30..0x11_0030];
    assert b[0x11_0030..][..IO_PORTS] == b[0x11_0030..0x12_0030];
    GetDevicesAt(b);
    Get64At(b, 0x12_0082);
  }

  // ----- what is saved and what is restored

  /** Every field of every state lies at its offset in the saved bytes, behind the header and in
      front of the checksum. */
  lemma {:induction false} SavedAt(s: State)
    ensures |Save(s)| == 0x12_008F
    ensures HeaderAt(Save(s)) && StateAt(Save(s), s) && ChecksumAt(Save(s))
  {
    hide Save, StateAt, Restore, HeaderAt, ChecksumAt;
    var b := Save(s);
    RestoreOfSave(s, []);
    assert b + [] == b;
    RestoredState(b);
    GetStateAt(b);
    SavedHeaderAt(s);
    SavedChecksumAt(s);
  }

  lemma RestoredState(b: seq<u8>)
    requires Restore(b).Restored?
    ensures |b| >= CRC_OFFSET && Restore(b).state == GetState(b[HEADER_SIZE..]).value
  {
    hide GetState, U32At, ChecksumHolds, ExpectedTotal;
  }

  lemma {:induction false} SavedHeaderAt(s: State)
    ensures HeaderAt(Save(s))
  {
    hide Save, Get32;
    var b := Save(s);
    SavedHeader(s);
    Get32At(b, 0);
    Get32At(b, 4);
    Get32At(b, 8);
  }

  lemma CrcBytes(c: bv32)
    ensures PutCrc(c) == ChecksumBytes(c)
  {
    hide Crc.LowByte;
  }

  lemma {:induction false} ChecksumBehind(p: seq<u8>, c: bv32)
    requires |p| == CRC_OFFSET && c == Crc.Crc32(p)
    ensures ChecksumAt(p + PutCrc(c))
  {
    hide PutCrc, ChecksumBytes, Crc.Crc32;
    CrcBytes(c);
    assert (p + PutCrc(c))[..CRC_OFFSET] == p && (p + PutCrc(c))[CRC_OFFSET..] == PutCrc(c);
  }

  lemma {:induction false} SavedChecksumAt(s: State)
    ensures ChecksumAt(Save(s))
  {
    hide Header, PutState, Crc.Crc32, PutCrc, ChecksumAt;
    var p := PutState(s);
    ChecksumBehind(Header(|p|) + p, Crc.Crc32(Header(|p|) + p));
  }

  /** Every accepted buffer restores the state whose fields lie in it at the same offsets. */
  lemma {:induction false} RestoredAt(b: seq<u8>)
    requires Restore(b).Restored?
    ensures |b| >= CRC_OFFSET && StateAt(b, Restore(b).state)
  {
    hide StateAt, Restore, GetState;
    RestoredState(b);
    GetStateAt(b);
  }
}

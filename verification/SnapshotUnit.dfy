/**
 Saving and restoring in place (snapshot.c): a cursor moves over the buffer, the fields of
 the machine object are written and read one after the other.
 */
module SnapshotUnit {
  import opened Words
  import opened Flags
  import opened State
  import opened Snapshot
  import opened Emulator
  import Crc

  // ----- writers: each returns the cursor behind what it wrote

  method WriteU8(buf: array<u8>, p: nat, v: u8) returns (q: nat)
    requires p + 1 <= buf.Length
    modifies buf
    ensures q == p + 1 && buf[..] == Patched(old(buf[..]), p, [v])
  {
    buf[p] := v;
    q := p + 1;
  }

  method WriteU16(buf: array<u8>, p: nat, v: u16) returns (q: nat)
    requires p + 2 <= buf.Length
    modifies buf
    ensures q == p + 2 && buf[..] == Patched(old(buf[..]), p, Put16(v))
  {
    hide Patched;
    PatchJoins(buf[..], p, [Lo(v)], [Hi(v)]);
    assert [Lo(v)] + [Hi(v)] == Put16(v);
    q := WriteU8(buf, p, Lo(v));
    q := WriteU8(buf, q, Hi(v));
  }

  method WriteU32(buf: array<u8>, p: nat, v: u32) returns (q: nat)
    requires p + 4 <= buf.Length
    modifies buf
    ensures q == p + 4 && buf[..] == Patched(old(buf[..]), p, Put32(v))
  {
    hide Put16, Patched;
    PatchJoins(buf[..], p, Put16(Rem(v, 0x1_0000)), Put16(UpperHalf(v)));
    q := WriteU16(buf, p, Rem(v, 0x1_0000));
    q := WriteU16(buf, q, UpperHalf(v));
  }

  method WriteU64(buf: array<u8>, p: nat, v: u64) returns (q: nat)
    requires p + 8 <= buf.Length
    modifies buf
    ensures q == p + 8 && buf[..] == Patched(old(buf[..]), p, Put64(v))
  {
    hide Put32, Patched;
    PatchJoins(buf[..], p, Put32(Rem(v, 0x1_0000_0000)), Put32(UpperWord(v)));
    q := WriteU32(buf, p, Rem(v, 0x1_0000_0000));
    q := WriteU32(buf, q, UpperWord(v));
  }

  /** write_bytes */
  method WriteBytes(buf: array<u8>, p: nat, src: array<u8>) returns (q: nat)
    requires p + src.Length <= buf.Length && src != buf
    modifies buf
    ensures q == p + src.Length && buf[..] == Patched(old(buf[..]), p, src[..])
  {
    hide Patched;
    var i := 0;
    PatchNothing(buf[..], p);
    while i < src.Length
      invariant 0 <= i <= src.Length
      invariant buf[..] == Patched(old(buf[..]), p, src[..i])
    {
      PatchJoins(old(buf[..]), p, src[..i], [src[i]]);
      assert src[..i + 1] == src[..i] + [src[i]];
      var next := WriteU8(buf, p + i, src[i]);
      i := i + 1;
    }
    assert src[..src.Length] == src[..];
    q := p + src.Length;
  }

  method WriteSeq(buf: array<u8>, p: nat, src: seq<u8>) returns (q: nat)
    requires p + |src| <= buf.Length
    modifies buf
    ensures q == p + |src| && buf[..] == Patched(old(buf[..]), p, src)
  {
    hide Patched;
    var i := 0;
    PatchNothing(buf[..], p);
    while i < |src|
      invariant 0 <= i <= |src|
      invariant buf[..] == Patched(old(buf[..]), p, src[..i])
    {
      PatchJoins(old(buf[..]), p, src[..i], [src[i]]);
      assert src[..i + 1] == src[..i] + [src[i]];
      var next := WriteU8(buf, p + i, src[i]);
      i := i + 1;
    }
    assert src[..|src|] == src;
    q := p + |src|;
  }

  method WriteWords(buf: array<u8>, p: nat, words: seq<u16>) returns (q: nat)
    requires p + 2 * |words| <= buf.Length
    modifies buf
    ensures q == p + 2 * |words| && buf[..] == Patched(old(buf[..]), p, PutWords(words))
  {
    hide Put16, Patched;
    var i := 0;
    PatchNothing(buf[..], p);
    while i < |words|
      invariant 0 <= i <= |words|
      invariant buf[..] == Patched(old(buf[..]), p, PutWords(words[..i]))
    {
      PatchJoins(old(buf[..]), p, PutWords(words[..i]), Put16(words[i]));
      assert words[..i + 1][..i] == words[..i];
      var next := WriteU16(buf, p + 2 * i, words[i]);
      i := i + 1;
    }
    assert words[..|words|] == words;
    q := p + 2 * |words|;
  }

  lemma PatchNothing(b: seq<u8>, p: nat)
    requires p <= |b|
    ensures Patched(b, p, []) == b
  {}

  method WriteControl(buf: array<u8>, p: nat, c: Control) returns (q: nat)
    requires p + 4 <= buf.Length
    modifies buf
    ensures q == p + 4 && buf[..] == Patched(old(buf[..]), p, PutControl(c))
  {
    q := WriteSeq(buf, p, [c.halted, c.trapFlag, c.intPending, c.intVector]);
  }

  method WritePrefix(buf: array<u8>, p: nat, f: Prefix) returns (q: nat)
    requires p + 4 <= buf.Length
    modifies buf
    ensures q == p + 4 && buf[..] == Patched(old(buf[..]), p, PutPrefix(f))
  {
    q := WriteSeq(buf, p, [f.segEn, f.seg, f.repEn, f.repMode]);
  }

  method WriteHead(e: Emu86State, buf: array<u8>, p: nat) returns (q: nat)
    requires e.Valid() && buf != e.mem && buf != e.io && p + HEAD_SIZE <= buf.Length
    modifies buf
    ensures q == p + HEAD_SIZE && buf[..] == Patched(old(buf[..]), p, PutHead(HeadOf(e.View())))
  {
    hide Patched, Put16, PutWords, PutControl, PutPrefix, ToWord;
    ghost var b := buf[..];
    PatchJoins(b, p, PutWords(e.regs), PutWords(e.sregs));
    q := WriteWords(buf, p, e.regs);
    q := WriteWords(buf, q, e.sregs);
    ghost var done := PutWords(e.regs) + PutWords(e.sregs);
    PatchJoins(b, p, done, Put16(e.ip));
    q := WriteU16(buf, q, e.ip);
    done := done + Put16(e.ip);
    PatchJoins(b, p, done, Put16(ToWord(e.flags)));
    q := WriteU16(buf, q, ToWord(e.flags));
    done := done + Put16(ToWord(e.flags));
    PatchJoins(b, p, done, PutControl(e.ctl));
    q := WriteControl(buf, q, e.ctl);
    PatchJoins(b, p, done + PutControl(e.ctl), PutPrefix(e.prefix));
    q := WritePrefix(buf, q, e.prefix);
  }

  method WriteDisk(buf: array<u8>, p: nat, d: Disk) returns (q: nat)
    requires p + 12 <= buf.Length
    modifies buf
    ensures q == p + 12 && buf[..] == Patched(old(buf[..]), p, PutDisk(d))
  {
    hide Patched, Put16, Put32;
    ghost var b := buf[..];
    PatchJoins(b, p, Put32(d.size), Put16(d.cylinders));
    q := WriteU32(buf, p, d.size);
    q := WriteU16(buf, q, d.cylinders);
    ghost var done := Put32(d.size) + Put16(d.cylinders);
    PatchJoins(b, p, done, [d.heads, d.sectors]);
    q := WriteSeq(buf, q, [d.heads, d.sectors]);
    PatchJoins(b, p, done + [d.heads, d.sectors], Put32(d.position));
    q := WriteU32(buf, q, d.position);
  }

  method WriteDisks(buf: array<u8>, p: nat, disks: seq<Disk>) returns (q: nat)
    requires p + 12 * |disks| <= buf.Length
    modifies buf
    ensures q == p + 12 * |disks| && buf[..] == Patched(old(buf[..]), p, PutDisks(disks))
  {
    hide PutDisk, Patched;
    var i := 0;
    PatchNothing(buf[..], p);
    while i < |disks|
      invariant 0 <= i <= |disks|
      invariant buf[..] == Patched(old(buf[..]), p, PutDisks(disks[..i]))
    {
      PatchJoins(old(buf[..]), p, PutDisks(disks[..i]), PutDisk(disks[i]));
      assert disks[..i + 1][..i] == disks[..i];
      var next := WriteDisk(buf, p + 12 * i, disks[i]);
      i := i + 1;
    }
    assert disks[..|disks|] == disks;
    q := p + 12 * |disks|;
  }

  method WritePit(buf: array<u8>, p: nat, t: Pit) returns (q: nat)
    requires p + 5 <= buf.Length
    modifies buf
    ensures q == p + 5 && buf[..] == Patched(old(buf[..]), p, PutPit(t))
  {
    hide Patched, Put16;
    ghost var b := buf[..];
    PatchJoins(b, p, Put16(t.reload), Put16(t.counter));
    q := WriteU16(buf, p, t.reload);
    q := WriteU16(buf, q, t.counter);
    PatchJoins(b, p, Put16(t.reload) + Put16(t.counter), [t.mode]);
    q := WriteU8(buf, q, t.mode);
  }

  method WritePits(buf: array<u8>, p: nat, pits: seq<Pit>) returns (q: nat)
    requires p + 5 * |pits| <= buf.Length
    modifies buf
    ensures q == p + 5 * |pits| && buf[..] == Patched(old(buf[..]), p, PutPits(pits))
  {
    hide PutPit, Patched;
    var i := 0;
    PatchNothing(buf[..], p);
    while i < |pits|
      invariant 0 <= i <= |pits|
      invariant buf[..] == Patched(old(buf[..]), p, PutPits(pits[..i]))
    {
      PatchJoins(old(buf[..]), p, PutPits(pits[..i]), PutPit(pits[i]));
      assert pits[..i + 1][..i] == pits[..i];
      var next := WritePit(buf, p + 5 * i, pits[i]);
      i := i + 1;
    }
    assert pits[..|pits|] == pits;
    q := p + 5 * |pits|;
  }

  method WriteScreen(buf: array<u8>, p: nat, s: Screen) returns (q: nat)
    requires p + 23 <= buf.Length
    modifies buf
    ensures q == p + 23 && buf[..] == Patched(old(buf[..]), p, PutScreen(s))
  {
    hide Patched, Put16;
    ghost var b := buf[..];
    PatchJoins(b, p, s.kbBuffer, [s.kbHead, s.kbTail, s.videoMode]);
    q := WriteSeq(buf, p, s.kbBuffer);
    q := WriteSeq(buf, q, [s.kbHead, s.kbTail, s.videoMode]);
    ghost var done := s.kbBuffer + [s.kbHead, s.kbTail, s.videoMode];
    PatchJoins(b, p, done, Put16(s.cursorRow));
    q := WriteU16(buf, q, s.cursorRow);
    PatchJoins(b, p, done + Put16(s.cursorRow), Put16(s.cursorCol));
    q := WriteU16(buf, q, s.cursorCol);
  }

  method WriteSound(buf: array<u8>, p: nat, s: Sound) returns (q: nat)
    requires p + 7 <= buf.Length
    modifies buf
    ensures q == p + 7 && buf[..] == Patched(old(buf[..]), p, PutSound(s))
  {
    hide Patched, Put16;
    ghost var b := buf[..];
    PatchJoins(b, p, [s.spkrEn], Put16(s.waveCounter));
    q := WriteU8(buf, p, s.spkrEn);
    q := WriteU16(buf, q, s.waveCounter);
    ghost var done := [s.spkrEn] + Put16(s.waveCounter);
    PatchJoins(b, p, done, Put16(s.graphicsX));
    q := WriteU16(buf, q, s.graphicsX);
    PatchJoins(b, p, done + Put16(s.graphicsX), Put16(s.graphicsY));
    q := WriteU16(buf, q, s.graphicsY);
  }

  method WriteDevices(buf: array<u8>, p: nat, d: Devices) returns (q: nat)
    requires p + DEVICES_SIZE <= buf.Length
    modifies buf
    ensures q == p + DEVICES_SIZE && buf[..] == Patched(old(buf[..]), p, PutDevices(d))
  {
    hide Patched, PutDisks, PutPits, PutScreen, PutSound;
    ghost var b := buf[..];
    PatchJoins(b, p, PutDisks(d.disks), PutPits(d.pits));
    q := WriteDisks(buf, p, d.disks);
    q := WritePits(buf, q, d.pits);
    ghost var done := PutDisks(d.disks) + PutPits(d.pits);
    PatchJoins(b, p, done, [d.pitLobyte]);
    q := WriteU8(buf, q, d.pitLobyte);
    done := done + [d.pitLobyte];
    PatchJoins(b, p, done, PutScreen(ScreenOf(d)));
    q := WriteScreen(buf, q, ScreenOf(d));
    PatchJoins(b, p, done + PutScreen(ScreenOf(d)), PutSound(SoundOf(d)));
    q := WriteSound(buf, q, SoundOf(d));
  }

  method WriteState(e: Emu86State, buf: array<u8>, p: nat) returns (q: nat)
    requires e.Valid() && buf != e.mem && buf != e.io && p + DATA_SIZE <= buf.Length
    modifies buf
    ensures q == p + DATA_SIZE && buf[..] == Patched(old(buf[..]), p, PutState(e.View()))
  {
    hide Patched, PutHead, PutDevices, Put64;
    ghost var b, s := buf[..], e.View();
    PatchJoins(b, p, PutHead(HeadOf(s)), s.mem);
    q := WriteHead(e, buf, p);
    q := WriteBytes(buf, q, e.mem);
    ghost var done := PutHead(HeadOf(s)) + s.mem;
    PatchJoins(b, p, done, s.io);
    q := WriteBytes(buf, q, e.io);
    done := done + s.io;
    PatchJoins(b, p, done, PutDevices(s.devices));
    q := WriteDevices(buf, q, e.devices);
    done := done + PutDevices(s.devices);
    PatchJoins(b, p, done, Put64(s.instCount));
    q := WriteU64(buf, q, e.instCount);
    PatchJoins(b, p, done + Put64(s.instCount), [s.int8Asap]);
    q := WriteU8(buf, q, e.int8Asap);
  }

  /** emu86_snapshot_save: the snapshot at the head of a buffer that is large enough, and
      nothing in one that is not. */
  method Save(e: Emu86State, crc: Crc.CrcTable, buf: array<u8>, size: nat) returns (n: nat)
    requires e.Valid() && crc.Valid() && buf != e.mem && buf != e.io && size <= buf.Length
    requires crc.table as object !in {buf, e.mem, e.io}
    modifies buf, crc, crc.table
    ensures crc.Valid() && e.View() == old(e.View())
    ensures n == if size < SNAPSHOT_SIZE then 0 else SNAPSHOT_SIZE
    ensures buf[..] == if size < SNAPSHOT_SIZE then old(buf[..]) else Patched(old(buf[..]), 0, Snapshot.Save(e.View()))
  {
    hide Patched, Put32, PutState, PutCrc, Crc.Crc32;
    if size < SNAPSHOT_SIZE { return 0; }
    ghost var b, s := buf[..], e.View();
    PatchJoins(b, 0, Put32(MAGIC), Put32(VERSION));
    var p := WriteU32(buf, 0, MAGIC);
    p := WriteU32(buf, p, VERSION);
    ghost var done := Put32(MAGIC) + Put32(VERSION);
    PatchJoins(b, 0, done, Put32(DATA_SIZE));
    p := WriteU32(buf, p, DATA_SIZE);
    done := done + Put32(DATA_SIZE);
    PatchJoins(b, 0, done, PutState(s));
    p := WriteState(e, buf, p);
    done := done + PutState(s);
    PatchedHead(b, done);
    var sum := crc.Compute(buf, p);
    PatchJoins(b, 0, done, PutCrc(sum));
    p := WriteCrc(buf, p, sum);
    n := SNAPSHOT_SIZE;
  }

  lemma PatchedHead(b: seq<u8>, x: seq<u8>)
    requires |x| <= |b|
    ensures Patched(b, 0, x)[..|x|] == x
  {}

  /** write_u32 of the checksum. */
  method WriteCrc(buf: array<u8>, p: nat, c: bv32) returns (q: nat)
    requires p + CRC_SIZE <= buf.Length
    modifies buf
    ensures q == p + CRC_SIZE && buf[..] == Patched(old(buf[..]), p, PutCrc(c))
  {
    hide CrcByte;
    q := WriteSeq(buf, p, [CrcByte(c, 0), CrcByte(c, 1), CrcByte(c, 2), CrcByte(c, 3)]);
  }

  // ----- readers: each returns the value and the cursor behind it

  lemma {:induction false} Tail(b: seq<u8>, p: nat, q: nat, size: nat)
    requires p <= q <= size <= |b|
    ensures b[p..size][q - p..] == b[q..size]
  {}

  method ReadU8(buf: array<u8>, p: nat, size: nat) returns (v: u8, q: nat)
    requires p + 1 <= size <= buf.Length
    ensures q == p + 1 && Get8(buf[p..size]) == Parsed(v, buf[q..size])
  {
    Tail(buf[..], p, p + 1, size);
    v, q := buf[p], p + 1;
  }

  method ReadU16(buf: array<u8>, p: nat, size: nat) returns (v: u16, q: nat)
    requires p + 2 <= size <= buf.Length
    ensures q == p + 2 && Get16(buf[p..size]) == Parsed(v, buf[q..size])
  {
    Tail(buf[..], p, p + 2, size);
    v, q := Word(buf[p], buf[p + 1]), p + 2;
  }

  method ReadU32(buf: array<u8>, p: nat, size: nat) returns (v: u32, q: nat)
    requires p + 4 <= size <= buf.Length
    ensures q == p + 4 && Get32(buf[p..size]) == Parsed(v, buf[q..size])
  {
    hide Get16;
    var lo, hi;
    lo, q := ReadU16(buf, p, size);
    hi, q := ReadU16(buf, q, size);
    v := lo as int + 0x1_0000 * hi as int;
  }

  method ReadU64(buf: array<u8>, p: nat, size: nat) returns (v: u64, q: nat)
    requires p + 8 <= size <= buf.Length
    ensures q == p + 8 && Get64(buf[p..size]) == Parsed(v, buf[q..size])
  {
    hide Get32;
    var lo, hi;
    lo, q := ReadU32(buf, p, size);
    hi, q := ReadU32(buf, q, size);
    v := lo as int + 0x1_0000_0000 * hi as int;
  }

  method ReadControl(buf: array<u8>, p: nat, size: nat) returns (c: Control, q: nat)
    requires p + 4 <= size <= buf.Length
    ensures q == p + 4 && GetControl(buf[p..size]) == Parsed(c, buf[q..size])
  {
    Tail(buf[..], p, p + 4, size);
    c, q := Control(buf[p], buf[p + 1], buf[p + 2], buf[p + 3]), p + 4;
  }

  method ReadPrefix(buf: array<u8>, p: nat, size: nat) returns (f: Prefix, q: nat)
    requires p + 4 <= size <= buf.Length
    ensures q == p + 4 && GetPrefix(buf[p..size]) == Parsed(f, buf[q..size])
  {
    Tail(buf[..], p, p + 4, size);
    f, q := Prefix(buf[p], buf[p + 1], buf[p + 2], buf[p + 3]), p + 4;
  }

  method RestoreRegs(e: Emu86State, buf: array<u8>, p: nat, size: nat) returns (q: nat)
    requires e.Valid() && buf != e.mem && buf != e.io && p + 16 <= size <= buf.Length
    modifies e`regs
    ensures q == p + 16 && GetWords(buf[p..size], 8) == Parsed(e.regs, buf[q..size])
    ensures e.View() == old(e.View()).(regs := e.regs)
  {
    hide Get16;
    q := p;
    var i := 0;
    while i < 8
      invariant 0 <= i <= 8 && q == p + 2 * i
      invariant GetWords(buf[p..size], i) == Parsed(e.regs[..i], buf[q..size])
      invariant e.View() == old(e.View()).(regs := e.regs)
    {
      var v;
      v, q := ReadU16(buf, q, size);
      ghost var before := e.regs[..i];
      e.SetRegister(i, v);
      assert e.regs[..i + 1] == before + [v];
      i := i + 1;
    }
    assert e.regs[..8] == e.regs;
  }

  method RestoreSregs(e: Emu86State, buf: array<u8>, p: nat, size: nat) returns (q: nat)
    requires e.Valid() && buf != e.mem && buf != e.io && p + 8 <= size <= buf.Length
    modifies e`sregs
    ensures q == p + 8 && GetWords(buf[p..size], 4) == Parsed(e.sregs, buf[q..size])
    ensures e.View() == old(e.View()).(sregs := e.sregs)
  {
    hide Get16;
    q := p;
    var i := 0;
    while i < 4
      invariant 0 <= i <= 4 && q == p + 2 * i
      invariant GetWords(buf[p..size], i) == Parsed(e.sregs[..i], buf[q..size])
      invariant e.View() == old(e.View()).(sregs := e.sregs)
    {
      var v;
      v, q := ReadU16(buf, q, size);
      ghost var before := e.sregs[..i];
      e.SetSegment(i, v);
      assert e.sregs[..i + 1] == before + [v];
      i := i + 1;
    }
    assert e.sregs[..4] == e.sregs;
  }

  /** A state with the fields of a head. */
  function WithHead(s: State, h: Head): State {
    s.(regs := h.regs, sregs := h.sregs, ip := h.ip, flags := h.flags, ctl := h.ctl, prefix := h.prefix)
  }

  method RestoreHead(e: Emu86State, buf: array<u8>, p: nat, size: nat) returns (q: nat)
    requires e.Valid() && buf != e.mem && buf != e.io && p + HEAD_SIZE <= size <= buf.Length
    modifies e
    ensures q == p + HEAD_SIZE && GetHead(buf[p..size]) == Parsed(HeadOf(e.View()), buf[q..size])
    ensures e.View() == WithHead(old(e.View()), HeadOf(e.View()))
  {
    hide Get16, GetWords, GetControl, GetPrefix, OfWord;
    q := RestoreRegs(e, buf, p, size);
    q := RestoreSregs(e, buf, q, size);
    var ip, flags, ctl, prefix;
    ip, q := ReadU16(buf, q, size);
    e.SetIp(ip);
    flags, q := ReadU16(buf, q, size);
    e.SetFlags(OfWord(flags));
    ctl, q := ReadControl(buf, q, size);
    e.SetControl(ctl);
    prefix, q := ReadPrefix(buf, q, size);
    e.SetPrefix(prefix);
  }

  /** read_bytes into the memory. */
  method RestoreMemory(e: Emu86State, buf: array<u8>, p: nat, size: nat) returns (q: nat)
    requires e.Valid() && buf != e.mem && buf != e.io && p + MEM_SIZE <= size <= buf.Length
    modifies e.mem
    ensures q == p + MEM_SIZE && e.mem[..] == buf[p..q]
    ensures e.View() == old(e.View()).(mem := e.mem[..])
  {
    var i := 0;
    while i < MEM_SIZE
      invariant 0 <= i <= MEM_SIZE
      invariant e.mem[..i] == buf[p..p + i]
      invariant e.View() == old(e.View()).(mem := e.mem[..])
    {
      e.MemWrite8(i, buf[p + i]);
      i := i + 1;
    }
    q := p + MEM_SIZE;
  }

  method RestorePorts(e: Emu86State, buf: array<u8>, p: nat, size: nat) returns (q: nat)
    requires e.Valid() && buf != e.mem && buf != e.io && p + IO_PORTS <= size <= buf.Length
    modifies e.io
    ensures q == p + IO_PORTS && e.io[..] == buf[p..q]
    ensures e.View() == old(e.View()).(io := e.io[..])
  {
    var i := 0;
    while i < IO_PORTS
      invariant 0 <= i <= IO_PORTS
      invariant e.io[..i] == buf[p..p + i]
      invariant e.View() == old(e.View()).(io := e.io[..])
    {
      e.WritePort(i, buf[p + i]);
      i := i + 1;
    }
    q := p + IO_PORTS;
  }

  method ReadDisk(buf: array<u8>, p: nat, size: nat) returns (d: Disk, q: nat)
    requires p + 12 <= size <= buf.Length
    ensures q == p + 12 && GetDisk(buf[p..size]) == Parsed(d, buf[q..size])
  {
    hide Get16, Get32;
    var bytes, cylinders, heads, sectors, position;
    bytes, q := ReadU32(buf, p, size);
    cylinders, q := ReadU16(buf, q, size);
    heads, q := ReadU8(buf, q, size);
    sectors, q := ReadU8(buf, q, size);
    position, q := ReadU32(buf, q, size);
    d := Disk(bytes, cylinders, heads, sectors, position);
  }

  method ReadDisks(buf: array<u8>, p: nat, size: nat) returns (disks: Disks, q: nat)
    requires p + 12 * NUM_DISKS <= size <= buf.Length
    ensures q == p + 12 * NUM_DISKS && GetDisks(buf[p..size], NUM_DISKS) == Parsed(disks, buf[q..size])
  {
    hide GetDisk;
    var ds: seq<Disk> := [];
    q := p;
    while |ds| < NUM_DISKS
      invariant |ds| <= NUM_DISKS && q == p + 12 * |ds|
      invariant GetDisks(buf[p..size], |ds|) == Parsed(ds, buf[q..size])
    {
      var d;
      d, q := ReadDisk(buf, q, size);
      ds := ds + [d];
    }
    disks := ds;
  }

  method ReadPit(buf: array<u8>, p: nat, size: nat) returns (t: Pit, q: nat)
    requires p + 5 <= size <= buf.Length
    ensures q == p + 5 && GetPit(buf[p..size]) == Parsed(t, buf[q..size])
  {
    hide Get16;
    var reload, counter, mode;
    reload, q := ReadU16(buf, p, size);
    counter, q := ReadU16(buf, q, size);
    mode, q := ReadU8(buf, q, size);
    t := Pit(reload, counter, mode);
  }

  method ReadPits(buf: array<u8>, p: nat, size: nat) returns (pits: Pits, q: nat)
    requires p + 5 * NUM_PIT <= size <= buf.Length
    ensures q == p + 5 * NUM_PIT && GetPits(buf[p..size], NUM_PIT) == Parsed(pits, buf[q..size])
  {
    hide GetPit;
    var ts: seq<Pit> := [];
    q := p;
    while |ts| < NUM_PIT
      invariant |ts| <= NUM_PIT && q == p + 5 * |ts|
      invariant GetPits(buf[p..size], |ts|) == Parsed(ts, buf[q..size])
    {
      var t;
      t, q := ReadPit(buf, q, size);
      ts := ts + [t];
    }
    pits := ts;
  }

  method ReadScreen(buf: array<u8>, p: nat, size: nat) returns (s: Screen, q: nat)
    requires p + 23 <= size <= buf.Length
    ensures q == p + 23 && GetScreen(buf[p..size]) == Parsed(s, buf[q..size])
  {
    hide Get16;
    ghost var b := buf[p..size];
    Tail(buf[..], p, p + 19, size);
    assert b[..16] == buf[p..p + 16];
    var row, col;
    row, q := ReadU16(buf, p + 19, size);
    col, q := ReadU16(buf, q, size);
    s := Screen(buf[p..p + 16], buf[p + 16], buf[p + 17], buf[p + 18], row, col);
  }

  method ReadSound(buf: array<u8>, p: nat, size: nat) returns (s: Sound, q: nat)
    requires p + 7 <= size <= buf.Length
    ensures q == p + 7 && GetSound(buf[p..size]) == Parsed(s, buf[q..size])
  {
    hide Get16;
    Tail(buf[..], p, p + 1, size);
    var wave, x, y;
    wave, q := ReadU16(buf, p + 1, size);
    x, q := ReadU16(buf, q, size);
    y, q := ReadU16(buf, q, size);
    s := Sound(buf[p], wave, x, y);
  }

  method ReadDevices(buf: array<u8>, p: nat, size: nat) returns (d: Devices, q: nat)
    requires p + DEVICES_SIZE <= size <= buf.Length
    ensures q == p + DEVICES_SIZE && GetDevices(buf[p..size]) == Parsed(d, buf[q..size])
  {
    hide GetDisks, GetPits, GetScreen, GetSound, Get8;
    var disks, pits, lobyte, v, w;
    disks, q := ReadDisks(buf, p, size);
    pits, q := ReadPits(buf, q, size);
    lobyte, q := ReadU8(buf, q, size);
    v, q := ReadScreen(buf, q, size);
    w, q := ReadSound(buf, q, size);
    d := Devices(disks, pits, lobyte, v.kbBuffer, v.kbHead, v.kbTail, v.videoMode,
                 v.cursorRow, v.cursorCol, w.spkrEn, w.waveCounter, w.graphicsX, w.graphicsY);
  }

  method RestoreState(e: Emu86State, buf: array<u8>, p: nat, size: nat)
    requires e.Valid() && buf != e.mem && buf != e.io && p + DATA_SIZE <= size <= buf.Length
    modifies e, e.mem, e.io
    ensures e.View() == GetState(buf[p..size]).value
  {
    hide GetHead, GetDevices, Get64, Get8;
    ghost var b := buf[..];
    var q := RestoreHead(e, buf, p, size);
    Tail(b, q, q + MEM_SIZE, size);
    assert b[q..size][..MEM_SIZE] == b[q..q + MEM_SIZE];
    q := RestoreMemory(e, buf, q, size);
    Tail(b, q, q + IO_PORTS, size);
    assert b[q..size][..IO_PORTS] == b[q..q + IO_PORTS];
    q := RestorePorts(e, buf, q, size);
    var devices, count, asap;
    devices, q := ReadDevices(buf, q, size);
    e.SetDevices(devices);
    count, q := ReadU64(buf, q, size);
    asap, q := ReadU8(buf, q, size);
    e.SetTiming(count, asap);
  }

  const PAST_END := 1

  /** emu86_snapshot_restore. Any result but 0 leaves the machine as it was; PAST_END marks
      the buffers for which the source reads behind the end. */
  method RestoreSnapshot(e: Emu86State, crc: Crc.CrcTable, buf: array<u8>, size: nat) returns (rc: int)
    requires e.Valid() && crc.Valid() && buf != e.mem && buf != e.io && size <= buf.Length
    requires crc.table as object !in {buf, e.mem, e.io}
    modifies e, e.mem, e.io, crc, crc.table
    ensures crc.Valid()
    ensures match Restore(buf[..size])
            case Restored(s) => rc == 0 && e.View() == s
            case Failed(code) => rc == code && e.View() == old(e.View())
            case PastEnd => rc == PAST_END && e.View() == old(e.View())
  {
    hide GetState, U32At, ChecksumHolds, U32;
    ghost var b := buf[..size];
    if size < HEADER_SIZE + CRC_SIZE { return BAD_SIZE; }
    var magic, version, ds, p;
    magic, p := ReadHeaderWord(buf, 0, size);
    if magic != MAGIC { return BAD_MAGIC; }
    version, p := ReadHeaderWord(buf, p, size);
    if version != VERSION { return BAD_VERSION; }
    ds, p := ReadHeaderWord(buf, p, size);
    var total := U32(HEADER_SIZE + ds as int + CRC_SIZE);
    if size < total { return BAD_SIZE; }
    if total < CRC_SIZE { return PAST_END; }
    var ok := VerifyChecksum(crc, buf, total, size);
    assert e.View() == old(e.View()) && buf[..size] == b;
    if !ok { return BAD_CHECKSUM; }
    if size < HEADER_SIZE + DATA_SIZE { return PAST_END; }
    assert b[HEADER_SIZE..] == buf[p..size];
    RestoreState(e, buf, p, size);
    rc := 0;
  }

  method ReadHeaderWord(buf: array<u8>, p: nat, size: nat) returns (v: u32, q: nat)
    requires p + 4 <= size <= buf.Length
    ensures q == p + 4 && v == U32At(buf[..size], p)
  {
    hide Get32;
    assert buf[..size][p..] == buf[p..size];
    v, q := ReadU32(buf, p, size);
  }

  method VerifyChecksum(crc: Crc.CrcTable, buf: array<u8>, total: nat, size: nat) returns (ok: bool)
    requires crc.Valid() && crc.table as object != buf && CRC_SIZE <= total <= size <= buf.Length
    modifies crc, crc.table
    ensures crc.Valid() && ok == ChecksumHolds(buf[..size], total)
  {
    hide GetCrc, Crc.Crc32;
    var stored := GetCrc(buf[total - CRC_SIZE..total]);
    var computed := crc.Compute(buf, total - CRC_SIZE);
    ok := stored == computed;
    assert buf[..] == old(buf[..]);
    assert buf[..size][..total - CRC_SIZE] == buf[..total - CRC_SIZE];
    assert buf[..size][total - CRC_SIZE..total] == buf[total - CRC_SIZE..total];
  }
}

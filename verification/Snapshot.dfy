/**
 The snapshot format (snapshot.c): a header, every field of the state in order, and a
 CRC-32. Writers and readers are pairs on a byte sequence; a reader returns the value
 and what lies behind it, as the moving cursor of the source does.
 */
module Snapshot {
  import opened Words
  import opened Flags
  import opened State
  import Crc

  datatype Parsed<+T> = Parsed(value: T, rest: seq<u8>)

  // ----- little-endian integers

  function Put16(v: u16): (b: seq<u8>)
    ensures |b| == 2
  {
    [Lo(v), Hi(v)]
  }

  lemma HalvesFit(v: u64)
    ensures v < 0x1_0000_0000 ==> Quot(v, 0x1_0000) < 0x1_0000
    ensures Quot(v, 0x1_0000_0000) < 0x1_0000_0000
  {
    hide Wrap, Rem, Quot;
    OperatorsAre();
  }

  function UpperHalf(v: u32): u16 { HalvesFit(v); Quot(v, 0x1_0000) }
  function UpperWord(v: u64): u32 { HalvesFit(v); Quot(v, 0x1_0000_0000) }

  function Put32(v: u32): (b: seq<u8>)
    ensures |b| == 4
  {
    Put16(Rem(v, 0x1_0000)) + Put16(UpperHalf(v))
  }

  function Put64(v: u64): (b: seq<u8>)
    ensures |b| == 8
  {
    Put32(Rem(v, 0x1_0000_0000)) + Put32(UpperWord(v))
  }


  function Get8(b: seq<u8>): Parsed<u8>
    requires |b| >= 1
  {
    Parsed(b[0], b[1..])
  }

  function Get16(b: seq<u8>): (r: Parsed<u16>)
    requires |b| >= 2
    ensures |r.rest| == |b| - 2
  {
    Parsed(Word(b[0], b[1]), b[2..])
  }

  function Get32(b: seq<u8>): (r: Parsed<u32>)
    requires |b| >= 4
    ensures |r.rest| == |b| - 4
  {
    var lo := Get16(b);
    var hi := Get16(lo.rest);
    Parsed(lo.value + 0x1_0000 * hi.value, hi.rest)
  }

  function Get64(b: seq<u8>): (r: Parsed<u64>)
    requires |b| >= 8
    ensures |r.rest| == |b| - 8
  {
    var lo := Get32(b);
    var hi := Get32(lo.rest);
    Parsed(lo.value + 0x1_0000_0000 * hi.value, hi.rest)
  }

  lemma {:induction false} Round16(v: u16, rest: seq<u8>)
    ensures Get16(Put16(v) + rest) == Parsed(v, rest)
  {
    hide Wrap, Rem, Quot;
    OperatorsAre();
  }

  lemma {:induction false} Back16(b: seq<u8>)
    requires |b| >= 2
    ensures Put16(Get16(b).value) + Get16(b).rest == b
  {
    hide Wrap, Rem, Quot;
    OperatorsAre();
  }

  lemma {:induction false} Round32(v: u32, rest: seq<u8>)
    ensures Get32(Put32(v) + rest) == Parsed(v, rest)
  {
    hide Wrap, Rem, Quot;
    OperatorsAre();
  }

  lemma Halves32(lo: u16, hi: u16)
    ensures Put32(lo + 0x1_0000 * hi) == Put16(lo) + Put16(hi)
  {
    hide Wrap, Rem, Quot;
    OperatorsAre();
    hide Put16;
  }

  lemma Halves64(lo: u32, hi: u32)
    ensures Put64(lo + 0x1_0000_0000 * hi) == Put32(lo) + Put32(hi)
  {
    hide Wrap, Rem, Quot;
    OperatorsAre();
    hide Put32;
  }

  lemma Join(x: seq<u8>, y: seq<u8>, z: seq<u8>)
    ensures x + y + z == x + (y + z)
  {}

  lemma {:induction false} Back32(b: seq<u8>)
    requires |b| >= 4
    ensures Put32(Get32(b).value) + Get32(b).rest == b
  {
    hide Get16, Put16, Put32;
    var lo := Get16(b);
    var hi := Get16(lo.rest);
    Back16(b);
    Back16(lo.rest);
    Halves32(lo.value, hi.value);
    Join(Put16(lo.value), Put16(hi.value), hi.rest);
  }

  lemma {:induction false} Round64(v: u64, rest: seq<u8>)
    ensures Get64(Put64(v) + rest) == Parsed(v, rest)
  {
    HalvesFit(v);
    var (lo, hi) := (Rem(v, 0x1_0000_0000), Quot(v, 0x1_0000_0000));
    Join(Put32(lo), Put32(hi), rest);
    Round32(lo, Put32(hi) + rest);
    Round32(hi, rest);
    DivisionIdentity(v, 0x1_0000_0000);
    hide Put32, Get32, Rem, Quot;
  }

  lemma {:induction false} Back64(b: seq<u8>)
    requires |b| >= 8
    ensures Put64(Get64(b).value) + Get64(b).rest == b
  {
    hide Get32, Put32, Put64;
    var lo := Get32(b);
    var hi := Get32(lo.rest);
    Back32(b);
    Back32(lo.rest);
    Halves64(lo.value, hi.value);
    Join(Put32(lo.value), Put32(hi.value), hi.rest);
  }

  // ----- words, disks and timers

  function PutWords(xs: seq<u16>): (b: seq<u8>)
    ensures |b| == 2 * |xs|
  {
    if xs == [] then [] else PutWords(xs[..|xs| - 1]) + Put16(xs[|xs| - 1])
  }

  function GetWords(b: seq<u8>, n: nat): (r: Parsed<seq<u16>>)
    requires |b| >= 2 * n
    ensures |r.value| == n && |r.rest| == |b| - 2 * n
  {
    if n == 0 then Parsed([], b)
    else
      var init := GetWords(b, n - 1);
      var last := Get16(init.rest);
      Parsed(init.value + [last.value], last.rest)
  }

  lemma {:induction false} RoundWords(xs: seq<u16>, rest: seq<u8>)
    ensures GetWords(PutWords(xs) + rest, |xs|) == Parsed(xs, rest)
    decreases |xs|
  {
    hide Get16, Put16;
    if xs == [] {
      assert PutWords(xs) + rest == rest;
    } else {
      var (init, x) := (xs[..|xs| - 1], xs[|xs| - 1]);
      Join(PutWords(init), Put16(x), rest);
      Round16(x, rest);
      RoundWords(init, Put16(x) + rest);
      assert xs == init + [x];
    }
  }

  lemma {:induction false} BackWords(b: seq<u8>, n: nat)
    requires |b| >= 2 * n
    ensures PutWords(GetWords(b, n).value) + GetWords(b, n).rest == b
  {
    hide Get16, Put16;
    if n > 0 {
      var init := GetWords(b, n - 1);
      var last := Get16(init.rest);
      BackWords(b, n - 1);
      Back16(init.rest);
      assert (init.value + [last.value])[..n - 1] == init.value;
      Join(PutWords(init.value), Put16(last.value), last.rest);
    }
  }

  function PutDisk(d: Disk): (b: seq<u8>)
    ensures |b| == 12
  {
    Put32(d.size) + Put16(d.cylinders) + [d.heads, d.sectors] + Put32(d.position)
  }

  function GetDisk(b: seq<u8>): (r: Parsed<Disk>)
    requires |b| >= 12
    ensures |r.rest| == |b| - 12
  {
    var size := Get32(b);
    var cylinders := Get16(size.rest);
    var heads := Get8(cylinders.rest);
    var sectors := Get8(heads.rest);
    var position := Get32(sectors.rest);
    Parsed(Disk(size.value, cylinders.value, heads.value, sectors.value, position.value), position.rest)
  }

  lemma {:induction false} RoundDisk(d: Disk, rest: seq<u8>)
    ensures GetDisk(PutDisk(d) + rest) == Parsed(d, rest)
  {
    hide Wrap, Rem, Quot;
    OperatorsAre();
  }

  lemma {:induction false} BackDisk(b: seq<u8>)
    requires |b| >= 12
    ensures PutDisk(GetDisk(b).value) + GetDisk(b).rest == b
  {
    hide Put16, Put32, Get16, Get32;
    var size := Get32(b);
    var cylinders := Get16(size.rest);
    var position := Get32(cylinders.rest[1..][1..]);
    var d := GetDisk(b).value;
    Back32(b);
    Back16(size.rest);
    Back32(cylinders.rest[1..][1..]);
    assert cylinders.rest == [d.heads, d.sectors] + (Put32(d.position) + position.rest);
    assert PutDisk(d) + position.rest
      == Put32(d.size) + (Put16(d.cylinders) + ([d.heads, d.sectors] + (Put32(d.position) + position.rest)));
  }

  function PutDisks(xs: seq<Disk>): (b: seq<u8>)
    ensures |b| == 12 * |xs|
  {
    if xs == [] then [] else PutDisks(xs[..|xs| - 1]) + PutDisk(xs[|xs| - 1])
  }

  function GetDisks(b: seq<u8>, n: nat): (r: Parsed<seq<Disk>>)
    requires |b| >= 12 * n
    ensures |r.value| == n && |r.rest| == |b| - 12 * n
  {
    if n == 0 then Parsed([], b)
    else
      var init := GetDisks(b, n - 1);
      var last := GetDisk(init.rest);
      Parsed(init.value + [last.value], last.rest)
  }

  lemma {:induction false} RoundDisks(xs: seq<Disk>, rest: seq<u8>)
    ensures GetDisks(PutDisks(xs) + rest, |xs|) == Parsed(xs, rest)
    decreases |xs|
  {
    hide GetDisk, PutDisk;
    if xs == [] {
      assert PutDisks(xs) + rest == rest;
    } else {
      var (init, x) := (xs[..|xs| - 1], xs[|xs| - 1]);
      Join(PutDisks(init), PutDisk(x), rest);
      RoundDisk(x, rest);
      RoundDisks(init, PutDisk(x) + rest);
      assert xs == init + [x];
    }
  }

  lemma {:induction false} BackDisks(b: seq<u8>, n: nat)
    requires |b| >= 12 * n
    ensures PutDisks(GetDisks(b, n).value) + GetDisks(b, n).rest == b
  {
    hide GetDisk, PutDisk;
    if n > 0 {
      var init := GetDisks(b, n - 1);
      var last := GetDisk(init.rest);
      BackDisks(b, n - 1);
      BackDisk(init.rest);
      assert (init.value + [last.value])[..n - 1] == init.value;
      Join(PutDisks(init.value), PutDisk(last.value), last.rest);
    }
  }

  function PutPit(p: Pit): (b: seq<u8>)
    ensures |b| == 5
  {
    Put16(p.reload) + Put16(p.counter) + [p.mode]
  }

  function GetPit(b: seq<u8>): (r: Parsed<Pit>)
    requires |b| >= 5
    ensures |r.rest| == |b| - 5
  {
    var reload := Get16(b);
    var counter := Get16(reload.rest);
    var mode := Get8(counter.rest);
    Parsed(Pit(reload.value, counter.value, mode.value), mode.rest)
  }

  lemma {:induction false} RoundPit(p: Pit, rest: seq<u8>)
    ensures GetPit(PutPit(p) + rest) == Parsed(p, rest)
  {
    hide Wrap, Rem, Quot;
    OperatorsAre();
  }

  lemma {:induction false} BackPit(b: seq<u8>)
    requires |b| >= 5
    ensures PutPit(GetPit(b).value) + GetPit(b).rest == b
  {
    hide Wrap, Rem, Quot;
    OperatorsAre();
  }

  function PutPits(xs: seq<Pit>): (b: seq<u8>)
    ensures |b| == 5 * |xs|
  {
    if xs == [] then [] else PutPits(xs[..|xs| - 1]) + PutPit(xs[|xs| - 1])
  }

  function GetPits(b: seq<u8>, n: nat): (r: Parsed<seq<Pit>>)
    requires |b| >= 5 * n
    ensures |r.value| == n && |r.rest| == |b| - 5 * n
  {
    if n == 0 then Parsed([], b)
    else
      var init := GetPits(b, n - 1);
      var last := GetPit(init.rest);
      Parsed(init.value + [last.value], last.rest)
  }

  lemma {:induction false} RoundPits(xs: seq<Pit>, rest: seq<u8>)
    ensures GetPits(PutPits(xs) + rest, |xs|) == Parsed(xs, rest)
    decreases |xs|
  {
    hide GetPit, PutPit;
    if xs == [] {
      assert PutPits(xs) + rest == rest;
    } else {
      var (init, x) := (xs[..|xs| - 1], xs[|xs| - 1]);
      Join(PutPits(init), PutPit(x), rest);
      RoundPit(x, rest);
      RoundPits(init, PutPit(x) + rest);
      assert xs == init + [x];
    }
  }

  lemma {:induction false} BackPits(b: seq<u8>, n: nat)
    requires |b| >= 5 * n
    ensures PutPits(GetPits(b, n).value) + GetPits(b, n).rest == b
  {
    hide GetPit, PutPit;
    if n > 0 {
      var init := GetPits(b, n - 1);
      var last := GetPit(init.rest);
      BackPits(b, n - 1);
      BackPit(init.rest);
      assert (init.value + [last.value])[..n - 1] == init.value;
      Join(PutPits(init.value), PutPit(last.value), last.rest);
    }
  }
  // ----- the fields of the state

  /** Everything in front of the memory. */
  datatype Head = Head(regs: Regs, sregs: SRegs, ip: u16, flags: Flags, ctl: Control, prefix: Prefix)

  function PutControl(c: Control): (b: seq<u8>)
    ensures |b| == 4
  {
    [c.halted, c.trapFlag, c.intPending, c.intVector]
  }

  function PutPrefix(p: Prefix): (b: seq<u8>)
    ensures |b| == 4
  {
    [p.segEn, p.seg, p.repEn, p.repMode]
  }

  function GetControl(b: seq<u8>): (r: Parsed<Control>)
    requires |b| >= 4
    ensures |r.rest| == |b| - 4
  {
    Parsed(Control(b[0], b[1], b[2], b[3]), b[4..])
  }

  function GetPrefix(b: seq<u8>): (r: Parsed<Prefix>)
    requires |b| >= 4
    ensures |r.rest| == |b| - 4
  {
    Parsed(Prefix(b[0], b[1], b[2], b[3]), b[4..])
  }

  lemma RoundQuads(c: Control, p: Prefix, rest: seq<u8>)
    ensures GetControl(PutControl(c) + rest) == Parsed(c, rest) && GetPrefix(PutPrefix(p) + rest) == Parsed(p, rest)
  {}

  lemma BackQuads(b: seq<u8>)
    requires |b| >= 4
    ensures PutControl(GetControl(b).value) + GetControl(b).rest == b
      && PutPrefix(GetPrefix(b).value) + GetPrefix(b).rest == b
  {}

  const HEAD_SIZE := 36

  function PutHead(h: Head): (b: seq<u8>)
    ensures |b| == HEAD_SIZE
  {
    PutWords(h.regs) + PutWords(h.sregs) + Put16(h.ip) + Put16(ToWord(h.flags))
    + PutControl(h.ctl) + PutPrefix(h.prefix)
  }

  function GetHead(b: seq<u8>): (r: Parsed<Head>)
    requires |b| >= HEAD_SIZE
    ensures |r.rest| == |b| - HEAD_SIZE
  {
    var regs := GetWords(b, 8);
    var sregs := GetWords(regs.rest, 4);
    var ip := Get16(sregs.rest);
    var flags := Get16(ip.rest);
    var ctl := GetControl(flags.rest);
    var prefix := GetPrefix(ctl.rest);
    Parsed(Head(regs.value, sregs.value, ip.value, OfWord(flags.value), ctl.value, prefix.value), prefix.rest)
  }

  lemma Join6(a: seq<u8>, b: seq<u8>, c: seq<u8>, d: seq<u8>, e: seq<u8>, f: seq<u8>, rest: seq<u8>)
    ensures a + b + c + d + e + f + rest == a + (b + (c + (d + (e + (f + rest)))))
  {}

  lemma {:induction false} RoundHead(h: Head, rest: seq<u8>)
    ensures GetHead(PutHead(h) + rest) == Parsed(h, rest)
  {
    hide PutWords, GetWords, Put16, Get16, PutControl, GetControl, PutPrefix, GetPrefix, ToWord, OfWord;
    var w := ToWord(h.flags);
    var r4 := PutPrefix(h.prefix) + rest;
    var r3 := PutControl(h.ctl) + r4;
    var r2 := Put16(w) + r3;
    var r1 := Put16(h.ip) + r2;
    Join6(PutWords(h.regs), PutWords(h.sregs), Put16(h.ip), Put16(w), PutControl(h.ctl), PutPrefix(h.prefix), rest);
    RoundWords(h.regs, PutWords(h.sregs) + r1);
    RoundWords(h.sregs, r1);
    Round16(h.ip, r2);
    Round16(w, r3);
    OfToWord(h.flags);
    RoundQuads(h.ctl, h.prefix, r4);
    RoundQuads(h.ctl, h.prefix, rest);
  }

  lemma {:induction false} BackHead(b: seq<u8>)
    requires |b| >= HEAD_SIZE
    ensures PutHead(GetHead(b).value) + GetHead(b).rest == b
  {
    hide PutWords, GetWords, Put16, Get16, PutControl, GetControl, PutPrefix, GetPrefix, ToWord, OfWord;
    var regs := GetWords(b, 8);
    var sregs := GetWords(regs.rest, 4);
    var ip := Get16(sregs.rest);
    var flags := Get16(ip.rest);
    var ctl := GetControl(flags.rest);
    var prefix := GetPrefix(ctl.rest);
    BackWords(b, 8);
    BackWords(regs.rest, 4);
    Back16(sregs.rest);
    Back16(ip.rest);
    ToOfWord(flags.value);
    BackQuads(flags.rest);
    BackQuads(ctl.rest);
    Join6(PutWords(regs.value), PutWords(sregs.value), Put16(ip.value), Put16(flags.value),
          PutControl(ctl.value), PutPrefix(prefix.value), prefix.rest);
  }

  // ----- devices

  /** Keyboard and video: kb_buffer, kb_head, kb_tail, video_mode, cursor. */
  datatype Screen = Screen(kbBuffer: KbBuffer, kbHead: u8, kbTail: u8, videoMode: u8, cursorRow: u16, cursorCol: u16)

  function PutScreen(s: Screen): (b: seq<u8>)
    ensures |b| == 23
  {
    s.kbBuffer + [s.kbHead, s.kbTail, s.videoMode] + Put16(s.cursorRow) + Put16(s.cursorCol)
  }

  function GetScreen(b: seq<u8>): (r: Parsed<Screen>)
    requires |b| >= 23
    ensures |r.rest| == |b| - 23
  {
    var row := Get16(b[19..]);
    var col := Get16(row.rest);
    Parsed(Screen(b[..16], b[16], b[17], b[18], row.value, col.value), col.rest)
  }

  lemma {:induction false} RoundScreen(s: Screen, rest: seq<u8>)
    ensures GetScreen(PutScreen(s) + rest) == Parsed(s, rest)
  {
    hide Put16, Get16;
    var r := Put16(s.cursorRow) + (Put16(s.cursorCol) + rest);
    var b := PutScreen(s) + rest;
    assert b == s.kbBuffer + ([s.kbHead, s.kbTail, s.videoMode] + r);
    assert b[19..] == r && b[..16] == s.kbBuffer;
    Round16(s.cursorRow, Put16(s.cursorCol) + rest);
    Round16(s.cursorCol, rest);
  }

  lemma {:induction false} BackScreen(b: seq<u8>)
    requires |b| >= 23
    ensures PutScreen(GetScreen(b).value) + GetScreen(b).rest == b
  {
    hide Put16, Get16;
    var row := Get16(b[19..]);
    var col := Get16(row.rest);
    Back16(b[19..]);
    Back16(row.rest);
    var s := GetScreen(b).value;
    assert PutScreen(s) + col.rest
        == s.kbBuffer + ([s.kbHead, s.kbTail, s.videoMode] + (Put16(s.cursorRow) + (Put16(s.cursorCol) + col.rest)));
    assert b == b[..16] + ([b[16], b[17], b[18]] + b[19..]);
  }

  /** Audio and graphics. */
  datatype Sound = Sound(spkrEn: u8, waveCounter: u16, graphicsX: u16, graphicsY: u16)

  function PutSound(s: Sound): (b: seq<u8>)
    ensures |b| == 7
  {
    [s.spkrEn] + Put16(s.waveCounter) + Put16(s.graphicsX) + Put16(s.graphicsY)
  }

  function GetSound(b: seq<u8>): (r: Parsed<Sound>)
    requires |b| >= 7
    ensures |r.rest| == |b| - 7
  {
    var wave := Get16(b[1..]);
    var x := Get16(wave.rest);
    var y := Get16(x.rest);
    Parsed(Sound(b[0], wave.value, x.value, y.value), y.rest)
  }

  lemma {:induction false} RoundSound(s: Sound, rest: seq<u8>)
    ensures GetSound(PutSound(s) + rest) == Parsed(s, rest)
  {
    hide Wrap, Rem, Quot;
    OperatorsAre();
  }

  lemma {:induction false} BackSound(b: seq<u8>)
    requires |b| >= 7
    ensures PutSound(GetSound(b).value) + GetSound(b).rest == b
  {
    hide Put16, Get16;
    var wave := Get16(b[1..]);
    var x := Get16(wave.rest);
    var y := Get16(x.rest);
    Back16(b[1..]);
    Back16(wave.rest);
    Back16(x.rest);
    assert PutSound(GetSound(b).value) + y.rest
        == [b[0]] + (Put16(wave.value) + (Put16(x.value) + (Put16(y.value) + y.rest)));
    assert b == [b[0]] + b[1..];
  }

  function ScreenOf(d: Devices): Screen { Screen(d.kbBuffer, d.kbHead, d.kbTail, d.videoMode, d.cursorRow,
    d.cursorCol) }
  function SoundOf(d: Devices): Sound { Sound(d.spkrEn, d.waveCounter, d.graphicsX, d.graphicsY) }

  const DEVICES_SIZE := 82

  function PutDevices(d: Devices): (b: seq<u8>)
    ensures |b| == DEVICES_SIZE
  {
    PutDisks(d.disks) + PutPits(d.pits) + [d.pitLobyte] + PutScreen(ScreenOf(d)) + PutSound(SoundOf(d))
  }

  function GetDevices(b: seq<u8>): (r: Parsed<Devices>)
    requires |b| >= DEVICES_SIZE
    ensures |r.rest| == |b| - DEVICES_SIZE
  {
    var disks := GetDisks(b, NUM_DISKS);
    var pits := GetPits(disks.rest, NUM_PIT);
    var lobyte := Get8(pits.rest);
    var screen := GetScreen(lobyte.rest);
    var sound := GetSound(screen.rest);
    var (v, w) := (screen.value, sound.value);
    Parsed(Devices(disks.value, pits.value, lobyte.value, v.kbBuffer, v.kbHead, v.kbTail, v.videoMode,
                   v.cursorRow, v.cursorCol, w.spkrEn, w.waveCounter, w.graphicsX, w.graphicsY), sound.rest)
  }

  lemma {:induction false} RoundDevices(d: Devices, rest: seq<u8>)
    ensures GetDevices(PutDevices(d) + rest) == Parsed(d, rest)
  {
    hide PutDisks, GetDisks, PutPits, GetPits, PutScreen, GetScreen, PutSound, GetSound;
    var r3 := PutSound(SoundOf(d)) + rest;
    var r2 := PutScreen(ScreenOf(d)) + r3;
    var r1 := [d.pitLobyte] + r2;
    Join6([], PutDisks(d.disks), PutPits(d.pits), [d.pitLobyte], PutScreen(ScreenOf(d)), PutSound(SoundOf(d)), rest);
    assert [] + PutDisks(d.disks) == PutDisks(d.disks);
    assert [] + (PutDisks(d.disks) + (PutPits(d.pits) + r1)) == PutDisks(d.disks) + (PutPits(d.pits) + r1);
    assert r1[1..] == r2;
    RoundDisks(d.disks, PutPits(d.pits) + r1);
    RoundPits(d.pits, r1);
    RoundScreen(ScreenOf(d), r3);
    RoundSound(SoundOf(d), rest);
  }

  lemma {:induction false} BackDevices(b: seq<u8>)
    requires |b| >= DEVICES_SIZE
    ensures PutDevices(GetDevices(b).value) + GetDevices(b).rest == b
  {
    hide PutDisks, GetDisks, PutPits, GetPits, PutScreen, GetScreen, PutSound, GetSound;
    var disks := GetDisks(b, NUM_DISKS);
    var pits := GetPits(disks.rest, NUM_PIT);
    var screen := GetScreen(pits.rest[1..]);
    var sound := GetSound(screen.rest);
    BackDisks(b, NUM_DISKS);
    BackPits(disks.rest, NUM_PIT);
    BackScreen(pits.rest[1..]);
    BackSound(screen.rest);
    assert pits.rest == [pits.rest[0]] + pits.rest[1..];
    var d := GetDevices(b).value;
    assert ScreenOf(d) == screen.value && SoundOf(d) == sound.value;
    Join6([], PutDisks(d.disks), PutPits(d.pits), [d.pitLobyte], PutScreen(ScreenOf(d)), PutSound(SoundOf(d)),
      sound.rest);
    assert [] + PutDisks(d.disks) == PutDisks(d.disks);
  }

  // ----- the whole state

  /** data_size() */
  const DATA_SIZE: nat :=
    8 * 2 + 4 * 2 + 2 + 2 + 4 * 1 + 4 * 1 + MEM_SIZE + IO_PORTS + NUM_DISKS * 12 + NUM_PIT * 5 + 1
    + KB_BUF_SIZE + 2 + 1 + 2 + 2 + 1 + 2 + 2 + 2 + 8 + 1

  function HeadOf(s: State): Head { Head(s.regs, s.sregs, s.ip, s.flags, s.ctl, s.prefix) }

  function PutState(s: State): (b: seq<u8>)
    ensures |b| == DATA_SIZE
  {
    PutHead(HeadOf(s)) + s.mem + s.io + PutDevices(s.devices) + Put64(s.instCount) + [s.int8Asap]
  }

  function GetState(b: seq<u8>): (r: Parsed<State>)
    requires |b| >= DATA_SIZE
    ensures |r.rest| == |b| - DATA_SIZE
  {
    var head := GetHead(b);
    var mem := head.rest[..MEM_SIZE];
    var b1 := head.rest[MEM_SIZE..];
    var io := b1[..IO_PORTS];
    var devices := GetDevices(b1[IO_PORTS..]);
    var count := Get64(devices.rest);
    var asap := Get8(count.rest);
    var h := head.value;
    Parsed(State(h.regs, h.sregs, h.ip, h.flags, h.ctl, h.prefix, mem, io, devices.value, count.value, asap.value),
           asap.rest)
  }

  /** Decoding what was encoded gives back every field of every state ... */
  lemma {:induction false} RoundState(s: State, rest: seq<u8>)
    ensures GetState(PutState(s) + rest) == Parsed(s, rest)
  {
    hide PutHead, GetHead, PutDevices, GetDevices, Put64, Get64;
    var r4 := [s.int8Asap] + rest;
    var r3 := Put64(s.instCount) + r4;
    var r2 := PutDevices(s.devices) + r3;
    var r1 := s.io + r2;
    Join6(PutHead(HeadOf(s)), s.mem, s.io, PutDevices(s.devices), Put64(s.instCount), [s.int8Asap], rest);
    RoundHead(HeadOf(s), s.mem + r1);
    Slices(s.mem, r1);
    Slices(s.io, r2);
    RoundDevices(s.devices, r3);
    Round64(s.instCount, r4);
    Slices([s.int8Asap], rest);
  }

  lemma Slices(x: seq<u8>, y: seq<u8>)
    ensures (x + y)[..|x|] == x && (x + y)[|x|..] == y
  {}

  lemma Splits(b: seq<u8>, n: nat)
    requires n <= |b|
    ensures b[..n] + b[n..] == b
  {}

  /** ... and encoding what was decoded gives back every byte. */
  lemma {:induction false} BackState(b: seq<u8>)
    requires |b| >= DATA_SIZE
    ensures PutState(GetState(b).value) + GetState(b).rest == b
  {
    hide PutHead, GetHead, PutDevices, GetDevices, Put64, Get64;
    var head := GetHead(b);
    var b1 := head.rest[MEM_SIZE..];
    var b2 := b1[IO_PORTS..];
    var devices := GetDevices(b2);
    var count := Get64(devices.rest);
    BackHead(b);
    Splits(head.rest, MEM_SIZE);
    Splits(b1, IO_PORTS);
    BackDevices(b2);
    Back64(devices.rest);
    Splits(count.rest, 1);
    assert count.rest[..1] == [count.rest[0]];
    var s := GetState(b).value;
    assert HeadOf(s) == head.value;
    Join6(PutHead(HeadOf(s)), s.mem, s.io, PutDevices(s.devices), Put64(s.instCount), [s.int8Asap], count.rest[1..]);
  }

  // ----- save

  const MAGIC: u32 := 0x5336_3845
  const VERSION: u32 := 1
  const HEADER_SIZE := 12
  const CRC_SIZE := 4
  const SNAPSHOT_SIZE: nat := HEADER_SIZE + DATA_SIZE + CRC_SIZE

  /** write_u32 of a checksum. */
  function PutCrc(c: bv32): (b: seq<u8>)
    ensures |b| == CRC_SIZE
  {
    [CrcByte(c, 0), CrcByte(c, 1), CrcByte(c, 2), CrcByte(c, 3)]
  }

  /** (uint8_t)(c >> 8 * n) */
  function CrcByte(c: bv32, n: nat): u8 {
    Crc.LowByte(ShiftDown(c, n))
  }

  function ShiftDown(c: bv32, n: nat): bv32 {
    match n
    case 0 => c
    case 1 => c >> 8
    case 2 => c >> 16
    case _ => c >> 24
  }

  /** A checksum read back from four bytes. */
  function GetCrc(b: seq<u8>): bv32
    requires |b| == CRC_SIZE
  {
    Assemble(Crc.OfByte(b[0]), Crc.OfByte(b[1]), Crc.OfByte(b[2]), Crc.OfByte(b[3]))
  }

  function Assemble(b0: bv32, b1: bv32, b2: bv32, b3: bv32): bv32 { b0 | (b1 << 8) | (b2 << 16) | (b3 << 24) }

  lemma AssembleBytes(c: bv32)
    ensures Assemble(c & 0xFF, (c >> 8) & 0xFF, (c >> 16) & 0xFF, (c >> 24) & 0xFF) == c
  {}

  predicate IsByte(b: bv32) { b & 0xFF == b }

  lemma {:induction false} RoundCrc(c: bv32)
    ensures GetCrc(PutCrc(c)) == c
  {
    hide Crc.LowByte, Crc.OfByte, Assemble;
    Crc.OfLowByte(c);
    Crc.OfLowByte(c >> 8);
    Crc.OfLowByte(c >> 16);
    Crc.OfLowByte(c >> 24);
    AssembleBytes(c);
  }

  lemma LowByteIs(x: bv32, y: bv32, b: u8)
    requires x & 0xFF == y && y == Crc.OfByte(b)
    ensures Crc.LowByte(x) == b
  {
    hide Crc.LowByte, Crc.OfByte;
    Crc.OfLowByte(x);
    Crc.LowOfByte(b);
    Crc.LowOfByte(Crc.LowByte(x));
  }

  lemma Digit0(x0: bv32, x1: bv32, x2: bv32, x3: bv32)
    requires IsByte(x0)
    ensures ShiftDown(Assemble(x0, x1, x2, x3), 0) & 0xFF == x0
  {}

  lemma Digit1(x0: bv32, x1: bv32, x2: bv32, x3: bv32)
    requires IsByte(x0) && IsByte(x1)
    ensures ShiftDown(Assemble(x0, x1, x2, x3), 1) & 0xFF == x1
  {}

  lemma Digit2(x0: bv32, x1: bv32, x2: bv32, x3: bv32)
    requires IsByte(x0) && IsByte(x1) && IsByte(x2)
    ensures ShiftDown(Assemble(x0, x1, x2, x3), 2) & 0xFF == x2
  {}

  lemma Digit3(x0: bv32, x1: bv32, x2: bv32, x3: bv32)
    requires IsByte(x0) && IsByte(x1) && IsByte(x2) && IsByte(x3)
    ensures ShiftDown(Assemble(x0, x1, x2, x3), 3) & 0xFF == x3
  {}

  lemma CrcByteIs(c: bv32, n: nat, x: bv32, b: u8)
    requires ShiftDown(c, n) & 0xFF == x && x == Crc.OfByte(b)
    ensures CrcByte(c, n) == b
  {
    hide Crc.OfByte, Crc.LowByte, ShiftDown;
    LowByteIs(ShiftDown(c, n), x, b);
  }

  lemma ByteOf(b: u8)
    ensures IsByte(Crc.OfByte(b))
  {}

  lemma {:induction false} BackCrc(b: seq<u8>)
    requires |b| == CRC_SIZE
    ensures PutCrc(GetCrc(b)) == b
  {
    ByteOf(b[0]);
    ByteOf(b[1]);
    ByteOf(b[2]);
    ByteOf(b[3]);
    BackAssembled(b, Crc.OfByte(b[0]), Crc.OfByte(b[1]), Crc.OfByte(b[2]), Crc.OfByte(b[3]), GetCrc(b));
    hide *;
  }

  lemma {:induction false} BackAssembled(b: seq<u8>, x0: bv32, x1: bv32, x2: bv32, x3: bv32, c: bv32)
    requires |b| == CRC_SIZE && c == Assemble(x0, x1, x2, x3)
    requires x0 == Crc.OfByte(b[0]) && x1 == Crc.OfByte(b[1]) && x2 == Crc.OfByte(b[2]) && x3 == Crc.OfByte(b[3])
    requires IsByte(x0) && IsByte(x1) && IsByte(x2) && IsByte(x3)
    ensures PutCrc(c) == b
  {
    hide CrcByte, Crc.OfByte, Assemble, IsByte, ShiftDown;
    Digit0(x0, x1, x2, x3);
    CrcByteIs(c, 0, x0, b[0]);
    Digit1(x0, x1, x2, x3);
    CrcByteIs(c, 1, x1, b[1]);
    Digit2(x0, x1, x2, x3);
    CrcByteIs(c, 2, x2, b[2]);
    Digit3(x0, x1, x2, x3);
    CrcByteIs(c, 3, x3, b[3]);
  }

  /** Magic, version and the size of the field data. */
  function Header(size: u32): (b: seq<u8>)
    ensures |b| == HEADER_SIZE
  {
    Put32(MAGIC) + Put32(VERSION) + Put32(size)
  }

  /** Field data behind its header, and the checksum of both behind it. */
  function Sealed(p: seq<u8>): (b: seq<u8>)
    requires |p| < 0x1_0000_0000
    ensures |b| == HEADER_SIZE + |p| + CRC_SIZE
  {
    Header(|p|) + p + PutCrc(Crc.Crc32(Header(|p|) + p))
  }

  /** The bytes emu86_snapshot_save writes. */
  function Save(s: State): (b: seq<u8>)
    ensures |b| == SNAPSHOT_SIZE
  {
    Sealed(PutState(s))
  }

  // ----- restore

  const BAD_MAGIC := -1
  const BAD_VERSION := -2
  const BAD_CHECKSUM := -3
  const BAD_SIZE := -4

  /** The result of a restore. PastEnd stands for a read behind the end of the buffer, to
      which the size field of the header can lead the source. */
  datatype Outcome = Restored(state: State) | Failed(code: int) | PastEnd

  function U32At(b: seq<u8>, i: nat): u32
    requires i + 4 <= |b|
  {
    Get32(b[i..]).value
  }

  /** HEADER_SIZE + ds + CRC_SIZE in uint32_t. */
  function ExpectedTotal(b: seq<u8>): u32
    requires |b| >= HEADER_SIZE
  {
    U32(HEADER_SIZE + U32At(b, 8) as int + CRC_SIZE)
  }

  predicate ChecksumHolds(b: seq<u8>, total: nat)
    requires CRC_SIZE <= total <= |b|
  {
    GetCrc(b[total - CRC_SIZE..total]) == Crc.Crc32(b[..total - CRC_SIZE])
  }

  /** emu86_snapshot_restore. A total below 4 makes the source read the checksum at a
      wrapped index, which lies behind every buffer. */
  function Restore(b: seq<u8>): Outcome {
    if |b| < HEADER_SIZE + CRC_SIZE then Failed(BAD_SIZE)
    else if U32At(b, 0) != MAGIC then Failed(BAD_MAGIC)
    else if U32At(b, 4) != VERSION then Failed(BAD_VERSION)
    else if |b| < ExpectedTotal(b) then Failed(BAD_SIZE)
    else if ExpectedTotal(b) < CRC_SIZE then PastEnd
    else if !ChecksumHolds(b, ExpectedTotal(b)) then Failed(BAD_CHECKSUM)
    else if |b| < HEADER_SIZE + DATA_SIZE then PastEnd
    else Restored(GetState(b[HEADER_SIZE..]).value)
  }

  predicate HasHeader(b: seq<u8>, size: u32) {
    |b| >= HEADER_SIZE && U32At(b, 0) == MAGIC && U32At(b, 4) == VERSION && U32At(b, 8) == size
  }

  lemma {:induction false} HeaderOf(size: u32, rest: seq<u8>)
    ensures HasHeader(Header(size) + rest, size) && (Header(size) + rest)[HEADER_SIZE..] == rest
  {
    hide Put32, Get32;
    var b := Header(size) + rest;
    var r := Put32(VERSION) + (Put32(size) + rest);
    assert b[0..] == Put32(MAGIC) + r && b[4..] == r && b[8..] == Put32(size) + rest;
    Round32(MAGIC, r);
    Round32(VERSION, Put32(size) + rest);
    Round32(size, rest);
  }

  lemma {:induction false} WordAt(b: seq<u8>, i: nat)
    requires i + 4 <= |b|
    ensures b[i..i + 4] == Put32(U32At(b, i))
  {
    hide Get32, Put32;
    Back32(b[i..]);
    assert b[i..][..4] == b[i..i + 4];
  }

  /** What becomes of field data p of any length under a fitting header and checksum, with
      anything behind it: restore decodes data_size() bytes whatever the header says, and
      reads behind the buffer exactly if that is shorter. */
  lemma {:induction false} SealedRestores(p: seq<u8>, tail: seq<u8>)
    requires HEADER_SIZE + |p| + CRC_SIZE < 0x1_0000_0000
    ensures var b := Sealed(p) + tail;
      Restore(b) == if |b| < HEADER_SIZE + DATA_SIZE then PastEnd else Restored(GetState(b[HEADER_SIZE..]).value)
  {
    hide U32At, GetState, Header, PutCrc, GetCrc, Crc.Crc32;
    var (h, n) := (Header(|p|), HEADER_SIZE + |p|);
    var c := PutCrc(Crc.Crc32(h + p));
    var b := Sealed(p) + tail;
    assert b == h + (p + c + tail);
    HeaderOf(|p|, p + c + tail);
    assert b[..n] == h + p && b[n..n + CRC_SIZE] == c;
    RoundCrc(Crc.Crc32(h + p));
  }

  /** Restoring a saved snapshot, alone or at the head of a larger buffer, gives back the
      state that was saved. */
  lemma {:induction false} RestoreOfSave(s: State, extra: seq<u8>)
    ensures Restore(Save(s) + extra) == Restored(s)
  {
    hide Restore, GetState, Header, PutState, PutCrc, Crc.Crc32;
    var p := PutState(s);
    var c := PutCrc(Crc.Crc32(Header(|p|) + p));
    SealedRestores(p, extra);
    assert (Save(s) + extra)[HEADER_SIZE..] == p + (c + extra);
    RoundState(s, c + extra);
  }

  /** Saving what was restored from a buffer of the exact size reproduces the buffer, byte
      for byte, exactly if the size field of its header is data_size(). */
  lemma {:induction false} SaveOfRestore(b: seq<u8>)
    requires |b| == SNAPSHOT_SIZE && Restore(b).Restored?
    ensures Save(Restore(b).state) == b <==> U32At(b, 8) == DATA_SIZE
  {
    hide GetState, PutState, PutCrc, GetCrc, Crc.Crc32, U32At, Put32;
    var s := Restore(b).state;
    var n := HEADER_SIZE + DATA_SIZE;
    if U32At(b, 8) == DATA_SIZE {
      var rest := GetState(b[HEADER_SIZE..]).rest;
      BackState(b[HEADER_SIZE..]);
      WordAt(b, 0);
      WordAt(b, 4);
      WordAt(b, 8);
      assert b[..HEADER_SIZE] == b[0..4] + b[4..8] + b[8..12];
      Slices(PutState(s), rest);
      assert b[..n] == b[..HEADER_SIZE] + b[HEADER_SIZE..][..DATA_SIZE];
      BackCrc(b[n..]);
      assert b[n..] == b[n..SNAPSHOT_SIZE];
      Splits(b, n);
    }
    SavedHeader(s);
  }

  lemma {:induction false} SavedHeader(s: State)
    ensures HasHeader(Save(s), DATA_SIZE)
  {
    hide Header, PutState, PutCrc, Crc.Crc32, HasHeader;
    var p := PutState(s);
    var c := PutCrc(Crc.Crc32(Header(DATA_SIZE) + p));
    HeaderOf(DATA_SIZE, p + c);
    assert Save(s) == Header(DATA_SIZE) + (p + c);
  }

  /** A buffer of the exact size with a smaller size field, whose checksum so lies inside
      the field data, is accepted and not reproduced. */
  lemma {:induction false} ShortFieldNotReproduced(p: seq<u8>, tail: seq<u8>)
    requires |p| < DATA_SIZE && |p| + |tail| == DATA_SIZE
    ensures var r := Restore(Sealed(p) + tail); r.Restored? && Save(r.state) != Sealed(p) + tail
  {
    hide Restore, GetState, Header, PutCrc, Crc.Crc32, U32At, Save;
    var c := PutCrc(Crc.Crc32(Header(|p|) + p));
    SealedRestores(p, tail);
    assert Sealed(p) + tail == Header(|p|) + (p + c + tail);
    HeaderOf(|p|, p + c + tail);
    SaveOfRestore(Sealed(p) + tail);
  }

  /** Every shorter buffer is refused for its size. */
  lemma {:induction false} TruncatedRefused(s: State, n: nat)
    requires n < SNAPSHOT_SIZE
    ensures Restore(Save(s)[..n]) == Failed(BAD_SIZE)
  {
    hide GetState, GetCrc, Save, U32At;
    var b := Save(s);
    if n >= HEADER_SIZE + CRC_SIZE {
      SavedHeader(s);
      U32Same(b, b[..n], 0);
      U32Same(b, b[..n], 4);
      U32Same(b, b[..n], 8);
    }
  }

  lemma U32Same(b: seq<u8>, c: seq<u8>, i: nat)
    requires i + 4 <= |b| && i + 4 <= |c| && b[i..i + 4] == c[i..i + 4]
    ensures U32At(b, i) == U32At(c, i)
  {
    hide Word;
    forall k | 0 <= k < 4
      ensures b[i..][k] == c[i..][k]
    {
      assert b[i..i + 4][k] == c[i..i + 4][k];
    }
  }

  /** The buffer with the bytes from i on replaced by y. */
  function Patched(b: seq<u8>, i: nat, y: seq<u8>): seq<u8>
    requires i + |y| <= |b|
  {
    b[..i] + y + b[i + |y|..]
  }

  /** Changing any span of at most four bytes of the field data of an accepted buffer makes
      restore fail with the checksum error. */
  lemma {:induction false} BurstRefused(b: seq<u8>, i: nat, y: seq<u8>)
    requires |b| >= HEADER_SIZE + CRC_SIZE && Restore(b).Restored?
    requires HEADER_SIZE <= i && i + |y| <= ExpectedTotal(b) - CRC_SIZE && |y| <= 4 && b[i..i + |y|] != y
    ensures Restore(Patched(b, i, y)) == Failed(BAD_CHECKSUM)
  {
    hide GetState, GetCrc, Crc.Crc32, U32At;
    var c := Patched(b, i, y);
    var n := ExpectedTotal(b) - CRC_SIZE;
    assert forall k :: 0 <= k < i ==> c[k] == b[k];
    assert forall k :: i + |y| <= k < |b| ==> c[k] == b[k];
    U32Same(b, c, 0);
    U32Same(b, c, 4);
    U32Same(b, c, 8);
    assert c[n..n + CRC_SIZE] == b[n..n + CRC_SIZE];
    var tail := b[i + |y|..n];
    assert b[..n] == b[..i] + b[i..i + |y|] + tail;
    assert c[..n] == b[..i] + y + tail;
    Crc.BurstDetected(b[..i], b[i..i + |y|], y, tail);
  }

  /** So does any change of the stored checksum itself. */
  lemma {:induction false} ChecksumChangeRefused(b: seq<u8>, y: seq<u8>)
    requires |b| >= HEADER_SIZE + CRC_SIZE && Restore(b).Restored? && |y| == CRC_SIZE
    requires var n := ExpectedTotal(b) - CRC_SIZE; n >= HEADER_SIZE && b[n..n + CRC_SIZE] != y
    ensures Restore(Patched(b, ExpectedTotal(b) - CRC_SIZE, y)) == Failed(BAD_CHECKSUM)
  {
    hide GetState, GetCrc, PutCrc, Crc.Crc32, U32At;
    var n := ExpectedTotal(b) - CRC_SIZE;
    var c := Patched(b, n, y);
    assert forall k :: 0 <= k < n ==> c[k] == b[k];
    U32Same(b, c, 0);
    U32Same(b, c, 4);
    U32Same(b, c, 8);
    assert c[..n] == b[..n] && c[n..n + CRC_SIZE] == y;
    BackCrc(y);
    BackCrc(b[n..n + CRC_SIZE]);
  }

  /** Restore reads behind the buffer exactly if the header words are right, and either the
      size field is one of the four for which the uint32_t total wraps below 4, or the total
      fits the buffer, the checksum in front of it is right, and the buffer does not hold
      data_size() bytes of field data. */
  lemma {:induction false} PastEndIff(b: seq<u8>)
    requires |b| >= HEADER_SIZE + CRC_SIZE
    ensures var size := U32At(b, 8);
      var total := if size < 0xFFFF_FFF0 then size + 16 else size - 0xFFFF_FFF0;
      Restore(b).PastEnd? <==>
        U32At(b, 0) == MAGIC && U32At(b, 4) == VERSION
        && (total < 4 || (total <= |b| < HEADER_SIZE + DATA_SIZE && ChecksumHolds(b, total)))
  {
    hide GetState, U32At, ChecksumHolds;
    WrappedTotal(U32At(b, 8));
  }

  lemma WrappedTotal(size: u32)
    ensures U32(HEADER_SIZE + size as int + CRC_SIZE) == if size < 0xFFFF_FFF0 then size + 16 else size - 0xFFFF_FFF0
  {
    hide Wrap, Rem, Quot;
    OperatorsAre();
  }

  /** So never for a buffer that could hold a snapshot, but for those four size fields, and
      never with the size field of a saved one. */
  lemma {:induction false} StaysInside(b: seq<u8>)
    requires |b| >= HEADER_SIZE + CRC_SIZE
    requires U32At(b, 8) == DATA_SIZE || (|b| >= SNAPSHOT_SIZE && !(0xFFFF_FFF0 <= U32At(b, 8) < 0xFFFF_FFF4))
    ensures !Restore(b).PastEnd?
  {
    hide Restore, U32At, ChecksumHolds;
    PastEndIff(b);
  }

  /** Writing x and then y behind it. */
  lemma {:induction false} PatchJoins(b: seq<u8>, i: nat, x: seq<u8>, y: seq<u8>)
    requires i + |x| + |y| <= |b|
    ensures Patched(Patched(b, i, x), i + |x|, y) == Patched(b, i, x + y)
  {}
}

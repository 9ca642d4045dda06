/**
 CRC-32 as snapshot.c computes it, with a table, against the bit-serial reflected CRC of
 RFC 1952 (section 8), and what it detects.
 */
module Crc {
  import opened Words

  const POLYNOMIAL: bv32 := 0xEDB88320
  const START: bv32 := 0xFFFF_FFFF

  // ----- bytes as bit vectors

  function OfByte(b: u8): bv32 { (b as bv8) as bv32 }
  function Low8(x: bv32): bv8 { (x & 0xFF) as bv8 }
  function Value(b: bv8): u8 { b as int }
  function LowByte(x: bv32): u8 { Value(Low8(x)) }

  lemma ValueOfBits(b: bv8)
    ensures Value(b) as bv8 == b
  {}

  lemma BitsOfValue(b: u8)
    ensures Value(b as bv8) == b
  {}

  lemma LowBits(x: bv32, b: bv8)
    ensures Low8(x) as bv32 == x & 0xFF && Low8(b as bv32) == b && (b as bv32) & 0xFF == b as bv32
  {}

  lemma OfLowByte(x: bv32)
    ensures OfByte(LowByte(x)) == x & 0xFF
  {
    hide Low8, Value;
    ValueOfBits(Low8(x));
    LowBits(x, 0);
  }

  lemma LowOfByte(b: u8)
    ensures LowByte(OfByte(b)) == b && OfByte(b) & 0xFF == OfByte(b)
  {
    hide Low8, Value;
    BitsOfValue(b);
    LowBits(0, b as bv8);
  }

  // ----- the bit-serial CRC

  /** One bit of input through the register: shift, and subtract the polynomial if a 1 came out. */
  function BitStep(c: bv32): bv32 { (c >> 1) ^ (POLYNOMIAL & (0 - (c & 1))) }

  /** Addition of polynomials over GF(2). */
  function Sum(x: bv32, y: bv32): bv32 { x ^ y }

  function Steps(c: bv32, n: nat): bv32 {
    if n == 0 then c else BitStep(Steps(c, n - 1))
  }

  /** The register after `data`, entered with c. */
  function Serial(c: bv32, data: seq<u8>): bv32 {
    if data == [] then c
    else ByteStep(Serial(c, data[..|data| - 1]), data[|data| - 1])
  }

  function ByteStep(c: bv32, b: u8): bv32 { Steps(Sum(c, OfByte(b)), 8) }

  function Crc32(data: seq<u8>): bv32 { Serial(START, data) ^ 0xFFFF_FFFF }

  // ----- the check value

  /** One byte more. */
  lemma OneMore(data: seq<u8>, b: u8, c: bv32, r: bv32) returns (more: seq<u8>)
    requires Serial(START, data) == c && ByteStep(c, b) == r
    ensures more == data + [b] && Serial(START, more) == r
  {
    more := data + [b];
    hide ByteStep;
    assert more[..|data|] == data;
  }

  /** The check value of CRC-32, which is that of the digits 1 to 9 in ASCII. */
  lemma {:induction false} CheckValue()
    ensures Crc32([0x31, 0x32, 0x33, 0x34, 0x35, 0x36, 0x37, 0x38, 0x39]) == 0xCBF4_3926
  {
    hide Serial;
    SerialOfNone();
    var data := [];
    data := OneMore(data, 0x31, 0xFFFF_FFFF, 0x7C23_1048);
    data := OneMore(data, 0x32, 0x7C23_1048, 0xB0AC_BB32);
    data := OneMore(data, 0x33, 0xB0AC_BB32, 0x77B7_9C2D);
    data := OneMore(data, 0x34, 0x77B7_9C2D, 0x641C_1F5C);
    data := OneMore(data, 0x35, 0x641C_1F5C, 0x340A_C5E3);
    data := OneMore(data, 0x36, 0x340A_C5E3, 0xF68D_2C9E);
    data := OneMore(data, 0x37, 0xF68D_2C9E, 0xAFFC_9660);
    data := OneMore(data, 0x38, 0xAFFC_9660, 0x651F_2550);
    data := OneMore(data, 0x39, 0x651F_2550, 0x340B_C6D9);
    assert data == [0x31, 0x32, 0x33, 0x34, 0x35, 0x36, 0x37, 0x38, 0x39];
  }

  lemma SerialOfNone()
    ensures Serial(START, []) == 0xFFFF_FFFF
  {}

  // ----- the register is linear and loses nothing

  lemma BitStepCases(c: bv32)
    ensures c & 1 == 0 ==> BitStep(c) == c >> 1
    ensures c & 1 == 1 ==> BitStep(c) == (c >> 1) ^ POLYNOMIAL
  {}

  lemma XorLaws(a: bv32, b: bv32, p: bv32)
    ensures (a ^ b) ^ p == (a ^ p) ^ b && (a ^ b) ^ p == a ^ (b ^ p) && (a ^ p) ^ (b ^ p) == a ^ b
  {}

  lemma BitStepLinear(x: bv32, y: bv32)
    ensures BitStep(Sum(x, y)) == Sum(BitStep(x), BitStep(y))
  {
    hide BitStep;
    BitStepCases(x);
    BitStepCases(y);
    BitStepCases(x ^ y);
    XorLaws(x >> 1, y >> 1, POLYNOMIAL);
    if x & 1 == 0 && y & 1 == 0 {
    } else if x & 1 == 0 {
    } else if y & 1 == 0 {
    } else {
    }
  }

  lemma BitStepInjective(x: bv32, y: bv32)
    ensures BitStep(x) == BitStep(y) ==> x == y
  {}

  lemma {:induction false} StepsLinear(x: bv32, y: bv32, n: nat)
    ensures Steps(Sum(x, y), n) == Sum(Steps(x, n), Steps(y, n))
  {
    hide BitStep, Sum;
    if n > 0 {
      StepsLinear(x, y, n - 1);
      BitStepLinear(Steps(x, n - 1), Steps(y, n - 1));
    }
  }

  lemma {:induction false} StepsInjective(x: bv32, y: bv32, n: nat)
    requires Steps(x, n) == Steps(y, n)
    ensures x == y
  {
    if n > 0 {
      BitStepInjective(Steps(x, n - 1), Steps(y, n - 1));
      hide BitStep;
      StepsInjective(x, y, n - 1);
    }
  }

  lemma {:induction false} StepsAdd(x: bv32, m: nat, n: nat)
    ensures Steps(Steps(x, m), n) == Steps(x, m + n)
    decreases n
  {
    hide BitStep;
    if n > 0 { StepsAdd(x, m, n - 1); }
  }

  lemma {:induction false} ZeroStep2(x: bv32, y: bv32, n: nat)
    requires Steps(x, n) == y && y & 3 == 0
    ensures Steps(x, n + 2) == y >> 2
  {}

  lemma {:induction false} ZeroStep4(x: bv32, y: bv32, n: nat)
    requires Steps(x, n) == y && y & 0xF == 0
    ensures Steps(x, n + 4) == y >> 4
  {
    hide BitStep, Steps;
    assert y & 3 == 0 && (y >> 2) & 3 == 0 && (y >> 2) >> 2 == y >> 4;
    ZeroStep2(x, y, n);
    ZeroStep2(x, y >> 2, n + 2);
  }

  /** Eight zero bits only shift. */
  lemma {:induction false} ZerosShift(x: bv32)
    requires x & 0xFF == 0
    ensures Steps(x, 8) == x >> 8
  {
    assert Steps(x, 0) == x;
    hide BitStep, Steps;
    assert x & 0xF == 0 && (x >> 4) & 0xF == 0 && (x >> 4) >> 4 == x >> 8;
    ZeroStep4(x, x, 0);
    ZeroStep4(x, x >> 4, 4);
  }

  // ----- the table

  /** The entry that a byte selects, and the register with that entry mixed in. */
  function TableIndex(c: bv32, b: u8): u8 { LowByte(Sum(c, OfByte(b))) }
  function Shifted(c: bv32, entry: bv32): bv32 { Sum(c >> 8, entry) }

  /** The table-driven byte step is the bit-serial one. */
  lemma {:induction false} TableStep(c: bv32, b: u8)
    ensures Shifted(c, Steps(OfByte(TableIndex(c, b)), 8)) == ByteStep(c, b)
  {
    hide OfByte, LowByte, Sum, Steps;
    OfLowByte(Sum(c, OfByte(b)));
    LowOfByte(b);
    TableWords(c, OfByte(b), Sum(c, OfByte(b)), OfByte(LowByte(Sum(c, OfByte(b)))));
  }

  lemma {:induction false} TableWords(c: bv32, b: bv32, x: bv32, lo: bv32)
    requires b & 0xFF == b && x == Sum(c, b) && lo == x & 0xFF
    ensures Sum(c >> 8, Steps(lo, 8)) == Steps(x, 8)
  {
    SplitsLow(x, x & 0xFFFF_FF00, lo, c >> 8);
  }

  lemma {:induction false} SplitsLow(x: bv32, hi: bv32, lo: bv32, down: bv32)
    requires hi == x & 0xFFFF_FF00 && lo == x & 0xFF && down == hi >> 8
    ensures Sum(down, Steps(lo, 8)) == Steps(x, 8)
  {
    hide BitStep, Steps;
    assert x == Sum(hi, lo);
    assert hi & 0xFF == 0;
    StepsLinear(hi, lo, 8);
    ZerosShift(hi);
  }

  // ----- what the CRC detects

  lemma SumCancels(x: bv32, y: bv32, z: bv32)
    ensures Sum(x, y) == Sum(x, z) ==> y == z
    ensures Sum(x, z) == Sum(y, z) ==> x == y
  {}

  lemma SumAssociates(x: bv32, y: bv32, z: bv32)
    ensures Sum(Sum(x, y), z) == Sum(x, Sum(y, z))
  {}

  /** The byte step is injective in the register and in the byte: steps with equal results
      have equal registers exactly if they have equal bytes ... */
  lemma {:induction false} ByteStepInjective(c: bv32, d: bv32, b: u8, e: u8)
    requires ByteStep(c, b) == ByteStep(d, e)
    ensures c == d <==> b == e
  {
    hide Steps, Sum, OfByte, LowByte;
    StepsInjective(Sum(c, OfByte(b)), Sum(d, OfByte(e)), 8);
    SumCancels(c, d, OfByte(b));
    SumCancels(c, OfByte(b), OfByte(e));
    LowOfByte(b);
    LowOfByte(e);
  }

  lemma {:induction false} SerialAppends(c: bv32, x: seq<u8>, y: seq<u8>)
    ensures Serial(c, x + y) == Serial(Serial(c, x), y)
    decreases |y|
  {
    hide ByteStep;
    if y == [] {
      assert x + y == x;
    } else {
      var z := y[..|y| - 1];
      assert (x + y)[..|x + y| - 1] == x + z;
      SerialAppends(c, x, z);
    }
  }

  /** ... and so is any stretch of bytes. */
  lemma {:induction false} SerialInjective(c: bv32, d: bv32, data: seq<u8>)
    requires Serial(c, data) == Serial(d, data)
    ensures c == d
    decreases |data|
  {
    hide ByteStep;
    if data != [] {
      var n := |data| - 1;
      ByteStepInjective(Serial(c, data[..n]), Serial(d, data[..n]), data[n], data[n]);
      SerialInjective(c, d, data[..n]);
    }
  }

  /** b as byte n of a word. */
  function Place(b: bv32, n: nat): bv32 {
    match n
    case 0 => b
    case 1 => b << 8
    case 2 => b << 16
    case _ => b << 24
  }

  /** Up to four bytes as a little-endian word. */
  function Window(bytes: seq<u8>): bv32 {
    if bytes == [] then 0
    else Sum(Window(bytes[..|bytes| - 1]), Place(OfByte(bytes[|bytes| - 1]), |bytes| - 1))
  }

  lemma {:induction false} PlaceShiftsOut(b: bv32, n: nat)
    requires b & 0xFF == b && n < 4
    ensures Steps(Place(b, n), 8 * n) == b
  {
    hide BitStep;
    match n
    case 0 => assert Steps(b, 0) == b;
    case 1 => ShiftOut(b << 8, b);
    case 2 => ShiftOut2(b << 16, b << 8, b);
    case 3 => ShiftOut3(b << 24, b << 16, b << 8, b);
  }

  lemma ShiftOut(x: bv32, b: bv32)
    requires x & 0xFF == 0 && x >> 8 == b
    ensures Steps(x, 8) == b
  {
    hide BitStep, Steps;
    ZerosShift(x);
  }

  lemma ShiftOut2(x: bv32, y: bv32, b: bv32)
    requires x & 0xFF == 0 && x >> 8 == y && y & 0xFF == 0 && y >> 8 == b
    ensures Steps(x, 16) == b
  {
    hide BitStep, Steps;
    ShiftOut(x, y);
    ShiftOut(y, b);
    StepsAdd(x, 8, 8);
  }

  lemma ShiftOut3(x: bv32, y: bv32, z: bv32, b: bv32)
    requires x & 0xFF == 0 && x >> 8 == y && y & 0xFF == 0 && y >> 8 == z && z & 0xFF == 0 && z >> 8 == b
    ensures Steps(x, 24) == b
  {
    hide BitStep, Steps;
    ShiftOut(x, y);
    ShiftOut2(y, z, b);
    StepsAdd(x, 8, 16);
  }

  /** Up to four bytes act on the register like their word, added to it at once. */
  lemma {:induction false} SerialWindow(c: bv32, bytes: seq<u8>)
    requires |bytes| <= 4
    ensures Serial(c, bytes) == Steps(Sum(c, Window(bytes)), 8 * |bytes|)
    decreases |bytes|
  {
    if bytes == [] {
    } else {
      var n := |bytes| - 1;
      var v := OfByte(bytes[n]);
      var w := Window(bytes[..n]);
      LowOfByte(bytes[n]);
      SerialWindow(c, bytes[..n]);
      PlaceShiftsOut(v, n);
      StepsLinear(Sum(c, w), Place(v, n), 8 * n);
      SumAssociates(c, w, Place(v, n));
      StepsAdd(Sum(c, Window(bytes)), 8 * n, 8);
      hide Steps, Sum, Place, OfByte;
    }
  }

  /** The bytes of a word are all in its low 8 * n bits. */
  predicate Below(w: bv32, n: nat) {
    match n
    case 0 => w == 0
    case 1 => w & 0xFF == w
    case 2 => w & 0xFFFF == w
    case 3 => w & 0xFF_FFFF == w
    case _ => true
  }

  lemma {:induction false} WindowBelow(bytes: seq<u8>)
    requires |bytes| <= 4
    ensures Below(Window(bytes), |bytes|)
    decreases |bytes|
  {
    if bytes != [] {
      WindowBelow(bytes[..|bytes| - 1]);
      LowOfByte(bytes[|bytes| - 1]);
      hide OfByte;
      PlaceBelow(Window(bytes[..|bytes| - 1]), OfByte(bytes[|bytes| - 1]), |bytes| - 1);
    }
  }

  lemma PlaceBelow(w: bv32, b: bv32, n: nat)
    requires Below(w, n) && b & 0xFF == b && n < 4
    ensures Below(Sum(w, Place(b, n)), n + 1)
  {}

  /** The low n bytes of a word, and its byte n. */
  function Keep(w: bv32, n: nat): bv32 {
    match n
    case 0 => 0
    case 1 => w & 0xFF
    case 2 => w & 0xFFFF
    case _ => w & 0xFF_FFFF
  }

  function Digit(w: bv32, n: nat): bv32 {
    match n
    case 0 => w & 0xFF
    case 1 => (w >> 8) & 0xFF
    case 2 => (w >> 16) & 0xFF
    case _ => w >> 24
  }

  lemma PlaceSeparates(w: bv32, b: bv32, n: nat)
    requires Below(w, n) && b & 0xFF == b && n < 4
    ensures Keep(Sum(w, Place(b, n)), n) == w && Digit(Sum(w, Place(b, n)), n) == b
  {
    hide *;
    match n
    case 0 => Separate0(w, b);
    case 1 => Separate1(w, b);
    case 2 => Separate2(w, b);
    case 3 => Separate3(w, b);
  }

  lemma Separate0(w: bv32, b: bv32)
    requires Below(w, 0) && b & 0xFF == b
    ensures Keep(Sum(w, Place(b, 0)), 0) == w && Digit(Sum(w, Place(b, 0)), 0) == b
  {}

  lemma Separate1(w: bv32, b: bv32)
    requires Below(w, 1) && b & 0xFF == b
    ensures Keep(Sum(w, Place(b, 1)), 1) == w && Digit(Sum(w, Place(b, 1)), 1) == b
  {}

  lemma Separate2(w: bv32, b: bv32)
    requires Below(w, 2) && b & 0xFF == b
    ensures Keep(Sum(w, Place(b, 2)), 2) == w && Digit(Sum(w, Place(b, 2)), 2) == b
  {}

  lemma Separate3(w: bv32, b: bv32)
    requires Below(w, 3) && b & 0xFF == b
    ensures Keep(Sum(w, Place(b, 3)), 3) == w && Digit(Sum(w, Place(b, 3)), 3) == b
  {}

  lemma {:induction false} WindowInjective(x: seq<u8>, y: seq<u8>)
    requires |x| == |y| <= 4 && Window(x) == Window(y)
    ensures x == y
    decreases |x|
  {
    hide *;
    if x == [] {
    } else {
      var n := |x| - 1;
      WindowSeparates(x, Window(x));
      WindowSeparates(y, Window(x));
      WindowInjective(x[..n], y[..n]);
      assert x == x[..n] + [x[n]] && y == y[..n] + [y[n]];
    }
  }

  lemma {:induction false} WindowSeparates(x: seq<u8>, w: bv32)
    requires 0 < |x| <= 4 && w == Window(x)
    ensures var n := |x| - 1; Keep(w, n) == Window(x[..n]) && LowByte(Digit(w, n)) == x[n]
  {
    hide OfByte, LowByte, Below, Sum, Place, Keep, Digit;
    var n := |x| - 1;
    WindowBelow(x[..n]);
    LowOfByte(x[n]);
    PlaceSeparates(Window(x[..n]), OfByte(x[n]), n);
  }

  lemma CrcInverts(x: seq<u8>, y: seq<u8>)
    requires Crc32(x) == Crc32(y)
    ensures Serial(START, x) == Serial(START, y)
  {
    hide Serial;
  }

  /** Two messages that differ only in a span of at most four bytes have different CRCs. */
  lemma {:induction false} BurstDetected(head: seq<u8>, x: seq<u8>, y: seq<u8>, tail: seq<u8>)
    requires |x| == |y| <= 4 && x != y
    ensures Crc32(head + x + tail) != Crc32(head + y + tail)
  {
    hide *;
    var c := Serial(START, head);
    SerialAppends(START, head + x, tail);
    SerialAppends(START, head + y, tail);
    SerialAppends(START, head, x);
    SerialAppends(START, head, y);
    if Crc32(head + x + tail) == Crc32(head + y + tail) {
      CrcInverts(head + x + tail, head + y + tail);
      SerialInjective(Serial(c, x), Serial(c, y), tail);
      SerialWindow(c, x);
      SerialWindow(c, y);
      StepsInjective(Sum(c, Window(x)), Sum(c, Window(y)), 8 * |x|);
      SumCancels(c, Window(x), Window(y));
      WindowInjective(x, y);
    }
  }

  // ----- crc32_init and crc32_compute

  lemma {:induction false} SerialGrows(data: seq<u8>, i: nat, c: bv32, entry: bv32)
    requires i < |data| && c == Serial(START, data[..i])
    requires entry == Steps(OfByte(TableIndex(c, data[i])), 8)
    ensures Shifted(c, entry) == Serial(START, data[..i + 1])
  {
    assert data[..i + 1][..i] == data[..i];
    hide OfByte, TableIndex, Shifted, ByteStep, Steps;
    TableStep(c, data[i]);
  }

  /** The static table of snapshot.c, filled on first use. */
  class CrcTable {
    const table: array<bv32>
    var ready: bool

    ghost predicate Valid()
      reads this, table
    {
      table.Length == 256 && (ready ==> Filled(256))
    }

    /** The first n entries are the CRCs of the single bytes. */
    ghost predicate Filled(n: nat)
      requires n <= table.Length
      reads table
    {
      forall i: u8 :: i < n ==> table[i] == Steps(OfByte(i), 8)
    }

    constructor ()
      ensures Valid() && !ready && fresh(table)
    {
      table := new bv32[256];
      ready := false;
    }

    method Init()
      requires Valid()
      modifies this, table
      ensures Valid() && ready
    {
      if ready { return; }
      var i := 0;
      while i < 256
        invariant 0 <= i <= 256 && Filled(i)
      {
        var c := OfByte(i);
        var j := 0;
        while j < 8
          invariant 0 <= j <= 8 && c == Steps(OfByte(i), j)
        {
          c := (c >> 1) ^ (0xEDB88320 & (0 - (c & 1)));
          j := j + 1;
        }
        table[i] := c;
        i := i + 1;
      }
      ready := true;
    }

    /** crc32_compute is the bit-serial CRC of every buffer. */
    method Compute(data: array<u8>, len: nat) returns (crc: bv32)
      requires Valid() && len <= data.Length
      modifies this, table
      ensures Valid() && ready && crc == Crc32(data[..len])
    {
      Init();
      crc := START;
      var i := 0;
      while i < len
        invariant 0 <= i <= len && Valid() && ready
        invariant crc == Serial(START, data[..i])
      {
        hide *;
        SerialGrows(data[..], i, crc, table[TableIndex(crc, data[i])]);
        crc := Shifted(crc, table[TableIndex(crc, data[i])]);
        i := i + 1;
      }
      crc := crc ^ 0xFFFF_FFFF;
    }
  }
}

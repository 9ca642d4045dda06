/**
 The byte ring buffer of platform.h used by one thread at a time: the value it
 holds, the six helpers on that value, and the class that updates it in place.
 One slot always stays empty, so the capacity is size - 1.
 */
module Ring {
  import opened Words

  predicate IsPow2(n: nat) {
    n == 1 || (n > 0 && n % 2 == 0 && IsPow2(n / 2))
  }

  /** buf, size == |buf|, *head and *tail. */
  datatype RingRaw = Ring(buf: seq<u8>, head: u32, tail: u32)

  predicate WellFormed(r: RingRaw) {
    && 1 <= |r.buf| < 0x1_0000_0000
    && IsPow2(|r.buf|)
    && r.head < |r.buf|
    && r.tail < |r.buf|
  }

  type Ring = r: RingRaw | WellFormed(r) witness RingRaw.Ring([0], 0, 0)

  /** Masking with size - 1 is the remainder, because the size is a power of two. */
  lemma {:induction false} MaskIsMod(x: nat, n: nat)
    requires IsPow2(n)
    ensures And(x, n - 1) == x % n
    decreases n
  {
    if n == 1 {
      assert And(x, 0) == 0;
    } else if x != 0 {
      MaskIsMod(x / 2, n / 2);
      assert (n - 1) / 2 == n / 2 - 1 && (n - 1) % 2 == 1;
      assert And(x, n - 1) == 2 * (x / 2 % (n / 2)) + x % 2;
      ModHalves(x, n / 2);
    }
  }

  lemma {:induction false} ModHalves(x: nat, h: nat)
    requires h > 0
    ensures x % (2 * h) == 2 * (x / 2 % h) + x % 2
  {
    var q, r := x / 2 / h, x / 2 % h;
    assert x == (2 * h) * q + (2 * r + x % 2);
    DivUnique(x, 2 * h, q, 2 * r + x % 2);
  }

  function Next(i: u32, size: nat): u32
    requires 1 <= size < 0x1_0000_0000
  {
    And(U32(i + 1), size - 1)
  }

  /** ringbuf_available: (*head - *tail) & (size - 1) in uint32_t. */
  function Available(r: Ring): u32 { And(U32(r.head - r.tail), |r.buf| - 1) }

  /** ringbuf_free: size - 1 - available. */
  function Free(r: Ring): u32 { |r.buf| - 1 - Available(r) }

  /** Distance from tail to head around the ring. */
  function Gap(head: nat, tail: nat, size: nat): nat
    requires head < size && tail < size
  {
    if head >= tail then head - tail else head - tail + size
  }

  lemma {:induction false} AvailableIsGap(r: Ring)
    ensures Available(r) == Gap(r.head, r.tail, |r.buf|)
  {
    MaskIsMod(U32(r.head - r.tail), |r.buf|);
    DifferenceMod(r.head, r.tail, |r.buf|);
  }

  lemma {:induction false} DifferenceMod(head: nat, tail: nat, n: nat)
    requires head < n && tail < n < 0x1_0000_0000 && IsPow2(n)
    ensures U32(head - tail) % n == Gap(head, tail, n)
  {
    WrapNegative(head - tail);
    if head < tail {
      var q := Divides32(n);
      WrapMod(head - tail, n, q);
    } else {
      SmallMod(head - tail, n);
    }
  }

  lemma {:induction false} WrapNegative(x: int)
    requires -0x1_0000_0000 < x < 0x1_0000_0000
    ensures U32(x) == if x < 0 then x + 0x1_0000_0000 else x
  {
    hide Wrap, Rem, Quot;
    OperatorsAre();
  }

  lemma {:induction false} SmallMod(x: nat, n: nat)
    requires x < n
    ensures x % n == x
  {}

  /** Adding 2^32 first does not change a remainder by a divisor of 2^32. */
  lemma {:induction false} WrapMod(x: int, n: nat, q: int)
    requires 0 < -x < n < 0x1_0000_0000 && n * q == 0x1_0000_0000
    ensures (x + 0x1_0000_0000) % n == x + n
  {
    assert n * (q - 1) == n * q - n;
    DivUnique(x + 0x1_0000_0000, n, q - 1, x + n);
  }

  /** A power of two up to 2^k divides 2^k. */
  lemma {:induction false} Pow2Divides(n: nat, k: nat) returns (q: nat)
    requires IsPow2(n) && n <= Pow2(k)
    ensures n * q == Pow2(k)
    decreases k
  {
    if n == 1 {
      q := Pow2(k);
    } else {
      q := Pow2Divides(n / 2, k - 1);
      assert n == 2 * (n / 2);
    }
  }

  lemma {:induction false} Divides32(n: nat) returns (q: nat)
    requires IsPow2(n) && n < 0x1_0000_0000
    ensures n * q == 0x1_0000_0000
  {
    Pow2Values();
    Pow2Add(16, 16);
    q := Pow2Divides(n, 32);
  }

  lemma {:induction false} NextIsSuccessor(i: u32, size: nat)
    requires 1 <= size < 0x1_0000_0000 && IsPow2(size) && i < size
    ensures Next(i, size) == (if i + 1 == size then 0 else i + 1)
  {
    assert U32(i + 1) == i + 1;
    if i + 1 == size { MaskClearsSize(size); } else { MaskKeepsSmall(i + 1, size); }
  }

  lemma {:induction false} MaskKeepsSmall(x: nat, n: nat)
    requires IsPow2(n) && x < n
    ensures And(x, n - 1) == x
    decreases n
  {
    if x != 0 { MaskKeepsSmall(x / 2, n / 2); }
  }

  lemma {:induction false} MaskClearsSize(n: nat)
    requires IsPow2(n)
    ensures And(n, n - 1) == 0
  {
    if n != 1 { MaskClearsSize(n / 2); }
  }

  /** The queued bytes, oldest first. */
  function Contents(r: Ring): seq<u8> {
    Window(r.buf, r.tail, Gap(r.head, r.tail, |r.buf|))
  }

  /** k slots of the ring, starting at slot i. */
  function Window(buf: seq<u8>, i: nat, k: nat): (w: seq<u8>)
    requires i < |buf| && k <= |buf|
    ensures |w| == k
  {
    seq(k, j requires 0 <= j < k => buf[Slot(i + j, |buf|)])
  }

  function Slot(x: nat, size: nat): nat
    requires x < 2 * size
    ensures Slot(x, size) < size
  {
    if x < size then x else x - size
  }

  /** ringbuf_write: the new ring, and whether the byte was stored. */
  function Write(r: Ring, b: u8): (Ring, bool) {
    NextIsSuccessor(r.head, |r.buf|);
    var next := Next(r.head, |r.buf|);
    if next == r.tail then (r, false)
    else (r.(buf := r.buf[r.head := b], head := next), true)
  }

  /** ringbuf_read: the new ring and the byte, if there is one. */
  datatype ReadResult = Empty | Got(ring: Ring, byte: u8)

  function Read(r: Ring): ReadResult {
    NextIsSuccessor(r.tail, |r.buf|);
    if r.tail == r.head then Empty
    else Got(r.(tail := Next(r.tail, |r.buf|)), r.buf[r.tail])
  }

  /** A write appends exactly when fewer than size - 1 bytes are queued. */
  lemma {:induction false} WriteAppends(r: Ring, b: u8)
    ensures Write(r, b).1 <==> |Contents(r)| < |r.buf| - 1
    ensures Contents(Write(r, b).0) == if Write(r, b).1 then Contents(r) + [b] else Contents(r)
    ensures |Write(r, b).0.buf| == |r.buf|
  {
    NextIsSuccessor(r.head, |r.buf|);
    var (r', ok) := Write(r, b);
    if ok {
      var n, k := |r.buf|, |Contents(r)|;
      assert |Contents(r')| == k + 1;
      forall j | 0 <= j <= k
        ensures Contents(r')[j] == (Contents(r) + [b])[j]
      {
        assert Contents(r')[j] == r'.buf[Slot(r.tail + j, n)];
      }
    }
  }

  /** A read takes the oldest byte, and fails only on an empty ring. */
  lemma {:induction false} ReadTakesOldest(r: Ring)
    ensures Read(r).Empty? <==> Contents(r) == []
    ensures Read(r).Got? ==> Contents(r) == [Read(r).byte] + Contents(Read(r).ring)
                             && |Read(r).ring.buf| == |r.buf|
  {
    NextIsSuccessor(r.tail, |r.buf|);
    if r.tail != r.head {
      var r' := Read(r).ring;
      assert |Contents(r)| == |Contents(r')| + 1;
      forall j | 0 <= j < |Contents(r')|
        ensures Contents(r)[j + 1] == Contents(r')[j]
      {
        assert Contents(r)[j + 1] == r.buf[Slot(r.tail + (j + 1), |r.buf|)];
        assert Contents(r')[j] == r.buf[Slot(r'.tail + j, |r.buf|)];
      }
      assert Contents(r)[0] == r.buf[Slot(r.tail, |r.buf|)];
      assert Contents(r) == [r.buf[r.tail]] + Contents(r');
    }
  }

  /** Moving the oldest byte from the ring to the end of `done` keeps their concatenation. */
  lemma {:induction false} MoveOldest(done: seq<u8>, r: Ring)
    requires Read(r).Got?
    ensures done + Contents(r) == done + [Read(r).byte] + Contents(Read(r).ring)
  {
    ReadTakesOldest(r);
  }

  /** Emu86RingBuf. */
  class RingBuf {
    const buf: array<u8>
    var head: u32
    var tail: u32

    ghost predicate Valid() reads this, buf {
      WellFormed(RingRaw.Ring(buf[..], head, tail))
    }

    ghost function View(): Ring
      requires Valid()
      reads this, buf
    {
      RingRaw.Ring(buf[..], head, tail)
    }

    constructor (size: nat)
      requires size < 0x1_0000_0000 && IsPow2(size)
      ensures Valid() && fresh(buf) && buf.Length == size && Contents(View()) == []
    {
      buf := new u8[size](_ => 0);
      head, tail := 0, 0;
    }

    method AvailableBytes() returns (n: u32)
      requires Valid()
      ensures n == |Contents(View())|
    {
      AvailableIsGap(View());
      n := And(U32(head - tail), buf.Length - 1);
    }

    method FreeBytes() returns (n: u32)
      requires Valid()
      ensures n == buf.Length - 1 - |Contents(View())|
    {
      var used := AvailableBytes();
      n := buf.Length - 1 - used;
    }

    method WriteByte(b: u8) returns (rc: int)
      requires Valid()
      modifies this`head, buf
      ensures Valid()
      ensures View() == Write(old(View()), b).0
      ensures rc == if Write(old(View()), b).1 then 0 else -1
      ensures tail == old(tail)
    {
      NextIsSuccessor(head, buf.Length);
      var h := head;
      var next := Next(h, buf.Length);
      if next == tail { return -1; }
      buf[h] := b;
      head := next;
      assert buf[..] == old(buf[..])[h := b];
      rc := 0;
    }

    method ReadByte() returns (rc: int, b: u8)
      requires Valid()
      modifies this`tail
      ensures Valid()
      ensures rc == 0 <==> Read(old(View())).Got?
      ensures rc == 0 || rc == -1
      ensures rc == 0 ==> View() == Read(old(View())).ring && b == Read(old(View())).byte
      ensures rc == -1 ==> View() == old(View())
    {
      NextIsSuccessor(tail, buf.Length);
      var t := tail;
      if t == head { return -1, 0; }
      b := buf[t];
      tail := Next(t, buf.Length);
      rc := 0;
    }

    /** ringbuf_write_buf: all of the block, or nothing. */
    method WriteBlock(data: array<u8>, len: nat) returns (rc: int)
      requires Valid() && len <= data.Length && data != buf
      modifies this`head, buf
      ensures Valid()
      ensures rc == 0 <==> |old(Contents(View()))| + len <= buf.Length - 1
      ensures rc == 0 || rc == -1
      ensures Contents(View()) == if rc == 0 then old(Contents(View())) + data[..len] else old(Contents(View()))
    {
      var free := FreeBytes();
      if free < len { return -1; }
      for i := 0 to len
        invariant Valid()
        invariant Contents(View()) == old(Contents(View())) + data[..i]
      {
        WriteAppends(View(), data[i]);
        NextIsSuccessor(head, buf.Length);
        ghost var before := buf[..];
        var h := head;
        buf[h] := data[i];
        head := Next(h, buf.Length);
        assert buf[..] == before[h := data[i]];
        assert data[..i + 1] == data[..i] + [data[i]];
      }
      rc := 0;
    }

    /** ringbuf_read_buf: the oldest len bytes, or nothing. */
    method ReadBlock(data: array<u8>, len: nat) returns (rc: int)
      requires Valid() && len <= data.Length && data != buf
      modifies this`tail, data
      ensures Valid()
      ensures rc == 0 <==> len <= |old(Contents(View()))|
      ensures rc == 0 || rc == -1
      ensures rc == 0 ==> old(Contents(View())) == data[..len] + Contents(View())
      ensures rc == 0 ==> data[len..] == old(data[len..])
      ensures rc == -1 ==> Contents(View()) == old(Contents(View())) && data[..] == old(data[..])
    {
      var avail := AvailableBytes();
      if avail < len { return -1; }
      for i := 0 to len
        invariant Valid()
        invariant old(Contents(View())) == data[..i] + Contents(View())
        invariant data[len..] == old(data[len..])
      {
        ghost var v, done, rest := View(), data[..i], data[len..];
        ReadTakesOldest(v);
        NextIsSuccessor(tail, buf.Length);
        var t := tail;
        data[i] := buf[t];
        tail := Next(t, buf.Length);
        assert View() == Read(v).ring && data[i] == Read(v).byte;
        assert data[..i + 1] == done + [Read(v).byte] && data[len..] == rest;
        MoveOldest(done, v);
      }
      rc := 0;
    }
  }
}

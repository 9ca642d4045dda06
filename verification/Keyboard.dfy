/**
 The harness's keyboard queue (harness.c): a FIFO of at most 256 bytes between two
 uint32_t indices that run freely and wrap.
 */
module Keyboard {
  import opened Words

  const KBD_QUEUE_SIZE := 256
  const CHUNK := 64

  function Slot(i: int): nat { i % KBD_QUEUE_SIZE }

  /** The bytes in the slots that follow `head`. */
  function Queued(b: seq<u8>, head: u32, used: nat): (q: seq<u8>)
    requires |b| == KBD_QUEUE_SIZE
    ensures |q| == used
  {
    seq(used, i requires 0 <= i < used => b[Slot(head + i)])
  }

  /** 256 divides 2^32, so the slots follow each other across the wrap of the indices. */
  lemma SlotWraps(head: u32, i: int)
    ensures Slot(U32(head as int + 1) + i) == Slot(head + (i + 1))
  {}

  lemma {:induction false} QueueDrops(b: seq<u8>, head: u32, used: nat)
    requires |b| == KBD_QUEUE_SIZE && used > 0
    ensures Queued(b, head, used) == [b[Slot(head)]] + Queued(b, U32(head as int + 1), used - 1)
  {
    var rest := Queued(b, U32(head as int + 1), used - 1);
    forall i | 0 <= i < used - 1
      ensures rest[i] == Queued(b, head, used)[i + 1]
    {
      SlotWraps(head, i);
    }
    hide Slot;
  }

  lemma {:induction false} QueueGrows(b: seq<u8>, head: u32, tail: u32, byte: u8)
    requires |b| == KBD_QUEUE_SIZE && U32(tail - head) < KBD_QUEUE_SIZE
    ensures var used := U32(tail - head);
      Queued(b[Slot(tail) := byte], head, used + 1) == Queued(b, head, used) + [byte]
  {
    var used := U32(tail - head);
    FreeSlot(head, tail, used);
    forall i | 0 <= i < used
      ensures Queued(b[Slot(tail) := byte], head, used + 1)[i] == Queued(b, head, used)[i]
    {
      FreeSlot(head, tail, i);
    }
    hide Slot;
  }

  /** The tail's slot is the one behind the queued bytes, and none of theirs. */
  lemma FreeSlot(head: u32, tail: u32, i: nat)
    requires i <= U32(tail - head) < KBD_QUEUE_SIZE
    ensures Slot(head + i) == Slot(tail) <==> i == U32(tail - head)
  {
    hide Wrap, Rem, Quot;
    OperatorsAre();
  }

  lemma HeadMoves(head: u32, tail: u32)
    ensures head != tail ==> U32(tail - U32(head as int + 1)) == U32(tail - head) - 1
  {
    hide Wrap, Rem, Quot;
    OperatorsAre();
  }

  lemma TailMoves(head: u32, tail: u32)
    requires U32(tail - head) < KBD_QUEUE_SIZE
    ensures U32(U32(tail as int + 1) - head) == U32(tail - head) + 1
  {
    hide Wrap, Rem, Quot;
    OperatorsAre();
  }

  /** kbd_queue with its two free-running uint32_t indices. */
  class KbdQueue {
    const buf: array<u8>
    var head: u32
    var tail: u32

    ghost predicate Valid()
      reads this
    {
      buf.Length == KBD_QUEUE_SIZE && Used() <= KBD_QUEUE_SIZE
    }

    function Used(): nat
      reads this
    {
      U32(tail - head)
    }

    /** The queued bytes, oldest first. */
    ghost function Contents(): (s: seq<u8>)
      requires Valid()
      reads this, buf
    {
      Queued(buf[..], head, Used())
    }

    constructor ()
      ensures Valid() && Contents() == [] && fresh(buf)
    {
      buf := new u8[KBD_QUEUE_SIZE](_ => 0);
      head, tail := 0, 0;
    }

    /** harness_consume_kbd_byte */
    method Consume() returns (present: bool, byte: u8)
      requires Valid()
      modifies this`head
      ensures Valid() && present == (old(Contents()) != [])
      ensures present ==> old(Contents()) == [byte] + Contents()
      ensures !present ==> Contents() == old(Contents())
    {
      HeadMoves(head, tail);
      if head == tail { return false, 0; }
      QueueDrops(buf[..], head, Used());
      hide Queued, Slot, U32;
      byte := buf[Slot(head)];
      head := U32(head as int + 1);
      present := true;
    }

    /** One byte of a chunk. */
    method Enqueue(byte: u8)
      requires Valid() && Used() < KBD_QUEUE_SIZE
      modifies this`tail, buf
      ensures Valid() && Contents() == old(Contents()) + [byte]
    {
      TailMoves(head, tail);
      QueueGrows(buf[..], head, tail, byte);
      hide Queued, Slot, U32;
      buf[Slot(tail)] := byte;
      assert buf[..] == old(buf[..])[Slot(tail) := byte];
      tail := U32(tail as int + 1);
    }

    /** drain_kbd_fifo: read() hands out the waiting bytes in chunks of at most 64, until
        none is left or the queue is full. */
    method Drain(waiting: seq<u8>) returns (taken: nat)
      requires Valid()
      modifies this`tail, buf
      ensures Valid() && taken <= |waiting|
      ensures Contents() == old(Contents()) + waiting[..taken]
      ensures taken == |waiting| || |Contents()| == KBD_QUEUE_SIZE
    {
      hide Queued, U32;
      taken := 0;
      while true
        invariant Valid() && taken <= |waiting|
        invariant Contents() == old(Contents()) + waiting[..taken]
        decreases |waiting| - taken
      {
        var space := KBD_QUEUE_SIZE - Used();
        if space == 0 { return; }
        var n := if space < CHUNK then space else CHUNK;
        if n > |waiting| - taken { n := |waiting| - taken; }
        if n == 0 { return; }
        var i := 0;
        while i < n
          invariant 0 <= i <= n && Valid() && taken + n <= |waiting|
          invariant Contents() == old(Contents()) + waiting[..taken + i]
          invariant Used() == KBD_QUEUE_SIZE - space + i
        {
          assert waiting[..taken + i + 1] == waiting[..taken + i] + [waiting[taken + i]];
          Enqueue(waiting[taken + i]);
          i := i + 1;
        }
        taken := taken + n;
      }
    }
  }
}

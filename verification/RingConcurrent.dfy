/**
 The ring buffer of platform.h between two threads: every load and store of head, tail and
 buffer is a step of its own, and the steps of the producer and the consumer interleave in
 any order (sequentially consistent). The calls are the six helpers of the header.
 */
module RingConcurrent {
  import opened Words
  import opened Ring

  /** Where the producer stands in ringbuf_write or ringbuf_write_buf. */
  datatype Producer =
    | Idle
    | ByteStart(byte: u8, h: u32)
    | ByteRoom(byte: u8, h: u32)
    | ByteStored(byte: u8, h: u32)
    | BlockHead(data: seq<u8>, h: u32)
    | BlockTail(data: seq<u8>, t: u32)
    | BlockLoop(data: seq<u8>, i: nat)
    | BlockLoaded(data: seq<u8>, i: nat, h: u32)
    | BlockStored(data: seq<u8>, i: nat, h: u32)

  /** Where the consumer stands in ringbuf_read or ringbuf_read_buf. */
  datatype Consumer =
    | Waiting
    | TakeStart(t: u32)
    | TakeReady(t: u32)
    | TakeLoaded(t: u32, v: u8)
    | GetTail(len: nat, t: u32)
    | GetHead(len: nat, h: u32)
    | GetLoop(len: nat, i: nat)
    | GetStart(len: nat, i: nat, t: u32)
    | GetLoaded(len: nat, i: nat, t: u32, v: u8)

  /** `accepted` are the bytes of all successful write calls that have returned, `progress`
      those that a running block write has published; `delivered` and `taken` are the
      same for reads. */
  datatype Sys = Sys(ring: Ring, p: Producer, c: Consumer,
                     accepted: seq<u8>, progress: seq<u8>, delivered: seq<u8>, taken: seq<u8>)

  /** What an idle thread calls next. The compiler may load head and tail for the free and
      available counts in either order. */
  datatype Call = PutByte(b: u8) | PutBlock(data: seq<u8>, tailFirst: bool)
  datatype Fetch = GetByte | GetBlock(len: nat, headFirst: bool)
  datatype Action = Produce(call: Call) | Consume(fetch: Fetch)

  function Used(s: Sys): nat { Gap(s.ring.head, s.ring.tail, |s.ring.buf|) }

  // ----- the invariant

  predicate ProducerOk(s: Sys) {
    var (r, n, k) := (s.ring, |s.ring.buf|, Used(s));
    match s.p
    case Idle => s.progress == []
    case ByteStart(_, h) => s.progress == [] && h == r.head
    case ByteRoom(_, h) => s.progress == [] && h == r.head && k < n - 1
    case ByteStored(b, h) => s.progress == [] && h == r.head && k < n - 1 && r.buf[h] == b
    case BlockHead(_, h) => s.progress == [] && h == r.head
    case BlockTail(_, t) => s.progress == [] && t < n && k <= Gap(r.head, t, n)
    case BlockLoop(data, i) => i <= |data| && s.progress == data[..i] && k + (|data| - i) <= n - 1
    case BlockLoaded(data, i, h) => i < |data| && s.progress == data[..i] && k + (|data| - i) <= n - 1 && h == r.head
    case BlockStored(data, i, h) =>
      i < |data| && s.progress == data[..i] && k + (|data| - i) <= n - 1 && h == r.head && r.buf[h] == data[i]
  }

  predicate ConsumerOk(s: Sys) {
    var (r, n, k) := (s.ring, |s.ring.buf|, Used(s));
    match s.c
    case Waiting => s.taken == []
    case TakeStart(t) => s.taken == [] && t == r.tail
    case TakeReady(t) => s.taken == [] && t == r.tail && k > 0
    case TakeLoaded(t, v) => s.taken == [] && t == r.tail && k > 0 && v == r.buf[t]
    case GetTail(_, t) => s.taken == [] && t == r.tail
    case GetHead(_, h) => s.taken == [] && h < n && Gap(h, r.tail, n) <= k
    case GetLoop(len, i) => i <= len && |s.taken| == i && len - i <= k
    case GetStart(len, i, t) => i < len && |s.taken| == i && len - i <= k && t == r.tail
    case GetLoaded(len, i, t, v) => i < len && |s.taken| == i && len - i <= k && t == r.tail && v == r.buf[t]
  }

  /** What is on the way: everything published is read, being read, or in the ring. */
  predicate Conserved(s: Sys) {
    s.delivered + s.taken + Contents(s.ring) == s.accepted + s.progress
  }

  predicate Inv(s: Sys) { ProducerOk(s) && ConsumerOk(s) && Conserved(s) }

  // ----- one step of each thread

  /** ringbuf_free as computed from the loaded values. */
  function FreeFrom(r: Ring, h: u32, t: u32): u32
    requires h < |r.buf| && t < |r.buf|
  {
    Free(r.(head := h, tail := t))
  }

  function AvailableFrom(r: Ring, h: u32, t: u32): u32
    requires h < |r.buf| && t < |r.buf|
  {
    Available(r.(head := h, tail := t))
  }

  function Publish(r: Ring): Ring { NextIsSuccessor(r.head, |r.buf|); r.(head := Next(r.head, |r.buf|)) }
  function Release(r: Ring): Ring { NextIsSuccessor(r.tail, |r.buf|); r.(tail := Next(r.tail, |r.buf|)) }

  function ProducerStep(s: Sys, call: Call): Sys
    requires Inv(s)
  {
    var r := s.ring;
    match s.p
    case Idle =>
      (match call
       case PutByte(b) => s.(p := ByteStart(b, r.head))
       case PutBlock(data, tailFirst) =>
         s.(p := if tailFirst then BlockTail(data, r.tail) else BlockHead(data, r.head)))
    case ByteStart(b, h) => s.(p := if Next(h, |r.buf|) == r.tail then Idle else ByteRoom(b, h))
    case ByteRoom(b, h) => s.(ring := r.(buf := r.buf[h := b]), p := ByteStored(b, h))
    case ByteStored(b, h) => s.(ring := Publish(r), p := Idle, accepted := s.accepted + [b])
    case BlockHead(data, h) => s.(p := if FreeFrom(r, h, r.tail) < |data| then Idle else BlockLoop(data, 0))
    case BlockTail(data, t) => s.(p := if FreeFrom(r, r.head, t) < |data| then Idle else BlockLoop(data, 0))
    case BlockLoop(data, i) =>
      if i < |data| then s.(p := BlockLoaded(data, i, r.head))
      else s.(p := Idle, accepted := s.accepted + data, progress := [])
    case BlockLoaded(data, i, h) => s.(ring := r.(buf := r.buf[h := data[i]]), p := BlockStored(data, i, h))
    case BlockStored(data, i, h) => s.(ring := Publish(r), p := BlockLoop(data, i + 1), progress := data[..i + 1])
  }

  function ConsumerStep(s: Sys, fetch: Fetch): Sys
    requires Inv(s)
  {
    var r := s.ring;
    match s.c
    case Waiting =>
      (match fetch
       case GetByte => s.(c := TakeStart(r.tail))
       case GetBlock(len, headFirst) => s.(c := if headFirst then GetHead(len, r.head) else GetTail(len, r.tail)))
    case TakeStart(t) => s.(c := if t == r.head then Waiting else TakeReady(t))
    case TakeReady(t) => s.(c := TakeLoaded(t, r.buf[t]))
    case TakeLoaded(t, v) => s.(ring := Release(r), c := Waiting, delivered := s.delivered + [v])
    case GetTail(len, t) => s.(c := if AvailableFrom(r, r.head, t) < len then Waiting else GetLoop(len, 0))
    case GetHead(len, h) => s.(c := if AvailableFrom(r, h, r.tail) < len then Waiting else GetLoop(len, 0))
    case GetLoop(len, i) =>
      if i < len then s.(c := GetStart(len, i, r.tail))
      else s.(c := Waiting, delivered := s.delivered + s.taken, taken := [])
    case GetStart(len, i, t) => s.(c := GetLoaded(len, i, t, r.buf[t]))
    case GetLoaded(len, i, t, v) => s.(ring := Release(r), c := GetLoop(len, i + 1), taken := s.taken + [v])
  }

  function Step(s: Sys, a: Action): Sys
    requires Inv(s)
  {
    match a
    case Produce(call) => ProducerStep(s, call)
    case Consume(fetch) => ConsumerStep(s, fetch)
  }

  // ----- what the stores do to the queue

  /** A store at head touches no queued byte. */
  lemma {:induction false} StoreAtHead(r: Ring, b: u8)
    ensures var r' := r.(buf := r.buf[r.head := b]);
      Contents(r') == Contents(r) && Gap(r'.head, r'.tail, |r'.buf|) == Gap(r.head, r.tail, |r.buf|)
      && (r.head != r.tail ==> r'.buf[r.tail] == r.buf[r.tail])
  {
    var (r', n) := (r.(buf := r.buf[r.head := b]), |r.buf|);
    forall j | 0 <= j < |Contents(r)|
      ensures Contents(r')[j] == Contents(r)[j]
    {
      assert Slot(r.tail + j, n) != r.head;
    }
  }

  lemma {:induction false} PublishAppends(r: Ring)
    requires Gap(r.head, r.tail, |r.buf|) < |r.buf| - 1
    ensures Contents(Publish(r)) == Contents(r) + [r.buf[r.head]]
    ensures Gap(Publish(r).head, r.tail, |r.buf|) == Gap(r.head, r.tail, |r.buf|) + 1
    ensures Publish(r).buf == r.buf && Publish(r).tail == r.tail
  {
    NextIsSuccessor(r.head, |r.buf|);
    WriteAppends(r, r.buf[r.head]);
    assert r.buf[r.head := r.buf[r.head]] == r.buf;
  }

  lemma {:induction false} ReleaseDrops(r: Ring)
    requires Gap(r.head, r.tail, |r.buf|) > 0
    ensures Contents(r) == [r.buf[r.tail]] + Contents(Release(r))
    ensures Gap(r.head, Release(r).tail, |r.buf|) == Gap(r.head, r.tail, |r.buf|) - 1
    ensures Release(r).buf == r.buf && Release(r).head == r.head
  {
    NextIsSuccessor(r.tail, |r.buf|);
    ReadTakesOldest(r);
  }

  lemma {:induction false} CountsFrom(r: Ring, h: u32, t: u32)
    requires h < |r.buf| && t < |r.buf|
    ensures AvailableFrom(r, h, t) == Gap(h, t, |r.buf|) && FreeFrom(r, h, t) == |r.buf| - 1 - Gap(h, t, |r.buf|)
  {
    AvailableIsGap(r.(head := h, tail := t));
  }

  // ----- every step keeps the invariant

  lemma {:induction false} ProducerKeeps(s: Sys, call: Call)
    requires Inv(s)
    ensures Inv(ProducerStep(s, call))
  {
    hide Contents, Next, Publish, Conserved, ConsumerOk, ProducerOk;
    ProducerStaysOk(s, call);
    ProducerAt(s);
    var r := s.ring;
    match s.p
    case ByteRoom(b, h) => ProducerStores(s, b);
    case ByteStored(b, h) => ProducerPublishes(s, b);
    case BlockLoaded(data, i, h) => ProducerStores(s, data[i]);
    case BlockStored(data, i, h) => ProducerPublishes(s, data[i]);
    case _ => ProducerMoves(s, call);
  }

  lemma {:induction false} ProducerStaysOk(s: Sys, call: Call)
    requires Inv(s)
    ensures ProducerOk(ProducerStep(s, call))
  {
    hide Contents, Next, FreeFrom, Publish, Conserved, ConsumerOk;
    var r := s.ring;
    match s.p
    case ByteStart(b, h) => RoomIff(r);
    case ByteRoom(b, h) => StoreAtHead(r, b);
    case ByteStored(b, h) => PublishAppends(r);
    case BlockHead(data, h) => CountsFrom(r, h, r.tail);
    case BlockTail(data, t) => CountsFrom(r, r.head, t);
    case BlockLoaded(data, i, h) => StoreAtHead(r, data[i]);
    case BlockStored(data, i, h) => PublishAppends(r);
    case _ =>
  }

  /** What the invariant says where the producer stores and publishes. */
  lemma ProducerAt(s: Sys)
    requires Inv(s)
    ensures match s.p
            case ByteRoom(b, h) => h == s.ring.head
            case ByteStored(b, h) => s.progress == [] && s.ring.buf[s.ring.head] == b && Used(s) < |s.ring.buf| - 1
            case BlockLoaded(data, i, h) => i < |data| && h == s.ring.head
            case BlockStored(data, i, h) =>
              i < |data| && s.ring.buf[s.ring.head] == data[i] && Used(s) < |s.ring.buf| - 1
              && data[..i + 1] == s.progress + [data[i]]
            case _ => true
  {}

  /** Loads and returns leave the ring and the consumer alone. */
  lemma {:induction false} ProducerMoves(s: Sys, call: Call)
    requires Inv(s) && !s.p.ByteRoom? && !s.p.ByteStored? && !s.p.BlockLoaded? && !s.p.BlockStored?
    ensures ConsumerOk(ProducerStep(s, call)) && Conserved(ProducerStep(s, call))
  {
    hide Contents, Next, FreeFrom;
    if s.p.BlockLoop? && s.p.i == |s.p.data| {
      assert s.progress == s.p.data;
      assert s.accepted + s.p.data == s.accepted + s.p.data + [];
    }
  }

  lemma {:induction false} ProducerStores(s: Sys, b: u8)
    requires Inv(s)
    ensures var r := s.ring.(buf := s.ring.buf[s.ring.head := b]);
      forall p :: ConsumerOk(s.(ring := r, p := p)) && Conserved(s.(ring := r, p := p))
  {
    hide Contents;
    StoreAtHead(s.ring, b);
  }

  /** The full test of ringbuf_write. */
  lemma {:induction false} RoomIff(r: Ring)
    ensures Next(r.head, |r.buf|) == r.tail <==> Gap(r.head, r.tail, |r.buf|) == |r.buf| - 1
  {
    NextIsSuccessor(r.head, |r.buf|);
  }

  lemma {:induction false} ProducerPublishes(s: Sys, b: u8)
    requires Inv(s) && s.ring.buf[s.ring.head] == b && Used(s) < |s.ring.buf| - 1
    ensures var r := Publish(s.ring);
      forall p, accepted, progress :: accepted + progress == s.accepted + (s.progress + [b]) ==>
        var t := s.(ring := r, p := p, accepted := accepted, progress := progress);
        ConsumerOk(t) && Conserved(t)
  {
    hide Contents, Next, Publish;
    PublishAppends(s.ring);
    Joins(s.delivered + s.taken, Contents(s.ring), [b]);
    Joins(s.accepted, s.progress, [b]);
  }

  lemma Joins(x: seq<u8>, y: seq<u8>, z: seq<u8>)
    ensures x + y + z == x + (y + z)
  {}

  lemma {:induction false} ConsumerKeeps(s: Sys, fetch: Fetch)
    requires Inv(s)
    ensures Inv(ConsumerStep(s, fetch))
  {
    hide Contents, Next, Release, Conserved, ConsumerOk, ProducerOk, AvailableFrom;
    ConsumerStaysOk(s, fetch);
    match s.c
    case TakeLoaded(t, v) => ConsumerReleases(s, v);
    case GetLoaded(len, i, t, v) => ConsumerReleases(s, v);
    case _ => ConsumerMoves(s, fetch);
  }

  lemma {:induction false} ConsumerStaysOk(s: Sys, fetch: Fetch)
    requires Inv(s)
    ensures ConsumerOk(ConsumerStep(s, fetch))
    ensures match s.c
            case TakeLoaded(t, v) => s.taken == [] && s.ring.buf[s.ring.tail] == v && Used(s) > 0
            case GetLoaded(len, i, t, v) => s.ring.buf[s.ring.tail] == v && Used(s) > 0
            case _ => true
  {
    hide Contents, Next, AvailableFrom, Release, Conserved, ProducerOk;
    var r := s.ring;
    match s.c
    case TakeLoaded(t, v) => ReleaseDrops(r);
    case GetTail(len, t) => CountsFrom(r, r.head, t);
    case GetHead(len, h) => CountsFrom(r, h, r.tail);
    case GetLoaded(len, i, t, v) => ReleaseDrops(r);
    case _ =>
  }

  lemma {:induction false} ConsumerMoves(s: Sys, fetch: Fetch)
    requires Inv(s) && !s.c.TakeLoaded? && !s.c.GetLoaded?
    ensures ProducerOk(ConsumerStep(s, fetch)) && Conserved(ConsumerStep(s, fetch))
  {
    hide Contents, Next, AvailableFrom;
    assert s.delivered + s.taken + [] == s.delivered + s.taken;
  }

  lemma {:induction false} ConsumerReleases(s: Sys, v: u8)
    requires Inv(s) && s.ring.buf[s.ring.tail] == v && Used(s) > 0
    ensures var r := Release(s.ring);
      forall c, delivered, taken :: delivered + taken == s.delivered + (s.taken + [v]) ==>
        var t := s.(ring := r, c := c, delivered := delivered, taken := taken);
        ProducerOk(t) && Conserved(t)
  {
    hide Contents, Next, Release;
    ReleaseDrops(s.ring);
    Joins(s.delivered, s.taken, [v]);
    Joins(s.delivered + s.taken, [v], Contents(Release(s.ring)));
  }

  // ----- all runs

  lemma {:induction false} StepKeeps(s: Sys, a: Action)
    requires Inv(s)
    ensures Inv(Step(s, a))
  {
    hide Inv, ProducerStep, ConsumerStep;
    match a
    case Produce(call) => ProducerKeeps(s, call);
    case Consume(fetch) => ConsumerKeeps(s, fetch);
  }

  /** The system after a sequence of steps of either thread. */
  function Run(s: Sys, actions: seq<Action>): (t: Sys)
    requires Inv(s)
    ensures Inv(t)
    decreases |actions|
  {
    if actions == [] then s
    else
      StepKeeps(s, actions[0]);
      Run(Step(s, actions[0]), actions[1..])
  }

  predicate Start(s: Sys) {
    && s.ring.head == s.ring.tail && s.p == Idle && s.c == Waiting
    && s.accepted == [] && s.progress == [] && s.delivered == [] && s.taken == []
  }

  /** For every interleaving from an empty ring of any size: the bytes read are a prefix of
      the bytes written, the rest is in the ring in order, and at most size - 1 slots are
      in use. Whole blocks only count as accepted or delivered, and with both threads
      idle nothing is in between. */
  lemma {:induction false} RunsAreFifo(s: Sys, actions: seq<Action>)
    requires Start(s)
    ensures Inv(s)
    ensures var t := Run(s, actions);
      && t.delivered + t.taken <= t.accepted + t.progress
      && |Contents(t.ring)| <= |t.ring.buf| - 1
      && (t.p == Idle && t.c == Waiting ==> t.delivered + Contents(t.ring) == t.accepted)
  {
    assert Contents(s.ring) == [];
    var t := Run(s, actions);
    assert Inv(t);
    hide Contents, Run;
    assert t.delivered + t.taken + [] == t.delivered + t.taken;
    assert t.accepted + [] == t.accepted;
  }

  // ----- refusals and progress

  /** ringbuf_write refuses exactly when the ring is full at the moment it loads the tail,
      and ringbuf_read exactly when the ring is empty as it loads the head. */
  lemma {:induction false} RefusalsAreReal(s: Sys, call: Call, fetch: Fetch)
    requires Inv(s)
    ensures s.p.ByteStart? ==> (ProducerStep(s, call).p == Idle <==> |Contents(s.ring)| == |s.ring.buf| - 1)
    ensures s.c.TakeStart? ==> (ConsumerStep(s, fetch).c == Waiting <==> Contents(s.ring) == [])
  {
    RoomIff(s.ring);
  }

  /** A block call is refused exactly when the block does not fit, or is not there, by the
      index of the other thread that it loaded, which may be old by then; so one that is let
      through fits, or is there, and with the other index loaded last the answer is exact. */
  lemma {:induction false} BlockRefusals(s: Sys, call: Call, fetch: Fetch)
    requires Inv(s)
    ensures var (r, n, p, c) := (s.ring, |s.ring.buf|, ProducerStep(s, call).p, ConsumerStep(s, fetch).c);
      && (s.p.BlockHead? ==> (p == Idle <==> |Contents(r)| + |s.p.data| > n - 1))
      && (s.p.BlockTail? ==> (p == Idle <==> Gap(r.head, s.p.t, n) + |s.p.data| > n - 1)
                             && (p != Idle ==> |Contents(r)| + |s.p.data| <= n - 1))
      && (s.c.GetTail? ==> (c == Waiting <==> |Contents(r)| < s.c.len))
      && (s.c.GetHead? ==> (c == Waiting <==> Gap(s.c.h, r.tail, n) < s.c.len)
                           && (c != Waiting ==> s.c.len <= |Contents(r)|))
  {
    var r := s.ring;
    if s.p.BlockHead? { CountsFrom(r, s.p.h, r.tail); }
    if s.p.BlockTail? { CountsFrom(r, r.head, s.p.t); }
    if s.c.GetTail? { CountsFrom(r, r.head, s.c.t); }
    if s.c.GetHead? { CountsFrom(r, s.c.h, r.tail); }
    hide FreeFrom, AvailableFrom, Publish, Release, Next, Conserved;
  }

  /** A block call that has passed its check is never refused or stopped later: this many
      producer steps finish it, whatever the consumer does in between. */
  function StepsLeft(p: Producer): nat {
    match p
    case BlockLoop(data, i) => if i <= |data| then 3 * (|data| - i) + 1 else 0
    case BlockLoaded(data, i, _) => if i <= |data| then 3 * (|data| - i) else 0
    case BlockStored(data, i, _) => if i < |data| then 3 * (|data| - i) - 1 else 0
    case _ => 0
  }

  function BlockOf(p: Producer): seq<u8> {
    match p
    case BlockLoop(data, _) => data
    case BlockLoaded(data, _, _) => data
    case BlockStored(data, _, _) => data
    case _ => []
  }

  function ProducerSteps(actions: seq<Action>): nat {
    if actions == [] then 0
    else (if actions[0].Produce? then 1 else 0) + ProducerSteps(actions[1..])
  }

  lemma {:induction false} BlockFinishes(s: Sys, actions: seq<Action>)
    requires Inv(s) && StepsLeft(s.p) > 0 && ProducerSteps(actions) == StepsLeft(s.p)
    ensures Run(s, actions).accepted == s.accepted + BlockOf(s.p)
    decreases |actions|
  {
    hide Contents, Next, Publish, Release, ConsumerOk, Conserved, FreeFrom, AvailableFrom;
    var a := actions[0];
    StepKeeps(s, a);
    var t := Step(s, a);
    if StepsLeft(t.p) > 0 {
      BlockFinishes(t, actions[1..]);
    } else {
      NoMoreSteps(t, actions[1..]);
    }
  }

  lemma {:induction false} NoMoreSteps(s: Sys, actions: seq<Action>)
    requires Inv(s) && ProducerSteps(actions) == 0
    ensures Run(s, actions).accepted == s.accepted
    decreases |actions|
  {
    hide Inv, ProducerStep, Contents, Release;
    if actions != [] {
      StepKeeps(s, actions[0]);
      NoMoreSteps(Step(s, actions[0]), actions[1..]);
    }
  }

  /** The same for a block read, in steps of the consumer. */
  function ReadsLeft(c: Consumer): nat {
    match c
    case GetLoop(len, i) => if i <= len then 3 * (len - i) + 1 else 0
    case GetStart(len, i, _) => if i <= len then 3 * (len - i) else 0
    case GetLoaded(len, i, _, _) => if i < len then 3 * (len - i) - 1 else 0
    case _ => 0
  }

  function LengthOf(c: Consumer): nat {
    match c
    case GetLoop(len, _) => len
    case GetStart(len, _, _) => len
    case GetLoaded(len, _, _, _) => len
    case _ => 0
  }

  function ConsumerSteps(actions: seq<Action>): nat {
    if actions == [] then 0
    else (if actions[0].Consume? then 1 else 0) + ConsumerSteps(actions[1..])
  }

  /** All bytes written so far. */
  function Stream(s: Sys): seq<u8> { s.accepted + s.progress }

  lemma {:induction false} StreamGrows(s: Sys, a: Action)
    requires Inv(s)
    ensures Stream(s) <= Stream(Step(s, a))
  {
    hide Contents, Next, Publish, Release, ConsumerOk, Conserved, FreeFrom, AvailableFrom;
    if a.Produce? && s.p.BlockStored? {
      ProducerAt(s);
    }
  }

  /** One step while a block read is under way. */
  lemma {:induction false} ReadAdvances(s: Sys, a: Action)
    requires Inv(s) && ReadsLeft(s.c) > 0
    ensures var t := Step(s, a);
      && ReadsLeft(t.c) == ReadsLeft(s.c) - (if a.Consume? then 1 else 0)
      && (ReadsLeft(t.c) > 0 ==> LengthOf(t.c) == LengthOf(s.c) && t.delivered == s.delivered)
      && (ReadsLeft(t.c) == 0 ==> t.delivered == s.delivered + s.taken && |s.taken| == LengthOf(s.c))
  {
    hide Contents, Next, Publish, Release, ProducerOk, Conserved, FreeFrom, AvailableFrom;
  }

  /** What is read next is already written. */
  lemma {:induction false} ReadIsThere(s: Sys)
    requires Inv(s) && ReadsLeft(s.c) > 0
    ensures |s.delivered| + LengthOf(s.c) <= |Stream(s)| && s.delivered + s.taken <= Stream(s)
    ensures |s.taken| <= LengthOf(s.c)
  {
    hide ProducerOk;
  }

  /** An admitted block read finishes in ReadsLeft consumer steps, whatever the producer does
      in between, with the bytes that follow those delivered before. */
  lemma {:induction false} BlockReadFinishes(s: Sys, actions: seq<Action>)
    requires Inv(s) && ReadsLeft(s.c) > 0 && ConsumerSteps(actions) == ReadsLeft(s.c)
    ensures |s.delivered| + LengthOf(s.c) <= |Stream(s)|
    ensures Run(s, actions).delivered == Stream(s)[..|s.delivered| + LengthOf(s.c)]
    decreases |actions|
  {
    hide Inv, Step, Stream, ReadsLeft, LengthOf;
    var a := actions[0];
    var t := Step(s, a);
    StepKeeps(s, a);
    ReadIsThere(s);
    StreamGrows(s, a);
    ReadAdvances(s, a);
    if ReadsLeft(t.c) > 0 {
      BlockReadFinishes(t, actions[1..]);
    } else {
      NoMoreReads(t, actions[1..]);
    }
  }

  lemma {:induction false} NoMoreReads(s: Sys, actions: seq<Action>)
    requires Inv(s) && ConsumerSteps(actions) == 0
    ensures Run(s, actions).delivered == s.delivered
    decreases |actions|
  {
    hide Inv, ConsumerStep, Contents, Publish, Next, FreeFrom;
    if actions != [] {
      StepKeeps(s, actions[0]);
      NoMoreReads(Step(s, actions[0]), actions[1..]);
    }
  }
}

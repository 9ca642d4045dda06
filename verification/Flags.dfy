/**
 The FLAGS register (state.h): one field per bit of the uint16_t, so
 that `s->flags |= FLAG_CF` is an update of the field `cf`. The names r1 .. r15
 are the bits that the 8086 reserves.
 */
module Flags {
  import opened Words

  datatype Flags = Flags(
    cf: bool, r1: bool, pf: bool, r3: bool,
    af: bool, r5: bool, zf: bool, sf: bool,
    tf: bool, intf: bool, df: bool, of: bool,
    r12: bool, r13: bool, r14: bool, r15: bool)

  // ----- bits and bytes

  /** The bits of a byte, lowest first. */
  datatype ByteBits = ByteBits(b0: bool, b1: bool, b2: bool, b3: bool, b4: bool, b5: bool, b6: bool, b7: bool)

  function ByteOf(b: ByteBits): u8 {
    (if b.b0 then 1 else 0) + (if b.b1 then 2 else 0) + (if b.b2 then 4 else 0) + (if b.b3 then 8 else 0)
    + (if b.b4 then 0x10 else 0) + (if b.b5 then 0x20 else 0) + (if b.b6 then 0x40 else 0) + (if b.b7 then 0x80 else 0)
  }

  /** Bit k is set if the byte, without the bits above k, is at least 2^k. */
  function BitsOf(v: u8): ByteBits {
    var v7 := Below(v, 0x80);
    var v6 := Below(v7, 0x40);
    var v5 := Below(v6, 0x20);
    var v4 := Below(v5, 0x10);
    var v3 := Below(v4, 8);
    var v2 := Below(v3, 4);
    var v1 := Below(v2, 2);
    ByteBits(v1 >= 1, v2 >= 2, v3 >= 4, v4 >= 8, v5 >= 0x10, v6 >= 0x20, v7 >= 0x40, v >= 0x80)
  }

  function Below(v: u8, m: u8): u8 { if v >= m then v - m else v }

  lemma {:induction false} BitsOfByte(b: ByteBits)
    ensures BitsOf(ByteOf(b)) == b
  {
    hide Below;
    var s1 := if b.b0 then 1 else 0;
    var s2 := s1 + if b.b1 then 2 else 0;
    var s3 := s2 + if b.b2 then 4 else 0;
    var s4 := s3 + if b.b3 then 8 else 0;
    var s5 := s4 + if b.b4 then 0x10 else 0;
    var s6 := s5 + if b.b5 then 0x20 else 0;
    var s7 := s6 + if b.b6 then 0x40 else 0;
    TopBit(s7, b.b7, 0x80);
    TopBit(s6, b.b6, 0x40);
    TopBit(s5, b.b5, 0x20);
    TopBit(s4, b.b4, 0x10);
    TopBit(s3, b.b3, 8);
    TopBit(s2, b.b2, 4);
    TopBit(s1, b.b1, 2);
  }

  lemma TopBit(s: nat, b: bool, m: u8)
    requires s < m <= 0x80
    ensures var v := s + if b then m else 0; Below(v, m) == s && (v >= m <==> b)
  {}

  lemma {:induction false} ByteOfBits(v: u8)
    ensures ByteOf(BitsOf(v)) == v
  {}

  // ----- the word

  function LowByte(f: Flags): u8 { ByteOf(ByteBits(f.cf, f.r1, f.pf, f.r3, f.af, f.r5, f.zf, f.sf)) }
  function HighByte(f: Flags): u8 { ByteOf(ByteBits(f.tf, f.intf, f.df, f.of, f.r12, f.r13, f.r14, f.r15)) }

  /** The packed 16-bit word: CF is bit 0, PF bit 2, AF bit 4, ZF bit 6, SF bit 7,
      TF bit 8, IF bit 9, DF bit 10, OF bit 11. */
  function ToWord(f: Flags): u16 {
    Word(LowByte(f), HighByte(f))
  }

  /** The flags whose low byte has the bits l, and whose high byte h. */
  function Assembled(l: ByteBits, h: ByteBits): Flags {
    Flags(l.b0, l.b1, l.b2, l.b3, l.b4, l.b5, l.b6, l.b7, h.b0, h.b1, h.b2, h.b3, h.b4, h.b5, h.b6, h.b7)
  }

  function OfBytes(lo: u8, hi: u8): Flags { Assembled(BitsOf(lo), BitsOf(hi)) }

  function OfWord(w: u16): Flags {
    OfBytes(Lo(w), Hi(w))
  }

  lemma {:induction false} SplitWord(lo: u8, hi: u8)
    ensures Lo(Word(lo, hi)) == lo && Hi(Word(lo, hi)) == hi
  {
    hide Wrap, Rem, Quot;
    OperatorsAre();
  }

  lemma {:induction false} OfBytesOf(f: Flags)
    ensures OfBytes(LowByte(f), HighByte(f)) == f
  {
    hide ByteOf, BitsOf;
    BitsOfByte(ByteBits(f.cf, f.r1, f.pf, f.r3, f.af, f.r5, f.zf, f.sf));
    BitsOfByte(ByteBits(f.tf, f.intf, f.df, f.of, f.r12, f.r13, f.r14, f.r15));
  }

  lemma {:induction false} OfToWord(f: Flags)
    ensures OfWord(ToWord(f)) == f
  {
    SplitWord(LowByte(f), HighByte(f));
    OfBytesOf(f);
  }

  lemma {:induction false} BytesOf(lo: u8, hi: u8)
    ensures LowByte(OfBytes(lo, hi)) == lo && HighByte(OfBytes(lo, hi)) == hi
  {
    hide ByteOf, BitsOf;
    ByteOfBits(lo);
    ByteOfBits(hi);
  }

  lemma {:induction false} ToOfWord(w: u16)
    ensures ToWord(OfWord(w)) == w
  {
    hide LowByte, HighByte, OfBytes, Rem, Quot;
    BytesOf(Lo(w), Hi(w));
    DivisionIdentity(w, 0x100);
  }

  function WithReservedSet(f: Flags): Flags {
    f.(r1 := true, r12 := true, r13 := true, r14 := true, r15 := true)
  }

  /** flags_pack (transfer.h): (flags & 0x0FFF) | 0xF002. */
  function Pack(f: Flags): u16 {
    ToWord(WithReservedSet(f))
  }

  /** flags_unpack (transfer.h): (val & 0x0FD5) | 0x0002. */
  function Unpack(w: u16): Flags {
    Normalised(OfWord(w))
  }

  /** The nine defined flags of f, with the reserved bits as flags_unpack leaves them. */
  function Normalised(f: Flags): Flags {
    f.(r1 := true, r3 := false, r5 := false, r12 := false, r13 := false, r14 := false, r15 := false)
  }

  predicate SameDefined(f: Flags, g: Flags) {
    && f.cf == g.cf && f.pf == g.pf && f.af == g.af && f.zf == g.zf && f.sf == g.sf
    && f.tf == g.tf && f.intf == g.intf && f.df == g.df && f.of == g.of
  }

  /** A pushed FLAGS word, popped again, brings back exactly the nine defined flags. */
  lemma {:induction false} UnpackPack(f: Flags)
    ensures Unpack(Pack(f)) == Normalised(f)
  {
    var g := WithReservedSet(f);
    OfToWord(g);
  }

  lemma {:induction false} NormalisedKeepsDefined(f: Flags)
    ensures SameDefined(Normalised(f), f)
  {}
}

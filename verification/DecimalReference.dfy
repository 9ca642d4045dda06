/**
 DAA and DAS of the reference emulator (DAA_DAS in reference/8086tiny.c), and where the
 emulator's own agree with them.
 */
module DecimalReference {
  import opened Words
  import opened Flags
  import opened Alu

  /** AL, CF and AF after the instruction. The macro leaves SF, ZF and PF to a result that it
      does not always assign. */
  datatype Adjusted = Adjusted(al: u8, cf: bool, af: bool)

  /** DAA_DAS(+=, <, 0xF0, 0x90): the second test sees AL after the first adjustment. */
  function DaaRef(f: Flags, al: u8): Adjusted {
    var af := Rem(al, 0x10) > 9 || f.af;
    var al1 := if af then U8(al + 6) else al;
    var cf1 := f.cf || (af && al1 < al);
    var cf := Quot(al1, 0x10) * 0x10 > 0x90 || cf1;
    Adjusted(if cf then U8(al1 + 0x60) else al1, cf, af)
  }

  /** DAA_DAS(-=, >=, 0xFF, 0x99): the second test sees the borrow of the first. */
  function DasRef(f: Flags, al: u8): Adjusted {
    var af := Rem(al, 0x10) > 9 || f.af;
    var al1 := if af then U8(al as int - 6) else al;
    var cf1 := f.cf || (af && al1 >= al);
    var cf := al > 0x99 || cf1;
    Adjusted(if cf then U8(al1 as int - 0x60) else al1, cf, af)
  }

  function Ours(r: (Flags, u8)): Adjusted { Adjusted(r.1, r.0.cf, r.0.af) }

  /** Both tests for the upper digit are al > 0x99, or CF. */
  lemma DaaTests(al: u8, low: bool, cf: bool)
    requires !low ==> Rem(al, 0x10) <= 9
    ensures var al1 := if low then U8(al + 6) else al;
      Quot(al1, 0x10) * 0x10 > 0x90 || cf || (low && al1 < al) <==> al > 0x99 || cf
    ensures low && U8(al + 6) < al ==> al > 0x99
  {
    hide Wrap, Rem, Quot;
    WrapNear(al + 6, 0x100);
    QuotRemIs(al, 0x10);
    QuotRemIs(U8(al + 6), 0x10);
  }

  lemma {:induction false} DaaFlags(f: Flags, al: u8)
    ensures var (low, high) := (Rem(al, 0x10) > 9 || f.af, al > 0x99 || f.cf);
      var g := Daa(f, al).0;
      (g.cf <==> high || (low && (f.cf || U8(al + 6) < al))) && (g.af <==> low)
  {
    hide Rem, Quot, U8, Low, Parity8, SignOf, DaaByte;
  }

  lemma {:induction false} DaaFlagsAgree(f: Flags, al: u8)
    ensures Daa(f, al).0.cf == DaaRef(f, al).cf && Daa(f, al).0.af == DaaRef(f, al).af
  {
    hide Rem, Quot, U8, Daa;
    DaaFlags(f, al);
    DaaTests(al, Rem(al, 0x10) > 9 || f.af, f.cf);
  }

  lemma {:induction false} DaaValueAgrees(f: Flags, al: u8)
    ensures Daa(f, al).1 == DaaRef(f, al).al
  {
    hide Rem, Quot, U8, SetSzp;
    DaaTests(al, Rem(al, 0x10) > 9 || f.af, f.cf);
  }

  /** DAA agrees on every AL, CF and AF. */
  lemma {:induction false} DaaAgrees(f: Flags, al: u8)
    ensures Ours(Daa(f, al)) == DaaRef(f, al)
  {
    hide Daa, DaaRef;
    DaaFlagsAgree(f, al);
    DaaValueAgrees(f, al);
  }

  /** DAS agrees exactly unless the first adjustment borrows without CF being set: there the
      reference subtracts 0x60 more, and AF and CF are still the same. */
  lemma {:induction false} DasAgreesIff(f: Flags, al: u8)
    ensures Ours(Das(f, al)) == DasRef(f, al) <==> !(f.af && !f.cf && al < 6)
    ensures var (r, q) := (Ours(Das(f, al)), DasRef(f, al));
      r.cf == q.cf && r.af == q.af && (r.al == q.al || U8(r.al as int - 0x60) == q.al)
  {
    hide Wrap, Rem, Quot;
    OperatorsAre();
    hide Parity8, SignOf;
  }
}

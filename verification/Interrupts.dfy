/**
 The interrupt bits of `sstatus`: what taking a trap in S-mode and `sret` do to them, as sections
 4.1.1 and 3.3.2 of the RISC-V Privileged Architecture (version 20211203) define it.
 */
module Interrupts {
  import opened Basics
  import opened Rv64

  const SIE: nat := 2
  const SPIE: nat := 32
  const SPP: nat := 256

  predicate IsFlag(mask: nat) {
    mask == SIE || mask == SPIE || mask == SPP
  }

  function Bit(v: nat, mask: nat): (b: nat)
    requires IsFlag(mask)
    ensures b <= 1
  {
    v / mask % 2
  }

  /** The value with one flag replaced. */
  function Put(v: nat, mask: nat, b: nat): nat
    requires IsFlag(mask)
  {
    v / (2 * mask) * (2 * mask) + b * mask + v % mask
  }

  /** Taking a trap saves SIE in SPIE, clears SIE, and notes that it came from S-mode. */
  function TrapStatus(v: nat): nat {
    Put(Put(Put(v, SPIE, Bit(v, SIE)), SIE, 0), SPP, 1)
  }

  /** `sret` takes SIE back from SPIE, sets SPIE and clears SPP. */
  function SretStatus(v: nat): nat {
    Put(Put(Put(v, SIE, Bit(v, SPIE)), SPIE, 1), SPP, 0)
  }

  /** Are interrupts enabled? */
  predicate Enabled(m: Machine) {
    Bit(CsrOf(m, SSTATUS), SIE) == 1
  }

  /** The hardware takes an interrupt at `pc`. */
  function TakeTrap(m: Machine, pc: nat): Machine {
    m.(csr := m.csr[SSTATUS := TrapStatus(CsrOf(m, SSTATUS))][SEPC := pc])
  }

  /** `sret`; execution goes on at `sepc`. */
  function Sret(m: Machine): Machine {
    m.(csr := m.csr[SSTATUS := SretStatus(CsrOf(m, SSTATUS))])
  }

  // ---------- what the flags become ----------

  /** The flags and what lies between them, from the lowest bit up. */
  datatype Fields = Fields(b0: nat, sie: nat, low: nat, spie: nat, mid: nat, spp: nat, high: nat) {
    predicate Ok() {
      b0 < 2 && sie < 2 && low < 8 && spie < 2 && mid < 4 && spp < 2
    }

    function From256(): nat { spp + 2 * high }
    function From64(): nat { mid + 4 * From256() }
    function From32(): nat { spie + 2 * From64() }
    function From4(): nat { low + 8 * From32() }
    function From2(): nat { sie + 2 * From4() }
    function Value(): nat { b0 + 2 * From2() }
  }

  lemma Split(v: nat) returns (f: Fields)
    ensures f.Ok() && f.Value() == v
  {
    var q1 := v / 2;
    var q2 := q1 / 2;
    var q3 := q2 / 8;
    var q4 := q3 / 2;
    var q5 := q4 / 4;
    f := Fields(v % 2, q1 % 2, q2 % 8, q3 % 2, q4 % 4, q5 % 2, q5 / 2);
    assert f.From256() == q5 && f.From64() == q4 && f.From32() == q3 && f.From4() == q2 && f.From2() == q1;
  }

  /** Where the flags are in a value. */
  lemma Cuts(f: Fields)
    requires f.Ok()
    ensures var v := f.Value();
            && v / 2 == f.From2() && v % 2 == f.b0 && v / 4 == f.From4()
            && v / 32 == f.From32() && v / 64 == f.From64() && v / 256 == f.From256() && v / 512 == f.high
            && v % 32 == f.b0 + 2 * f.sie + 4 * f.low
            && v % 256 == f.b0 + 2 * f.sie + 4 * f.low + 32 * f.spie + 64 * f.mid
  {
    var v, below := f.Value(), f.b0 + 2 * f.sie + 4 * f.low;
    Div2(v, f.From2(), f.b0);
    Div4(v, f.From4(), f.b0 + 2 * f.sie);
    Div32(v, f.From32(), below);
    Div64(v, f.From64(), below + 32 * f.spie);
    Div256(v, f.From256(), below + 32 * f.spie + 64 * f.mid);
    Div512(v, f.high, below + 32 * f.spie + 64 * f.mid + 256 * f.spp);
  }

  lemma Flags(f: Fields)
    requires f.Ok()
    ensures Bit(f.Value(), SIE) == f.sie && Bit(f.Value(), SPIE) == f.spie && Bit(f.Value(), SPP) == f.spp
  {
    hide Fields.Value, Fields.From4, Fields.From64;
    Cuts(f);
    Div2(f.From2(), f.From4(), f.sie);
    Div2(f.From32(), f.From64(), f.spie);
    Div2(f.From256(), f.high, f.spp);
  }

  lemma Puts(f: Fields, b: nat)
    requires f.Ok() && b < 2
    ensures Put(f.Value(), SIE, b) == f.(sie := b).Value()
    ensures Put(f.Value(), SPIE, b) == f.(spie := b).Value()
    ensures Put(f.Value(), SPP, b) == f.(spp := b).Value()
  {
    Cuts(f);
  }

  /** A trap leaves interrupts disabled and keeps in SPIE whether they were enabled; `sret` brings that
      back. Both together leave every other bit as it was, SPIE set and SPP clear. */
  lemma TrapAndReturn(v: nat)
    ensures var t := TrapStatus(v); t / 2 % 2 == 0 && t / 32 % 2 == v / 2 % 2 && t / 256 % 2 == 1
    ensures var r := SretStatus(v); r / 2 % 2 == v / 32 % 2 && r / 32 % 2 == 1 && r / 256 % 2 == 0
    ensures Bit(TrapStatus(v), SIE) == 0 && Bit(TrapStatus(v), SPIE) == Bit(v, SIE)
    ensures Bit(SretStatus(v), SIE) == Bit(v, SPIE)
    ensures SretStatus(TrapStatus(v)) == Put(Put(v, SPIE, 1), SPP, 0)
    ensures Bit(SretStatus(TrapStatus(v)), SIE) == Bit(v, SIE)
  {
    hide Put, Bit, Fields.Value;
    var f := Split(v);
    Flags(f);
    var f1 := f.(spie := f.sie);
    var f2 := f1.(sie := 0);
    var f3 := f2.(spp := 1);
    Puts(f, f.sie);
    Puts(f1, 0);
    Puts(f2, 1);
    assert TrapStatus(v) == f3.Value();
    Flags(f3);
    Returns(f);
    Returns(f3);
    Puts(f, 1);
    Puts(f.(spie := 1), 0);
    assert f3.(sie := f3.spie, spie := 1, spp := 0) == f.(spie := 1).(spp := 0);
    Flags(f.(spie := 1).(spp := 0));
    Flags(f.(sie := f.spie, spie := 1, spp := 0));
    BitIs(v);
    BitIs(TrapStatus(v));
    BitIs(SretStatus(v));
  }

  /** SIE, SPIE and SPP are bits 1, 5 and 8. */
  lemma BitIs(v: nat)
    ensures Bit(v, SIE) == v / 2 % 2 && Bit(v, SPIE) == v / 32 % 2 && Bit(v, SPP) == v / 256 % 2
  {
  }

  lemma Returns(f: Fields)
    requires f.Ok()
    ensures SretStatus(f.Value()) == f.(sie := f.spie, spie := 1, spp := 0).Value()
  {
    hide Put, Bit, Fields.Value;
    Flags(f);
    var f1 := f.(sie := f.spie);
    var f2 := f1.(spie := 1);
    Puts(f, f.spie);
    Puts(f1, 1);
    Puts(f2, 0);
  }
}

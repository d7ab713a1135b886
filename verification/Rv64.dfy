/**
 The RV64 instructions that the trap vectors and the context switch use, over registers,
 doubleword memory and the CSRs they touch. The assembly routines are instruction sequences, so
 what they do is what executing them does.
 */
module Rv64 {
  import opened Basics

  datatype Csr = SSTATUS | SEPC | SCAUSE | STVAL | MSCRATCH | MCAUSE | MEPC

  datatype Flags = Mie | Mip

  datatype Instr =
    | Addi(rd: nat, rs: nat, imm: int)
    | Li(rd: nat, value: nat)
    | Sd(rs: nat, off: int, base: nat)
    | Ld(rd: nat, off: int, base: nat)
    | Csrr(rd: nat, csr: Csr)
    | Csrw(csr: Csr, rs: nat)
    | Csrrw(rd: nat, csr: Csr, rs: nat)
    | Csrs(flags: Flags, rs: nat)
    | Csrc(flags: Flags, rs: nat)

  // register numbers
  const RA: nat := 1
  const SP: nat := 2
  const T0: nat := 5
  const T1: nat := 6
  const T2: nat := 7
  const A0: nat := 10
  const A1: nat := 11
  const A7: nat := 17

  type Regs = r: seq<nat> | |r| == 32 witness seq(32, _ => 0)
  type Mem = map<int, nat>

  /** `mie` and `mip` are only ever changed by `csrs` and `csrc` with one-bit masks, so they are kept
      as the sets of masks that are set. */
  datatype Machine = Machine(x: Regs, mem: Mem, csr: map<Csr, nat>, mie: set<nat>, mip: set<nat>)

  function Load(mem: Mem, a: int): nat {
    if a in mem then mem[a] else 0
  }

  function CsrOf(m: Machine, c: Csr): nat {
    if c in m.csr then m.csr[c] else 0
  }

  /** Register x0 ignores writes. */
  function SetReg(m: Machine, r: nat, v: nat): (m': Machine)
    requires r < 32
    ensures m'.mem == m.mem && m'.csr == m.csr && m'.mie == m.mie && m'.mip == m.mip
  {
    if r == 0 then m else m.(x := m.x[r := v])
  }

  function Add64(a: nat, imm: int): nat {
    (a + imm) % WORD_MOD
  }

  lemma AddSmall(a: nat, imm: int)
    requires 0 <= a + imm < WORD_MOD
    ensures Add64(a, imm) == a + imm
  {
  }

  predicate WellFormed(i: Instr) {
    match i
    case Addi(rd, rs, _) => rd < 32 && rs < 32
    case Li(rd, _) => rd < 32
    case Sd(rs, _, base) => rs < 32 && base < 32
    case Ld(rd, _, base) => rd < 32 && base < 32
    case Csrr(rd, _) => rd < 32
    case Csrw(_, rs) => rs < 32
    case Csrrw(rd, _, rs) => rd < 32 && rs < 32
    case Csrs(_, rs) => rs < 32
    case Csrc(_, rs) => rs < 32
  }

  function Step(i: Instr, m: Machine): Machine {
    if !WellFormed(i) then m else
    match i
    case Addi(rd, rs, imm) => SetReg(m, rd, Add64(m.x[rs], imm))
    case Li(rd, v) => SetReg(m, rd, v)
    case Sd(rs, off, base) => m.(mem := m.mem[Add64(m.x[base], off) := m.x[rs]])
    case Ld(rd, off, base) => SetReg(m, rd, Load(m.mem, Add64(m.x[base], off)))
    case Csrr(rd, c) => SetReg(m, rd, CsrOf(m, c))
    case Csrw(c, rs) => m.(csr := m.csr[c := m.x[rs]])
    case Csrrw(rd, c, rs) => SetReg(m.(csr := m.csr[c := m.x[rs]]), rd, CsrOf(m, c))
    case Csrs(f, rs) =>
      match f { case Mie => m.(mie := m.mie + {m.x[rs]}) case Mip => m.(mip := m.mip + {m.x[rs]}) }
    case Csrc(f, rs) =>
      match f { case Mie => m.(mie := m.mie - {m.x[rs]}) case Mip => m.(mip := m.mip - {m.x[rs]}) }
  }

  function Exec(p: seq<Instr>, m: Machine): Machine
    decreases |p|
  {
    if p == [] then m else Exec(p[1..], Step(p[0], m))
  }

  lemma {:induction false} ExecAppend(p: seq<Instr>, q: seq<Instr>, m: Machine)
    ensures Exec(p + q, m) == Exec(q, Exec(p, m))
    decreases |p|
  {
    if p == [] {
      assert p + q == q;
    } else {
      assert (p + q)[1..] == p[1..] + q;
      ExecAppend(p[1..], q, Step(p[0], m));
    }
  }

  lemma ExecCons(p: seq<Instr>, m: Machine)
    requires p != []
    ensures Exec(p, m) == Exec(p[1..], Step(p[0], m))
  {
  }

  // ---------- blocks of stores and loads ----------

  /** Stores off one base register to distinct doublewords inside a frame of `size` bytes. */
  ghost predicate StoreBlock(p: seq<Instr>, base: nat, size: nat) {
    && base < 32
    && (forall i {:trigger p[i]} :: 0 <= i < |p| ==>
          p[i].Sd? && p[i].base == base && p[i].rs < 32 && 0 <= p[i].off < size)
    && (forall i, j :: 0 <= i < j < |p| ==> p[i].off != p[j].off)
  }

  ghost predicate LoadBlock(p: seq<Instr>, base: nat, size: nat) {
    && base < 32
    && (forall i {:trigger p[i]} :: 0 <= i < |p| ==>
          p[i].Ld? && p[i].base == base && p[i].rd < 32 && p[i].rd != base && p[i].rd != 0 && 0 <= p[i].off < size)
    && (forall i, j :: 0 <= i < j < |p| ==> p[i].rd != p[j].rd)
  }

  /** None of the stores goes to offset `d`. */
  ghost predicate Avoids(p: seq<Instr>, d: int) {
    forall i {:trigger p[i]} :: 0 <= i < |p| && p[i].Sd? ==> p[i].off != d
  }

  lemma FirstStore(p: seq<Instr>, base: nat, size: nat, m: Machine) returns (m1: Machine)
    requires StoreBlock(p, base, size) && m.x[base] + size <= WORD_MOD && p != []
    ensures m1 == Step(p[0], m) && Exec(p, m) == Exec(p[1..], m1)
    ensures m1 == m.(mem := m.mem[m.x[base] + p[0].off := m.x[p[0].rs]])
    ensures StoreBlock(p[1..], base, size) && Avoids(p[1..], p[0].off)
  {
    hide Add64;
    m1 := Step(p[0], m);
    AddSmall(m.x[base], p[0].off);
    forall i | 0 <= i < |p[1..]| ensures p[1..][i].off != p[0].off {
      assert p[1..][i] == p[i + 1];
    }
  }

  /** A store block leaves registers, CSRs and every doubleword it has no slot for. */
  lemma {:induction false} StoresLeave(p: seq<Instr>, base: nat, size: nat, m: Machine, a: int)
    requires StoreBlock(p, base, size) && m.x[base] + size <= WORD_MOD
    ensures Exec(p, m).x == m.x && Exec(p, m).csr == m.csr
    ensures Avoids(p, a - m.x[base] as int) ==> Load(Exec(p, m).mem, a) == Load(m.mem, a)
    decreases |p|
  {
    hide Step;
    if p != [] {
      var m1 := FirstStore(p, base, size, m);
      StoresLeave(p[1..], base, size, m1, a);
      if Avoids(p, a - m.x[base] as int) {
        assert p[0].off != a - m.x[base] as int;
        AvoidsTail(p, a - m.x[base] as int);
      }
    }
  }

  lemma AvoidsTail(p: seq<Instr>, d: int)
    requires Avoids(p, d) && p != []
    ensures Avoids(p[1..], d)
  {
    forall i | 0 <= i < |p[1..]| && p[1..][i].Sd? ensures p[1..][i].off != d {
      assert p[1..][i] == p[i + 1];
    }
  }

  /** ... and writes each of its registers to its slot. */
  lemma {:induction false} StoresWrite(p: seq<Instr>, base: nat, size: nat, m: Machine, i: nat)
    requires StoreBlock(p, base, size) && m.x[base] + size <= WORD_MOD && i < |p|
    ensures Load(Exec(p, m).mem, m.x[base] + p[i].off) == m.x[p[i].rs]
    decreases |p|
  {
    hide Step;
    var m1 := FirstStore(p, base, size, m);
    if i == 0 {
      StoresLeave(p[1..], base, size, m1, m.x[base] + p[0].off);
    } else {
      assert p[1..][i - 1] == p[i];
      StoresWrite(p[1..], base, size, m1, i - 1);
    }
  }

  lemma FirstLoad(p: seq<Instr>, base: nat, size: nat, m: Machine) returns (m1: Machine)
    requires LoadBlock(p, base, size) && m.x[base] + size <= WORD_MOD && p != []
    ensures m1 == Step(p[0], m) && Exec(p, m) == Exec(p[1..], m1)
    ensures m1 == m.(x := m.x[p[0].rd := Load(m.mem, m.x[base] + p[0].off)]) && m1.x[base] == m.x[base]
    ensures LoadBlock(p[1..], base, size)
    ensures forall i :: 0 <= i < |p[1..]| ==> p[1..][i].rd != p[0].rd
  {
    hide Add64;
    m1 := Step(p[0], m);
    AddSmall(m.x[base], p[0].off);
    forall i | 0 <= i < |p[1..]| ensures p[1..][i].rd != p[0].rd {
      assert p[1..][i] == p[i + 1];
    }
  }

  /** A load block leaves memory, CSRs and every register it does not name. */
  lemma {:induction false} LoadsLeave(p: seq<Instr>, base: nat, size: nat, m: Machine, r: nat)
    requires LoadBlock(p, base, size) && m.x[base] + size <= WORD_MOD && r < 32
    ensures Exec(p, m).mem == m.mem && Exec(p, m).csr == m.csr
    ensures (forall i {:trigger p[i]} :: 0 <= i < |p| ==> p[i].rd != r) ==> Exec(p, m).x[r] == m.x[r]
    decreases |p|
  {
    hide Step;
    if p != [] {
      var m1 := FirstLoad(p, base, size, m);
      LoadsLeave(p[1..], base, size, m1, r);
      if forall i {:trigger p[i]} :: 0 <= i < |p| ==> p[i].rd != r {
        assert p[0].rd != r;
        forall i | 0 <= i < |p[1..]| ensures p[1..][i].rd != r {
          assert p[1..][i] == p[i + 1];
        }
      }
    }
  }

  /** ... and fills each of its registers from its slot. */
  lemma {:induction false} LoadsFill(p: seq<Instr>, base: nat, size: nat, m: Machine, i: nat)
    requires LoadBlock(p, base, size) && m.x[base] + size <= WORD_MOD && i < |p|
    ensures Exec(p, m).x[p[i].rd] == Load(m.mem, m.x[base] + p[i].off)
    decreases |p|
  {
    hide Step;
    var m1 := FirstLoad(p, base, size, m);
    if i == 0 {
      LoadsLeave(p[1..], base, size, m1, p[0].rd);
    } else {
      assert p[1..][i - 1] == p[i];
      LoadsFill(p[1..], base, size, m1, i - 1);
    }
  }
}

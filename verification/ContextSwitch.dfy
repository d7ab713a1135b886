/**
 The assembly of the S-mode trap vector and of `swtch`, and what each half does to registers and
 memory. `HandlerPrologue` and `HandlerEpilogue` are the entry and exit code that the calling
 convention obliges the compiler to give the C trap handler: a frame that keeps the return
 address and the callee-saved registers.
 */
module ContextSwitch {
  import opened Basics
  import opened Rv64

  const CONTEXT_SIZE: nat := 112
  const TRAP_FRAME: nat := 288
  const SAVED_AREA: nat := 104

  // ---------- swtch ----------

  /** ra, sp, s0 .. s11 in the order of `struct context`. */
  function Callee(i: nat): nat {
    if i == 0 then 1 else if i == 1 then 2 else if i < 4 then i + 6 else i + 14
  }

  function SwtchSave(): (p: seq<Instr>)
    ensures |p| == 14
  {
    seq(14, i requires 0 <= i => Sd(Callee(i), 8 * i, A0))
  }

  function SwtchLoad(): (p: seq<Instr>)
    ensures |p| == 14
  {
    seq(14, i requires 0 <= i => Ld(Callee(i), 8 * i, A1))
  }

  function Swtch(): seq<Instr> {
    SwtchSave() + SwtchLoad()
  }

  predicate Inside(a: int, base: int, size: int) {
    base <= a < base + size
  }

  /** Every doubleword of an area is the same in both memories. */
  ghost predicate Same(mem: Mem, mem': Mem, base: int, size: int) {
    forall a: int {:trigger Load(mem', a)} :: Inside(a, base, size) ==> Load(mem', a) == Load(mem, a)
  }

  /** The context at `base` holds the callee-saved registers `c`. */
  ghost predicate Context(mem: Mem, base: nat, c: seq<nat>) {
    && |c| == 14
    && forall i: nat {:trigger c[i]} :: i < 14 ==> Load(mem, base + 8 * i) == c[i]
  }

  function CalleeOf(x: Regs): (c: seq<nat>)
    ensures |c| == 14 && forall i: nat :: i < 14 ==> c[i] == x[Callee(i)]
  {
    seq(14, i requires 0 <= i < 14 => x[Callee(i)])
  }

  lemma SwtchBlocks()
    ensures StoreBlock(SwtchSave(), A0, CONTEXT_SIZE) && LoadBlock(SwtchLoad(), A1, CONTEXT_SIZE)
  {
  }

  /** `swtch` leaves the callee-saved registers in the old context, takes them from the new one, and
      writes nothing else. */
  lemma SwtchMoves(m: Machine, c: seq<nat>)
    requires m.x[A0] + CONTEXT_SIZE <= WORD_MOD && m.x[A1] + CONTEXT_SIZE <= WORD_MOD
    requires m.x[A0] + CONTEXT_SIZE <= m.x[A1] || m.x[A1] + CONTEXT_SIZE <= m.x[A0]
    requires Context(m.mem, m.x[A1], c)
    ensures var m' := Exec(Swtch(), m);
            && Context(m'.mem, m.x[A0], CalleeOf(m.x)) && CalleeOf(m'.x) == c
            && (forall a: int {:trigger Load(m'.mem, a)} :: !Inside(a, m.x[A0], CONTEXT_SIZE) ==>
                 Load(m'.mem, a) == Load(m.mem, a))
            && m'.csr == m.csr
  {
    hide Exec, StoreBlock, LoadBlock;
    SwtchBlocks();
    ExecAppend(SwtchSave(), SwtchLoad(), m);
    var m1 := Exec(SwtchSave(), m);
    StoresLeave(SwtchSave(), A0, CONTEXT_SIZE, m, 0);
    forall a: int ensures !Inside(a, m.x[A0], CONTEXT_SIZE) ==> Load(m1.mem, a) == Load(m.mem, a) {
      StoresLeave(SwtchSave(), A0, CONTEXT_SIZE, m, a);
    }
    LoadsLeave(SwtchLoad(), A1, CONTEXT_SIZE, m1, 0);
    var m' := Exec(SwtchLoad(), m1);
    forall i: nat | i < 14
      ensures Load(m1.mem, m.x[A0] + 8 * i) == CalleeOf(m.x)[i] && m'.x[Callee(i)] == c[i]
    {
      StoresWrite(SwtchSave(), A0, CONTEXT_SIZE, m, i);
      LoadsFill(SwtchLoad(), A1, CONTEXT_SIZE, m1, i);
    }
  }

  /** The registers that a called function has to keep: ra, sp, s0, s1 and s2 to s11. */
  ghost predicate SameKept(x: Regs, y: Regs) {
    && x[1] == y[1] && x[2] == y[2] && x[8] == y[8] && x[9] == y[9]
    && forall r: nat {:trigger x[r]} :: 18 <= r < 28 ==> x[r] == y[r]
  }

  /** They are in memory as `struct context` has them: ra at 0, sp at 8, s0 at 16, s1 at 24, s2 to s11 from
      32 to 104. */
  ghost predicate SavedAt(mem: Mem, base: nat, x: Regs) {
    && Load(mem, base) == x[1] && Load(mem, base + 8) == x[2]
    && Load(mem, base + 16) == x[8] && Load(mem, base + 24) == x[9]
    && forall r: nat {:trigger x[r]} :: 18 <= r < 28 ==> Load(mem, base + 32 + 8 * (r - 18)) == x[r]
  }

  /** `swtch`, register by register: each lands in its field of the old context and comes from its field
      of the new one. */
  lemma SwtchByField(m: Machine)
    requires m.x[A0] + CONTEXT_SIZE <= WORD_MOD && m.x[A1] + CONTEXT_SIZE <= WORD_MOD
    requires m.x[A0] + CONTEXT_SIZE <= m.x[A1] || m.x[A1] + CONTEXT_SIZE <= m.x[A0]
    ensures var m' := Exec(Swtch(), m);
            SavedAt(m'.mem, m.x[A0], m.x) && SavedAt(m.mem, m.x[A1], m'.x)
  {
    hide Exec;
    var c := seq(14, i requires 0 <= i < 14 => Load(m.mem, m.x[A1] + 8 * i));
    SwtchMoves(m, c);
    var m' := Exec(Swtch(), m);
    ContextFields(m'.mem, m.x[A0], m.x);
    ContextFields(m.mem, m.x[A1], m'.x);
  }

  /** A context in the order of `swtch` is a `struct context`. */
  lemma ContextFields(mem: Mem, base: nat, x: Regs)
    requires Context(mem, base, CalleeOf(x))
    ensures SavedAt(mem, base, x)
  {
    var c := CalleeOf(x);
    assert c[0] == x[1] && c[1] == x[2] && c[2] == x[8] && c[3] == x[9];
    forall r: nat | 18 <= r < 28 ensures Load(mem, base + 32 + 8 * (r - 18)) == x[r] {
      assert c[r - 14] == x[r];
    }
  }

  // ---------- the handler's own frame ----------

  /** ra, s0 .. s11. */
  function Kept(i: nat): nat {
    if i == 0 then 1 else if i < 3 then i + 7 else i + 15
  }

  function KeepStores(): (p: seq<Instr>)
    ensures |p| == 13
  {
    seq(13, i requires 0 <= i => Sd(Kept(i), 8 * i, SP))
  }

  function KeepLoads(): (p: seq<Instr>)
    ensures |p| == 13
  {
    seq(13, i requires 0 <= i => Ld(Kept(i), 8 * i, SP))
  }

  function HandlerPrologue(frame: nat): seq<Instr> {
    [Addi(SP, SP, 0 - frame)] + KeepStores()
  }

  function HandlerEpilogue(frame: nat): seq<Instr> {
    KeepLoads() + [Addi(SP, SP, frame)]
  }

  /** The handler's frame at `base` keeps ra and the callee-saved registers of `x`. */
  ghost predicate KeptAt(mem: Mem, base: int, x: Regs) {
    forall i: nat {:trigger Kept(i)} :: i < 13 ==> Load(mem, base + 8 * i) == x[Kept(i)]
  }

  lemma KeepBlocks()
    ensures StoreBlock(KeepStores(), SP, SAVED_AREA) && LoadBlock(KeepLoads(), SP, SAVED_AREA)
  {
  }

  lemma ExecOne(i: Instr, m: Machine)
    ensures Exec([i], m) == Step(i, m)
  {
    assert [i][1..] == [];
    assert Exec([], Step(i, m)) == Step(i, m);
  }

  lemma PrologueKeeps(frame: nat, m: Machine)
    requires SAVED_AREA <= frame <= m.x[SP] < WORD_MOD
    ensures var m' := Exec(HandlerPrologue(frame), m);
            && m'.x[SP] == m.x[SP] - frame && KeptAt(m'.mem, m'.x[SP], m.x)
            && (forall a: int {:trigger Load(m'.mem, a)} :: !Inside(a, m'.x[SP], SAVED_AREA) ==>
                 Load(m'.mem, a) == Load(m.mem, a))
            && m'.csr == m.csr
  {
    hide Exec, StoreBlock, LoadBlock;
    KeepBlocks();
    var first := [Addi(SP, SP, 0 - frame)];
    ExecAppend(first, KeepStores(), m);
    ExecOne(Addi(SP, SP, 0 - frame), m);
    var m1 := Exec(first, m);
    assert m1 == m.(x := m.x[SP := m.x[SP] - frame]);
    var m' := Exec(KeepStores(), m1);
    StoresLeave(KeepStores(), SP, SAVED_AREA, m1, 0);
    forall a: int ensures !Inside(a, m1.x[SP], SAVED_AREA) ==> Load(m'.mem, a) == Load(m.mem, a) {
      StoresLeave(KeepStores(), SP, SAVED_AREA, m1, a);
    }
    forall i: nat | i < 13 ensures Load(m'.mem, m1.x[SP] + 8 * i) == m.x[Kept(i)] {
      StoresWrite(KeepStores(), SP, SAVED_AREA, m1, i);
    }
  }

  lemma EpilogueRestores(frame: nat, m: Machine, x: Regs)
    requires SAVED_AREA <= frame && m.x[SP] + frame < WORD_MOD && KeptAt(m.mem, m.x[SP], x)
    ensures var m' := Exec(HandlerEpilogue(frame), m);
            && m'.x[SP] == m.x[SP] + frame && m'.mem == m.mem && m'.csr == m.csr
            && (forall i: nat {:trigger Kept(i)} :: i < 13 ==> m'.x[Kept(i)] == x[Kept(i)])
            && m'.x[1] == x[1] && m'.x[8] == x[8] && m'.x[9] == x[9]
            && (forall r: nat {:trigger m'.x[r]} :: 18 <= r < 28 ==> m'.x[r] == x[r])
  {
    hide Exec, StoreBlock, LoadBlock;
    KeepBlocks();
    var last := Addi(SP, SP, frame);
    ExecAppend(KeepLoads(), [last], m);
    var m1 := Exec(KeepLoads(), m);
    ExecOne(last, m1);
    LoadsLeave(KeepLoads(), SP, SAVED_AREA, m, SP);
    forall i: nat | i < 13 ensures m1.x[Kept(i)] == x[Kept(i)] {
      LoadsFill(KeepLoads(), SP, SAVED_AREA, m, i);
    }
    assert Kept(0) == 1 && Kept(1) == 8 && Kept(2) == 9;
    forall r: nat | 18 <= r < 28 ensures m1.x[r] == x[r] {
      assert Kept(r - 15) == r;
    }
  }

  // ---------- trap_vector ----------

  /** gp, tp, t1 .. t6 without t0, in ascending order: the registers saved in one run. */
  function Gpr(i: nat): nat {
    if i < 2 then i + 3 else i + 4
  }

  function GprStores(): (p: seq<Instr>)
    ensures |p| == 28
  {
    seq(28, i requires 0 <= i => Sd(Gpr(i), 8 * Gpr(i), SP))
  }

  /** Frame allocation, ra, t0, and the stack pointer from before the trap. */
  function TrapHead(): seq<Instr> {
    [Addi(SP, SP, -288), Sd(RA, 8, SP), Sd(T0, 40, SP), Addi(T0, SP, 288), Sd(T0, 16, SP)]
  }

  function SaveCsr(c: Csr, off: nat): seq<Instr> {
    [Csrr(T0, c), Sd(T0, off, SP)]
  }

  function RestoreCsr(c: Csr, off: nat): seq<Instr> {
    [Ld(T0, off, SP), Csrw(c, T0)]
  }

  /** The four CSRs, and the frame address as the handler's argument. */
  function TrapCsrs(): seq<Instr> {
    SaveCsr(SSTATUS, 256) + SaveCsr(SEPC, 264) + SaveCsr(SCAUSE, 272) + SaveCsr(STVAL, 280) + [Addi(A0, SP, 0)]
  }

  function TrapEntry(): seq<Instr> {
    TrapHead() + GprStores() + TrapCsrs()
  }

  /** ra and x3 .. x31. */
  function Back(i: nat): nat {
    if i == 0 then 1 else i + 2
  }

  function GprLoads(): (p: seq<Instr>)
    ensures |p| == 30
  {
    seq(30, i requires 0 <= i => Ld(Back(i), 8 * Back(i), SP))
  }

  function TrapExit(): seq<Instr> {
    RestoreCsr(SSTATUS, 256) + RestoreCsr(SEPC, 264) + GprLoads() + [Ld(SP, 16, SP)]
  }

  /** The trap frame at `base` holds all general registers, sstatus and sepc. */
  ghost predicate FrameHolds(mem: Mem, base: int, x: Regs, sstatus: nat, sepc: nat) {
    && (forall r: nat {:trigger x[r]} :: 1 <= r < 32 ==> Load(mem, base + 8 * r) == x[r])
    && Load(mem, base + 256) == sstatus && Load(mem, base + 264) == sepc
  }

  lemma GprBlocks()
    ensures StoreBlock(GprStores(), SP, TRAP_FRAME) && LoadBlock(GprLoads(), SP, TRAP_FRAME)
  {
  }

  /** The machine after the first five instructions. */
  lemma HeadEffect(m: Machine)
    requires TRAP_FRAME <= m.x[SP] < WORD_MOD
    ensures var f, m' := m.x[SP] - TRAP_FRAME, Exec(TrapHead(), m);
            && m'.x == m.x[SP := f][T0 := m.x[SP]] && m'.csr == m.csr
            && m'.mem == m.mem[f + 8 := m.x[RA]][f + 40 := m.x[T0]][f + 16 := m.x[SP]]
  {
    hide Exec, Add64;
    var f := m.x[SP] - TRAP_FRAME;
    AddSmall(m.x[SP], -288);
    AddSmall(f, 8);
    AddSmall(f, 16);
    AddSmall(f, 40);
    AddSmall(f, 288);
    var p := TrapHead();
    var m1 := m.(x := m.x[SP := f]);
    ExecCons(p, m);
    assert Step(p[0], m) == m1;
    var p1 := p[1..];
    var m2 := m1.(mem := m1.mem[f + 8 := m.x[RA]]);
    ExecCons(p1, m1);
    assert Step(p1[0], m1) == m2;
    var p2 := p1[1..];
    var m3 := m2.(mem := m2.mem[f + 40 := m.x[T0]]);
    ExecCons(p2, m2);
    assert Step(p2[0], m2) == m3;
    var p3 := p2[1..];
    var m4 := m3.(x := m3.x[T0 := m.x[SP]]);
    ExecCons(p3, m3);
    assert Step(p3[0], m3) == m4;
    var p4 := p3[1..];
    assert p4 == [Sd(T0, 16, SP)];
    ExecOne(p4[0], m4);
  }

  lemma SaveCsrEffect(c: Csr, off: nat, m: Machine)
    requires m.x[SP] + off < WORD_MOD
    ensures Exec(SaveCsr(c, off), m) ==
            m.(x := m.x[T0 := CsrOf(m, c)], mem := m.mem[m.x[SP] + off := CsrOf(m, c)])
  {
    hide Exec, Add64;
    AddSmall(m.x[SP], off);
    var p := SaveCsr(c, off);
    ExecCons(p, m);
    assert p[1..] == [Sd(T0, off, SP)];
    ExecOne(p[1], Step(p[0], m));
  }

  lemma RestoreCsrEffect(c: Csr, off: nat, m: Machine)
    requires m.x[SP] + off < WORD_MOD
    ensures var v := Load(m.mem, m.x[SP] + off);
            Exec(RestoreCsr(c, off), m) == m.(x := m.x[T0 := v], csr := m.csr[c := v])
  {
    hide Exec, Add64;
    AddSmall(m.x[SP], off);
    var p := RestoreCsr(c, off);
    ExecCons(p, m);
    assert p[1..] == [Csrw(c, T0)];
    ExecOne(p[1], Step(p[0], m));
  }

  lemma CsrsEffect(m: Machine)
    requires m.x[SP] + TRAP_FRAME <= WORD_MOD
    ensures var b, m' := m.x[SP], Exec(TrapCsrs(), m);
            && m'.x[SP] == b == m'.x[A0] && (forall r: nat :: r < 32 && r != T0 && r != A0 ==> m'.x[r] == m.x[r])
            && m'.mem == m.mem[b + 256 := CsrOf(m, SSTATUS)][b + 264 := CsrOf(m, SEPC)]
                              [b + 272 := CsrOf(m, SCAUSE)][b + 280 := CsrOf(m, STVAL)]
            && m'.csr == m.csr
  {
    hide Exec, SaveCsr;
    var p1, p2, p3, p4 := SaveCsr(SSTATUS, 256), SaveCsr(SEPC, 264), SaveCsr(SCAUSE, 272), SaveCsr(STVAL, 280);
    var last := Addi(A0, SP, 0);
    ExecAppend(p1 + p2 + p3 + p4, [last], m);
    ExecAppend(p1 + p2 + p3, p4, m);
    ExecAppend(p1 + p2, p3, m);
    ExecAppend(p1, p2, m);
    SaveCsrEffect(SSTATUS, 256, m);
    var m1 := Exec(p1, m);
    SaveCsrEffect(SEPC, 264, m1);
    var m2 := Exec(p2, m1);
    SaveCsrEffect(SCAUSE, 272, m2);
    var m3 := Exec(p3, m2);
    SaveCsrEffect(STVAL, 280, m3);
    ExecOne(last, Exec(p4, m3));
  }

  /** Entering the trap vector puts every general register, sstatus and sepc in the frame below the
      interrupted stack pointer and writes nothing outside the frame. */
  lemma TrapEntrySaves(m: Machine)
    requires TRAP_FRAME <= m.x[SP] < WORD_MOD
    ensures var f, m' := m.x[SP] - TRAP_FRAME, Exec(TrapEntry(), m);
            && m'.x[SP] == f && FrameHolds(m'.mem, f, m.x, CsrOf(m, SSTATUS), CsrOf(m, SEPC))
            && Load(m'.mem, f + 272) == CsrOf(m, SCAUSE) && Load(m'.mem, f + 280) == CsrOf(m, STVAL) && m'.x[10] == f
            && (forall i: nat {:trigger Kept(i)} :: 1 <= i < 13 ==> m'.x[Kept(i)] == m.x[Kept(i)])
            && (forall a: int {:trigger Load(m'.mem, a)} :: !Inside(a, f, TRAP_FRAME) ==>
                 Load(m'.mem, a) == Load(m.mem, a))
            && m'.csr == m.csr
  {
    hide Exec, StoreBlock, LoadBlock, TrapHead, TrapCsrs, GprStores;
    var f := m.x[SP] - TRAP_FRAME;
    GprBlocks();
    ExecAppend(TrapHead() + GprStores(), TrapCsrs(), m);
    ExecAppend(TrapHead(), GprStores(), m);
    HeadEffect(m);
    var m1 := Exec(TrapHead(), m);
    var m2 := Exec(GprStores(), m1);
    GprStoresEffect(m1);
    CsrsEffect(m2);
    var m' := Exec(TrapCsrs(), m2);
    forall r: nat | 1 <= r < 32 ensures Load(m'.mem, f + 8 * r) == m.x[r] {
      if r == RA || r == SP || r == T0 {
        assert Load(m2.mem, f + 8 * r) == Load(m1.mem, f + 8 * r);
      } else {
        assert m1.x[r] == m.x[r];
      }
    }
    forall a: int | !Inside(a, f, TRAP_FRAME) ensures Load(m'.mem, a) == Load(m.mem, a) {
      assert Load(m'.mem, a) == Load(m2.mem, a) && Load(m2.mem, a) == Load(m1.mem, a);
    }
  }

  lemma GprStoresEffect(m: Machine)
    requires m.x[SP] + TRAP_FRAME <= WORD_MOD
    ensures var b, m' := m.x[SP], Exec(GprStores(), m);
            && m'.x == m.x && m'.csr == m.csr
            && (forall r: nat {:trigger m.x[r]} :: 3 <= r < 32 && r != T0 ==> Load(m'.mem, b + 8 * r) == m.x[r])
            && (forall a: int {:trigger Load(m'.mem, a)} ::
                  !(b + 24 <= a < b + 256) || a == b + 40 ==> Load(m'.mem, a) == Load(m.mem, a))
  {
    hide Exec, StoreBlock, LoadBlock;
    GprBlocks();
    var b, m' := m.x[SP], Exec(GprStores(), m);
    StoresLeave(GprStores(), SP, TRAP_FRAME, m, 0);
    forall a: int | !(b + 24 <= a < b + 256) || a == b + 40 ensures Load(m'.mem, a) == Load(m.mem, a) {
      StoresLeave(GprStores(), SP, TRAP_FRAME, m, a);
    }
    forall r: nat | 3 <= r < 32 && r != T0 ensures Load(m'.mem, b + 8 * r) == m.x[r] {
      var i: nat := if r < 5 then r - 3 else r - 4;
      assert GprStores()[i] == Sd(r, 8 * r, SP);
      StoresWrite(GprStores(), SP, TRAP_FRAME, m, i);
    }
  }

  /** Leaving the trap vector restores exactly what the frame holds. */
  lemma TrapExitRestores(m: Machine, x: Regs, sstatus: nat, sepc: nat)
    requires m.x[SP] + TRAP_FRAME <= WORD_MOD && FrameHolds(m.mem, m.x[SP], x, sstatus, sepc)
    ensures var m' := Exec(TrapExit(), m);
            && (forall r: nat :: 1 <= r < 32 ==> m'.x[r] == x[r])
            && CsrOf(m', SSTATUS) == sstatus && CsrOf(m', SEPC) == sepc && m'.mem == m.mem
  {
    hide Exec, StoreBlock, LoadBlock, RestoreCsr, GprLoads;
    var b := m.x[SP];
    var p1, p2, p3, last := RestoreCsr(SSTATUS, 256), RestoreCsr(SEPC, 264), GprLoads(), Ld(SP, 16, SP);
    ExecAppend(p1 + p2 + p3, [last], m);
    ExecAppend(p1 + p2, p3, m);
    ExecAppend(p1, p2, m);
    RestoreCsrEffect(SSTATUS, 256, m);
    var m1 := Exec(p1, m);
    RestoreCsrEffect(SEPC, 264, m1);
    var m2 := Exec(p2, m1);
    GprLoadsEffect(m2);
    var m3 := Exec(p3, m2);
    ExecOne(last, m3);
    assert Load(m.mem, b + 8 * SP) == x[SP];
    forall r: nat | 1 <= r < 32 && r != SP ensures m3.x[r] == x[r] {
      assert Load(m.mem, b + 8 * r) == x[r];
    }
  }

  lemma GprLoadsEffect(m: Machine)
    requires m.x[SP] + TRAP_FRAME <= WORD_MOD
    ensures var b, m' := m.x[SP], Exec(GprLoads(), m);
            && m'.mem == m.mem && m'.csr == m.csr && m'.x[SP] == b
            && (forall r: nat {:trigger m'.x[r]} :: 1 <= r < 32 && r != SP ==> m'.x[r] == Load(m.mem, b + 8 * r))
  {
    hide Exec, StoreBlock, LoadBlock;
    GprBlocks();
    var b, m' := m.x[SP], Exec(GprLoads(), m);
    LoadsLeave(GprLoads(), SP, TRAP_FRAME, m, SP);
    forall r: nat | 1 <= r < 32 && r != SP ensures m'.x[r] == Load(m.mem, b + 8 * r) {
      var i: nat := if r == 1 then 0 else r - 2;
      assert GprLoads()[i] == Ld(r, 8 * r, SP);
      LoadsFill(GprLoads(), SP, TRAP_FRAME, m, i);
    }
  }
}

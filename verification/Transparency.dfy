/**
 M-mode timer interrupts inside the S-mode assembly. SIE does not mask them: they may come between
 any two instructions of the trap vector and of `swtch`, any number of times. Whatever the place,
 the routine leaves the registers, the S-mode CSRs and the memory outside the M-mode stack and
 `mtimecmp` as it does without them.
 */
module Transparency {
  import opened Basics
  import opened Rv64
  import opened ContextSwitch
  import opened TimerHandoff

  /** The machine timer interrupt comes, or the next instruction is carried out. */
  datatype Event = Irq(pc: nat) | Next

  /** The interrupt at `pc`, handled. */
  function AfterIrq(m: Machine, pc: nat): Machine {
    match MTrap(m.(csr := m.csr[MCAUSE := INTR_FLAG + TIMER_IRQ][MEPC := pc]))
    case Panic => m
    case Returned(m') => m'
  }

  /** A program with interrupts between its instructions; what is left after the last event runs
      without any. */
  function Interrupted(p: seq<Instr>, m: Machine, events: seq<Event>): Machine
    decreases |events|
  {
    if events == [] then Exec(p, m)
    else match events[0]
         case Irq(pc) => Interrupted(p, AfterIrq(m, pc), events[1..])
         case Next => if p == [] then Interrupted(p, m, events[1..])
             else Interrupted(p[1..], Step(p[0], m), events[1..])
  }

  predicate MachineCsr(c: Csr) {
    c == MSCRATCH || c == MCAUSE || c == MEPC
  }

  /** An instruction of S-mode code that leaves `sie` and `sip` alone. */
  predicate Supervisor(i: Instr) {
    match i
    case Csrr(_, c) => !MachineCsr(c)
    case Csrw(c, _) => !MachineCsr(c)
    case Csrrw(_, c, _) => !MachineCsr(c)
    case Csrs(_, _) => false
    case Csrc(_, _) => false
    case _ => true
  }

  /** Neither in the M-mode stack nor `mtimecmp`. */
  predicate Own(a: int, top: nat) {
    !OnStack(a, top) && a != MTIMECMP
  }

  /** The instruction accesses memory that is its own. */
  predicate AccessOk(i: Instr, m: Machine, top: nat) {
    match i
    case Sd(_, off, base) => base < 32 ==> Own(Add64(m.x[base], off), top)
    case Ld(_, off, base) => base < 32 ==> Own(Add64(m.x[base], off), top)
    case _ => true
  }

  /** So do all instructions of the program from `m` on. */
  ghost predicate AccessesOk(p: seq<Instr>, m: Machine, top: nat)
    decreases |p|
  {
    p != [] ==> Supervisor(p[0]) && AccessOk(p[0], m, top) && AccessesOk(p[1..], Step(p[0], m), top)
  }

  /** The same to S-mode: registers, CSRs and its own memory. Both have `mscratch` at the top of the
      M-mode stack. */
  ghost predicate Alike(m: Machine, m': Machine, top: nat) {
    && m'.x == m.x && Undisturbed(m, m', top)
    && (forall c: Csr {:trigger CsrOf(m', c)} :: !MachineCsr(c) ==> CsrOf(m', c) == CsrOf(m, c))
    && StackFits(m') && m'.csr[MSCRATCH] == top
  }

  lemma IrqIsAlike(m: Machine, m': Machine, pc: nat, top: nat)
    requires Alike(m, m', top)
    ensures Alike(m, AfterIrq(m', pc), top)
  {
    hide MTrap, Load, OnStack;
    var at := m'.(csr := m'.csr[MCAUSE := INTR_FLAG + TIMER_IRQ][MEPC := pc]);
    MTrapEffect(at);
    var m1 := AfterIrq(m', pc);
    forall a: int | Own(a, top) ensures Load(m1.mem, a) == Load(m.mem, a) {
      assert Load(at.mem, a) == Load(m.mem, a);
    }
    forall c: Csr | !MachineCsr(c) ensures CsrOf(m1, c) == CsrOf(m, c) {
      assert CsrOf(m1, c) == CsrOf(at, c) == CsrOf(m', c);
    }
  }

  /** A store to its own memory, the same in both. */
  lemma StoreIsAlike(m: Machine, m': Machine, a: int, v: nat, top: nat)
    requires Alike(m, m', top)
    ensures Alike(m.(mem := m.mem[a := v]), m'.(mem := m'.mem[a := v]), top)
  {
    hide OnStack;
    var m1, m1' := m.(mem := m.mem[a := v]), m'.(mem := m'.mem[a := v]);
    forall b: int | Own(b, top) ensures Load(m1'.mem, b) == Load(m1.mem, b) {
      assert Load(m'.mem, b) == Load(m.mem, b);
    }
    forall c: Csr ensures CsrOf(m1', c) == CsrOf(m', c) && CsrOf(m1, c) == CsrOf(m, c) {
    }
  }

  lemma RegIsAlike(m: Machine, m': Machine, r: nat, v: nat, top: nat)
    requires Alike(m, m', top) && r < 32
    ensures Alike(SetReg(m, r, v), SetReg(m', r, v), top)
  {
    hide OnStack, Load;
    var m1, m1' := SetReg(m, r, v), SetReg(m', r, v);
    forall a: int | Own(a, top) ensures Load(m1'.mem, a) == Load(m1.mem, a) {
      assert Load(m'.mem, a) == Load(m.mem, a);
    }
    forall c: Csr ensures CsrOf(m1', c) == CsrOf(m', c) && CsrOf(m1, c) == CsrOf(m, c) {
    }
  }

  lemma CsrIsAlike(m: Machine, m': Machine, c: Csr, v: nat, top: nat)
    requires Alike(m, m', top) && !MachineCsr(c)
    ensures Alike(m.(csr := m.csr[c := v]), m'.(csr := m'.csr[c := v]), top)
  {
    hide OnStack, Load;
    var m1, m1' := m.(csr := m.csr[c := v]), m'.(csr := m'.csr[c := v]);
    forall a: int | Own(a, top) ensures Load(m1'.mem, a) == Load(m1.mem, a) {
      assert Load(m'.mem, a) == Load(m.mem, a);
    }
    forall d: Csr | !MachineCsr(d) ensures CsrOf(m1', d) == CsrOf(m1, d) {
      assert CsrOf(m', d) == CsrOf(m, d);
    }
  }

  lemma ReadsAlike(m: Machine, m': Machine, a: int, c: Csr, top: nat)
    requires Alike(m, m', top)
    ensures m'.x == m.x && (Own(a, top) ==> Load(m'.mem, a) == Load(m.mem, a))
            && (!MachineCsr(c) ==> CsrOf(m', c) == CsrOf(m, c))
  {
    hide Load, OnStack;
  }

  lemma StepIsAlike(i: Instr, m: Machine, m': Machine, top: nat)
    requires Alike(m, m', top) && Supervisor(i) && AccessOk(i, m, top)
    ensures Alike(Step(i, m), Step(i, m'), top)
  {
    hide Add64, Alike, Load, CsrOf, SetReg, Own;
    ReadsAlike(m, m', 0, SSTATUS, top);
    if WellFormed(i) {
      match i
      case Addi(rd, rs, imm) => RegIsAlike(m, m', rd, Add64(m.x[rs], imm), top);
      case Li(rd, v) => RegIsAlike(m, m', rd, v, top);
      case Sd(rs, off, base) => StoreIsAlike(m, m', Add64(m.x[base], off), m.x[rs], top);
      case Ld(rd, off, base) =>
        ReadsAlike(m, m', Add64(m.x[base], off), SSTATUS, top);
        RegIsAlike(m, m', rd, Load(m.mem, Add64(m.x[base], off)), top);
      case Csrr(rd, c) =>
        ReadsAlike(m, m', 0, c, top);
        RegIsAlike(m, m', rd, CsrOf(m, c), top);
      case Csrw(c, rs) => CsrIsAlike(m, m', c, m.x[rs], top);
      case Csrrw(rd, c, rs) =>
        ReadsAlike(m, m', 0, c, top);
        CsrIsAlike(m, m', c, m.x[rs], top);
        RegIsAlike(m.(csr := m.csr[c := m.x[rs]]), m'.(csr := m'.csr[c := m.x[rs]]), rd, CsrOf(m, c), top);
      case _ =>
    }
  }

  /** Interrupts anywhere in a program make no difference to S-mode. */
  lemma {:induction false} Transparent(p: seq<Instr>, m: Machine, m': Machine, events: seq<Event>, top: nat)
    requires Alike(m, m', top) && AccessesOk(p, m, top)
    ensures Alike(Exec(p, m), Interrupted(p, m', events), top)
    decreases |events| + |p|
  {
    hide Alike, AfterIrq, Step, Supervisor, AccessOk;
    if events == [] {
      if p != [] {
        StepIsAlike(p[0], m, m', top);
        Transparent(p[1..], Step(p[0], m), Step(p[0], m'), [], top);
      }
    } else if events[0].Irq? {
      IrqIsAlike(m, m', events[0].pc, top);
      Transparent(p, m, AfterIrq(m', events[0].pc), events[1..], top);
    } else if p == [] {
      Transparent(p, m, m', events[1..], top);
    } else {
      StepIsAlike(p[0], m, m', top);
      Transparent(p[1..], Step(p[0], m), Step(p[0], m'), events[1..], top);
    }
  }

  // ---------- the routines of trap.S and process.S ----------

  /** Every address of an area is S-mode's own. */
  ghost predicate OwnArea(base: int, size: int, top: nat) {
    forall a: int {:trigger Own(a, top)} :: Inside(a, base, size) ==> Own(a, top)
  }

  lemma {:induction false} AccessesAppend(p: seq<Instr>, q: seq<Instr>, m: Machine, top: nat)
    requires AccessesOk(p, m, top) && AccessesOk(q, Exec(p, m), top)
    ensures AccessesOk(p + q, m, top)
    decreases |p|
  {
    hide Step, AccessOk, Supervisor;
    if p == [] {
      assert p + q == q;
    } else {
      assert (p + q)[1..] == p[1..] + q;
      AccessesAppend(p[1..], q, Step(p[0], m), top);
    }
  }

  lemma {:induction false} StoresOk(p: seq<Instr>, base: nat, size: nat, m: Machine, top: nat)
    requires StoreBlock(p, base, size) && m.x[base] + size <= WORD_MOD && OwnArea(m.x[base], size, top)
    ensures AccessesOk(p, m, top)
    decreases |p|
  {
    hide Step, Add64, Own, OwnArea;
    if p != [] {
      var m1 := FirstStore(p, base, size, m);
      OwnAccess(m.x[base], size, p[0].off, top);
      StoresOk(p[1..], base, size, m1, top);
    }
  }

  lemma {:induction false} LoadsOk(p: seq<Instr>, base: nat, size: nat, m: Machine, top: nat)
    requires LoadBlock(p, base, size) && m.x[base] + size <= WORD_MOD && OwnArea(m.x[base], size, top)
    ensures AccessesOk(p, m, top)
    decreases |p|
  {
    hide Step, Add64, Own, OwnArea;
    if p != [] {
      var m1 := FirstLoad(p, base, size, m);
      OwnAccess(m.x[base], size, p[0].off, top);
      LoadsOk(p[1..], base, size, m1, top);
    }
  }

  lemma OwnAccess(base: nat, size: nat, off: int, top: nat)
    requires OwnArea(base, size, top) && 0 <= off < size && base + size <= WORD_MOD
    ensures Add64(base, off) == base + off && Own(Add64(base, off), top)
  {
    hide Own, Add64;
    AddSmall(base, off);
    assert Inside(base + off, base, size);
    assert Own(base + off, top);
  }

  /** `swtch` is not disturbed by M-mode interrupts. */
  lemma SwtchInterrupted(m: Machine, m': Machine, events: seq<Event>, top: nat)
    requires Alike(m, m', top) && m.x[A0] + CONTEXT_SIZE <= WORD_MOD && m.x[A1] + CONTEXT_SIZE <= WORD_MOD
    requires OwnArea(m.x[A0], CONTEXT_SIZE, top) && OwnArea(m.x[A1], CONTEXT_SIZE, top)
    ensures Alike(Exec(Swtch(), m), Interrupted(Swtch(), m', events), top)
  {
    hide Exec, StoreBlock, LoadBlock, OwnArea, AccessesOk, Alike;
    SwtchBlocks();
    var m1 := Exec(SwtchSave(), m);
    StoresLeave(SwtchSave(), A0, CONTEXT_SIZE, m, 0);
    StoresOk(SwtchSave(), A0, CONTEXT_SIZE, m, top);
    LoadsOk(SwtchLoad(), A1, CONTEXT_SIZE, m1, top);
    AccessesAppend(SwtchSave(), SwtchLoad(), m, top);
    Transparent(Swtch(), m, m', events, top);
  }

  lemma OneOk(i: Instr, m: Machine, top: nat)
    requires Supervisor(i) && AccessOk(i, m, top)
    ensures AccessesOk([i], m, top)
  {
    hide Step;
    assert [i][1..] == [];
  }

  /** A CSR is stored in the trap frame ... */
  lemma SaveCsrOk(c: Csr, off: nat, m: Machine, top: nat)
    requires !MachineCsr(c) && m.x[SP] + TRAP_FRAME <= WORD_MOD && off < TRAP_FRAME && OwnArea(m.x[SP], TRAP_FRAME, top)
    ensures AccessesOk(SaveCsr(c, off), m, top)
  {
    hide Add64, Own, OwnArea;
    var p := SaveCsr(c, off);
    assert p[1..] == [Sd(T0, off, SP)];
    OwnAccess(m.x[SP], TRAP_FRAME, off, top);
    OneOk(Sd(T0, off, SP), Step(p[0], m), top);
  }

  /** ... and loaded from there. */
  lemma RestoreCsrOk(c: Csr, off: nat, m: Machine, top: nat)
    requires !MachineCsr(c) && m.x[SP] + TRAP_FRAME <= WORD_MOD && off < TRAP_FRAME && OwnArea(m.x[SP], TRAP_FRAME, top)
    ensures AccessesOk(RestoreCsr(c, off), m, top)
  {
    hide Add64, Own, OwnArea;
    var p := RestoreCsr(c, off);
    assert p[1..] == [Csrw(c, T0)];
    OwnAccess(m.x[SP], TRAP_FRAME, off, top);
    OneOk(Csrw(c, T0), Step(p[0], m), top);
  }

  lemma TrapCsrsOk(m: Machine, top: nat)
    requires m.x[SP] + TRAP_FRAME <= WORD_MOD && OwnArea(m.x[SP], TRAP_FRAME, top)
    ensures AccessesOk(TrapCsrs(), m, top)
  {
    hide Exec, SaveCsr, OwnArea, AccessesOk;
    var p1, p2, p3, p4 := SaveCsr(SSTATUS, 256), SaveCsr(SEPC, 264), SaveCsr(SCAUSE, 272), SaveCsr(STVAL, 280);
    var last := Addi(A0, SP, 0);
    ExecAppend(p1 + p2 + p3, p4, m);
    ExecAppend(p1 + p2, p3, m);
    ExecAppend(p1, p2, m);
    SaveCsrOk(SSTATUS, 256, m, top);
    SaveCsrEffect(SSTATUS, 256, m);
    var m1 := Exec(p1, m);
    SaveCsrOk(SEPC, 264, m1, top);
    SaveCsrEffect(SEPC, 264, m1);
    var m2 := Exec(p2, m1);
    SaveCsrOk(SCAUSE, 272, m2, top);
    SaveCsrEffect(SCAUSE, 272, m2);
    var m3 := Exec(p3, m2);
    SaveCsrOk(STVAL, 280, m3, top);
    AccessesAppend(p1, p2, m, top);
    AccessesAppend(p1 + p2, p3, m, top);
    AccessesAppend(p1 + p2 + p3, p4, m, top);
    OneOk(last, Exec(p1 + p2 + p3 + p4, m), top);
    AccessesAppend(p1 + p2 + p3 + p4, [last], m, top);
  }

  lemma TrapHeadOk(m: Machine, top: nat)
    requires TRAP_FRAME <= m.x[SP] < WORD_MOD && OwnArea(m.x[SP] - TRAP_FRAME, TRAP_FRAME, top)
    ensures AccessesOk(TrapHead(), m, top)
  {
    hide Add64, Own, OwnArea, AccessesOk;
    var f := m.x[SP] - TRAP_FRAME;
    AddSmall(m.x[SP], -288);
    OwnAccess(f, TRAP_FRAME, 8, top);
    OwnAccess(f, TRAP_FRAME, 40, top);
    OwnAccess(f, TRAP_FRAME, 16, top);
    var m1 := Step(Addi(SP, SP, -288), m);
    var m2 := Step(Sd(RA, 8, SP), m1);
    var m3 := Step(Sd(T0, 40, SP), m2);
    var m4 := Step(Addi(T0, SP, 288), m3);
    assert m1.x[SP] == f && m2.x[SP] == f && m3.x[SP] == f && m4.x[SP] == f;
    var p4 := [Sd(T0, 16, SP)];
    var p3 := [Addi(T0, SP, 288)] + p4;
    var p2 := [Sd(T0, 40, SP)] + p3;
    var p1 := [Sd(RA, 8, SP)] + p2;
    OneOk(Sd(T0, 16, SP), m4, top);
    ConsOk(Addi(T0, SP, 288), p4, m3, top);
    ConsOk(Sd(T0, 40, SP), p3, m2, top);
    ConsOk(Sd(RA, 8, SP), p2, m1, top);
    ConsOk(Addi(SP, SP, -288), p1, m, top);
    assert TrapHead() == [Addi(SP, SP, -288)] + p1;
  }

  lemma ConsOk(i: Instr, p: seq<Instr>, m: Machine, top: nat)
    requires Supervisor(i) && AccessOk(i, m, top) && AccessesOk(p, Step(i, m), top)
    ensures AccessesOk([i] + p, m, top)
  {
    hide Step;
    assert ([i] + p)[1..] == p;
  }

  /** Nor is the entry of the S-mode trap vector ... */
  lemma EntryInterrupted(m: Machine, m': Machine, events: seq<Event>, top: nat)
    requires Alike(m, m', top) && TRAP_FRAME <= m.x[SP] < WORD_MOD && OwnArea(m.x[SP] - TRAP_FRAME, TRAP_FRAME, top)
    ensures Alike(Exec(TrapEntry(), m), Interrupted(TrapEntry(), m', events), top)
  {
    hide Exec, StoreBlock, LoadBlock, OwnArea, AccessesOk, Alike, TrapHead, TrapCsrs, GprStores;
    GprBlocks();
    HeadEffect(m);
    var m1 := Exec(TrapHead(), m);
    var m2 := Exec(GprStores(), m1);
    StoresLeave(GprStores(), SP, TRAP_FRAME, m1, 0);
    TrapHeadOk(m, top);
    StoresOk(GprStores(), SP, TRAP_FRAME, m1, top);
    TrapCsrsOk(m2, top);
    AccessesAppend(TrapHead(), GprStores(), m, top);
    ExecAppend(TrapHead(), GprStores(), m);
    AccessesAppend(TrapHead() + GprStores(), TrapCsrs(), m, top);
    Transparent(TrapEntry(), m, m', events, top);
  }

  /** ... nor its exit. */
  lemma ExitInterrupted(m: Machine, m': Machine, events: seq<Event>, top: nat)
    requires Alike(m, m', top) && m.x[SP] + TRAP_FRAME <= WORD_MOD && OwnArea(m.x[SP], TRAP_FRAME, top)
    ensures Alike(Exec(TrapExit(), m), Interrupted(TrapExit(), m', events), top)
  {
    hide Exec, StoreBlock, LoadBlock, OwnArea, AccessesOk, Alike, RestoreCsr, GprLoads, Own, Add64;
    var p1, p2, p3, last := RestoreCsr(SSTATUS, 256), RestoreCsr(SEPC, 264), GprLoads(), Ld(SP, 16, SP);
    GprBlocks();
    ExecAppend(p1, p2, m);
    ExecAppend(p1 + p2, p3, m);
    RestoreCsrOk(SSTATUS, 256, m, top);
    RestoreCsrEffect(SSTATUS, 256, m);
    var m1 := Exec(p1, m);
    RestoreCsrOk(SEPC, 264, m1, top);
    RestoreCsrEffect(SEPC, 264, m1);
    var m2 := Exec(p2, m1);
    LoadsOk(p3, SP, TRAP_FRAME, m2, top);
    GprLoadsEffect(m2);
    var m3 := Exec(p3, m2);
    OwnAccess(m.x[SP], TRAP_FRAME, 16, top);
    OneOk(last, m3, top);
    AccessesAppend(p1, p2, m, top);
    AccessesAppend(p1 + p2, p3, m, top);
    AccessesAppend(p1 + p2 + p3, [last], m, top);
    Transparent(TrapExit(), m, m', events, top);
  }
}

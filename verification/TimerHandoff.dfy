/**
 The timer hand-off between M-mode and S-mode. The M-mode trap vector is its instruction
 sequence; above it, a run interleaves arming calls from S-mode, the passing of time, machine
 timer interrupts and arbitrary S-mode work.
 */
module TimerHandoff {
  import opened Basics
  import opened Rv64

  const MTIMECMP: nat := 0x200_4000
  const MTIE: nat := 0x80
  const STIP: nat := 0x20
  const ECALL_S: nat := 9
  const INTR_FLAG: nat := 0x8000_0000_0000_0000
  const TIMER_IRQ: nat := 7

  // ---------- the trap vector ----------

  /** Swap in the M-mode stack, save t1, t2, a0, a7 and the original t0, read the cause. */
  function Enter(): seq<Instr> {
    [Csrrw(T0, MSCRATCH, T0), Addi(T0, T0, -40)]
    + [Sd(T1, 0, T0), Sd(T2, 8, T0)] + [Sd(A0, 16, T0), Sd(A7, 24, T0)]
    + [Csrr(T1, MSCRATCH), Sd(T1, 32, T0), Csrr(T1, MCAUSE)]
  }

  /** `mtimecmp = a0`, clear STIP, set MTIE, step over the ecall. */
  function Arm(): seq<Instr> {
    [Li(T1, MTIMECMP), Sd(A0, 0, T1)] + [Li(T1, STIP), Csrc(Mip, T1)] + [Li(T1, MTIE), Csrs(Mie, T1)]
    + [Csrr(T1, MEPC), Addi(T1, T1, 4), Csrw(MEPC, T1)]
  }

  /** Clear MTIE, set STIP. */
  function Raise(): seq<Instr> {
    [Li(T1, MTIE), Csrc(Mie, T1)] + [Li(T1, STIP), Csrs(Mip, T1)]
  }

  function Leave(): seq<Instr> {
    [Ld(T2, 8, T0), Ld(A0, 16, T0), Ld(A7, 24, T0)] + [Addi(T1, T0, 40), Csrw(MSCRATCH, T1)]
    + [Ld(T1, 0, T0), Ld(T0, 32, T0)]
  }

  datatype Outcome = Panic | Returned(m: Machine)

  /** `mtrap_vector` with its branches. */
  function MTrap(m: Machine): Outcome {
    var e := Exec(Enter(), m);
    var cause := e.x[T1];
    if cause >= INTR_FLAG then
      if cause - INTR_FLAG != TIMER_IRQ then Panic
      else Returned(Exec(Leave(), Exec(Raise(), e.(x := e.x[T2 := TIMER_IRQ]))))
    else if cause != ECALL_S then Panic
    else if e.x[A7] != 0 then Panic
    else Returned(Exec(Leave(), Exec(Arm(), e.(x := e.x[T2 := 0]))))
  }

  /** The M-mode stack area that a trap uses. */
  predicate OnStack(a: int, top: int) {
    top - 40 <= a < top
  }

  ghost predicate StackFits(m: Machine) {
    && MSCRATCH in m.csr && 40 <= m.csr[MSCRATCH] <= WORD_MOD - 8 && !OnStack(MTIMECMP, m.csr[MSCRATCH])
  }

  lemma Exec2(a: Instr, b: Instr, m: Machine)
    ensures Exec([a, b], m) == Step(b, Step(a, m))
  {
    hide Step;
    assert [a, b][1..] == [b] && [b][1..] == [];
    ExecCons([a, b], m);
    ExecCons([b], Step(a, m));
    assert Exec([], Step(b, Step(a, m))) == Step(b, Step(a, m));
  }

  lemma Exec3(a: Instr, b: Instr, c: Instr, m: Machine)
    ensures Exec([a, b, c], m) == Step(c, Step(b, Step(a, m)))
  {
    hide Step, Exec;
    assert [a, b, c][1..] == [b, c];
    ExecCons([a, b, c], m);
    Exec2(b, c, Step(a, m));
  }

  lemma Exec4Parts(p: seq<Instr>, q: seq<Instr>, r: seq<Instr>, t: seq<Instr>, m: Machine)
    ensures Exec(p + q + r + t, m) == Exec(t, Exec(r, Exec(q, Exec(p, m))))
  {
    hide Exec;
    ExecAppend(p + q + r, t, m);
    ExecAppend(p + q, r, m);
    ExecAppend(p, q, m);
  }

  lemma Overwrite(x: Regs, r: nat, v: nat, w: nat)
    requires r < 32
    ensures x[r := v][r := w] == x[r := w]
  {
  }

  lemma SwapIn(m: Machine)
    requires StackFits(m)
    ensures Exec([Csrrw(T0, MSCRATCH, T0), Addi(T0, T0, -40)], m) ==
            m.(x := m.x[T0 := m.csr[MSCRATCH] - 40], csr := m.csr[MSCRATCH := m.x[T0]])
  {
    hide Exec, Add64;
    var top := m.csr[MSCRATCH];
    AddSmall(top, -40);
    Exec2(Csrrw(T0, MSCRATCH, T0), Addi(T0, T0, -40), m);
    Overwrite(m.x, T0, top, top - 40);
  }

  lemma StorePair(m: Machine, r: nat, off: nat, r': nat, off': nat)
    requires r < 32 && r' < 32 && m.x[T0] + off < WORD_MOD && m.x[T0] + off' < WORD_MOD
    ensures Exec([Sd(r, off, T0), Sd(r', off', T0)], m) ==
            m.(mem := m.mem[m.x[T0] + off := m.x[r]][m.x[T0] + off' := m.x[r']])
  {
    hide Exec, Step;
    Exec2(Sd(r, off, T0), Sd(r', off', T0), m);
    StoreOne(m, r, off);
    StoreOne(Step(Sd(r, off, T0), m), r', off');
  }

  lemma StoreOne(m: Machine, r: nat, off: nat)
    requires r < 32 && m.x[T0] + off < WORD_MOD
    ensures Step(Sd(r, off, T0), m) == m.(mem := m.mem[m.x[T0] + off := m.x[r]])
  {
    hide Add64;
    AddSmall(m.x[T0], off);
  }

  lemma SameCsr(m: Machine, m': Machine, c: Csr)
    requires m'.csr == m.csr
    ensures CsrOf(m', c) == CsrOf(m, c)
  {
  }

  lemma StoreScratch(m: Machine)
    requires m.x[T0] + 32 < WORD_MOD
    ensures var v, e := CsrOf(m, MSCRATCH), Exec([Csrr(T1, MSCRATCH), Sd(T1, 32, T0)], m);
            e.x == m.x[T1 := v] && e.mem == m.mem[m.x[T0] + 32 := v] && e.csr == m.csr && e.mie == m.mie
                && e.mip == m.mip
  {
    hide Exec, Step, CsrOf;
    var v, m1 := CsrOf(m, MSCRATCH), Step(Csrr(T1, MSCRATCH), m);
    Exec2(Csrr(T1, MSCRATCH), Sd(T1, 32, T0), m);
    ReadCsr(m);
    StoreKnown(m1, T1, 32, m.x[T0] + 32, v);
  }

  lemma StoreKnown(m: Machine, r: nat, off: nat, a: nat, v: nat)
    requires r < 32 && m.x[T0] + off == a < WORD_MOD && m.x[r] == v
    ensures Step(Sd(r, off, T0), m) == m.(mem := m.mem[a := v])
  {
    hide Step;
    StoreOne(m, r, off);
  }

  lemma ReadCsr(m: Machine)
    ensures var m1 := Step(Csrr(T1, MSCRATCH), m);
            m1 == m.(x := m.x[T1 := CsrOf(m, MSCRATCH)]) && m1.x[T1] == CsrOf(m, MSCRATCH) && m1.x[T0] == m.x[T0]
  {
  }

  lemma ReadCause(m: Machine)
    ensures Exec([Csrr(T1, MCAUSE)], m) == m.(x := m.x[T1 := CsrOf(m, MCAUSE)])
  {
    assert [Csrr(T1, MCAUSE)][1..] == [];
  }

  lemma SaveT0(m: Machine)
    requires m.x[T0] + 32 < WORD_MOD
    ensures var e := Exec([Csrr(T1, MSCRATCH), Sd(T1, 32, T0), Csrr(T1, MCAUSE)], m);
            && e.x == m.x[T1 := CsrOf(m, MCAUSE)] && e.mem == m.mem[m.x[T0] + 32 := CsrOf(m, MSCRATCH)]
            && e.csr == m.csr && e.mie == m.mie && e.mip == m.mip
  {
    hide Exec, Step, CsrOf;
    var p, q := [Csrr(T1, MSCRATCH), Sd(T1, 32, T0)], [Csrr(T1, MCAUSE)];
    assert p + q == [Csrr(T1, MSCRATCH), Sd(T1, 32, T0), Csrr(T1, MCAUSE)];
    ExecAppend(p, q, m);
    StoreScratch(m);
    ReadCause(Exec(p, m));
    SameCsr(m, Exec(p, m), MCAUSE);
    Overwrite(m.x, T1, CsrOf(m, MSCRATCH), CsrOf(m, MCAUSE));
  }

  /** After entry: t0 is the frame, the five registers are in it, the cause is in t1. */
  lemma EnterEffect(m: Machine)
    requires StackFits(m)
    ensures var b, e := m.csr[MSCRATCH] - 40, Exec(Enter(), m);
            && e.x == m.x[T0 := b][T1 := CsrOf(m, MCAUSE)]
            && e.mem == m.mem[b := m.x[T1]][b + 8 := m.x[T2]][b + 16 := m.x[A0]][b + 24 := m.x[A7]][b + 32 := m.x[T0]]
            && e.csr == m.csr[MSCRATCH := m.x[T0]] && e.mie == m.mie && e.mip == m.mip
  {
    hide Exec, Step, Add64;
    var b := m.csr[MSCRATCH] - 40;
    Exec4Parts([Csrrw(T0, MSCRATCH, T0), Addi(T0, T0, -40)], [Sd(T1, 0, T0), Sd(T2, 8, T0)],
               [Sd(A0, 16, T0), Sd(A7, 24, T0)], [Csrr(T1, MSCRATCH), Sd(T1, 32, T0), Csrr(T1, MCAUSE)], m);
    SwapIn(m);
    var m1 := m.(x := m.x[T0 := b], csr := m.csr[MSCRATCH := m.x[T0]]);
    StorePair(m1, T1, 0, T2, 8);
    var m2 := m1.(mem := m.mem[b := m.x[T1]][b + 8 := m.x[T2]]);
    StorePair(m2, A0, 16, A7, 24);
    var m3 := m2.(mem := m2.mem[b + 16 := m.x[A0]][b + 24 := m.x[A7]]);
    SaveT0(m3);
  }

  lemma SetFlag(m: Machine, f: Flags, mask: nat)
    ensures Exec([Li(T1, mask), Csrs(f, T1)], m) ==
            match f {
              case Mie => m.(x := m.x[T1 := mask], mie := m.mie + {mask})
              case Mip => m.(x := m.x[T1 := mask], mip := m.mip + {mask})
            }
  {
    hide Exec;
    Exec2(Li(T1, mask), Csrs(f, T1), m);
  }

  lemma ClearFlag(m: Machine, f: Flags, mask: nat)
    ensures Exec([Li(T1, mask), Csrc(f, T1)], m) ==
            match f {
              case Mie => m.(x := m.x[T1 := mask], mie := m.mie - {mask})
              case Mip => m.(x := m.x[T1 := mask], mip := m.mip - {mask})
            }
  {
    hide Exec;
    Exec2(Li(T1, mask), Csrc(f, T1), m);
  }

  lemma RaiseEffect(m: Machine)
    ensures Exec(Raise(), m) == m.(x := m.x[T1 := STIP], mie := m.mie - {MTIE}, mip := m.mip + {STIP})
  {
    hide Exec, Step;
    ExecAppend([Li(T1, MTIE), Csrc(Mie, T1)], [Li(T1, STIP), Csrs(Mip, T1)], m);
    ClearFlag(m, Mie, MTIE);
    SetFlag(m.(x := m.x[T1 := MTIE], mie := m.mie - {MTIE}), Mip, STIP);
    Overwrite(m.x, T1, MTIE, STIP);
  }

  lemma StoreCmp(m: Machine)
    ensures Exec([Li(T1, MTIMECMP), Sd(A0, 0, T1)], m) ==
            m.(x := m.x[T1 := MTIMECMP], mem := m.mem[MTIMECMP := m.x[A0]])
  {
    hide Exec, Add64;
    AddSmall(MTIMECMP, 0);
    Exec2(Li(T1, MTIMECMP), Sd(A0, 0, T1), m);
  }

  lemma SkipEcall(m: Machine)
    ensures var pc := Add64(CsrOf(m, MEPC), 4);
            Exec([Csrr(T1, MEPC), Addi(T1, T1, 4), Csrw(MEPC, T1)], m) ==
                m.(x := m.x[T1 := pc], csr := m.csr[MEPC := pc])
  {
    hide Exec, Add64;
    Exec3(Csrr(T1, MEPC), Addi(T1, T1, 4), Csrw(MEPC, T1), m);
    Overwrite(m.x, T1, CsrOf(m, MEPC), Add64(CsrOf(m, MEPC), 4));
  }

  lemma ArmEffect(m: Machine)
    ensures Exec(Arm(), m) ==
            m.(x := m.x[T1 := Add64(CsrOf(m, MEPC), 4)], mem := m.mem[MTIMECMP := m.x[A0]],
               mie := m.mie + {MTIE}, mip := m.mip - {STIP}, csr := m.csr[MEPC := Add64(CsrOf(m, MEPC), 4)])
  {
    hide Exec, Step, Add64;
    var x, pc := m.x, Add64(CsrOf(m, MEPC), 4);
    Exec4Parts([Li(T1, MTIMECMP), Sd(A0, 0, T1)], [Li(T1, STIP), Csrc(Mip, T1)], [Li(T1, MTIE), Csrs(Mie, T1)],
               [Csrr(T1, MEPC), Addi(T1, T1, 4), Csrw(MEPC, T1)], m);
    StoreCmp(m);
    var m1 := m.(x := x[T1 := MTIMECMP], mem := m.mem[MTIMECMP := m.x[A0]]);
    ClearFlag(m1, Mip, STIP);
    Overwrite(x, T1, MTIMECMP, STIP);
    var m2 := m1.(x := x[T1 := STIP], mip := m.mip - {STIP});
    SetFlag(m2, Mie, MTIE);
    Overwrite(x, T1, STIP, MTIE);
    var m3 := m2.(x := x[T1 := MTIE], mie := m.mie + {MTIE});
    SkipEcall(m3);
    Overwrite(x, T1, MTIE, pc);
  }

  lemma LoadThree(m: Machine, b: nat)
    requires m.x[T0] == b && b + 40 < WORD_MOD
    ensures Exec([Ld(T2, 8, T0), Ld(A0, 16, T0), Ld(A7, 24, T0)], m) ==
            m.(x := m.x[T2 := Load(m.mem, b + 8)][A0 := Load(m.mem, b + 16)][A7 := Load(m.mem, b + 24)])
  {
    hide Exec, Add64, Load;
    AddSmall(b, 8);
    AddSmall(b, 16);
    AddSmall(b, 24);
    Exec3(Ld(T2, 8, T0), Ld(A0, 16, T0), Ld(A7, 24, T0), m);
  }

  lemma SwapOut(m: Machine, b: nat)
    requires m.x[T0] == b && b + 40 < WORD_MOD
    ensures Exec([Addi(T1, T0, 40), Csrw(MSCRATCH, T1)] + [Ld(T1, 0, T0), Ld(T0, 32, T0)], m) ==
            m.(x := m.x[T1 := Load(m.mem, b)][T0 := Load(m.mem, b + 32)], csr := m.csr[MSCRATCH := b + 40])
  {
    hide Exec, Add64, Load;
    AddSmall(b, 0);
    AddSmall(b, 32);
    AddSmall(b, 40);
    ExecAppend([Addi(T1, T0, 40), Csrw(MSCRATCH, T1)], [Ld(T1, 0, T0), Ld(T0, 32, T0)], m);
    Exec2(Addi(T1, T0, 40), Csrw(MSCRATCH, T1), m);
    var m1 := m.(x := m.x[T1 := b + 40], csr := m.csr[MSCRATCH := b + 40]);
    Exec2(Ld(T1, 0, T0), Ld(T0, 32, T0), m1);
    Overwrite(m.x, T1, b + 40, Load(m.mem, b));
  }

  lemma LeaveEffect(m: Machine, b: nat)
    requires m.x[T0] == b && b + 40 < WORD_MOD
    ensures Exec(Leave(), m) ==
            m.(x := m.x[T2 := Load(m.mem, b + 8)][A0 := Load(m.mem, b + 16)][A7 := Load(m.mem, b + 24)]
                       [T1 := Load(m.mem, b)][T0 := Load(m.mem, b + 32)],
               csr := m.csr[MSCRATCH := b + 40])
  {
    hide Exec, Step, Load;
    var p, q, r := [Ld(T2, 8, T0), Ld(A0, 16, T0), Ld(A7, 24, T0)], [Addi(T1, T0, 40), Csrw(MSCRATCH, T1)],
        [Ld(T1, 0, T0), Ld(T0, 32, T0)];
    assert p + q + r == p + (q + r);
    ExecAppend(p, q + r, m);
    LoadThree(m, b);
    var m1 := m.(x := m.x[T2 := Load(m.mem, b + 8)][A0 := Load(m.mem, b + 16)][A7 := Load(m.mem, b + 24)]);
    SwapOut(m1, b);
  }

  // ---------- one M-mode trap ----------

  /** Every doubleword outside the M-mode stack and `mtimecmp` is the same. */
  ghost predicate Undisturbed(m: Machine, m': Machine, top: int) {
    forall a: int {:trigger Load(m'.mem, a)} :: !OnStack(a, top) && a != MTIMECMP ==> Load(m'.mem, a) == Load(m.mem, a)
  }

  /** What the frame and the rest of memory hold once the vector has done its work. */
  lemma FrameMemory(m: Machine, mem: Mem)
    requires StackFits(m)
    requires mem == Exec(Enter(), m).mem || mem == Exec(Enter(), m).mem[MTIMECMP := m.x[A0]]
    ensures var b := m.csr[MSCRATCH] - 40;
            && Load(mem, b) == m.x[T1] && Load(mem, b + 8) == m.x[T2] && Load(mem, b + 16) == m.x[A0]
            && Load(mem, b + 24) == m.x[A7] && Load(mem, b + 32) == m.x[T0]
    ensures forall a: int :: !OnStack(a, m.csr[MSCRATCH]) && a != MTIMECMP ==> Load(mem, a) == Load(m.mem, a)
    ensures Load(Exec(Enter(), m).mem, MTIMECMP) == Load(m.mem, MTIMECMP)
  {
    hide Exec, Enter;
    EnterEffect(m);
  }

  /** Registers and `mscratch` come back from the frame. */
  lemma LeaveRestores(m: Machine, e: Machine, m1: Machine)
    requires StackFits(m) && e == Exec(Enter(), m)
    requires m1.x[T0] == e.x[T0] && forall r: nat {:trigger m1.x[r]} :: r < 32 && r != T1 && r != T2 ==>
             m1.x[r] == e.x[r]
    requires m1.mem == e.mem || m1.mem == e.mem[MTIMECMP := m.x[A0]]
    ensures var m' := Exec(Leave(), m1);
            && m'.x == m.x && m'.mem == m1.mem && m'.mie == m1.mie && m'.mip == m1.mip
            && m'.csr == m1.csr[MSCRATCH := m.csr[MSCRATCH]]
            && Undisturbed(m, m', m.csr[MSCRATCH])
            && Load(m'.mem, MTIMECMP) == (if m1.mem == e.mem then Load(m.mem, MTIMECMP) else m.x[A0])
  {
    hide Exec, Step, Enter, Leave;
    var b := m.csr[MSCRATCH] - 40;
    EnterEffect(m);
    FrameMemory(m, m1.mem);
    LeaveEffect(m1, b);
    var m' := Exec(Leave(), m1);
    forall r: nat | r < 32 ensures m'.x[r] == m.x[r] {
    }
  }

  /** A handled trap restores every register and `mscratch`; the arming call (cause 9, call number 0)
      writes a0 to `mtimecmp`, clears STIP and sets MTIE and returns behind the ecall; the timer
      interrupt (cause 7 with the top bit) clears MTIE and sets STIP. Any other cause, and any other
      call, panics. */
  lemma MTrapEffect(m: Machine)
    requires StackFits(m)
    ensures MTrap(m).Panic? <==>
            !(CsrOf(m, MCAUSE) == 0x8000_0000_0000_0007 || (CsrOf(m, MCAUSE) == 9 && m.x[17] == 0))
    ensures MTrap(m).Returned? ==>
              var m' := MTrap(m).m;
              && m'.x == m.x && MSCRATCH in m'.csr && m'.csr[MSCRATCH] == m.csr[MSCRATCH]
              && Undisturbed(m, m', m.csr[MSCRATCH])
              && (forall c: Csr {:trigger CsrOf(m', c)} :: c != MEPC ==> CsrOf(m', c) == CsrOf(m, c))
              && (CsrOf(m, MCAUSE) == 9 ==>
                    && Load(m'.mem, 0x200_4000) == m.x[10] && m'.mip == m.mip - {0x20} && m'.mie == m.mie + {0x80}
                    && CsrOf(m', MEPC) == (CsrOf(m, MEPC) + 4) % WORD_MOD)
              && (CsrOf(m, MCAUSE) != 9 ==>
                    && Load(m'.mem, 0x200_4000) == Load(m.mem, 0x200_4000)
                    && m'.mip == m.mip + {0x20} && m'.mie == m.mie - {0x80}
                    && CsrOf(m', MEPC) == CsrOf(m, MEPC))
  {
    hide Exec, Step, Enter, Leave, Arm, Raise, Undisturbed;
    EnterEffect(m);
    var e := Exec(Enter(), m);
    var irq := e.(x := e.x[T2 := TIMER_IRQ]);
    RaiseEffect(irq);
    LeaveRestores(m, e, Exec(Raise(), irq));
    var call := e.(x := e.x[T2 := 0]);
    ArmEffect(call);
    LeaveRestores(m, e, Exec(Arm(), call));
    if Exec(Arm(), call).mem == e.mem {
      assert Load(e.mem, MTIMECMP) == m.x[A0];
    }
  }

  // ---------- runs ----------

  /** Arming number `arming` set STIP at time `time`. */
  datatype Signal = Signal(arming: nat, time: nat)

  /** `armings` are the deadlines of the arming calls so far, `signals` the rises of STIP. */
  datatype Timer = Timer(m: Machine, time: nat, armings: seq<nat>, signals: seq<Signal>)

  datatype Event =
    | SetTimer(interval: nat)
    | Pass(ticks: nat)
    | Interrupt
    | Work(next: Machine)

  /** `set_timer`: deadline in a0, call number 0 in a7, ecall; the hardware records the cause. */
  function EcallState(t: Timer, interval: nat): Machine {
    t.m.(x := t.m.x[A0 := (t.time + interval) % WORD_MOD][A7 := 0], csr := t.m.csr[MCAUSE := ECALL_S])
  }

  function IrqState(t: Timer): Machine {
    t.m.(csr := t.m.csr[MCAUSE := INTR_FLAG + TIMER_IRQ])
  }

  /** S-mode cannot reach the machine CSRs, the M-mode stack or the comparator. Through `sie` and `sip`
      it may change other bits of `mie` and `mip`, but neither MTIE, which `sie` does not show, nor
      STIP, which is read-only in `sip`. */
  predicate StaysInS(m: Machine, next: Machine) {
    && (MTIE in next.mie <==> MTIE in m.mie) && (STIP in next.mip <==> STIP in m.mip)
    && MSCRATCH in next.csr && MSCRATCH in m.csr
    && next.csr[MSCRATCH] == m.csr[MSCRATCH] && Load(next.mem, MTIMECMP) == Load(m.mem, MTIMECMP)
  }

  function Apply(t: Timer, e: Event): Timer {
    match e
    case SetTimer(interval) =>
      (match MTrap(EcallState(t, interval))
       case Panic => t
       case Returned(m) => t.(m := m, armings := t.armings + [(t.time + interval) % WORD_MOD]))
    case Pass(ticks) =>
      if t.time + ticks < WORD_MOD then t.(time := t.time + ticks) else t
    case Interrupt =>
      if MTIE in t.m.mie && Load(t.m.mem, MTIMECMP) <= t.time then
        (match MTrap(IrqState(t))
         case Panic => t
         case Returned(m) =>
           t.(m := m, signals := if |t.armings| > 0 then t.signals + [Signal(|t.armings| - 1, t.time)] else t.signals))
      else t
    case Work(next) =>
      if StaysInS(t.m, next) then t.(m := next) else t
  }

  function Run(t: Timer, events: seq<Event>): Timer
    decreases |events|
  {
    if events == [] then t else Run(Apply(t, events[0]), events[1..])
  }

  /** The last arming has not signalled yet. */
  ghost predicate Pending(t: Timer) {
    |t.armings| > 0 && (t.signals == [] || t.signals[|t.signals| - 1].arming < |t.armings| - 1)
  }

  ghost predicate SignalsOk(t: Timer) {
    && (forall i :: 0 <= i < |t.signals| ==>
          && t.signals[i].arming < |t.armings| && t.armings[t.signals[i].arming] <= t.signals[i].time <= t.time)
    && (forall i, j :: 0 <= i < j < |t.signals| ==> t.signals[i].arming < t.signals[j].arming)
  }

  ghost predicate Inv(t: Timer, top: nat) {
    && StackFits(t.m) && t.m.csr[MSCRATCH] == top
    && SignalsOk(t)
    && (if t.armings == [] then MTIE !in t.m.mie && STIP !in t.m.mip && t.signals == []
        else if Pending(t) then MTIE in t.m.mie && STIP !in t.m.mip
            && Load(t.m.mem, MTIMECMP) == t.armings[|t.armings| - 1]
        else MTIE !in t.m.mie && STIP in t.m.mip)
  }

  lemma ArmKeepsInv(t: Timer, interval: nat, top: nat)
    requires Inv(t, top)
    ensures Inv(Apply(t, SetTimer(interval)), top)
  {
    hide MTrap, Undisturbed, Load, Add64;
    MTrapEffect(EcallState(t, interval));
    var t' := Apply(t, SetTimer(interval));
    SignalsStay(t, t');
  }

  lemma SignalsStay(t: Timer, t': Timer)
    requires SignalsOk(t) && t'.signals == t.signals && t'.time >= t.time && t.armings <= t'.armings
    ensures SignalsOk(t')
  {
  }

  lemma IrqKeepsInv(t: Timer, top: nat)
    requires Inv(t, top)
    ensures Inv(Apply(t, Interrupt), top)
  {
    hide MTrap, Undisturbed, Load, Add64;
    MTrapEffect(IrqState(t));
  }

  lemma StepKeepsInv(t: Timer, e: Event, top: nat)
    requires Inv(t, top)
    ensures Inv(Apply(t, e), top)
  {
    hide MTrap, Load, SignalsOk;
    match e
    case SetTimer(interval) => ArmKeepsInv(t, interval, top);
    case Pass(ticks) => SignalsStay(t, Apply(t, e));
    case Interrupt => IrqKeepsInv(t, top);
    case Work(next) => SignalsStay(t, Apply(t, e));
  }

  lemma {:induction false} RunKeepsInv(t: Timer, events: seq<Event>, top: nat)
    requires Inv(t, top)
    ensures Inv(Run(t, events), top)
    decreases |events|
  {
    hide Apply, Inv;
    if events != [] {
      StepKeepsInv(t, events[0], top);
      RunKeepsInv(Apply(t, events[0]), events[1..], top);
    }
  }

  /** After boot: `mie` and `mip` clear, `mscratch` at the top of the M-mode stack. */
  ghost predicate Booted(t: Timer, top: nat) {
    StackFits(t.m) && t.m.csr[MSCRATCH] == top && t.m.mie == {} && t.m.mip == {} && t.armings == [] && t.signals == []
  }

  /** In every run: before the first arming neither MTIE nor STIP is set, afterwards exactly one of
      them; each arming raises STIP at most once and not before its deadline; an interrupt is always
      handled; and `mscratch` is at the top of the M-mode stack again after every trap. */
  lemma HandoffHolds(t: Timer, events: seq<Event>, top: nat)
    requires Booted(t, top)
    ensures var r := Run(t, events);
            && (r.armings == [] ==> MTIE !in r.m.mie && STIP !in r.m.mip)
            && (r.armings != [] ==> (MTIE in r.m.mie <==> STIP !in r.m.mip))
            && SignalsOk(r)
            && MSCRATCH in r.m.csr && r.m.csr[MSCRATCH] == top
            && (forall i: nat :: MTrap(EcallState(r, i)).Returned?) && MTrap(IrqState(r)).Returned?
  {
    hide Exec, Run, MTrap, Undisturbed, Load;
    RunKeepsInv(t, events, top);
    var r := Run(t, events);
    MTrapEffect(IrqState(r));
    forall i: nat ensures MTrap(EcallState(r, i)).Returned? {
      MTrapEffect(EcallState(r, i));
    }
  }

  /** What a `set_timer` call and a timer interrupt do to the machine and to the account, in every state
      that a run can reach. */
  lemma EventsAre(t: Timer, interval: nat, top: nat)
    requires Inv(t, top)
    ensures var r, deadline := Apply(t, SetTimer(interval)), (t.time + interval) % 0x1_0000_0000_0000_0000;
            && Load(r.m.mem, 0x200_4000) == deadline
            && r.armings == t.armings + [deadline] && r.signals == t.signals && r.time == t.time
            && r.m.mie == t.m.mie + {0x80} && r.m.mip == t.m.mip - {0x20}
            && forall i: nat {:trigger r.m.x[i]} :: i < 32 && i != 10 && i != 17 ==> r.m.x[i] == t.m.x[i]
    ensures var r := Apply(t, Interrupt);
            if 0x80 in t.m.mie && Load(t.m.mem, 0x200_4000) <= t.time then
              && r.m.mie == t.m.mie - {0x80} && r.m.mip == t.m.mip + {0x20} && r.m.x == t.m.x
              && |t.armings| > 0 && r.signals == t.signals + [Signal(|t.armings| - 1, t.time)]
              && r.armings == t.armings && r.time == t.time
            else r == t
  {
    hide MTrap, Undisturbed, Load, SignalsOk;
    MTrapEffect(EcallState(t, interval));
    MTrapEffect(IrqState(t));
  }

  /** An armed timer whose deadline has passed does signal at the next interrupt, and arming again
      withdraws the signal. */
  lemma ArmedTimerSignals(t: Timer, top: nat, interval: nat)
    requires Inv(t, top) && Pending(t) && t.armings[|t.armings| - 1] <= t.time
    ensures var r := Apply(t, Interrupt);
            && r.signals == t.signals + [Signal(|t.armings| - 1, t.time)] && STIP in r.m.mip && MTIE !in r.m.mie
            && STIP !in Apply(r, SetTimer(interval)).m.mip && Pending(Apply(r, SetTimer(interval)))
  {
    hide Exec, MTrap, Undisturbed, Load, Add64;
    MTrapEffect(IrqState(t));
    StepKeepsInv(t, Interrupt, top);
    MTrapEffect(EcallState(Apply(t, Interrupt), interval));
  }
}

/**
 Whole runs of processes and scheduler on one hart. Agents are the processes and, last, the
 scheduler; each has a context and a stack of its own. Whoever runs may change registers and
 memory at will except the contexts and stacks of parked agents, and leaves SIE as it was. A timer
 trap comes only while SIE is set; it parks a process through trap frame, handler frame and
 `swtch`, and a dispatch resumes it the same way back. A creation makes its slot dispatchable and
 then writes the slot's context in three steps; a trap may come between any two of them. Dispatch
 and yield are atomic: no trap falls between a state change and its `swtch`.
 */
module Preemption {
  import opened Basics
  import opened Rv64
  import opened ContextSwitch
  import opened Interrupts

  /** `frame` is the size of the C handler's frame, `ret` the return address that the call in the
      trap vector pushes on, `start` the entry wrapper of new processes. */
  datatype Layout = Layout(ctx: seq<nat>, stack: seq<nat>, size: seq<nat>, frame: nat, ret: nat, start: nat)

  predicate Apart(a: nat, sizeA: nat, b: nat, sizeB: nat) {
    a + sizeA <= b || b + sizeB <= a
  }

  ghost predicate LayoutOk(l: Layout) {
    && |l.ctx| == |l.stack| == |l.size| >= 1 && l.frame >= SAVED_AREA
    && (forall p {:trigger l.ctx[p]} {:trigger l.stack[p]} :: 0 <= p < |l.ctx| ==>
          l.ctx[p] + CONTEXT_SIZE <= WORD_MOD && l.stack[p] + l.size[p] < WORD_MOD)
    && (forall p, q {:trigger l.ctx[p], l.ctx[q]} :: 0 <= p < q < |l.ctx| ==>
         Apart(l.ctx[p], CONTEXT_SIZE, l.ctx[q], CONTEXT_SIZE))
    && (forall p, q {:trigger l.stack[p], l.stack[q]} :: 0 <= p < q < |l.ctx| ==>
         Apart(l.stack[p], l.size[p], l.stack[q], l.size[q]))
    && (forall p, q {:trigger l.ctx[p], l.stack[q]} :: 0 <= p < |l.ctx| && 0 <= q < |l.ctx| ==>
          Apart(l.ctx[p], CONTEXT_SIZE, l.stack[q], l.size[q]))
  }

  function Scheduler(l: Layout): int {
    |l.ctx| - 1
  }

  /** A process at its interrupt, with `sstatus` and `sepc` as the hardware leaves them. */
  datatype Trap = Trap(x: Regs, sstatus: nat, sepc: nat)

  /** How far a slot is: unused; dispatchable, with `done` of the three parts of its context written
      (cleared, stack pointer, return address); complete and not yet run; or parked at its `swtch`. */
  datatype Stage = Empty | Raw(done: nat) | Fresh | Left

  /** An agent that does not run: its callee-saved registers and, if a trap led to its `swtch`, the
      interrupted state. */
  datatype Parked = Parked(callee: seq<nat>, trap: Option<Trap>, stage: Stage)

  /** What was parked and the machine that came back for it. */
  datatype Resumption = Resumption(p: nat, k: Parked, m: Machine)

  datatype Sys = Sys(m: Machine, running: nat, parked: map<nat, Parked>, resumed: seq<Resumption>)

  datatype Step =
    | Work(next: Machine)
    | Claim(p: nat)
    | Write(p: nat)
    | Preempt(pc: nat, body: Machine)
    | Switch(to: nat, at: Machine)

  // ---------- steps ----------

  ghost predicate Respects(l: Layout, parked: map<nat, Parked>, mem: Mem, mem': Mem) {
    forall q {:trigger q in parked} :: q in parked && q < |l.ctx| && |l.ctx| == |l.stack| == |l.size| ==>
      && Same(mem, mem', l.ctx[q], CONTEXT_SIZE)
      && (parked[q].stage != Empty ==> Same(mem, mem', l.stack[q], l.size[q]))
  }

  /** The machine inside the C handler: trap vector entry, call, handler prologue. `m` is the machine
      at the first instruction of the vector. */
  ghost function InHandler(l: Layout, m: Machine): Machine {
    var m1 := Exec(TrapEntry(), m);
    Exec(HandlerPrologue(l.frame), m1.(x := m1.x[RA := l.ret]))
  }

  /** Enough stack below the interrupted stack pointer for the trap frame and the handler. */
  ghost predicate RoomToTrap(l: Layout, p: nat, sp: nat) {
    p < |l.ctx| && |l.ctx| == |l.stack| == |l.size| && l.stack[p] + TRAP_FRAME + l.frame <= sp <= l.stack[p] + l.size[p]
  }

  /** The handler's body may do anything that keeps its own and its callers' frames and whatever is
      parked and leaves interrupts disabled, until it calls `swtch(&p->context, &sched_context)`. */
  ghost predicate HandlerBody(l: Layout, s: Sys, pc: nat, body: Machine)
    requires LayoutOk(l) && s.running < |l.ctx|
  {
    var h, p := InHandler(l, TakeTrap(s.m, pc)), s.running;
    && !Enabled(body) && body.x[SP] == h.x[SP] && body.x[A0] == l.ctx[p] && body.x[A1] == l.ctx[Scheduler(l)]
    && Same(h.mem, body.mem, h.x[SP], (l.stack[p] + l.size[p]) as int - h.x[SP])
    && Respects(l, s.parked, h.mem, body.mem)
  }

  /** Coming back from `swtch`: straight on, or out through handler and trap vector and `sret`. */
  ghost function Resume(l: Layout, k: Parked, m: Machine): Machine {
    if k.trap.None? then m else Sret(Exec(TrapExit(), Exec(HandlerEpilogue(l.frame), m)))
  }

  /** Can the running agent be preempted: interrupts enabled, not the scheduler, room on its stack. */
  ghost predicate Preemptible(l: Layout, s: Sys)
    requires LayoutOk(l)
  {
    Enabled(s.m) && s.running < Scheduler(l) && Scheduler(l) in s.parked && RoomToTrap(l, s.running, s.m.x[SP])
  }

  /** What is recorded of a preempted process. */
  function TrapOf(m: Machine, pc: nat): Trap {
    Trap(m.x, TrapStatus(CsrOf(m, SSTATUS)), pc)
  }

  ghost function SwitchTo(l: Layout, s: Sys, k: Parked, to: nat, at: Machine): Sys
    requires to in s.parked
  {
    var m := Resume(l, s.parked[to], Exec(Swtch(), at));
    Sys(m, to, (s.parked - {to})[s.running := k], s.resumed + [Resumption(to, s.parked[to], m)])
  }

  /** The context `proc_create` leaves: cleared, then stack top and entry wrapper. */
  function NewContext(l: Layout, p: nat): (c: seq<nat>)
    requires p < |l.stack| == |l.size|
    ensures |c| == 14
  {
    [l.start, l.stack[p] + l.size[p]] + seq(12, _ => 0)
  }

  function Zeros(): (c: seq<nat>)
    ensures |c| == 14
  {
    seq(14, _ => 0)
  }

  /** What the context of a slot holds before its process has run. */
  function StageContext(l: Layout, p: nat, stage: Stage): (c: seq<nat>)
    requires p < |l.stack| == |l.size|
    ensures |c| == 14
  {
    match stage
    case Raw(done) => if done < 2 then Zeros() else Zeros()[1 := l.stack[p] + l.size[p]]
    case Fresh => NewContext(l, p)
    case _ => Zeros()
  }

  function Further(stage: Stage): Stage {
    if stage.Raw? && stage.done < 2 then Raw(stage.done + 1) else Fresh
  }

  function WriteContext(mem: Mem, base: nat, c: seq<nat>): Mem
    decreases |c|
  {
    if c == [] then mem else WriteContext(mem[base := c[0]], base + 8, c[1..])
  }

  /** A slot without a complete context was dispatched: `swtch` has jumped to address 0. */
  predicate Lost(s: Sys) {
    s.resumed != [] && s.resumed[|s.resumed| - 1].k.stage.Raw?
  }

  ghost function Apply(l: Layout, s: Sys, step: Step): Sys
    requires LayoutOk(l)
  {
    if Lost(s) then s else
    match step
    case Work(next) =>
      if Respects(l, s.parked, s.m.mem, next.mem) && (Enabled(next) <==> Enabled(s.m)) then s.(m := next) else s
    case Claim(p) =>
      if p in s.parked && s.parked[p].stage == Empty then
        s.(parked := s.parked[p := s.parked[p].(stage := Raw(0))])
      else s
    case Write(p) =>
      if p < |l.ctx| && p in s.parked && s.parked[p].stage.Raw? then
        var stage := Further(s.parked[p].stage);
        var c := StageContext(l, p, stage);
        s.(m := s.m.(mem := WriteContext(s.m.mem, l.ctx[p], c)), parked := s.parked[p := Parked(c, None, stage)])
      else s
    case Preempt(pc, body) =>
      if Preemptible(l, s) && HandlerBody(l, s, pc, body) then
        SwitchTo(l, s, Parked(CalleeOf(body.x), Some(TrapOf(s.m, pc)), Left), Scheduler(l), body)
      else s
    case Switch(to, at) =>
      if CanSwitch(l, s, to, at) then SwitchTo(l, s, Parked(CalleeOf(at.x), None, Left), to, at) else s
  }

  /** A call of `swtch` by whoever runs, to a parked agent. */
  ghost predicate CanSwitch(l: Layout, s: Sys, to: nat, at: Machine)
    requires LayoutOk(l)
  {
    && to in s.parked && s.parked[to].stage != Empty && to < |l.ctx| && s.running < |l.ctx|
    && Respects(l, s.parked, s.m.mem, at.mem) && (Enabled(at) <==> Enabled(s.m))
    && at.x[A0] == l.ctx[s.running] && at.x[A1] == l.ctx[to]
  }

  ghost function Run(l: Layout, s: Sys, steps: seq<Step>): Sys
    requires LayoutOk(l)
    decreases |steps|
  {
    if steps == [] then s else Run(l, Apply(l, s, steps[0]), steps[1..])
  }

  // ---------- the invariant ----------

  /** The interrupted state is in memory: trap frame, and below it the handler's frame with the
      return address into the trap vector. */
  ghost predicate TrapKept(l: Layout, mem: Mem, p: nat, sp: nat, t: Trap)
    requires LayoutOk(l) && p < |l.ctx|
  {
    && RoomToTrap(l, p, t.x[SP]) && sp == t.x[SP] - TRAP_FRAME - l.frame && Bit(t.sstatus, SPIE) == 1
    && FrameHolds(mem, sp + l.frame, t.x, t.sstatus, t.sepc)
    && KeptAt(mem, sp, t.x[RA := l.ret])
  }

  ghost predicate ParkedOk(l: Layout, mem: Mem, p: nat, k: Parked)
    requires LayoutOk(l) && p < |l.ctx|
  {
    && Context(mem, l.ctx[p], k.callee)
    && (k.trap.Some? ==> TrapKept(l, mem, p, k.callee[1], k.trap.value))
    && (k.stage != Left ==> k.trap == None && k.callee == StageContext(l, p, k.stage))
  }

  /** ra, sp, s0, s1 and s2 to s11 are those of `c`. */
  ghost predicate Loaded(x: Regs, c: seq<nat>) {
    && |c| == 14 && x[1] == c[0] && x[2] == c[1] && x[8] == c[2] && x[9] == c[3]
    && forall r: nat {:trigger x[r]} :: 18 <= r < 28 ==> x[r] == c[r - 14]
  }

  /** A new process: at its entry wrapper, with the stack pointer at the top of its stack, and s0 to s11
      zero. */
  ghost predicate Started(l: Layout, p: nat, x: Regs) {
    && p < |l.stack| == |l.size| && x[1] == l.start && x[2] == l.stack[p] + l.size[p]
    && x[8] == 0 == x[9] && forall r: nat {:trigger x[r]} :: 18 <= r < 28 ==> x[r] == 0
  }

  /** A process whose context is not complete: all zero, the return address too, but for the stack pointer
      once that is written. */
  ghost predicate Unready(l: Layout, p: nat, done: nat, x: Regs) {
    && p < |l.stack| == |l.size| && x[1] == 0 && x[2] == (if done < 2 then 0 else l.stack[p] + l.size[p])
    && x[8] == 0 == x[9] && forall r: nat {:trigger x[r]} :: 18 <= r < 28 ==> x[r] == 0
  }

  /** The resumed machine is the parked one: after a trap all 31 general registers, sepc, and sstatus as
      `sret` makes it of the saved one, with interrupts enabled; after a call the callee-saved registers.
      A process starts with the context of a new process, unless that was not complete: then with what
      was there, and the return address is 0. */
  ghost predicate Exact(l: Layout, r: Resumption) {
    && (match r.k.trap
        case None => Loaded(r.m.x, r.k.callee)
        case Some(t) =>
          && (forall i: nat :: 1 <= i < 32 ==> r.m.x[i] == t.x[i])
          && CsrOf(r.m, SSTATUS) == SretStatus(t.sstatus) && CsrOf(r.m, SEPC) == t.sepc && Enabled(r.m))
    && (r.k.stage == Fresh ==> Started(l, r.p, r.m.x))
    && (r.k.stage.Raw? ==> Unready(l, r.p, r.k.stage.done, r.m.x))
  }

  ghost predicate Inv(l: Layout, s: Sys) {
    && LayoutOk(l) && s.running < |l.ctx| && s.running !in s.parked
    && (forall q {:trigger q in s.parked} :: q in s.parked ==> q < |l.ctx| && ParkedOk(l, s.m.mem, q, s.parked[q]))
    && (Scheduler(l) in s.parked ==> s.parked[Scheduler(l)].trap == None && s.parked[Scheduler(l)].stage == Left)
    && (forall i :: 0 <= i < |s.resumed| ==> Exact(l, s.resumed[i]))
  }

  /** After `proc_init` only the scheduler, or the boot code in its place, runs; all slots are unused and
      all contexts zero. */
  ghost predicate Initial(l: Layout, s: Sys)
    requires LayoutOk(l)
  {
    && s.running == Scheduler(l) && s.resumed == []
    && (forall p: nat {:trigger p in s.parked} :: p in s.parked <==> p < Scheduler(l))
    && (forall p: nat {:trigger p in s.parked} :: p < Scheduler(l) ==>
          p in s.parked && s.parked[p] == Parked(Zeros(), None, Empty) && Context(s.m.mem, l.ctx[p], Zeros()))
  }

  lemma InitialInv(l: Layout, s: Sys)
    requires LayoutOk(l) && Initial(l, s)
    ensures Inv(l, s)
  {
    hide LayoutOk, Context, Zeros, TrapKept;
    forall q | q in s.parked ensures q < |l.ctx| && ParkedOk(l, s.m.mem, q, s.parked[q]) {
      assert q < Scheduler(l);
    }
  }

  /** A parked agent depends only on its own context and stack. */
  lemma ParkedStays(l: Layout, mem: Mem, mem': Mem, q: nat, k: Parked)
    requires LayoutOk(l) && q < |l.ctx| && ParkedOk(l, mem, q, k)
    requires Same(mem, mem', l.ctx[q], CONTEXT_SIZE) && (k.trap.Some? ==> Same(mem, mem', l.stack[q], l.size[q]))
    ensures ParkedOk(l, mem', q, k)
  {
    forall i: nat | i < 14 ensures Load(mem', l.ctx[q] + 8 * i) == k.callee[i] {
      assert Inside(l.ctx[q] + 8 * i, l.ctx[q], CONTEXT_SIZE);
    }
    if k.trap.Some? {
      TrapStays(l, mem, mem', q, k.callee[1], k.trap.value);
    }
  }

  lemma TrapStays(l: Layout, mem: Mem, mem': Mem, q: nat, sp: nat, t: Trap)
    requires LayoutOk(l) && q < |l.ctx| && TrapKept(l, mem, q, sp, t)
    requires Same(mem, mem', sp, l.stack[q] + l.size[q] - sp)
    ensures TrapKept(l, mem', q, sp, t)
  {
    var f := sp + l.frame;
    forall r: nat | 1 <= r < 32 ensures Load(mem', f + 8 * r) == t.x[r] {
      assert Load(mem, f + 8 * r) == t.x[r];
    }
    forall i: nat | i < 13 ensures Load(mem', sp + 8 * i) == t.x[RA := l.ret][Kept(i)] {
      assert Load(mem, sp + 8 * i) == t.x[RA := l.ret][Kept(i)];
    }
  }

  // ---------- parking and resuming ----------

  /** Inside the handler the interrupted state is in memory, and only the process's own stack below
      its stack pointer has changed. */
  lemma HandlerParks(l: Layout, m: Machine, p: nat)
    requires LayoutOk(l) && RoomToTrap(l, p, m.x[SP])
    ensures var h := InHandler(l, m);
            && h.x[SP] == m.x[SP] - TRAP_FRAME - l.frame
            && (Bit(CsrOf(m, SSTATUS), SPIE) == 1 ==>
                 TrapKept(l, h.mem, p, h.x[SP], Trap(m.x, CsrOf(m, SSTATUS), CsrOf(m, SEPC))))
            && h.csr == m.csr
            && (forall a: int {:trigger Load(h.mem, a)} ::
                  !Inside(a, h.x[SP], TRAP_FRAME + l.frame) ==> Load(h.mem, a) == Load(m.mem, a))
  {
    hide Exec, TrapEntry, HandlerPrologue;
    TrapEntrySaves(m);
    var m1 := Exec(TrapEntry(), m);
    var m2 := m1.(x := m1.x[RA := l.ret]);
    PrologueKeeps(l.frame, m2);
    var h, f, t := InHandler(l, m), m.x[SP] - TRAP_FRAME, Trap(m.x, CsrOf(m, SSTATUS), CsrOf(m, SEPC));
    forall i: nat | i < 13 ensures Load(h.mem, h.x[SP] + 8 * i) == t.x[RA := l.ret][Kept(i)] {
      assert Load(h.mem, h.x[SP] + 8 * i) == m2.x[Kept(i)];
    }
    forall r: nat | 1 <= r < 32 ensures Load(h.mem, f + 8 * r) == t.x[r] {
      assert Load(m1.mem, f + 8 * r) == m.x[r];
    }
    assert Load(h.mem, f + 256) == Load(m1.mem, f + 256) && Load(h.mem, f + 264) == Load(m1.mem, f + 264);
    forall a: int | !Inside(a, h.x[SP], TRAP_FRAME + l.frame) ensures Load(h.mem, a) == Load(m.mem, a) {
      assert Load(h.mem, a) == Load(m1.mem, a);
    }
  }

  /** A slot that has not run is entered with what its context held. */
  lemma StartIsExact(l: Layout, p: nat, k: Parked, m: Machine)
    requires LayoutOk(l) && p < |l.ctx| && ParkedOk(l, m.mem, p, k) && CalleeOf(m.x) == k.callee && k.trap.None?
    ensures Exact(l, Resumption(p, k, m))
  {
    hide Context, TrapKept;
    CalleeLoaded(m.x);
  }

  lemma CalleeLoaded(x: Regs)
    ensures Loaded(x, CalleeOf(x))
  {
    var c := CalleeOf(x);
    assert c[0] == x[1] && c[1] == x[2] && c[2] == x[8] && c[3] == x[9];
    forall r: nat | 18 <= r < 28 ensures x[r] == c[r - 14] {
    }
  }

  /** Back through handler and trap vector the interrupted state is restored exactly. */
  lemma ResumeIsExact(l: Layout, p: nat, k: Parked, m: Machine)
    requires LayoutOk(l) && p < |l.ctx| && ParkedOk(l, m.mem, p, k) && CalleeOf(m.x) == k.callee
    ensures Exact(l, Resumption(p, k, Resume(l, k, m))) && Resume(l, k, m).mem == m.mem
    ensures Enabled(Resume(l, k, m)) <==> (k.trap.Some? || Enabled(m))
  {
    hide Exec, TrapExit, HandlerEpilogue, Bit, SretStatus;
    if k.trap.Some? {
      var t := k.trap.value;
      assert m.x[SP] == CalleeOf(m.x)[1];
      EpilogueRestores(l.frame, m, t.x[RA := l.ret]);
      TrapExitRestores(Exec(HandlerEpilogue(l.frame), m), t.x, t.sstatus, t.sepc);
      TrapAndReturn(t.sstatus);
    } else {
      StartIsExact(l, p, k, m);
    }
  }

  /** The return address that takes a resumed trap back into the trap vector. */
  lemma HandlerReturns(l: Layout, p: nat, k: Parked, m: Machine)
    requires LayoutOk(l) && p < |l.ctx| && ParkedOk(l, m.mem, p, k) && CalleeOf(m.x) == k.callee && k.trap.Some?
    ensures Exec(HandlerEpilogue(l.frame), m).x[RA] == l.ret
  {
    hide Exec, HandlerEpilogue;
    assert m.x[SP] == CalleeOf(m.x)[1];
    EpilogueRestores(l.frame, m, k.trap.value.x[RA := l.ret]);
    assert Kept(0) == RA;
  }

  /** An interrupt whose handler does not switch, as when no process is current, returns to `pc` with all
      31 general registers as they were, sstatus as it was but for SPIE and SPP, in particular with
      interrupts enabled as before, and with memory as the handler's body left it. */
  lemma TrapWithoutSwitch(l: Layout, m: Machine, pc: nat, p: nat, body: Machine)
    requires LayoutOk(l) && RoomToTrap(l, p, m.x[SP]) && Enabled(m) && body.x[SP] == InHandler(l, TakeTrap(m, pc)).x[SP]
    requires var h := InHandler(l, TakeTrap(m, pc));
             Same(h.mem, body.mem, h.x[SP], (l.stack[p] + l.size[p]) as int - h.x[SP])
    ensures var m' := Sret(Exec(TrapExit(), Exec(HandlerEpilogue(l.frame), body)));
            && (forall r: nat :: 1 <= r < 32 ==> m'.x[r] == m.x[r]) && CsrOf(m', SEPC) == pc && m'.mem == body.mem
            && CsrOf(m', SSTATUS) == Put(Put(CsrOf(m, SSTATUS), SPIE, 1), SPP, 0) && Enabled(m')
  {
    hide Exec, TrapExit, HandlerEpilogue, InHandler, Bit, Put, TrapStatus, SretStatus;
    var mt := TakeTrap(m, pc);
    var h, t := InHandler(l, mt), TrapOf(m, pc);
    TrapAndReturn(CsrOf(m, SSTATUS));
    HandlerParks(l, mt, p);
    TrapStays(l, h.mem, body.mem, p, h.x[SP], t);
    EpilogueRestores(l.frame, body, t.x[RA := l.ret]);
    TrapExitRestores(Exec(HandlerEpilogue(l.frame), body), t.x, t.sstatus, t.sepc);
  }

  /** A `swtch` between two agents parks the one, resumes the other exactly and leaves the rest. */
  lemma SwitchKeepsInv(l: Layout, s: Sys, k: Parked, to: nat, at: Machine)
    requires Inv(l, s) && to in s.parked && k.callee == CalleeOf(at.x)
    requires at.x[A0] == l.ctx[s.running] && at.x[A1] == l.ctx[to]
    requires forall q :: q in s.parked ==> ParkedOk(l, at.mem, q, s.parked[q])
    requires k.trap.Some? ==> s.running < Scheduler(l) && TrapKept(l, at.mem, s.running, k.callee[1], k.trap.value)
    requires k.stage == Left
    ensures Inv(l, SwitchTo(l, s, k, to, at))
    ensures Enabled(SwitchTo(l, s, k, to, at).m) <==> (s.parked[to].trap.Some? || Enabled(at))
  {
    hide Exec, Swtch, Resume, Exact, Bit, ParkedOk, TrapKept, Context, LayoutOk;
    var p, m := s.running, Exec(Swtch(), at);
    SwtchBetween(l, p, to, s.parked[to], at);
    forall q | q in s.parked ensures ParkedOk(l, m.mem, q, s.parked[q]) {
      SwtchSpares(l, p, to, s.parked[to], at, q, s.parked[q]);
    }
    ResumeIsExact(l, to, s.parked[to], m);
    SwtchParks(l, p, to, s.parked[to], at, k);
  }

  /** The machine after `swtch` has the other agent's registers and has written its own context only. */
  lemma SwtchBetween(l: Layout, p: nat, to: nat, k: Parked, at: Machine)
    requires LayoutOk(l) && p < |l.ctx| && to < |l.ctx| && p != to && ParkedOk(l, at.mem, to, k)
    requires at.x[A0] == l.ctx[p] && at.x[A1] == l.ctx[to]
    ensures var m := Exec(Swtch(), at);
            && CalleeOf(m.x) == k.callee && m.csr == at.csr && Context(m.mem, l.ctx[p], CalleeOf(at.x))
            && (forall a: int :: !Inside(a, l.ctx[p], CONTEXT_SIZE) ==> Load(m.mem, a) == Load(at.mem, a))
  {
    hide Exec, Swtch, TrapKept;
    ContextsApart(l, p, to);
    SwtchMoves(at, k.callee);
  }

  lemma SwtchSpares(l: Layout, p: nat, to: nat, kTo: Parked, at: Machine, q: nat, k: Parked)
    requires LayoutOk(l) && p < |l.ctx| && to < |l.ctx| && p != to && ParkedOk(l, at.mem, to, kTo)
    requires at.x[A0] == l.ctx[p] && at.x[A1] == l.ctx[to]
    requires q < |l.ctx| && q != p && ParkedOk(l, at.mem, q, k)
    ensures ParkedOk(l, Exec(Swtch(), at).mem, q, k)
  {
    hide Exec, Swtch, ParkedOk;
    SwtchBetween(l, p, to, kTo, at);
    WritesElsewhere(l, at.mem, Exec(Swtch(), at).mem, p, q);
    ParkedStays(l, at.mem, Exec(Swtch(), at).mem, q, k);
  }

  lemma SwtchParks(l: Layout, p: nat, to: nat, kTo: Parked, at: Machine, k: Parked)
    requires LayoutOk(l) && p < |l.ctx| && to < |l.ctx| && p != to && ParkedOk(l, at.mem, to, kTo)
    requires at.x[A0] == l.ctx[p] && at.x[A1] == l.ctx[to] && k.callee == CalleeOf(at.x)
    requires k.trap.Some? ==> TrapKept(l, at.mem, p, k.callee[1], k.trap.value)
    requires k.stage == Left
    ensures ParkedOk(l, Exec(Swtch(), at).mem, p, k)
  {
    hide Exec, Swtch, TrapKept;
    SwtchBetween(l, p, to, kTo, at);
    if k.trap.Some? {
      WritesElsewhere(l, at.mem, Exec(Swtch(), at).mem, p, p);
      TrapInStack(l, at.mem, p, k.callee[1], k.trap.value);
      TrapStays(l, at.mem, Exec(Swtch(), at).mem, p, k.callee[1], k.trap.value);
    }
  }

  lemma TrapInStack(l: Layout, mem: Mem, p: nat, sp: nat, t: Trap)
    requires LayoutOk(l) && p < |l.ctx| && TrapKept(l, mem, p, sp, t)
    ensures l.stack[p] <= sp <= l.stack[p] + l.size[p]
  {
  }

  lemma ContextsApart(l: Layout, p: nat, q: nat)
    requires LayoutOk(l) && p < |l.ctx| && q < |l.ctx| && p != q
    ensures Apart(l.ctx[p], CONTEXT_SIZE, l.ctx[q], CONTEXT_SIZE)
    ensures l.ctx[p] + CONTEXT_SIZE <= WORD_MOD && l.ctx[q] + CONTEXT_SIZE <= WORD_MOD
  {
    if q < p {
      assert Apart(l.ctx[q], CONTEXT_SIZE, l.ctx[p], CONTEXT_SIZE);
    }
  }

  /** Writing only the context of `p` changes no other context and no stack. */
  lemma WritesElsewhere(l: Layout, mem: Mem, mem': Mem, p: nat, q: nat)
    requires LayoutOk(l) && p < |l.ctx| && q < |l.ctx|
    requires forall a: int :: !Inside(a, l.ctx[p], CONTEXT_SIZE) ==> Load(mem', a) == Load(mem, a)
    ensures q != p ==> Same(mem, mem', l.ctx[q], CONTEXT_SIZE)
    ensures Same(mem, mem', l.stack[q], l.size[q])
  {
    if q != p {
      ContextsApart(l, p, q);
    }
    assert Apart(l.ctx[p], CONTEXT_SIZE, l.stack[q], l.size[q]);
  }

  // ---------- every step ----------

  lemma RespectKeepsParked(l: Layout, s: Sys, mem': Mem)
    requires Inv(l, s) && Respects(l, s.parked, s.m.mem, mem')
    ensures forall q :: q in s.parked ==> ParkedOk(l, mem', q, s.parked[q])
  {
    hide Same, ParkedOk, Exact;
    forall q | q in s.parked ensures ParkedOk(l, mem', q, s.parked[q]) {
      if s.parked[q].trap.Some? {
        TrapsAreLeft(l, s.m.mem, q, s.parked[q]);
      }
      ParkedStays(l, s.m.mem, mem', q, s.parked[q]);
    }
  }

  lemma TrapsAreLeft(l: Layout, mem: Mem, q: nat, k: Parked)
    requires LayoutOk(l) && q < |l.ctx| && ParkedOk(l, mem, q, k) && k.trap.Some?
    ensures k.stage == Left
  {
  }

  /** Entry and handler leave every parked agent as it was. */
  lemma HandlerSpares(l: Layout, s: Sys, pc: nat, body: Machine, q: nat)
    requires Inv(l, s) && Preemptible(l, s) && HandlerBody(l, s, pc, body) && q in s.parked
    ensures ParkedOk(l, body.mem, q, s.parked[q])
  {
    hide Exec, InHandler, Exact, Bit, TrapStatus, Context, TrapKept;
    var mt, p := TakeTrap(s.m, pc), s.running;
    var h := InHandler(l, mt);
    HandlerParks(l, mt, p);
    OwnStackOnly(l, s.m.mem, h.mem, p, q, h.x[SP], TRAP_FRAME + l.frame);
    ParkedStays(l, s.m.mem, h.mem, q, s.parked[q]);
    if s.parked[q].trap.Some? {
      TrapsAreLeft(l, s.m.mem, q, s.parked[q]);
    }
    ParkedStays(l, h.mem, body.mem, q, s.parked[q]);
  }

  lemma PreemptKeepsInv(l: Layout, s: Sys, pc: nat, body: Machine)
    requires Inv(l, s) && !Lost(s) && Preemptible(l, s) && HandlerBody(l, s, pc, body)
    ensures Inv(l, Apply(l, s, Preempt(pc, body))) && !Enabled(Apply(l, s, Preempt(pc, body)).m)
  {
    hide Exec, InHandler, SwitchTo, Exact, Bit, TrapStatus, ParkedOk;
    var mt := TakeTrap(s.m, pc);
    var h, p, t := InHandler(l, mt), s.running, TrapOf(s.m, pc);
    TrapAndReturn(CsrOf(s.m, SSTATUS));
    HandlerParks(l, mt, p);
    TrapStays(l, h.mem, body.mem, p, h.x[SP], t);
    forall q | q in s.parked ensures ParkedOk(l, body.mem, q, s.parked[q]) {
      HandlerSpares(l, s, pc, body, q);
    }
    SwitchKeepsInv(l, s, Parked(CalleeOf(body.x), Some(t), Left), Scheduler(l), body);
  }

  /** A step preempts the running process. */
  ghost predicate Preempts(l: Layout, s: Sys, step: Step)
    requires LayoutOk(l) && s.running < |l.ctx|
  {
    step.Preempt? && !Lost(s) && Preemptible(l, s) && HandlerBody(l, s, step.pc, step.body)
  }

  /** The handler calls `swtch` at once. */
  ghost function YieldAtOnce(l: Layout, s: Sys, pc: nat): Machine
    requires LayoutOk(l) && s.running < |l.ctx|
  {
    var h := InHandler(l, TakeTrap(s.m, pc));
    h.(x := h.x[A0 := l.ctx[s.running]][A1 := l.ctx[Scheduler(l)]])
  }

  /** The running process can be preempted exactly when interrupts are enabled, given that it is a
      process with room on its stack: then even a handler that yields at once is an allowed body. */
  lemma PreemptionIsPossible(l: Layout, s: Sys, pc: nat)
    requires Inv(l, s) && !Lost(s) && s.running < Scheduler(l) && Scheduler(l) in s.parked
    requires RoomToTrap(l, s.running, s.m.x[SP])
    ensures Enabled(s.m) <==> exists step :: Preempts(l, s, step)
    ensures Enabled(s.m) ==> Preempts(l, s, Preempt(pc, YieldAtOnce(l, s, pc)))
    ensures Enabled(s.m) ==> Apply(l, s, Preempt(pc, YieldAtOnce(l, s, pc))).running == Scheduler(l)
  {
    hide InHandler, Resume, Exec, ParkedOk, Exact, Bit, TrapStatus;
    if Enabled(s.m) {
      var mt := TakeTrap(s.m, pc);
      var h := InHandler(l, mt);
      TrapAndReturn(CsrOf(s.m, SSTATUS));
      HandlerParks(l, mt, s.running);
      StackUntouched(l, s, h);
      assert HandlerBody(l, s, pc, YieldAtOnce(l, s, pc));
      assert Preempts(l, s, Preempt(pc, YieldAtOnce(l, s, pc)));
    }
  }

  lemma StackUntouched(l: Layout, s: Sys, h: Machine)
    requires Inv(l, s) && s.running < |l.ctx|
    ensures Respects(l, s.parked, h.mem, h.mem)
            && Same(h.mem, h.mem, h.x[SP], (l.stack[s.running] + l.size[s.running]) as int - h.x[SP])
  {
  }

  /** Writing inside the stack of `p` changes no context and no other stack. */
  lemma OwnStackOnly(l: Layout, mem: Mem, mem': Mem, p: nat, q: nat, base: nat, size: nat)
    requires LayoutOk(l) && p < |l.ctx| && q < |l.ctx| && p != q
    requires l.stack[p] <= base && base + size <= l.stack[p] + l.size[p]
    requires forall a: int :: !Inside(a, base, size) ==> Load(mem', a) == Load(mem, a)
    ensures Same(mem, mem', l.ctx[q], CONTEXT_SIZE) && Same(mem, mem', l.stack[q], l.size[q])
  {
    assert Apart(l.ctx[q], CONTEXT_SIZE, l.stack[p], l.size[p]);
    if p < q {
      assert Apart(l.stack[p], l.size[p], l.stack[q], l.size[q]);
    } else {
      assert Apart(l.stack[q], l.size[q], l.stack[p], l.size[p]);
    }
  }

  lemma {:induction false} WriteContextHolds(mem: Mem, base: nat, c: seq<nat>, i: nat, a: int)
    ensures i < |c| ==> Load(WriteContext(mem, base, c), base + 8 * i) == c[i]
    ensures !Inside(a, base, 8 * |c|) ==> Load(WriteContext(mem, base, c), a) == Load(mem, a)
    decreases |c|
  {
    if c != [] {
      if i == 0 {
        WriteContextHolds(mem[base := c[0]], base + 8, c[1..], 0, base);
      } else {
        WriteContextHolds(mem[base := c[0]], base + 8, c[1..], i - 1, a);
      }
      WriteContextHolds(mem[base := c[0]], base + 8, c[1..], 0, a);
    }
  }

  /** Writing part of the context of a slot disturbs no other agent. */
  lemma WriteKeepsInv(l: Layout, s: Sys, p: nat)
    requires Inv(l, s) && p < |l.ctx| && p in s.parked && s.parked[p].stage.Raw?
    ensures Inv(l, Apply(l, s, Write(p)))
  {
    hide StageContext, WriteContext, Exact, Scheduler;
    var c := StageContext(l, p, Further(s.parked[p].stage));
    var mem' := WriteContext(s.m.mem, l.ctx[p], c);
    forall a: int | !Inside(a, l.ctx[p], CONTEXT_SIZE) ensures Load(mem', a) == Load(s.m.mem, a) {
      WriteContextHolds(s.m.mem, l.ctx[p], c, 0, a);
    }
    forall i: nat | i < 14 ensures Load(mem', l.ctx[p] + 8 * i) == c[i] {
      WriteContextHolds(s.m.mem, l.ctx[p], c, i, 0);
    }
    forall q | q in s.parked && q != p ensures ParkedOk(l, mem', q, s.parked[q]) {
      WritesElsewhere(l, s.m.mem, mem', p, q);
      ParkedStays(l, s.m.mem, mem', q, s.parked[q]);
    }
  }

  /** Making a slot dispatchable changes no context. */
  lemma ClaimKeepsInv(l: Layout, s: Sys, p: nat)
    requires Inv(l, s) && p in s.parked && s.parked[p].stage == Empty
    ensures Inv(l, Apply(l, s, Claim(p)))
  {
    hide Context, TrapKept, Exact;
  }

  lemma StepKeepsInv(l: Layout, s: Sys, step: Step)
    requires Inv(l, s)
    ensures Inv(l, Apply(l, s, step))
  {
    hide ParkedOk, Exact, Respects, HandlerBody, SwitchTo, RoomToTrap, Enabled;
    if !Lost(s) {
      match step
      case Work(next) =>
        if Respects(l, s.parked, s.m.mem, next.mem) {
          RespectKeepsParked(l, s, next.mem);
        }
      case Claim(p) =>
        if p in s.parked && s.parked[p].stage == Empty {
          ClaimKeepsInv(l, s, p);
        }
      case Write(p) =>
        if p < |l.ctx| && p in s.parked && s.parked[p].stage.Raw? {
          WriteKeepsInv(l, s, p);
        }
      case Preempt(pc, body) =>
        if Preemptible(l, s) && HandlerBody(l, s, pc, body) {
          PreemptKeepsInv(l, s, pc, body);
        }
      case Switch(to, at) =>
        if CanSwitch(l, s, to, at) {
          RespectKeepsParked(l, s, at.mem);
          SwitchKeepsInv(l, s, Parked(CalleeOf(at.x), None, Left), to, at);
        }
    }
  }

  lemma {:induction false} RunKeepsInv(l: Layout, s: Sys, steps: seq<Step>)
    requires Inv(l, s)
    ensures Inv(l, Run(l, s, steps))
    decreases |steps|
  {
    hide Apply;
    if steps != [] {
      StepKeepsInv(l, s, steps[0]);
      RunKeepsInv(l, Apply(l, s, steps[0]), steps[1..]);
    }
  }

  /** In every run from boot, whatever the other processes do in the meantime, each resumption is exact:
      a process that was preempted by the timer comes back with all 31 general registers, sepc and
      sstatus from its interrupt, and with interrupts enabled; an agent that called `swtch` comes back
      with its callee-saved registers; and a process starts with its new context, or, if that was not
      complete, with return address 0, and the run ends there. */
  lemma EveryResumptionIsExact(l: Layout, s: Sys, steps: seq<Step>, i: nat)
    requires LayoutOk(l) && Initial(l, s)
    requires i < |Run(l, s, steps).resumed|
    ensures Exact(l, Run(l, s, steps).resumed[i])
  {
    hide Apply, Exact, Initial;
    InitialInv(l, s);
    RunKeepsInv(l, s, steps);
  }

  /** As long as an agent stays parked at its `swtch`, what is recorded of it does not change. */
  lemma ParkedPersists(l: Layout, s: Sys, step: Step, p: nat)
    requires Inv(l, s) && p in s.parked && p in Apply(l, s, step).parked && s.parked[p].stage == Left
    ensures Apply(l, s, step).parked[p] == s.parked[p]
  {
    hide ParkedOk, Exact, Respects, HandlerBody, RoomToTrap, Resume, Enabled;
  }

  /** What a switch does to the two agents. */
  lemma SwitchEffect(l: Layout, s: Sys, to: nat, at: Machine)
    requires Inv(l, s) && !Lost(s) && CanSwitch(l, s, to, at)
    ensures var s' := Apply(l, s, Switch(to, at));
            && Inv(l, s') && s'.running == to
            && s'.parked == (s.parked - {to})[s.running := Parked(CalleeOf(at.x), None, Left)]
            && s'.resumed == s.resumed + [Resumption(to, s.parked[to], s'.m)]
            && (Enabled(s'.m) <==> (s.parked[to].trap.Some? || Enabled(s.m)))
  {
    hide ParkedOk, Exact, Respects, RoomToTrap, Enabled, Resume, Exec;
    RespectKeepsParked(l, s, at.mem);
    SwitchKeepsInv(l, s, Parked(CalleeOf(at.x), None, Left), to, at);
  }

  /** What a preemption does to them. */
  lemma PreemptEffect(l: Layout, s: Sys, pc: nat, body: Machine)
    requires Inv(l, s) && Preempts(l, s, Preempt(pc, body))
    ensures Scheduler(l) in s.parked
    ensures var s' := Apply(l, s, Preempt(pc, body));
            && Inv(l, s') && s'.running == Scheduler(l) && !Enabled(s'.m)
            && s'.parked == (s.parked - {Scheduler(l)})[s.running := Parked(CalleeOf(body.x), Some(TrapOf(s.m, pc)),
                 Left)]
            && s'.resumed == s.resumed + [Resumption(Scheduler(l), s.parked[Scheduler(l)], s'.m)]
            && s.parked[Scheduler(l)].stage == Left
  {
    hide ParkedOk, Exact, HandlerBody, RoomToTrap, Enabled, Resume, Exec;
    PreemptKeepsInv(l, s, pc, body);
  }

  /** Process `p` is not resumed anywhere in the run. */
  ghost predicate StaysParked(l: Layout, s: Sys, steps: seq<Step>, p: nat)
    requires LayoutOk(l)
    decreases |steps|
  {
    p in s.parked && (steps != [] ==> StaysParked(l, Apply(l, s, steps[0]), steps[1..], p))
  }

  lemma {:induction false} RunPersists(l: Layout, s: Sys, steps: seq<Step>, p: nat)
    requires LayoutOk(l) && Inv(l, s) && StaysParked(l, s, steps, p) && s.parked[p].stage == Left
    ensures p in Run(l, s, steps).parked && Run(l, s, steps).parked[p] == s.parked[p]
    decreases |steps|
  {
    hide Apply, Inv;
    if steps != [] {
      StepKeepsInv(l, s, steps[0]);
      ParkedPersists(l, s, steps[0], p);
      RunPersists(l, Apply(l, s, steps[0]), steps[1..], p);
    }
  }

  /** A switch changes no stack. */
  lemma SwitchSparesStacks(l: Layout, s: Sys, k: Parked, to: nat, at: Machine, q: nat)
    requires Inv(l, s) && to in s.parked && to < |l.ctx| && q < |l.ctx| && ParkedOk(l, at.mem, to, s.parked[to])
    requires at.x[A0] == l.ctx[s.running] && at.x[A1] == l.ctx[to]
    ensures Same(at.mem, SwitchTo(l, s, k, to, at).m.mem, l.stack[q], l.size[q])
  {
    hide Exec, Swtch, Resume, Exact, ParkedOk;
    SwtchLands(l, s, to, at);
    var m := Exec(Swtch(), at);
    SwtchBetween(l, s.running, to, s.parked[to], at);
    WritesElsewhere(l, at.mem, m.mem, s.running, q);
    ResumeIsExact(l, to, s.parked[to], m);
  }

  /** What is parked at `to` is still there after the `swtch` that goes to it. */
  lemma SwtchLands(l: Layout, s: Sys, to: nat, at: Machine)
    requires Inv(l, s) && to in s.parked && to < |l.ctx| && ParkedOk(l, at.mem, to, s.parked[to])
    requires at.x[A0] == l.ctx[s.running] && at.x[A1] == l.ctx[to]
    ensures s.running < |l.ctx| && s.running != to && ParkedOk(l, Exec(Swtch(), at).mem, to, s.parked[to])
  {
    hide Exec, Swtch, Exact, ParkedOk;
    SwtchSpares(l, s.running, to, s.parked[to], at, to, s.parked[to]);
  }

  /** As long as an agent stays parked at its `swtch`, nothing changes its stack. */
  lemma StackStays(l: Layout, s: Sys, step: Step, p: nat)
    requires Inv(l, s) && p in s.parked && s.parked[p].stage == Left
    ensures Same(s.m.mem, Apply(l, s, step).m.mem, l.stack[p], l.size[p])
  {
    hide ParkedOk, Exact, HandlerBody, SwitchTo, RoomToTrap, Enabled, StageContext;
    if !Lost(s) {
      match step
      case Work(next) =>
      case Claim(q) =>
      case Write(q) =>
        if q < |l.ctx| && q in s.parked && s.parked[q].stage.Raw? {
          WriteSparesStacks(l, s, q, p);
        }
      case Preempt(pc, body) =>
        if Preemptible(l, s) && HandlerBody(l, s, pc, body) {
          PreemptSparesStacks(l, s, pc, body, p);
        }
      case Switch(to, at) =>
        if CanSwitch(l, s, to, at) {
          RespectKeepsParked(l, s, at.mem);
          SwitchSparesStacks(l, s, Parked(CalleeOf(at.x), None, Left), to, at, p);
        }
    }
  }

  lemma WriteSparesStacks(l: Layout, s: Sys, q: nat, p: nat)
    requires Inv(l, s) && q < |l.ctx| && p < |l.ctx| && q in s.parked && s.parked[q].stage.Raw? && !Lost(s)
    ensures Same(s.m.mem, Apply(l, s, Write(q)).m.mem, l.stack[p], l.size[p])
  {
    hide StageContext, WriteContext, Exact, ParkedOk;
    var c := StageContext(l, q, Further(s.parked[q].stage));
    var mem' := WriteContext(s.m.mem, l.ctx[q], c);
    forall a: int | !Inside(a, l.ctx[q], CONTEXT_SIZE) ensures Load(mem', a) == Load(s.m.mem, a) {
      WriteContextHolds(s.m.mem, l.ctx[q], c, 0, a);
    }
    WritesElsewhere(l, s.m.mem, mem', q, p);
  }

  /** Trap entry and handler work on the stack of the interrupted process only, below its stack pointer. */
  lemma HandlerStack(l: Layout, s: Sys, pc: nat, body: Machine, q: nat)
    requires Inv(l, s) && Preemptible(l, s) && HandlerBody(l, s, pc, body)
    ensures q in s.parked && s.parked[q].stage == Left ==> Same(s.m.mem, body.mem, l.stack[q], l.size[q])
    ensures Same(s.m.mem, body.mem, s.m.x[SP], (l.stack[s.running] + l.size[s.running]) as int - s.m.x[SP])
  {
    hide Exec, InHandler, Exact, Bit, TrapStatus, Context, TrapKept, ParkedOk;
    var mt, p := TakeTrap(s.m, pc), s.running;
    var h := InHandler(l, mt);
    HandlerParks(l, mt, p);
    if q in s.parked && s.parked[q].stage == Left {
      OwnStackOnly(l, s.m.mem, h.mem, p, q, h.x[SP], TRAP_FRAME + l.frame);
    }
  }

  lemma PreemptSparesStacks(l: Layout, s: Sys, pc: nat, body: Machine, p: nat)
    requires Inv(l, s) && !Lost(s) && Preemptible(l, s) && HandlerBody(l, s, pc, body)
    requires p in s.parked && s.parked[p].stage == Left
    ensures Same(s.m.mem, Apply(l, s, Preempt(pc, body)).m.mem, l.stack[p], l.size[p])
  {
    hide Exec, InHandler, SwitchTo, Exact, Bit, TrapStatus, ParkedOk;
    HandlerStack(l, s, pc, body, p);
    HandlerSpares(l, s, pc, body, Scheduler(l));
    SwitchSparesStacks(l, s, Parked(CalleeOf(body.x), Some(TrapOf(s.m, pc)), Left), Scheduler(l), body, p);
  }

  lemma {:induction false} StackPersists(l: Layout, s: Sys, steps: seq<Step>, p: nat)
    requires LayoutOk(l) && Inv(l, s) && StaysParked(l, s, steps, p) && s.parked[p].stage == Left && p < |l.ctx|
    ensures |l.stack| == |l.size| == |l.ctx| && Same(s.m.mem, Run(l, s, steps).m.mem, l.stack[p], l.size[p])
    decreases |steps|
  {
    hide Apply, Inv, LayoutOk;
    InRange(l, s);
    Sizes(l);
    if steps != [] {
      var s1 := Apply(l, s, steps[0]);
      StepKeepsInv(l, s, steps[0]);
      StackStays(l, s, steps[0], p);
      ParkedPersists(l, s, steps[0], p);
      StackPersists(l, s1, steps[1..], p);
    }
  }

  /** A process preempted in state `s` at `pc`, parked for any run of the others, and then dispatched,
      has the 31 general registers it had in `s`, goes on at `pc`, and has sstatus as it was but for
      SPIE and SPP; in particular its interrupts are enabled again. */
  lemma PreemptedComesBack(l: Layout, s: Sys, pc: nat, body: Machine, steps: seq<Step>, at: Machine)
    requires Inv(l, s) && !Lost(s) && Preemptible(l, s) && HandlerBody(l, s, pc, body)
    requires StaysParked(l, Apply(l, s, Preempt(pc, body)), steps, s.running)
    requires var s2 := Run(l, Apply(l, s, Preempt(pc, body)), steps);
             !Lost(s2) && CanSwitch(l, s2, s.running, at)
    ensures var s3 := Apply(l, Run(l, Apply(l, s, Preempt(pc, body)), steps), Switch(s.running, at));
            && s3.running == s.running
            && (forall r: nat :: 1 <= r < 32 ==> s3.m.x[r] == s.m.x[r])
            && CsrOf(s3.m, SEPC) == pc
            && CsrOf(s3.m, SSTATUS) == Put(Put(CsrOf(s.m, SSTATUS), SPIE, 1), SPP, 0) && Enabled(s3.m)
  {
    hide HandlerBody, Respects, RoomToTrap, ParkedOk, Resume, InHandler, Exec, Enabled, Put, TrapStatus, SretStatus;
    var s1, p := Apply(l, s, Preempt(pc, body)), s.running;
    TrapAndReturn(CsrOf(s.m, SSTATUS));
    StepKeepsInv(l, s, Preempt(pc, body));
    RunPersists(l, s1, steps, p);
    RunKeepsInv(l, s1, steps);
    var s2 := Run(l, s1, steps);
    StepKeepsInv(l, s2, Switch(p, at));
    var s3 := Apply(l, s2, Switch(p, at));
    assert s3.resumed[|s2.resumed|] == Resumption(p, s1.parked[p], s3.m);
    assert Exact(l, s3.resumed[|s2.resumed|]);
  }

  /** A preemption leaves the stack of its process from its stack pointer up. */
  lemma PreemptKeepsStack(l: Layout, s: Sys, pc: nat, body: Machine)
    requires Inv(l, s) && !Lost(s) && Preemptible(l, s) && HandlerBody(l, s, pc, body)
    ensures Same(s.m.mem, Apply(l, s, Preempt(pc, body)).m.mem, s.m.x[SP],
                 (l.stack[s.running] + l.size[s.running]) as int - s.m.x[SP])
  {
    hide Exec, InHandler, SwitchTo, Exact, Bit, TrapStatus, ParkedOk;
    HandlerStack(l, s, pc, body, s.running);
    HandlerSpares(l, s, pc, body, Scheduler(l));
    SwitchSparesStacks(l, s, Parked(CalleeOf(body.x), Some(TrapOf(s.m, pc)), Left), Scheduler(l), body, s.running);
    var s', sp := Apply(l, s, Preempt(pc, body)), s.m.x[SP];
    assert l.stack[s.running] <= sp;
    forall a: int | Inside(a, sp, (l.stack[s.running] + l.size[s.running]) as int - sp)
      ensures Load(s'.m.mem, a) == Load(s.m.mem, a)
    {
      assert Inside(a, l.stack[s.running], l.size[s.running]);
      assert Load(s'.m.mem, a) == Load(body.mem, a);
    }
  }

  /** ... and finds its stack from its stack pointer up as it was, whatever the others did. */
  lemma PreemptedFindsStack(l: Layout, s: Sys, pc: nat, body: Machine, steps: seq<Step>, at: Machine)
    requires Inv(l, s) && !Lost(s) && Preemptible(l, s) && HandlerBody(l, s, pc, body)
    requires StaysParked(l, Apply(l, s, Preempt(pc, body)), steps, s.running)
    requires var s2 := Run(l, Apply(l, s, Preempt(pc, body)), steps);
             !Lost(s2) && CanSwitch(l, s2, s.running, at)
    ensures var s3 := Apply(l, Run(l, Apply(l, s, Preempt(pc, body)), steps), Switch(s.running, at));
            Same(s.m.mem, s3.m.mem, s.m.x[SP], (l.stack[s.running] + l.size[s.running]) as int - s.m.x[SP])
  {
    hide HandlerBody, ParkedOk, Resume, InHandler, Exec, Enabled, Exact, Bit, TrapStatus, Same, SwitchTo;
    var s1, p, sp := Apply(l, s, Preempt(pc, body)), s.running, s.m.x[SP];
    InRange(l, s);
    PreemptKeepsStack(l, s, pc, body);
    PreemptEffect(l, s, pc, body);
    RunPersists(l, s1, steps, p);
    StackPersists(l, s1, steps, p);
    RunKeepsInv(l, s1, steps);
    var s2 := Run(l, s1, steps);
    RespectKeepsParked(l, s2, at.mem);
    SwitchSparesStacks(l, s2, Parked(CalleeOf(at.x), None, Left), p, at, p);
    var s3 := Apply(l, s2, Switch(p, at));
    SameTwice(s1.m.mem, s2.m.mem, at.mem, l.stack[p], l.size[p]);
    SameTwice(s1.m.mem, at.mem, s3.m.mem, l.stack[p], l.size[p]);
    SamePart(s1.m.mem, s3.m.mem, l.stack[p], l.size[p], sp);
    SameTwice(s.m.mem, s1.m.mem, s3.m.mem, sp, (l.stack[p] + l.size[p]) as int - sp);
  }

  lemma SamePart(a: Mem, b: Mem, base: int, size: int, from: int)
    requires Same(a, b, base, size) && base <= from
    ensures Same(a, b, from, base + size - from)
  {
  }

  /** An agent that called `swtch` in state `s`, was parked for any run of the others, and is switched to,
      has ra, sp and s0 to s11 as they were at its call ... */
  lemma CalledComesBack(l: Layout, s: Sys, to: nat, call: Machine, steps: seq<Step>, at: Machine)
    requires Inv(l, s) && !Lost(s) && CanSwitch(l, s, to, call)
    requires StaysParked(l, Apply(l, s, Switch(to, call)), steps, s.running)
    requires var s2 := Run(l, Apply(l, s, Switch(to, call)), steps);
             !Lost(s2) && CanSwitch(l, s2, s.running, at)
    ensures var s3 := Apply(l, Run(l, Apply(l, s, Switch(to, call)), steps), Switch(s.running, at));
            s3.running == s.running && SameKept(s3.m.x, call.x)
  {
    hide Respects, RoomToTrap, ParkedOk, Resume, Exec, Enabled, CanSwitch;
    var s1, p := Apply(l, s, Switch(to, call)), s.running;
    SwitchEffect(l, s, to, call);
    RunPersists(l, s1, steps, p);
    RunKeepsInv(l, s1, steps);
    var s2 := Run(l, s1, steps);
    SwitchEffect(l, s2, p, at);
    var s3 := Apply(l, s2, Switch(p, at));
    assert Exact(l, s3.resumed[|s2.resumed|]);
    CalleeLoaded(call.x);
  }

  /** ... and its stack as it left it. */
  lemma CalledFindsStack(l: Layout, s: Sys, to: nat, call: Machine, steps: seq<Step>, at: Machine)
    requires Inv(l, s) && !Lost(s) && CanSwitch(l, s, to, call)
    requires StaysParked(l, Apply(l, s, Switch(to, call)), steps, s.running)
    requires var s2 := Run(l, Apply(l, s, Switch(to, call)), steps);
             !Lost(s2) && CanSwitch(l, s2, s.running, at)
    ensures var s3 := Apply(l, Run(l, Apply(l, s, Switch(to, call)), steps), Switch(s.running, at));
            Same(call.mem, s3.m.mem, l.stack[s.running], l.size[s.running])
  {
    hide RoomToTrap, ParkedOk, Exact, Resume, Exec, Enabled, SwitchTo, Same;
    var s1, p := Apply(l, s, Switch(to, call)), s.running;
    InRange(l, s);
    RespectKeepsParked(l, s, call.mem);
    SwitchSparesStacks(l, s, Parked(CalleeOf(call.x), None, Left), to, call, p);
    SwitchEffect(l, s, to, call);
    RunPersists(l, s1, steps, p);
    StackPersists(l, s1, steps, p);
    RunKeepsInv(l, s1, steps);
    var s2 := Run(l, s1, steps);
    RespectKeepsParked(l, s2, at.mem);
    SwitchSparesStacks(l, s2, Parked(CalleeOf(at.x), None, Left), p, at, p);
    var s3 := Apply(l, s2, Switch(p, at));
    SameTwice(call.mem, s1.m.mem, s2.m.mem, l.stack[p], l.size[p]);
    SameTwice(call.mem, s2.m.mem, at.mem, l.stack[p], l.size[p]);
    SameTwice(call.mem, at.mem, s3.m.mem, l.stack[p], l.size[p]);
  }

  lemma SameTwice(a: Mem, b: Mem, c: Mem, base: int, size: int)
    requires Same(a, b, base, size) && Same(b, c, base, size)
    ensures Same(a, c, base, size)
  {
  }

  // ---------- who can be preempted ----------

  /** The step switches to a process that is parked in a trap. */
  ghost predicate ReturnsFromTrap(l: Layout, s: Sys, step: Step)
    requires LayoutOk(l)
  {
    step.Switch? && step.to in s.parked && s.parked[step.to].trap.Some? && Apply(l, s, step) != s
  }

  /** Whether interrupts are enabled after a run, told from its preemptions and trap returns alone. */
  ghost predicate LastTrapEnables(l: Layout, s: Sys, steps: seq<Step>, before: bool)
    requires LayoutOk(l)
    decreases |steps|
  {
    if steps == [] then before
    else
      var now := if s.running < |l.ctx| && Preempts(l, s, steps[0]) then false
                 else before || ReturnsFromTrap(l, s, steps[0]);
      LastTrapEnables(l, Apply(l, s, steps[0]), steps[1..], now)
  }

  lemma StepEnables(l: Layout, s: Sys, step: Step)
    requires Inv(l, s)
    ensures Enabled(Apply(l, s, step).m) <==>
            !Preempts(l, s, step) && (Enabled(s.m) || ReturnsFromTrap(l, s, step))
  {
    hide ParkedOk, Exact, Respects, HandlerBody, SwitchTo, RoomToTrap, Enabled, Preemptible;
    if !Lost(s) {
      match step
      case Work(next) =>
      case Claim(p) =>
      case Write(p) => WriteKeepsCsr(l, s, p);
      case Preempt(pc, body) =>
        if Preemptible(l, s) && HandlerBody(l, s, pc, body) {
          PreemptKeepsInv(l, s, pc, body);
        }
      case Switch(to, at) =>
        if CanSwitch(l, s, to, at) {
          RespectKeepsParked(l, s, at.mem);
          SwitchKeepsInv(l, s, Parked(CalleeOf(at.x), None, Left), to, at);
          SwitchIsSeen(l, s, Parked(CalleeOf(at.x), None, Left), to, at);
        }
    }
  }

  lemma WriteKeepsCsr(l: Layout, s: Sys, p: nat)
    requires LayoutOk(l)
    ensures Enabled(Apply(l, s, Write(p)).m) <==> Enabled(s.m)
  {
    hide LayoutOk, WriteContext, StageContext;
  }

  lemma SwitchIsSeen(l: Layout, s: Sys, k: Parked, to: nat, at: Machine)
    requires to in s.parked
    ensures SwitchTo(l, s, k, to, at) != s
  {
    hide Resume, Exec, Swtch;
    assert |SwitchTo(l, s, k, to, at).resumed| == |s.resumed| + 1;
  }

  /** In every run, interrupts are enabled for whoever is running exactly when the last of the
      preemptions and trap returns in it was a return, or there was none and they were enabled at the
      start. Neither dispatch nor `yield` nor the start of a process changes this. */
  lemma {:induction false} EnabledFollowsTraps(l: Layout, s: Sys, steps: seq<Step>)
    requires Inv(l, s)
    ensures Enabled(Run(l, s, steps).m) <==> LastTrapEnables(l, s, steps, Enabled(s.m))
    decreases |steps|
  {
    hide Apply, Inv, Enabled, Preempts, ReturnsFromTrap;
    if steps != [] {
      InRange(l, s);
      StepEnables(l, s, steps[0]);
      StepKeepsInv(l, s, steps[0]);
      EnabledFollowsTraps(l, Apply(l, s, steps[0]), steps[1..]);
    }
  }

  lemma InRange(l: Layout, s: Sys)
    requires Inv(l, s)
    ensures LayoutOk(l) && s.running < |l.ctx|
  {
  }

  /** No step of the run returns from a trap. */
  ghost predicate NoTrapReturns(l: Layout, s: Sys, steps: seq<Step>)
    requires LayoutOk(l)
    decreases |steps|
  {
    steps != [] ==> !ReturnsFromTrap(l, s, steps[0]) && NoTrapReturns(l, Apply(l, s, steps[0]), steps[1..])
  }

  /** After a preemption nobody can be preempted until a preempted process is dispatched again: a process
      that then starts in its entry wrapper, or goes on after its own `yield`, keeps the hart until it
      yields or ends. */
  lemma {:induction false} DisabledUntilTrapReturn(l: Layout, s: Sys, steps: seq<Step>, step: Step)
    requires Inv(l, s) && !Enabled(s.m) && NoTrapReturns(l, s, steps)
    ensures var r := Run(l, s, steps); Inv(l, r) && !Enabled(r.m) && !Preempts(l, r, step)
    decreases |steps|
  {
    hide Apply, Inv, Enabled, Preempts, ReturnsFromTrap;
    InRange(l, s);
    if steps == [] {
      NotPreempted(l, s, step);
    } else {
      StepEnables(l, s, steps[0]);
      StepKeepsInv(l, s, steps[0]);
      DisabledUntilTrapReturn(l, Apply(l, s, steps[0]), steps[1..], step);
    }
  }

  lemma NotPreempted(l: Layout, s: Sys, step: Step)
    requires Inv(l, s) && !Enabled(s.m)
    ensures !Preempts(l, s, step)
  {
    hide Enabled, HandlerBody;
  }

  // ---------- a process that cannot be preempted ----------

  /** Whoever runs calls `swtch` at once, to agent `to`. */
  ghost function CallSwtch(l: Layout, s: Sys, to: nat): Machine
    requires LayoutOk(l) && s.running < |l.ctx| && to < |l.ctx|
  {
    s.m.(x := s.m.x[A0 := l.ctx[s.running]][A1 := l.ctx[to]])
  }

  lemma CallSwtchWorks(l: Layout, s: Sys, to: nat)
    requires Inv(l, s) && to in s.parked && s.parked[to].stage != Empty
    ensures s.running < |l.ctx| && to < |l.ctx| && CanSwitch(l, s, to, CallSwtch(l, s, to))
  {
    hide Exact, ParkedOk, Enabled, Respects;
    RespectsItself(l, s);
    SameStatus(s.m, CallSwtch(l, s, to));
  }

  /** A first dispatch starts the process at the top of its stack and leaves SIE alone. */
  lemma FirstDispatch(l: Layout, s: Sys, q: nat)
    requires Inv(l, s) && !Lost(s) && q in s.parked && q < Scheduler(l) && s.parked[q].stage == Fresh
    ensures s.running < |l.ctx| && q < |l.ctx|
    ensures var s' := Apply(l, s, Switch(q, CallSwtch(l, s, q)));
            && Inv(l, s') && s'.running == q && !Lost(s') && s'.m.x[SP] == l.stack[q] + l.size[q]
            && (Enabled(s'.m) <==> Enabled(s.m))
            && s'.parked.Keys == s.parked.Keys - {q} + {s.running}
            && forall r: nat {:trigger s'.parked[r]} :: r in s.parked && r != q ==> s'.parked[r] == s.parked[r]
  {
    hide Resume, Exec, Exact, ParkedOk, Enabled, Respects;
    var at := CallSwtch(l, s, q);
    CallSwtchWorks(l, s, q);
    StepEnables(l, s, Switch(q, at));
    StepKeepsInv(l, s, Switch(q, at));
    var s' := Apply(l, s, Switch(q, at));
    OnlyLeftTraps(l, s, q);
    assert s'.resumed[|s.resumed|] == Resumption(q, s.parked[q], s'.m);
    assert Exact(l, s'.resumed[|s.resumed|]);
    StartsOnTop(l, s'.resumed[|s.resumed|]);
  }

  lemma SameStatus(m: Machine, m': Machine)
    requires m'.csr == m.csr
    ensures Enabled(m') <==> Enabled(m)
  {
  }

  lemma RespectsItself(l: Layout, s: Sys)
    ensures Respects(l, s.parked, s.m.mem, s.m.mem)
  {
  }

  lemma OnlyLeftTraps(l: Layout, s: Sys, q: nat)
    requires Inv(l, s) && q in s.parked && s.parked[q].stage != Left
    ensures s.parked[q].trap == None
  {
    hide Exact, Context, TrapKept, StageContext;
    assert ParkedOk(l, s.m.mem, q, s.parked[q]);
  }

  lemma StartsOnTop(l: Layout, r: Resumption)
    requires Exact(l, r) && r.k.stage == Fresh
    ensures r.p < |l.stack| == |l.size| && r.m.x[SP] == l.stack[r.p] + l.size[r.p]
  {
  }

  /** A process that is dispatched for the first time after another was preempted has room on its stack,
      and nothing can preempt it. */
  lemma FreshStartsDisabled(l: Layout, s: Sys, pc: nat, q: nat)
    requires Inv(l, s) && !Lost(s) && Preemptible(l, s) && q in s.parked && q < Scheduler(l)
    requires s.parked[q].stage == Fresh && l.size[q] >= TRAP_FRAME + l.frame
    ensures var s1 := Apply(l, s, Preempt(pc, YieldAtOnce(l, s, pc)));
            && s1.running == Scheduler(l)
            && var s2 := Apply(l, s1, Switch(q, CallSwtch(l, s1, q)));
               && s2.running == q && RoomToTrap(l, q, s2.m.x[SP]) && !Enabled(s2.m)
               && forall step :: !Preempts(l, s2, step)
  {
    hide Apply, Exact, ParkedOk, Enabled, InHandler, Bit, TrapStatus, HandlerBody;
    var step := Preempt(pc, YieldAtOnce(l, s, pc));
    PreemptionIsPossible(l, s, pc);
    StepEnables(l, s, step);
    StepKeepsInv(l, s, step);
    var s1 := Apply(l, s, step);
    PreemptLeaves(l, s, pc, YieldAtOnce(l, s, pc), q);
    FirstDispatch(l, s1, q);
    var s2 := Apply(l, s1, Switch(q, CallSwtch(l, s1, q)));
    forall step ensures !Preempts(l, s2, step) {
      NotPreempted(l, s2, step);
    }
  }

  /** A preemption leaves the other parked processes. */
  lemma PreemptLeaves(l: Layout, s: Sys, pc: nat, body: Machine, q: nat)
    requires Inv(l, s) && Preempts(l, s, Preempt(pc, body)) && q in s.parked && q < Scheduler(l)
    ensures var s' := Apply(l, s, Preempt(pc, body));
            !Lost(s') && q in s'.parked && s'.parked[q] == s.parked[q]
  {
    hide Resume, Exec, Exact, ParkedOk, Enabled, HandlerBody, RoomToTrap;
  }

  /** A whole creation of slot `p`. */
  function MakeSlot(p: nat): seq<Step> {
    [Claim(p), Write(p), Write(p), Write(p)]
  }

  lemma SlotClaimed(l: Layout, s: Sys, p: nat)
    requires Inv(l, s) && !Lost(s) && p in s.parked && s.parked[p].stage == Empty
    ensures var s' := Apply(l, s, Claim(p));
            Inv(l, s') && s' == s.(parked := s.parked[p := s.parked[p].(stage := Raw(0))])
  {
    hide Context, TrapKept, Exact;
    ClaimKeepsInv(l, s, p);
  }

  lemma SlotWritten(l: Layout, s: Sys, p: nat)
    requires Inv(l, s) && !Lost(s) && p in s.parked && s.parked[p].stage.Raw?
    ensures var s' := Apply(l, s, Write(p));
            && Inv(l, s') && s'.running == s.running && s'.resumed == s.resumed
            && (Enabled(s'.m) <==> Enabled(s.m)) && p < |l.stack| == |l.size|
            && s'.parked == s.parked[p := Parked(StageContext(l, p, Further(s.parked[p].stage)), None,
                 Further(s.parked[p].stage))]
  {
    hide ParkedOk, Exact, Enabled, WriteContext, StageContext;
    WriteKeepsInv(l, s, p);
    WriteKeepsCsr(l, s, p);
  }

  lemma RunFour(l: Layout, s: Sys, a: Step, b: Step, c: Step, d: Step)
    requires LayoutOk(l)
    ensures Run(l, s, [a, b, c, d]) == Apply(l, Apply(l, Apply(l, Apply(l, s, a), b), c), d)
  {
    hide Apply, LayoutOk;
    assert [a, b, c, d][1..] == [b, c, d] && [b, c, d][1..] == [c, d] && [c, d][1..] == [d] && [d][1..] == [];
    var s1 := Apply(l, s, a);
    var s2 := Apply(l, s1, b);
    var s3 := Apply(l, s2, c);
    assert Run(l, s, [a, b, c, d]) == Run(l, s1, [b, c, d]) == Run(l, s2, [c, d]) == Run(l, s3, [d]);
    assert Run(l, s3, [d]) == Run(l, Apply(l, s3, d), []);
  }

  lemma SlotMade(l: Layout, s: Sys, p: nat)
    requires Inv(l, s) && !Lost(s) && p in s.parked && s.parked[p].stage == Empty
    ensures var s' := Run(l, s, MakeSlot(p));
            && Inv(l, s') && s'.running == s.running && s'.resumed == s.resumed && (Enabled(s'.m) <==> Enabled(s.m))
            && p < |l.stack| == |l.size| && s'.parked == s.parked[p := Parked(NewContext(l, p), None, Fresh)]
  {
    hide Apply, Inv, Enabled, Run, NewContext, Zeros;
    InRange(l, s);
    RunFour(l, s, Claim(p), Write(p), Write(p), Write(p));
    SlotClaimed(l, s, p);
    var s1 := Apply(l, s, Claim(p));
    SlotWritten(l, s1, p);
    var s2 := Apply(l, s1, Write(p));
    SlotWritten(l, s2, p);
    SlotWritten(l, Apply(l, s2, Write(p)), p);
  }

  lemma {:induction false} RunAppend(l: Layout, s: Sys, a: seq<Step>, b: seq<Step>)
    requires LayoutOk(l)
    ensures Run(l, s, a + b) == Run(l, Run(l, s, a), b)
    decreases |a|
  {
    hide Apply, LayoutOk;
    if a == [] {
      assert a + b == b;
    } else {
      assert (a + b)[1..] == a[1..] + b;
      RunAppend(l, Apply(l, s, a[0]), a[1..], b);
    }
  }

  lemma RunThree(l: Layout, s: Sys, a: Step, b: Step, c: Step)
    requires LayoutOk(l)
    ensures Run(l, s, [a, b, c]) == Apply(l, Apply(l, Apply(l, s, a), b), c)
  {
    hide Apply, LayoutOk;
    assert [a, b, c][1..] == [b, c] && [b, c][1..] == [c] && [c][1..] == [];
    var s1 := Apply(l, s, a);
    var s2 := Apply(l, s1, b);
    assert Run(l, s, [a, b, c]) == Run(l, s1, [b, c]) == Run(l, s2, [c]) == Run(l, Apply(l, s2, c), []);
  }

  /** The boot code creates two processes with interrupts enabled, as `main` does; the first is dispatched
      and preempted at `pc`, and the second is dispatched: it has room on its stack, and nothing can
      preempt it. */
  lemma DisabledFromBoot(l: Layout, s: Sys, pc: nat) returns (steps: seq<Step>)
    requires LayoutOk(l) && Initial(l, s) && Enabled(s.m) && Scheduler(l) >= 2
    requires l.size[0] >= TRAP_FRAME + l.frame && l.size[1] >= TRAP_FRAME + l.frame
    ensures var r := Run(l, s, steps);
            r.running == 1 && RoomToTrap(l, 1, r.m.x[SP]) && !Enabled(r.m) && forall step :: !Preempts(l, r, step)
  {
    hide Apply, Inv, Enabled, Run, InHandler, HandlerBody, MakeSlot, Preempts, LayoutOk, Context, CallSwtch,
      NewContext, Zeros;
    Sizes(l);
    InitialInv(l, s);
    SlotMade(l, s, 0);
    var s1 := Run(l, s, MakeSlot(0));
    SlotMade(l, s1, 1);
    var s2 := Run(l, s1, MakeSlot(1));
    FirstDispatch(l, s2, 0);
    var first := Switch(0, CallSwtch(l, s2, 0));
    var s3 := Apply(l, s2, first);
    FreshStartsDisabled(l, s3, pc, 1);
    var second := Preempt(pc, YieldAtOnce(l, s3, pc));
    var s4 := Apply(l, s3, second);
    var third := Switch(1, CallSwtch(l, s4, 1));
    steps := MakeSlot(0) + (MakeSlot(1) + [first, second, third]);
    RunAppend(l, s, MakeSlot(0), MakeSlot(1) + [first, second, third]);
    RunAppend(l, s1, MakeSlot(1), [first, second, third]);
    RunThree(l, s2, first, second, third);
  }

  lemma Sizes(l: Layout)
    requires LayoutOk(l)
    ensures |l.ctx| == |l.stack| == |l.size| >= 1
  {
  }
}

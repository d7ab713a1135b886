/**
 The process table and the hart together. A step of the kernel moves the machine of Scheduler, which
 says who may be dispatched, and the machine of Preemption, which says what registers and memory
 become. Here both are shown to agree at every moment, so that what is proved of each holds of
 the one system, and what a preempted creation does to the table is seen in the registers.
 */
module Lockstep {
  import opened Basics
  import opened Rv64
  import Interrupts
  import ContextSwitch
  import S = Scheduler
  import P = Preemption
  import Creation

  datatype Joint = Joint(table: S.Sched, hart: P.Sys)

  /** `Write` is the next of the stores with which the running creation completes the context of its
      slot; `at` is the machine at the call of `swtch`, if there is one. */
  datatype Step =
    | Work(next: Machine)
    | Look(at: Machine)
    | EndOfPass
    | Choose
    | Claim(stackOk: bool)
    | Write
    | Yield(at: Machine)
    | Finish(at: Machine)
    | Preempt(pc: nat, body: Machine)

  ghost predicate LayoutFits(l: P.Layout) {
    P.LayoutOk(l) && P.Scheduler(l) == S.NPROC
  }

  /** The agent on the hart is in the last part of a creation. */
  predicate Filling(table: S.Sched) {
    S.CanCreate(table) && S.Hart(table) in table.making && table.making[S.Hart(table)].Claimed?
  }

  /** The agent on the hart can take the slot that its creation has found. */
  predicate Taking(table: S.Sched, stackOk: bool)
    requires S.Shape(table)
  {
    && stackOk && S.CanCreate(table) && S.Hart(table) in table.making && table.making[S.Hart(table)].Chosen?
    && table.making[S.Hart(table)].p < S.NPROC && table.st[table.making[S.Hart(table)].p] == S.Unused
  }

  /** The running process can go back to the scheduler with this machine. */
  ghost predicate GivesUp(l: P.Layout, j: Joint, at: Machine)
    requires LayoutFits(l)
  {
    && j.table.at.InProcess? && j.table.at.i !in j.table.making
    && !P.Lost(j.hart) && P.CanSwitch(l, j.hart, P.Scheduler(l), at)
  }

  ghost predicate CanDispatch(l: P.Layout, j: Joint, at: Machine)
    requires LayoutFits(l) && S.Shape(j.table)
  {
    S.Dispatches(j.table) && !P.Lost(j.hart) && P.CanSwitch(l, j.hart, j.table.at.i, at)
  }

  ghost predicate CanPreempt(l: P.Layout, j: Joint, pc: nat, body: Machine)
    requires LayoutFits(l)
  {
    j.table.at.InProcess? && j.hart.running < |l.ctx| && P.Preempts(l, j.hart, P.Preempt(pc, body))
  }

  /** The slot whose context the running creation is completing. */
  function SlotToFill(table: S.Sched): nat
    requires Filling(table)
  {
    table.making[S.Hart(table)].p
  }

  /** Is the next store the last one? */
  predicate LastStore(j: Joint) {
    && Filling(j.table) && SlotToFill(j.table) in j.hart.parked
    && j.hart.parked[SlotToFill(j.table)].stage.Raw? && P.Further(j.hart.parked[SlotToFill(j.table)].stage) == P.Fresh
  }

  /** What the step is for the process table ... */
  ghost function TableSteps(l: P.Layout, j: Joint, step: Step): seq<S.Step>
    requires LayoutFits(l) && S.Shape(j.table)
  {
    match step
    case Work(_) => []
    case Look(at) => if S.Dispatches(j.table) && !CanDispatch(l, j, at) then [] else [S.Look]
    case EndOfPass => [S.EndOfPass]
    case Choose => [S.Choose]
    case Claim(stackOk) => [S.Claim(stackOk)]
    case Write => if LastStore(j) then [S.Fill] else []
    case Yield(at) => if GivesUp(l, j, at) then [S.Yield] else []
    case Finish(at) => if GivesUp(l, j, at) then [S.Finish] else []
    case Preempt(pc, body) => if CanPreempt(l, j, pc, body) then [S.Preempt] else []
  }

  /** ... and for the hart. */
  ghost function HartSteps(l: P.Layout, j: Joint, step: Step): seq<P.Step>
    requires LayoutFits(l) && S.Shape(j.table)
  {
    match step
    case Work(next) => [P.Work(next)]
    case Look(at) => if CanDispatch(l, j, at) then [P.Switch(j.table.at.i, at)] else []
    case EndOfPass => []
    case Choose => []
    case Claim(stackOk) => if Taking(j.table, stackOk) then [P.Claim(j.table.making[S.Hart(j.table)].p)] else []
    case Write => if Filling(j.table) then [P.Write(SlotToFill(j.table))] else []
    case Yield(at) => if GivesUp(l, j, at) then [P.Switch(P.Scheduler(l), at)] else []
    case Finish(at) => if GivesUp(l, j, at) then [P.Switch(P.Scheduler(l), at)] else []
    case Preempt(pc, body) => if CanPreempt(l, j, pc, body) then [P.Preempt(pc, body)] else []
  }

  ghost function Apply(l: P.Layout, j: Joint, step: Step): (r: Joint)
    requires LayoutFits(l) && S.Shape(j.table)
    ensures S.Shape(r.table)
  {
    Joint(S.Run(j.table, TableSteps(l, j, step)), P.Run(l, j.hart, HartSteps(l, j, step)))
  }

  ghost function Run(l: P.Layout, j: Joint, steps: seq<Step>): (r: Joint)
    requires LayoutFits(l) && S.Shape(j.table)
    ensures S.Shape(r.table)
    decreases |steps|
  {
    if steps == [] then j else Run(l, Apply(l, j, steps[0]), steps[1..])
  }

  // ---------- projection ----------

  ghost function TableRun(l: P.Layout, j: Joint, steps: seq<Step>): seq<S.Step>
    requires LayoutFits(l) && S.Shape(j.table)
    decreases |steps|
  {
    if steps == [] then [] else TableSteps(l, j, steps[0]) + TableRun(l, Apply(l, j, steps[0]), steps[1..])
  }

  ghost function HartRun(l: P.Layout, j: Joint, steps: seq<Step>): seq<P.Step>
    requires LayoutFits(l) && S.Shape(j.table)
    decreases |steps|
  {
    if steps == [] then [] else HartSteps(l, j, steps[0]) + HartRun(l, Apply(l, j, steps[0]), steps[1..])
  }

  /** Every run of the system is a run of the process table and a run of the hart. */
  lemma {:induction false} Projects(l: P.Layout, j: Joint, steps: seq<Step>)
    requires LayoutFits(l) && S.Shape(j.table)
    ensures Run(l, j, steps).table == S.Run(j.table, TableRun(l, j, steps))
    ensures Run(l, j, steps).hart == P.Run(l, j.hart, HartRun(l, j, steps))
    decreases |steps|
  {
    hide TableSteps, HartSteps, LayoutFits;
    FitsLayout(l);
    if steps != [] {
      var j1 := Apply(l, j, steps[0]);
      Projects(l, j1, steps[1..]);
      S.RunAppend(j.table, TableSteps(l, j, steps[0]), TableRun(l, j1, steps[1..]));
      P.RunAppend(l, j.hart, HartSteps(l, j, steps[0]), HartRun(l, j1, steps[1..]));
    }
  }

  lemma FitsLayout(l: P.Layout)
    requires LayoutFits(l)
    ensures P.LayoutOk(l)
  {
  }

  // ---------- agreement ----------

  /** A parked process is in the same condition in both machines. */
  ghost predicate SameSlot(table: S.Sched, p: nat, k: P.Parked)
    requires S.Shape(table) && p < S.NPROC
  {
    && (table.trapped[p] <==> k.trap.Some?)
    && (table.st[p] == S.Unused <==> k.stage == P.Empty)
    && (S.HalfMade(table.making, p) <==> k.stage.Raw?)
  }

  ghost predicate Match(j: Joint)
    requires S.Shape(j.table)
  {
    && j.hart.running == S.Hart(j.table) <= S.NPROC
    && (P.Lost(j.hart) <==> j.table.at.Lost?)
    && (j.table.enabled <==> Interrupts.Enabled(j.hart.m))
    && (forall q: nat {:trigger q in j.hart.parked} :: q in j.hart.parked <==> q <= S.NPROC && q != j.hart.running)
    && (forall p: nat {:trigger j.hart.parked[p]} :: p < S.NPROC && p != j.hart.running ==>
         SameSlot(j.table, p, j.hart.parked[p]))
    && (j.hart.running < S.NPROC ==> !j.table.trapped[j.hart.running])
    && (forall i {:trigger j.hart.resumed[i]} :: 0 <= i < |j.hart.resumed| - 1 ==> !j.hart.resumed[i].k.stage.Raw?)
  }

  ghost predicate Agree(l: P.Layout, j: Joint) {
    LayoutFits(l) && S.Shape(j.table) && S.Inv(j.table) && P.Inv(l, j.hart) && Match(j)
  }

  ghost predicate Initial(l: P.Layout, j: Joint)
    requires LayoutFits(l)
  {
    S.Initial(j.table) && P.Initial(l, j.hart) && (j.table.enabled <==> Interrupts.Enabled(j.hart.m))
  }

  lemma InitialAgrees(l: P.Layout, j: Joint)
    requires LayoutFits(l) && Initial(l, j)
    ensures Agree(l, j)
  {
    hide S.Inv, P.Inv, P.LayoutOk, P.Zeros, Interrupts.Enabled, ContextSwitch.Context;
    S.InitialInv(j.table);
    P.InitialInv(l, j.hart);
    forall p: nat | p < S.NPROC ensures p in j.hart.parked && SameSlot(j.table, p, j.hart.parked[p]) {
      assert p < P.Scheduler(l);
      assert p in j.hart.parked;
      assert !S.HalfMade(j.table.making, p);
    }
  }

  // ---------- every step keeps the agreement ----------

  lemma RunNone(s: S.Sched)
    requires S.Shape(s)
    ensures S.Run(s, []) == s
  {
  }

  lemma HartOne(l: P.Layout, s: P.Sys, step: P.Step)
    requires P.LayoutOk(l)
    ensures P.Run(l, s, [step]) == P.Apply(l, s, step)
  {
    hide P.Apply, P.LayoutOk;
    assert [step][1..] == [];
    assert P.Run(l, s, [step]) == P.Run(l, P.Apply(l, s, step), []);
  }

  /** The process table moves on, and the hart stays. */
  ghost predicate TableMoves(table: S.Sched, table': S.Sched)
    requires S.Shape(table) && S.Shape(table')
  {
    && S.Inv(table') && S.Hart(table') == S.Hart(table) && table'.at.Lost? == table.at.Lost?
    && table'.enabled == table.enabled && table'.trapped == table.trapped && S.SameHalfMade(table.making, table'.making)
    && forall p {:trigger table'.st[p]} :: 0 <= p < S.NPROC ==> (table'.st[p] == S.Unused <==> table.st[p] == S.Unused)
  }

  lemma TableOnly(l: P.Layout, j: Joint, table': S.Sched)
    requires Agree(l, j) && S.Shape(table') && TableMoves(j.table, table')
    ensures Agree(l, Joint(table', j.hart))
  {
    hide S.Inv, S.Hart, S.HalfMade, P.Inv, P.Lost, P.LayoutOk, Interrupts.Enabled;
    forall p: nat | p < S.NPROC && p != j.hart.running ensures SameSlot(table', p, j.hart.parked[p]) {
      assert p in j.hart.parked && SameSlot(j.table, p, j.hart.parked[p]);
      assert table'.st[p] == S.Unused <==> j.table.st[p] == S.Unused;
      assert S.HalfMade(table'.making, p) <==> S.HalfMade(j.table.making, p);
    }
  }

  lemma WorkAgrees(l: P.Layout, j: Joint, next: Machine)
    requires Agree(l, j)
    ensures Agree(l, Apply(l, j, Work(next)))
  {
    hide S.Inv, S.HalfMade, S.Run, P.Run, P.Inv, P.LayoutOk, P.Respects, Interrupts.Enabled;
    RunNone(j.table);
    HartOne(l, j.hart, P.Work(next));
    P.StepKeepsInv(l, j.hart, P.Work(next));
  }

  /** Steps of the table alone: a slot that is not runnable, the end of a pass, a search, a creation that
      is refused or finds its slot taken. */
  lemma QuietMoves(s: S.Sched, step: S.Step)
    requires S.Inv(s) && (step == S.Look ==> !S.Dispatches(s))
    requires step == S.Look || step == S.EndOfPass || step == S.Choose || (step.Claim? && !Taking(s, step.stackOk))
    ensures TableMoves(s, S.Apply(s, step))
  {
    hide S.OneRunning, S.PassOk, S.WaitOk, S.LifeOk, S.MakingOk, S.HalfMade, S.FreeSlot, S.Active, S.Dispatched,
      S.BackFrom;
    S.StepKeepsInv(s, step);
    if step == S.Choose && S.Hart(s) !in s.making {
      S.ChoosingIsNotMaking(s.making, S.Hart(s), S.FreeSlot(s.st, 0));
    }
    if step.Claim? && S.Hart(s) in s.making && s.making[S.Hart(s)].Chosen? {
      S.RefusedIsNotMaking(s.making, S.Hart(s));
    }
  }

  lemma QuietAgrees(l: P.Layout, j: Joint, step: S.Step)
    requires Agree(l, j) && (step == S.Look ==> !S.Dispatches(j.table))
    requires step == S.Look || step == S.EndOfPass || step == S.Choose
             || (step.Claim? && !Taking(j.table, step.stackOk))
    ensures Agree(l, Joint(S.Run(j.table, [step]), P.Run(l, j.hart, [])))
  {
    hide S.Inv, S.Apply, TableMoves, Taking, P.Inv, Match;
    QuietMoves(j.table, step);
    Creation.RunOne(j.table, step);
    TableOnly(l, j, S.Apply(j.table, step));
  }

  lemma ClaimAgrees(l: P.Layout, j: Joint)
    requires Agree(l, j) && Taking(j.table, true)
    ensures Agree(l, Apply(l, j, Claim(true)))
  {
    hide S.Inv, S.HalfMade, S.Run, S.Apply, P.Run, P.Inv, P.Apply, P.LayoutOk, Interrupts.Enabled;
    var c, p := S.Hart(j.table), j.table.making[S.Hart(j.table)].p;
    Creation.RunOne(j.table, S.Claim(true));
    HartOne(l, j.hart, P.Claim(p));
    S.StepKeepsInv(j.table, S.Claim(true));
    S.ClaimEffect(j.table, true);
    S.ClaimedIsMaking(j.table.making, c, p);
    OffHart(j.table, p);
    assert p in j.hart.parked && SameSlot(j.table, p, j.hart.parked[p]);
    P.SlotClaimed(l, j.hart, p);
  }

  /** A slot that is not running is off the hart. */
  lemma OffHart(s: S.Sched, p: nat)
    requires S.Inv(s) && p < S.NPROC && s.st[p] != S.Running
    ensures p != S.Hart(s)
  {
    hide S.PassOk, S.WaitOk, S.LifeOk, S.MakingOk;
  }

  /** The slot that is being completed is parked, dispatchable, and has no complete context. */
  lemma FillsRaw(l: P.Layout, j: Joint)
    requires Agree(l, j) && Filling(j.table)
    ensures var p := SlotToFill(j.table);
            && p < S.NPROC && p != j.hart.running && p in j.hart.parked && j.hart.parked[p].stage.Raw?
            && !P.Lost(j.hart)
            && j.hart.parked[p].trap == None && SameSlot(j.table, p, j.hart.parked[p])
  {
    hide S.OneRunning, S.PassOk, S.WaitOk, S.LifeOk, S.InOrder, P.Inv, P.LayoutOk, Interrupts.Enabled;
    var c, p := S.Hart(j.table), SlotToFill(j.table);
    assert S.MakingFits(j.table, c);
    assert S.HalfMade(j.table.making, p);
    OffHart(j.table, p);
    assert p in j.hart.parked && SameSlot(j.table, p, j.hart.parked[p]);
    P.OnlyLeftTraps(l, j.hart, p);
  }

  lemma WriteAgrees(l: P.Layout, j: Joint)
    requires Agree(l, j) && Filling(j.table)
    ensures Agree(l, Apply(l, j, Write))
  {
    hide S.Inv, S.HalfMade, S.Run, S.Apply, P.Run, P.Inv, P.Apply, P.LayoutOk, P.StageContext, Interrupts.Enabled;
    var c, p := S.Hart(j.table), SlotToFill(j.table);
    FillsRaw(l, j);
    P.SlotWritten(l, j.hart, p);
    HartOne(l, j.hart, P.Write(p));
    if LastStore(j) {
      Creation.RunOne(j.table, S.Fill);
      S.StepKeepsInv(j.table, S.Fill);
      S.FillEffect(j.table);
      S.SlotInUse(j.table, c);
      S.FilledIsNotMaking(j.table.making, c, p);
    } else {
      RunNone(j.table);
      var hart' := P.Apply(l, j.hart, P.Write(p));
      assert hart'.parked[p].stage.Raw?;
      forall q: nat | q < S.NPROC && q != hart'.running
        ensures q in hart'.parked && SameSlot(j.table, q, hart'.parked[q])
      {
        assert q in j.hart.parked && SameSlot(j.table, q, j.hart.parked[q]);
      }
    }
  }

  /** Nothing is wrong with the context of a running process. */
  lemma RunningIsWhole(s: S.Sched, i: nat)
    requires S.Inv(s) && s.at == S.InProcess(i)
    ensures i < S.NPROC && s.st[i] == S.Running && !S.HalfMade(s.making, i)
  {
    hide S.PassOk, S.WaitOk, S.LifeOk, S.InOrder, S.ClaimsApart;
  }

  /** The hart goes from process `i` back to the scheduler. */
  lemma BackAgrees(l: P.Layout, j: Joint, table': S.Sched, hart': P.Sys, i: nat, callee: seq<nat>, trap: Option<P.Trap>)
    requires Agree(l, j) && j.table.at == S.InProcess(i) && S.NPROC in j.hart.parked
    requires S.Inv(table') && S.Hart(table') == S.NPROC && !table'.at.Lost? && table'.making == j.table.making
    requires S.Shape(table') && i < S.NPROC && table'.st == j.table.st[i := table'.st[i]] && table'.st[i] != S.Unused
    requires table'.trapped == j.table.trapped[i := trap.Some?] && (table'.enabled <==> Interrupts.Enabled(hart'.m))
    requires P.Inv(l, hart') && hart'.running == S.NPROC && !P.Lost(j.hart)
    requires hart'.parked == (j.hart.parked - {S.NPROC})[i := P.Parked(callee, trap, P.Left)]
    requires hart'.resumed == j.hart.resumed + [P.Resumption(S.NPROC, j.hart.parked[S.NPROC], hart'.m)]
    requires j.hart.parked[S.NPROC].stage == P.Left
    ensures Agree(l, Joint(table', hart'))
  {
    hide S.Inv, S.HalfMade, P.Inv, P.LayoutOk, Interrupts.Enabled;
    RunningIsWhole(j.table, i);
    forall p: nat | p < S.NPROC ensures p in hart'.parked && SameSlot(table', p, hart'.parked[p]) {
      if p != i {
        assert p in j.hart.parked && SameSlot(j.table, p, j.hart.parked[p]);
      }
    }
  }

  /** The scheduler is parked at its own `swtch` while a process runs. */
  lemma SchedulerIsLeft(l: P.Layout, j: Joint)
    requires Agree(l, j) && j.table.at.InProcess?
    ensures j.hart.running == j.table.at.i < S.NPROC && S.NPROC in j.hart.parked && !P.Lost(j.hart)
    ensures j.hart.parked[S.NPROC].stage == P.Left && j.hart.parked[S.NPROC].trap == None
  {
    hide S.Inv, S.HalfMade, P.LayoutOk, P.ParkedOk, P.Exact, Interrupts.Enabled;
    RunningIsWhole(j.table, j.table.at.i);
  }

  lemma YieldAgrees(l: P.Layout, j: Joint, at: Machine)
    requires Agree(l, j) && GivesUp(l, j, at)
    ensures Agree(l, Apply(l, j, Yield(at)))
  {
    hide S.Inv, S.Run, S.Apply, S.HalfMade, P.Inv, P.Run, P.Apply, P.LayoutOk, P.CanSwitch, Interrupts.Enabled,
      SameSlot, Match;
    var i := j.table.at.i;
    SchedulerIsLeft(l, j);
    Creation.RunOne(j.table, S.Yield);
    HartOne(l, j.hart, P.Switch(S.NPROC, at));
    S.StepKeepsInv(j.table, S.Yield);
    S.YieldEffect(j.table, i);
    P.SwitchEffect(l, j.hart, S.NPROC, at);
    SameSie(j);
    var hart' := P.Apply(l, j.hart, P.Switch(S.NPROC, at));
    NotTrapped(j);
    BackAgrees(l, j, S.Apply(j.table, S.Yield), hart', i, hart'.parked[i].callee, None);
  }

  lemma FinishAgrees(l: P.Layout, j: Joint, at: Machine)
    requires Agree(l, j) && GivesUp(l, j, at)
    ensures Agree(l, Apply(l, j, Finish(at)))
  {
    hide S.Inv, S.Run, S.Apply, S.HalfMade, P.Inv, P.Run, P.Apply, P.LayoutOk, P.CanSwitch, Interrupts.Enabled,
      SameSlot, Match;
    var i := j.table.at.i;
    SchedulerIsLeft(l, j);
    Creation.RunOne(j.table, S.Finish);
    HartOne(l, j.hart, P.Switch(S.NPROC, at));
    S.StepKeepsInv(j.table, S.Finish);
    S.FinishEffect(j.table, i);
    P.SwitchEffect(l, j.hart, S.NPROC, at);
    SameSie(j);
    var hart' := P.Apply(l, j.hart, P.Switch(S.NPROC, at));
    NotTrapped(j);
    BackAgrees(l, j, S.Apply(j.table, S.Finish), hart', i, hart'.parked[i].callee, None);
  }

  lemma PreemptAgrees(l: P.Layout, j: Joint, pc: nat, body: Machine)
    requires Agree(l, j) && CanPreempt(l, j, pc, body)
    ensures Agree(l, Apply(l, j, Preempt(pc, body)))
  {
    hide S.Inv, S.Run, S.Apply, S.HalfMade, P.Inv, P.Run, P.Apply, P.LayoutOk, P.Preempts, Interrupts.Enabled,
      SameSlot, Match,
      P.TrapOf;
    var i := j.table.at.i;
    SchedulerIsLeft(l, j);
    Creation.RunOne(j.table, S.Preempt);
    HartOne(l, j.hart, P.Preempt(pc, body));
    S.StepKeepsInv(j.table, S.Preempt);
    SameSie(j);
    PreemptsEnabled(l, j, pc, body);
    S.PreemptEffect(j.table, i);
    P.PreemptEffect(l, j.hart, pc, body);
    var hart' := P.Apply(l, j.hart, P.Preempt(pc, body));
    BackAgrees(l, j, S.Apply(j.table, S.Preempt), hart', i, hart'.parked[i].callee, hart'.parked[i].trap);
  }

  lemma PreemptsEnabled(l: P.Layout, j: Joint, pc: nat, body: Machine)
    requires LayoutFits(l) && CanPreempt(l, j, pc, body)
    ensures Interrupts.Enabled(j.hart.m)
  {
    hide Interrupts.Enabled, P.HandlerBody, P.RoomToTrap, P.LayoutOk;
  }

  lemma SameSie(j: Joint)
    requires S.Shape(j.table) && Match(j)
    ensures j.table.enabled <==> Interrupts.Enabled(j.hart.m)
  {
    hide Interrupts.Enabled, SameSlot;
  }

  lemma NotTrapped(j: Joint)
    requires S.Shape(j.table) && Match(j) && j.table.at.InProcess? && j.table.at.i < S.NPROC
    ensures !j.table.trapped[j.table.at.i] && j.table.trapped[j.table.at.i := false] == j.table.trapped
  {
    hide Interrupts.Enabled, SameSlot;
  }

  /** The hart goes from the scheduler to process `i`. */
  lemma ForthAgrees(l: P.Layout, j: Joint, table': S.Sched, hart': P.Sys, i: nat, callee: seq<nat>)
    requires Agree(l, j) && S.Dispatches(j.table) && j.table.at.i == i && j.hart.running == S.NPROC
    requires i in j.hart.parked
    requires S.Inv(table') && S.Shape(table') && table'.st == j.table.st[i := S.Running]
             && table'.making == j.table.making
    requires table'.at == (if S.HalfMade(j.table.making, i) then S.Lost(i) else S.InProcess(i))
    requires table'.trapped == j.table.trapped[i := false] && (table'.enabled <==> Interrupts.Enabled(hart'.m))
    requires P.Inv(l, hart') && hart'.running == i && !P.Lost(j.hart)
    requires hart'.parked == (j.hart.parked - {i})[S.NPROC := P.Parked(callee, None, P.Left)]
    requires hart'.resumed == j.hart.resumed + [P.Resumption(i, j.hart.parked[i], hart'.m)]
    ensures Agree(l, Joint(table', hart'))
  {
    hide S.Inv, S.HalfMade, P.Inv, P.LayoutOk, Interrupts.Enabled;
    assert SameSlot(j.table, i, j.hart.parked[i]);
    forall p: nat | p < S.NPROC && p != i ensures p in hart'.parked && SameSlot(table', p, hart'.parked[p]) {
      assert p in j.hart.parked && SameSlot(j.table, p, j.hart.parked[p]);
    }
  }

  lemma DispatchAgrees(l: P.Layout, j: Joint, at: Machine)
    requires Agree(l, j) && CanDispatch(l, j, at)
    ensures Agree(l, Apply(l, j, Look(at)))
  {
    hide S.Inv, S.HalfMade, S.Run, S.Apply, P.Run, P.Inv, P.Apply, P.LayoutOk, P.CanSwitch, Interrupts.Enabled, Match,
      SameSlot;
    var i := j.table.at.i;
    Creation.RunOne(j.table, S.Look);
    HartOne(l, j.hart, P.Switch(i, at));
    S.StepKeepsInv(j.table, S.Look);
    S.LookEffect(j.table, i);
    IsParked(l, j, at);
    P.SwitchEffect(l, j.hart, i, at);
    SameSie(j);
    var table', hart' := S.Apply(j.table, S.Look), P.Apply(l, j.hart, P.Switch(i, at));
    ForthAgrees(l, j, table', hart', i, hart'.parked[S.NPROC].callee);
  }

  /** The slot that is about to run is parked, in a trap in both machines or in neither. */
  lemma IsParked(l: P.Layout, j: Joint, at: Machine)
    requires Agree(l, j) && CanDispatch(l, j, at)
    ensures var i := j.table.at.i;
            i in j.hart.parked && (j.table.trapped[i] <==> j.hart.parked[i].trap.Some?) && j.hart.running == S.NPROC
  {
    hide S.Inv, S.HalfMade, P.Inv, P.LayoutOk, Interrupts.Enabled;
    var i := j.table.at.i;
    assert i in j.hart.parked && SameSlot(j.table, i, j.hart.parked[i]);
  }

  lemma NothingHappens(l: P.Layout, j: Joint)
    requires LayoutFits(l) && S.Shape(j.table)
    ensures Joint(S.Run(j.table, []), P.Run(l, j.hart, [])) == j
  {
  }

  lemma StepAgrees(l: P.Layout, j: Joint, step: Step)
    requires Agree(l, j)
    ensures Agree(l, Apply(l, j, step))
  {
    hide S.Inv, S.Run, P.Inv, P.Run, Match, S.Dispatches, Filling, Taking, GivesUp, CanDispatch, CanPreempt, LastStore,
      LayoutFits;
    NothingHappens(l, j);
    match step
    case Work(next) => WorkAgrees(l, j, next);
    case Look(at) =>
      if CanDispatch(l, j, at) {
        DispatchAgrees(l, j, at);
      } else if !S.Dispatches(j.table) {
        QuietAgrees(l, j, S.Look);
      }
    case EndOfPass => QuietAgrees(l, j, S.EndOfPass);
    case Choose => QuietAgrees(l, j, S.Choose);
    case Claim(stackOk) =>
      if Taking(j.table, stackOk) {
        TakingHasStack(j.table, stackOk);
        ClaimAgrees(l, j);
      } else {
        QuietAgrees(l, j, S.Claim(stackOk));
      }
    case Write =>
      if Filling(j.table) {
        WriteAgrees(l, j);
      } else {
        NotTheLast(j);
      }
    case Yield(at) => if GivesUp(l, j, at) { YieldAgrees(l, j, at); }
    case Finish(at) => if GivesUp(l, j, at) { FinishAgrees(l, j, at); }
    case Preempt(pc, body) => if CanPreempt(l, j, pc, body) { PreemptAgrees(l, j, pc, body); }
  }

  lemma TakingHasStack(s: S.Sched, stackOk: bool)
    requires S.Shape(s) && Taking(s, stackOk)
    ensures stackOk
  {
  }

  lemma NotTheLast(j: Joint)
    requires !Filling(j.table)
    ensures !LastStore(j)
  {
  }

  /** Process table and hart agree after every run. */
  lemma {:induction false} RunAgrees(l: P.Layout, j: Joint, steps: seq<Step>)
    requires Agree(l, j)
    ensures Agree(l, Run(l, j, steps))
    decreases |steps|
  {
    hide Apply, S.Inv, P.Inv, Match;
    if steps != [] {
      StepAgrees(l, j, steps[0]);
      RunAgrees(l, Apply(l, j, steps[0]), steps[1..]);
    }
  }

  // ---------- what a preempted creation does to the hart ----------

  /** A process was entered without a complete context. */
  ghost predicate EnteredEarly(hart: P.Sys) {
    exists i {:trigger hart.resumed[i]} :: 0 <= i < |hart.resumed| && hart.resumed[i].k.stage.Raw?
  }

  /** In every run, a process has been entered without a complete context exactly if the run has ended
      with that dispatch. */
  lemma EarlyIsLast(l: P.Layout, j: Joint, steps: seq<Step>)
    requires LayoutFits(l) && Initial(l, j)
    ensures var r := Run(l, j, steps);
            && (EnteredEarly(r.hart) <==> r.table.at.Lost?)
            && (r.table.at.Lost? ==> r.hart.resumed != [] && r.hart.resumed[|r.hart.resumed| - 1].m.x[RA] == 0)
  {
    hide Run, S.Inv, P.LayoutOk, P.ParkedOk, Interrupts.Enabled, Initial, SameSlot;
    InitialAgrees(l, j);
    RunAgrees(l, j, steps);
    var r := Run(l, j, steps);
    if r.table.at.Lost? {
      assert P.Exact(l, r.hart.resumed[|r.hart.resumed| - 1]);
    }
  }

  /** As long as every creation keeps the hart, each process starts with the context that `proc_create`
      gave it. */
  lemma WholeCreationsStartRight(l: P.Layout, j: Joint, steps: seq<Step>)
    requires LayoutFits(l) && Initial(l, j) && Creation.AlwaysOnHart(j.table, TableRun(l, j, steps))
    ensures var r := Run(l, j, steps);
            && !EnteredEarly(r.hart) && !S.Damaged(r.table)
            && forall i {:trigger r.hart.resumed[i]} ::
                 0 <= i < |r.hart.resumed| && r.hart.resumed[i].k.stage == P.Fresh ==>
                 P.Started(l, r.hart.resumed[i].p, r.hart.resumed[i].m.x)
  {
    hide Run, TableRun, HartRun, S.Inv, S.Run, P.Run, P.LayoutOk, P.ParkedOk, Interrupts.Enabled, SameSlot,
      Creation.AlwaysOnHart,
      EnteredEarly;
    EarlyIsLast(l, j, steps);
    InitialAgrees(l, j);
    RunAgrees(l, j, steps);
    Projects(l, j, steps);
    Creation.WholeCreationsAreSafe(j.table, TableRun(l, j, steps));
    var r := Run(l, j, steps);
    forall i | 0 <= i < |r.hart.resumed| && r.hart.resumed[i].k.stage == P.Fresh
      ensures P.Started(l, r.hart.resumed[i].p, r.hart.resumed[i].m.x)
    {
      assert P.Exact(l, r.hart.resumed[i]);
    }
  }

  /** A creator preempted between the claim of slot `p` and the last store into its context is never
      resumed, and its creation never completed: the scheduler examines at most the slots up to `p`, and
      if it gets there, `swtch` takes 0 as return address from the new slot. */
  lemma TornCreationIsSeen(l: P.Layout, j: Joint, a: nat, p: nat, pc: nat, body: Machine, steps: seq<Step>)
    requires Agree(l, j) && j.table.at == S.InProcess(a) && a in j.table.making && j.table.making[a] == S.Claimed(p)
    requires CanPreempt(l, j, pc, body)
    ensures var r := Run(l, Apply(l, j, Preempt(pc, body)), steps);
            && r.hart.running != a && a in r.table.making && r.table.making[a] == S.Claimed(p)
            && a < p && |r.table.seen| <= |j.table.seen| + (p - a)
            && (|r.table.seen| == |j.table.seen| + (p - a) ==>
                  && r.hart.running == p && r.hart.resumed != []
                  && r.hart.resumed[|r.hart.resumed| - 1].k.stage.Raw?
                  && r.hart.resumed[|r.hart.resumed| - 1].m.x[RA] == 0)
  {
    hide Run, TableRun, HartRun, S.Inv, S.Run, S.Apply, P.Run, P.Inv, P.LayoutOk, Interrupts.Enabled, SameSlot,
      P.Preempts;
    var j1 := Apply(l, j, Preempt(pc, body));
    Creation.RunOne(j.table, S.Preempt);
    PreemptsEnabled(l, j, pc, body);
    StepAgrees(l, j, Preempt(pc, body));
    RunAgrees(l, j1, steps);
    Projects(l, j1, steps);
    Creation.TornCreationIsLost(j.table, a, p, TableRun(l, j1, steps));
    if Run(l, j1, steps).table.at.Lost? {
      LostRegisters(l, Run(l, j1, steps));
    }
    StillThere(j.table, S.Apply(j.table, S.Preempt), TableRun(l, j1, steps), a, p);
  }

  /** After a dispatch to address 0 the return address is 0. */
  lemma LostRegisters(l: P.Layout, r: Joint)
    requires Agree(l, r) && r.table.at.Lost?
    ensures r.hart.resumed != [] && r.hart.resumed[|r.hart.resumed| - 1].k.stage.Raw?
    ensures r.hart.resumed[|r.hart.resumed| - 1].m.x[RA] == 0
  {
    hide S.Inv, P.LayoutOk, P.ParkedOk, Interrupts.Enabled, SameSlot;
    assert P.Exact(l, r.hart.resumed[|r.hart.resumed| - 1]);
  }

  /** The parked creator does not get the hart back. */
  lemma StillThere(s: S.Sched, s1: S.Sched, steps: seq<S.Step>, a: nat, p: nat)
    requires S.Inv(s) && s.at == S.InProcess(a) && a in s.making && s.making[a] == S.Claimed(p) && s.enabled
    requires s1 == S.Apply(s, S.Preempt)
    ensures S.Hart(S.Run(s1, steps)) != a
  {
    hide S.Inv, S.Run, S.Apply;
    Creation.DoomBegins(s, a, p);
    Creation.DoomLasts(s1, steps, a, p);
  }

  // ---------- the guard, on the system ----------

  /** The creation of agent `a` is under way at every moment of the run. */
  ghost predicate Underway(l: P.Layout, j: Joint, steps: seq<Step>, a: nat)
    requires LayoutFits(l) && S.Shape(j.table)
    decreases |steps|
  {
    a in j.table.making && (steps != [] ==> Underway(l, Apply(l, j, steps[0]), steps[1..], a))
  }

  ghost predicate Harmless(l: P.Layout, j: Joint, steps: seq<Step>, a: nat)
    requires LayoutFits(l) && S.Shape(j.table)
  {
    Underway(l, j, steps, a) ==> !S.Damaged(Run(l, j, steps).table)
  }

  /** Each step is at most one step of the process table. */
  lemma AtMostOne(l: P.Layout, j: Joint, step: Step)
    requires LayoutFits(l) && S.Shape(j.table)
    ensures |TableSteps(l, j, step)| <= 1
    ensures TableSteps(l, j, step) == [] ==> Apply(l, j, step).table == j.table
    ensures TableSteps(l, j, step) != [] ==> Apply(l, j, step).table == S.Apply(j.table, TableSteps(l, j, step)[0])
  {
    hide S.Apply, P.Run, S.Dispatches, Filling, Taking, GivesUp, CanDispatch, CanPreempt, LastStore, LayoutFits;
    var steps := TableSteps(l, j, step);
    if steps != [] {
      assert steps == [steps[0]];
      Creation.RunOne(j.table, steps[0]);
    }
  }

  lemma MaskedStep(l: P.Layout, j: Joint, step: Step, a: nat)
    requires Agree(l, j) && Creation.Masked(j.table, a)
    ensures a in Apply(l, j, step).table.making ==> Creation.Masked(Apply(l, j, step).table, a)
  {
    hide S.Inv, S.Apply, P.Inv, Match, Creation.Masked, TableSteps, HartSteps, Apply, LayoutFits;
    AtMostOne(l, j, step);
    if TableSteps(l, j, step) != [] {
      Creation.MaskLasts(j.table, TableSteps(l, j, step)[0], a);
    }
  }

  lemma {:induction false} MaskedIsHarmless(l: P.Layout, j: Joint, steps: seq<Step>, a: nat)
    requires Agree(l, j) && Creation.Masked(j.table, a)
    ensures Harmless(l, j, steps, a)
    decreases |steps|
  {
    hide Apply, S.Inv, P.Inv, Match, Creation.Masked, LayoutFits;
    if steps == [] {
      Creation.MaskedPlace(j.table, a);
    } else if a in Apply(l, j, steps[0]).table.making {
      MaskedStep(l, j, steps[0], a);
      StepAgrees(l, j, steps[0]);
      MaskedIsHarmless(l, Apply(l, j, steps[0]), steps[1..], a);
    } else {
      assert !Underway(l, Apply(l, j, steps[0]), steps[1..], a);
    }
  }

  /** The machine at the next call of `swtch`, if nothing comes before it. */
  ghost function AtSwtch(l: P.Layout, j: Joint, to: nat): Machine
    requires LayoutFits(l)
  {
    if j.hart.running < |l.ctx| && to < |l.ctx| then P.CallSwtch(l, j.hart, to) else j.hart.m
  }

  /** The next step towards the unfinished slot. */
  ghost function Towards(l: P.Layout, j: Joint): Step
    requires LayoutFits(l)
  {
    if !j.table.at.InProcess? then Look(AtSwtch(l, j, if j.table.at.Scan? then j.table.at.i else 0))
    else if j.table.at.i !in j.table.making then Finish(AtSwtch(l, j, S.NPROC))
    else if j.table.making[j.table.at.i].Chosen? then Claim(false) else Write
  }

  /** How many stores into the context are left to the running creation. */
  function StoresLeft(j: Joint): nat {
    if Filling(j.table) && SlotToFill(j.table) in j.hart.parked && j.hart.parked[SlotToFill(j.table)].stage.Raw?
       && j.hart.parked[SlotToFill(j.table)].stage.done < 2
    then 2 - j.hart.parked[SlotToFill(j.table)].stage.done else 0
  }

  /** A call of `swtch` by the scheduler is a dispatch ... */
  lemma LookWorks(l: P.Layout, j: Joint)
    requires Agree(l, j) && S.Dispatches(j.table)
    ensures CanDispatch(l, j, AtSwtch(l, j, j.table.at.i))
  {
    hide S.HalfMade, S.PassOk, S.WaitOk, S.LifeOk, S.MakingOk, P.Inv, P.CanSwitch, P.LayoutOk, P.CallSwtch,
      Interrupts.Enabled;
    var i := j.table.at.i;
    assert i in j.hart.parked && SameSlot(j.table, i, j.hart.parked[i]);
    P.CallSwtchWorks(l, j.hart, i);
  }

  /** ... and one by a process that ends goes back to it. */
  lemma FinishWorks(l: P.Layout, j: Joint)
    requires Agree(l, j) && j.table.at.InProcess? && j.table.at.i !in j.table.making
    ensures GivesUp(l, j, AtSwtch(l, j, S.NPROC))
  {
    hide S.Inv, Match, P.Inv, P.CanSwitch, P.CallSwtch, P.LayoutOk;
    SchedulerIsLeft(l, j);
    P.CallSwtchWorks(l, j.hart, S.NPROC);
  }

  /** Unless it is one of the first two stores, the step is the table's step towards that slot. */
  lemma TowardsIs(l: P.Layout, j: Joint, a: nat, p: nat)
    requires Agree(l, j) && Creation.Doomed(j.table, a, p) && !S.Damaged(j.table)
    ensures TableSteps(l, j, Towards(l, j)) == if StoresLeft(j) > 0 then [] else [Creation.Towards(j.table)]
  {
    hide S.Inv, P.Inv, Match, P.CanSwitch, P.LayoutOk, LayoutFits, AtSwtch, S.Dispatches, CanDispatch, GivesUp;
    if !j.table.at.InProcess? {
      if S.Dispatches(j.table) {
        LookWorks(l, j);
      }
    } else if j.table.at.i !in j.table.making {
      FinishWorks(l, j);
    } else if j.table.making[j.table.at.i].Claimed? {
      FillsRaw(l, j);
    }
  }

  /** A store that is not the last brings the last one nearer. */
  lemma StoreAdvances(l: P.Layout, j: Joint)
    requires Agree(l, j) && StoresLeft(j) > 0
    ensures Apply(l, j, Write).table == j.table && StoresLeft(Apply(l, j, Write)) < StoresLeft(j)
  {
    hide S.Inv, S.Run, P.Run, P.Inv, P.Apply, Match, P.StageContext, P.LayoutOk, Interrupts.Enabled;
    FillsRaw(l, j);
    var p := SlotToFill(j.table);
    P.SlotWritten(l, j.hart, p);
    RunNone(j.table);
    HartOne(l, j.hart, P.Write(p));
  }

  /** The scheduler can always get to the unfinished slot. */
  lemma {:induction false} DoomComes(l: P.Layout, j: Joint, a: nat, p: nat) returns (steps: seq<Step>)
    requires Agree(l, j) && Creation.Doomed(j.table, a, p)
    ensures S.Damaged(Run(l, j, steps).table) && Underway(l, j, steps, a)
    decreases p + 1 - Creation.Passed(j.table), Creation.Phase(j.table), StoresLeft(j)
  {
    hide Apply, S.Apply, S.Inv, P.Inv, Match, LayoutFits, Towards, Creation.Towards, Creation.Phase, StoresLeft,
      TableSteps, HartSteps;
    DoomedMaking(j.table, a, p);
    if S.Damaged(j.table) {
      steps := [];
    } else {
      var step := Towards(l, j);
      var j1 := Apply(l, j, step);
      StepAgrees(l, j, step);
      TowardsIs(l, j, a, p);
      AtMostOne(l, j, step);
      if StoresLeft(j) > 0 {
        StoreNext(l, j, a, p);
        StoreAdvances(l, j);
      } else {
        Creation.DoomStays(j.table, Creation.Towards(j.table), a, p);
        Creation.TowardsAdvances(j.table, a, p);
      }
      var rest := DoomComes(l, j1, a, p);
      steps := [step] + rest;
      assert steps[1..] == rest;
    }
  }

  lemma DoomedMaking(s: S.Sched, a: nat, p: nat)
    requires Creation.Doomed(s, a, p)
    ensures a in s.making
  {
  }

  lemma StoreNext(l: P.Layout, j: Joint, a: nat, p: nat)
    requires Agree(l, j) && Creation.Doomed(j.table, a, p) && StoresLeft(j) > 0
    ensures Towards(l, j) == Write
  {
    hide S.Inv, P.Inv, Match, LayoutFits, AtSwtch;
  }

  /** Search, claim and preemption by a handler that yields at once. */
  lemma TornAtOnce(l: P.Layout, j: Joint, a: nat, pc: nat)
    requires Agree(l, j) && j.table.at == S.InProcess(a) && a !in j.table.making && S.FreeSlot(j.table.st, 0) < S.NPROC
    requires Interrupts.Enabled(j.hart.m) && P.RoomToTrap(l, a, j.hart.m.x[SP])
    ensures var j1 := Apply(l, j, Choose);
            var j2 := Apply(l, j1, Claim(true));
            && a in j1.table.making && Agree(l, j2) && j2.table.at == S.InProcess(a) && a in j2.table.making
            && j2.table.making[a] == S.Claimed(S.FreeSlot(j.table.st, 0)) && j2.hart.running < |l.ctx| && P.LayoutOk(l)
            && CanPreempt(l, j2, pc, P.YieldAtOnce(l, j2.hart, pc))
  {
    hide S.Inv, S.Apply, S.HalfMade, S.FreeSlot, P.Inv, P.Apply, P.Preempts, P.LayoutOk, Interrupts.Enabled, Match,
      P.YieldAtOnce,
      P.RoomToTrap, S.Run, P.Run;
    var j1 := Apply(l, j, Choose);
    var j2 := Apply(l, j1, Claim(true));
    StepAgrees(l, j, Choose);
    StepAgrees(l, j1, Claim(true));
    SameSie(j);
    Creation.RunOne(j.table, S.Choose);
    Creation.RunOne(j1.table, S.Claim(true));
    Creation.TornAtOnce(j.table, a);
    SchedulerIsLeft(l, j);
    SchedulerIsLeft(l, j2);
    SameRegisters(l, j);
    P.PreemptionIsPossible(l, j2.hart, pc);
  }

  /** Search and claim do not touch registers or memory. */
  lemma SameRegisters(l: P.Layout, j: Joint)
    requires LayoutFits(l) && S.Shape(j.table)
    ensures Apply(l, Apply(l, j, Choose), Claim(true)).hart.m == j.hart.m
  {
    hide S.Run, S.Apply, P.Run, P.LayoutOk;
    FitsLayout(l);
    var j1 := Apply(l, j, Choose);
    NothingHappens(l, j);
    if Taking(j1.table, true) {
      HartOne(l, j1.hart, P.Claim(j1.table.making[S.Hart(j1.table)].p));
    } else {
      NothingHappens(l, j1);
    }
  }

  /** On the whole system: a running process with room on its stack and a free slot ahead does no harm by
      a creation, whatever happens while it is under way, if and only if SIE is clear at the call. */
  lemma GuardIsExact(l: P.Layout, j: Joint, a: nat)
    requires Agree(l, j) && j.table.at == S.InProcess(a) && a !in j.table.making && S.FreeSlot(j.table.st, 0) < S.NPROC
    requires P.RoomToTrap(l, a, j.hart.m.x[SP])
    ensures !Interrupts.Enabled(j.hart.m) <==> forall steps :: Harmless(l, Apply(l, j, Choose), steps, a)
  {
    hide Apply, S.Inv, P.Inv, Match, Harmless, Creation.Masked, Interrupts.Enabled, P.RoomToTrap, LayoutFits,
      S.FreeSlot;
    if Interrupts.Enabled(j.hart.m) {
      var steps := TornRun(l, j, a);
    } else {
      SameSie(j);
      Creation.RunOne(j.table, S.Choose);
      AtMostOne(l, j, Choose);
      Creation.ChooseIsMasked(j.table, a);
      StepAgrees(l, j, Choose);
      forall steps ensures Harmless(l, Apply(l, j, Choose), steps, a) {
        MaskedIsHarmless(l, Apply(l, j, Choose), steps, a);
      }
    }
  }

  lemma TornRun(l: P.Layout, j: Joint, a: nat) returns (steps: seq<Step>)
    requires Agree(l, j) && j.table.at == S.InProcess(a) && a !in j.table.making && S.FreeSlot(j.table.st, 0) < S.NPROC
    requires Interrupts.Enabled(j.hart.m) && P.RoomToTrap(l, a, j.hart.m.x[SP])
    ensures !Harmless(l, Apply(l, j, Choose), steps, a)
  {
    hide Apply, S.Inv, P.Inv, Match, Interrupts.Enabled, P.RoomToTrap, LayoutFits, S.FreeSlot, CanPreempt,
      P.YieldAtOnce, Creation.Doomed;
    TornAtOnce(l, j, a, 0);
    var j1 := Apply(l, j, Choose);
    var j2 := Apply(l, j1, Claim(true));
    var trap := Preempt(0, P.YieldAtOnce(l, j2.hart, 0));
    var j3, p := Apply(l, j2, trap), S.FreeSlot(j.table.st, 0);
    StepAgrees(l, j2, trap);
    PreemptDooms(l, j2, a, p, 0, P.YieldAtOnce(l, j2.hart, 0));
    var rest := DoomComes(l, j3, a, p);
    steps := [Claim(true)] + ([trap] + rest);
    assert ([trap] + rest)[1..] == rest && steps[1..] == [trap] + rest;
    assert Run(l, j1, steps) == Run(l, j2, [trap] + rest) == Run(l, j3, rest);
    assert Underway(l, j2, [trap] + rest, a);
    assert Underway(l, j1, steps, a);
  }

  lemma PreemptDooms(l: P.Layout, j: Joint, a: nat, p: nat, pc: nat, body: Machine)
    requires Agree(l, j) && j.table.at == S.InProcess(a) && a in j.table.making && j.table.making[a] == S.Claimed(p)
    requires CanPreempt(l, j, pc, body)
    ensures Creation.Doomed(Apply(l, j, Preempt(pc, body)).table, a, p)
  {
    hide S.Inv, S.Apply, S.Run, P.Inv, P.Run, P.Preempts, Match, Interrupts.Enabled, P.LayoutOk, Creation.Doomed;
    Creation.RunOne(j.table, S.Preempt);
    PreemptsEnabled(l, j, pc, body);
    SameSie(j);
    Creation.DoomBegins(j.table, a, p);
  }
}

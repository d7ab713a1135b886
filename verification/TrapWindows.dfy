/**
 Traps inside dispatch and `yield`. Neither masks interrupts, and both take two stores and a `swtch`.
 A trap in between is harmless except in three places, which are steps here, besides those of
 Scheduler:
 while the scheduler has set `current_process` and not yet left its own context, the handler's
 `yield` saves the trap in the context of the slot that is about to run; while a process has made
 itself runnable in `yield` and is still current, it is dispatched once more in the middle of `yield`,
 and leaves its slot running with nobody in it; and a process that has ended is parked by the trap
 instead of by its own `yield`, which makes no difference to the table but for SIE.
 */
module TrapWindows {
  import opened Basics
  import S = Scheduler
  import Creation

  /** How the system is: as the machine of Scheduler has it; with the context of slot `i` overwritten,
      where a run ends; or with slot `i` running and nobody in it. */
  datatype Condition = Sound | Crossed(i: nat) | Stuck(i: nat)

  /** `halfway` are the slots parked in the middle of `yield`. */
  datatype System = System(table: S.Sched, halfway: set<nat>, cond: Condition)

  datatype Step = Plain(step: S.Step) | TrapInDispatch | TrapInYield | TrapInFinish

  /** The running process is between two calls, with SIE set. */
  predicate CanBeTrapped(s: S.Sched) {
    s.at.InProcess? && s.at.i !in s.making && s.enabled && s.current.Some? && s.current.value < S.NPROC
  }

  /** Slot `i` is dispatched into the second half of `yield`: no process is current, and the slot stays
      running. */
  function LeftRunning(s: S.Sched, i: nat): (r: S.Sched)
    requires S.Shape(s) && i < S.NPROC
    ensures S.Shape(r)
  {
    S.Dispatched(s, i).(current := None, at := S.Scan(i + 1, true))
  }

  function Apply(s: System, step: Step): (r: System)
    requires S.Shape(s.table)
    ensures S.Shape(r.table)
  {
    if s.cond.Crossed? then s
    else if s.cond.Stuck? then
      if step.Plain? then s.(table := S.Apply(s.table, step.step)) else s
    else match step
         case Plain(step) =>
           if step == S.Look && S.Dispatches(s.table) && s.table.at.i in s.halfway then
             s.(table := LeftRunning(s.table, s.table.at.i), cond := Stuck(s.table.at.i))
           else s.(table := S.Apply(s.table, step))
         case TrapInDispatch =>
           if S.Dispatches(s.table) && s.table.enabled then s.(cond := Crossed(s.table.at.i)) else s
         case TrapInYield =>
           if CanBeTrapped(s.table) then
             s.(table := S.Apply(s.table, S.Preempt), halfway := s.halfway + {s.table.at.i})
           else s
         case TrapInFinish =>
           if CanBeTrapped(s.table) then s.(table := S.Apply(s.table, S.Finish).(enabled := false)) else s
  }

  function Run(s: System, steps: seq<Step>): (r: System)
    requires S.Shape(s.table)
    ensures S.Shape(r.table)
    decreases |steps|
  {
    if steps == [] then s else Run(Apply(s, steps[0]), steps[1..])
  }

  predicate Unharmed(s: System) {
    s.cond == Sound && !S.Damaged(s.table)
  }

  ghost predicate Initial(s: System) {
    S.Initial(s.table) && s.halfway == {} && s.cond == Sound
  }

  // ---------- a trap in `yield` ----------

  /** Slot `i` is running and nobody is in it. */
  ghost predicate Abandoned(s: S.Sched, i: nat) {
    && S.Shape(s) && i < S.NPROC && s.st[i] == S.Running && S.Hart(s) != i && s.current != Some(i) && !s.at.Exited?
  }

  lemma AbandonedStays(s: S.Sched, step: S.Step, i: nat)
    requires Abandoned(s, i)
    ensures Abandoned(S.Apply(s, step), i)
  {
    if step == S.EndOfPass {
      assert s.st[i] != S.Unused && s.st[i] != S.Zombie;
    }
  }

  /** Such a slot is never dispatched again, and the scheduler never returns. */
  lemma {:induction false} NeverReturns(s: System, steps: seq<Step>, i: nat)
    requires s.cond == Stuck(i) && Abandoned(s.table, i)
    ensures var r := Run(s, steps); Abandoned(r.table, i) && !r.table.at.Exited?
    decreases |steps|
  {
    hide S.Apply, Abandoned;
    if steps == [] {
      NotExited(s.table, i);
    } else {
      AbandonedShape(s.table, i);
      if steps[0].Plain? {
        AbandonedStays(s.table, steps[0].step, i);
      }
      NeverReturns(Apply(s, steps[0]), steps[1..], i);
    }
  }

  lemma AbandonedShape(s: S.Sched, i: nat)
    requires Abandoned(s, i)
    ensures S.Shape(s)
  {
  }

  lemma NotExited(s: S.Sched, i: nat)
    requires Abandoned(s, i)
    ensures !s.at.Exited?
  {
  }

  /** A process trapped there is parked, runnable, and not on the hart. */
  ghost predicate Halfway(s: System, i: nat) {
    && S.Inv(s.table) && i < S.NPROC && s.cond == Sound && i in s.halfway && s.table.st[i] == S.Runnable
    && s.table.at != S.InProcess(i)
  }

  lemma TrapParks(s: System)
    requires S.Inv(s.table) && s.cond == Sound && CanBeTrapped(s.table)
    ensures Halfway(Apply(s, TrapInYield), s.table.at.i)
  {
    hide S.PassOk, S.WaitOk, S.LifeOk, S.MakingOk;
    S.PreemptKeeps(s.table);
    S.PreemptEffect(s.table, s.table.at.i);
  }

  /** What becomes of it: it waits for its next dispatch, which leaves its slot running for good. */
  lemma HalfwayMoves(s: System, step: Step, i: nat)
    requires Halfway(s, i)
    ensures var r := Apply(s, step);
            || Halfway(r, i) || r.cond.Crossed? || S.Damaged(r.table)
            || (r.cond.Stuck? && Abandoned(r.table, r.cond.i))
  {
    if step.Plain? {
      if step.step == S.Look && S.Dispatches(s.table) && s.table.at.i in s.halfway {
        LeftIsAbandoned(s.table, s.table.at.i);
      } else {
        HalfwayWaits(s, step.step, i);
      }
    } else {
      HalfwayTraps(s, step, i);
    }
  }

  lemma LeftIsAbandoned(s: S.Sched, i: nat)
    requires S.Inv(s) && S.Dispatches(s) && s.at.i == i
    ensures Abandoned(LeftRunning(s, i), i)
  {
    hide S.PassOk, S.WaitOk, S.LifeOk, S.MakingOk, S.HalfMade;
  }

  lemma HalfwayWaits(s: System, step: S.Step, i: nat)
    requires Halfway(s, i) && !(step == S.Look && S.Dispatches(s.table) && s.table.at.i in s.halfway)
    ensures Halfway(Apply(s, Plain(step)), i) || S.Damaged(Apply(s, Plain(step)).table)
  {
    hide S.PassOk, S.WaitOk, S.LifeOk, S.MakingOk, S.HalfMade, S.FreeSlot, S.Active;
    S.StepKeepsInv(s.table, step);
  }

  lemma HalfwayTraps(s: System, step: Step, i: nat)
    requires Halfway(s, i) && !step.Plain?
    ensures Halfway(Apply(s, step), i) || Apply(s, step).cond.Crossed?
  {
    hide S.PassOk, S.WaitOk, S.LifeOk, S.MakingOk, S.HalfMade, S.FreeSlot, S.Active;
    if CanBeTrapped(s.table) {
      S.PreemptKeeps(s.table);
      S.PreemptEffect(s.table, s.table.at.i);
      FinishMasked(s.table);
      S.FinishEffect(s.table, s.table.at.i);
    }
  }

  /** The end of a process by way of a trap. */
  lemma FinishMasked(s: S.Sched)
    requires S.Inv(s) && CanBeTrapped(s)
    ensures S.Inv(S.Apply(s, S.Finish).(enabled := false))
  {
    hide S.PassOk, S.WaitOk, S.LifeOk, S.MakingOk;
    S.FinishEffect(s, s.at.i);
    S.BackKeeps(s, S.Apply(s, S.Finish).(enabled := false), S.Zombie);
  }

  /** Where a run after a trap in `yield` of process `i` can be. */
  ghost predicate AfterYieldTrap(s: System, i: nat) {
    || Halfway(s, i) || s.cond.Crossed? || (S.Shape(s.table) && S.Damaged(s.table))
    || (s.cond.Stuck? && Abandoned(s.table, s.cond.i))
  }

  lemma AfterTrapStays(s: System, step: Step, i: nat)
    requires AfterYieldTrap(s, i) && S.Shape(s.table)
    ensures AfterYieldTrap(Apply(s, step), i)
  {
    hide S.Inv, Abandoned;
    if s.cond.Crossed? {
    } else if s.cond.Stuck? && Abandoned(s.table, s.cond.i) {
      if step.Plain? {
        AbandonedStays(s.table, step.step, s.cond.i);
      }
    } else if S.Damaged(s.table) {
      DamageStays(s, step);
    } else {
      HalfwayMoves(s, step, i);
    }
  }

  lemma DamageStays(s: System, step: Step)
    requires S.Shape(s.table) && S.Damaged(s.table)
    ensures Apply(s, step).table == s.table
  {
    hide S.HalfMade, S.FreeSlot, S.Active;
  }

  lemma {:induction false} AfterTrapLasts(s: System, steps: seq<Step>, i: nat)
    requires AfterYieldTrap(s, i) && S.Shape(s.table)
    ensures AfterYieldTrap(Run(s, steps), i)
    decreases |steps|
  {
    hide AfterYieldTrap, Apply;
    if steps != [] {
      AfterTrapStays(s, steps[0], i);
      AfterTrapLasts(Apply(s, steps[0]), steps[1..], i);
    }
  }

  /** A process trapped in `yield` after it made itself runnable never goes on: unless the system is
      harmed otherwise, it waits until it is dispatched, and then its slot is running for good with nobody
      in it. Either way the scheduler does not return. */
  lemma YieldTrapIsFinal(s: System, steps: seq<Step>)
    requires S.Inv(s.table) && s.cond == Sound && CanBeTrapped(s.table)
    ensures var r := Run(Apply(s, TrapInYield), steps);
            && (Unharmed(r) ==> s.table.at.i < S.NPROC && r.table.st[s.table.at.i] == S.Runnable
                                && r.table.at != S.InProcess(s.table.at.i))
            && (r.cond.Stuck? && !S.Damaged(r.table) ==> Abandoned(r.table, r.cond.i))
            && (Unharmed(r) || r.cond.Stuck? ==> !r.table.at.Exited?)
  {
    hide S.Inv, S.Apply, Halfway;
    var i := s.table.at.i;
    Creation.InvShape(s.table);
    TrapParks(s);
    AfterTrapLasts(Apply(s, TrapInYield), steps, i);
    var r := Run(Apply(s, TrapInYield), steps);
    if Halfway(r, i) {
      HalfwayIs(r, i);
    }
  }

  lemma HalfwayIs(s: System, i: nat)
    requires Halfway(s, i)
    ensures s.cond == Sound && i < S.NPROC == |s.table.st| && s.table.st[i] == S.Runnable
    ensures s.table.at != S.InProcess(i) && !s.table.at.Exited?
  {
    hide S.WaitOk, S.LifeOk, S.MakingOk, S.OneRunning;
  }

  // ---------- no harm at all ----------

  /** SIE is clear, and stays so because nobody is parked in a trap. */
  ghost predicate Quiet(s: System) {
    && S.Inv(s.table) && !s.table.enabled
    && (forall p {:trigger s.table.trapped[p]} :: 0 <= p < S.NPROC ==> !s.table.trapped[p])
    && Unharmed(s) && s.halfway == {} && Creation.OnHart(s.table) && Creation.Sound(s.table)
  }

  lemma QuietStays(s: System, step: Step)
    requires Quiet(s)
    ensures Quiet(Apply(s, step))
  {
    hide S.OneRunning, S.PassOk, S.WaitOk, S.LifeOk, S.MakingOk, S.HalfMade, S.FreeSlot, S.Active, Creation.OnHart,
      Creation.Sound;
    if step.Plain? {
      S.StepKeepsInv(s.table, step.step);
      Creation.ShieldStays(s.table, step.step);
      Creation.OnHartIsSound(s.table, step.step);
      SoundIsUndamaged(S.Apply(s.table, step.step));
    }
  }

  lemma SoundIsUndamaged(s: S.Sched)
    requires |s.st| == S.NPROC && Creation.Sound(s)
    ensures !S.Damaged(s)
  {
  }

  lemma {:induction false} QuietLasts(s: System, steps: seq<Step>)
    requires Quiet(s)
    ensures Unharmed(Run(s, steps))
    decreases |steps|
  {
    hide Apply, S.Inv, Creation.OnHart, Creation.Sound;
    if steps != [] {
      Creation.InvShape(s.table);
      QuietStays(s, steps[0]);
      QuietLasts(Apply(s, steps[0]), steps[1..]);
    }
  }

  /** The boot code creates a process; the scheduler is trapped at its dispatch. */
  lemma CrossedRun(s: System) returns (steps: seq<Step>)
    requires Initial(s) && s.table.enabled
    ensures Run(s, steps).cond == Crossed(0)
  {
    hide S.Run, S.Apply, S.FreeSlot, S.HalfMade;
    steps := Plains(Creation.Create()) + [TrapInDispatch];
    RunAppend(s, Plains(Creation.Create()), [TrapInDispatch]);
    Creation.FirstUnused(s.table, 0);
    Creation.CreateWhole(s.table);
    PlainCreate(s);
    var s1 := Run(s, Plains(Creation.Create()));
    assert [TrapInDispatch][1..] == [];
    assert Run(s1, [TrapInDispatch]) == Run(Apply(s1, TrapInDispatch), []);
  }

  /** The steps of the table machine alone. */
  function Plains(steps: seq<S.Step>): (r: seq<Step>)
    ensures |r| == |steps| && forall i :: 0 <= i < |r| ==> r[i] == Plain(steps[i])
  {
    seq(|steps|, i requires 0 <= i < |steps| => Plain(steps[i]))
  }

  lemma {:induction false} RunAppend(s: System, a: seq<Step>, b: seq<Step>)
    requires S.Shape(s.table)
    ensures Run(s, a + b) == Run(Run(s, a), b)
    decreases |a|
  {
    hide Apply;
    if a == [] {
      assert a + b == b;
    } else {
      assert (a + b)[1..] == a[1..] + b;
      RunAppend(Apply(s, a[0]), a[1..], b);
    }
  }

  /** As long as nobody is parked in the middle of `yield`, or a slot is already lost, table steps are those
      of the table machine. */
  lemma {:induction false} PlainRun(s: System, steps: seq<S.Step>)
    requires S.Shape(s.table) && !s.cond.Crossed? && (s.cond == Sound ==> s.halfway == {})
    ensures Run(s, Plains(steps)) == s.(table := S.Run(s.table, steps))
    decreases |steps|
  {
    hide S.Apply;
    if steps != [] {
      assert Plains(steps)[1..] == Plains(steps[1..]);
      PlainRun(Apply(s, Plain(steps[0])), steps[1..]);
    }
  }

  lemma PlainCreate(s: System)
    requires Initial(s)
    ensures Run(s, Plains(Creation.Create())) == s.(table := S.Run(s.table, Creation.Create()))
  {
    hide S.Run;
    PlainRun(s, Creation.Create());
  }

  /** The process subsystem is unharmed in every run, with traps anywhere, if and only if interrupts are
      disabled when it starts. `main` enables them. */
  lemma SafeIffDisabled(s: System)
    requires Initial(s)
    ensures (forall steps :: Unharmed(Run(s, steps))) <==> !s.table.enabled
  {
    hide Run, S.Inv;
    if s.table.enabled {
      var steps := CrossedRun(s);
      assert !Unharmed(Run(s, steps));
    } else {
      S.InitialInv(s.table);
      forall steps ensures Unharmed(Run(s, steps)) {
        QuietLasts(s, steps);
      }
    }
  }

  // ---------- a scheduler that does not return ----------

  /** The scheduler is about to examine slot `i`, only slot 0 has a process, and that is in state `x`. */
  ghost predicate OneProcess(s: System, i: nat, found: bool, x: S.State) {
    && S.Shape(s.table) && s.table.at == S.Scan(i, found) && s.table.making == map[] && s.table.st[0] == x
    && (forall j {:trigger s.table.st[j]} :: 1 <= j < S.NPROC ==> s.table.st[j] == S.Unused)
  }

  /** The rest of a pass over slots that are not runnable. */
  lemma {:induction false} PassBy(s: System, i: nat, found: bool, x: S.State)
    requires OneProcess(s, i, found, x) && i <= S.NPROC && !s.cond.Crossed? && (i > 0 || x != S.Runnable)
    ensures var r := Run(s, Plains(Creation.Looks(S.NPROC - i)));
            OneProcess(r, S.NPROC, found, x) && r.cond == s.cond && r.halfway == s.halfway
    decreases S.NPROC - i
  {
    hide S.HalfMade, S.Dispatched;
    if i < S.NPROC {
      var rest := Creation.Looks(S.NPROC - i - 1);
      assert Plains(Creation.Looks(S.NPROC - i)) == [Plain(S.Look)] + Plains(rest);
      RunAppend(s, [Plain(S.Look)], Plains(rest));
      RunOne(s, Plain(S.Look));
      PassBy(Apply(s, Plain(S.Look)), i + 1, found, x);
    }
  }

  lemma RunOne(s: System, step: Step)
    requires S.Shape(s.table)
    ensures Run(s, [step]) == Apply(s, step)
  {
    hide Apply;
    assert [step][1..] == [];
    assert Run(s, [step]) == Run(Apply(s, step), []);
  }

  function Pass(n: nat): seq<Step> {
    Plains(Creation.Looks(n)) + [Plain(S.EndOfPass)]
  }

  /** A pass in which some slot was found runnable, or was dispatched, is followed by another. */
  lemma PassAgain(s: System, i: nat, x: S.State)
    requires OneProcess(s, i, true, x) && 0 < i <= S.NPROC && !s.cond.Crossed?
    ensures var r := Run(s, Pass(S.NPROC - i));
            OneProcess(r, 0, false, x) && r.cond == s.cond && r.halfway == s.halfway
  {
    hide Apply, OneProcess, Run;
    OneProcessShape(s, i, true, x);
    PassBy(s, i, true, x);
    RunAppend(s, Plains(Creation.Looks(S.NPROC - i)), [Plain(S.EndOfPass)]);
    var r := Run(s, Plains(Creation.Looks(S.NPROC - i)));
    RunOne(r, Plain(S.EndOfPass));
    PassEnds(r, true, x);
  }

  lemma OneProcessShape(s: System, i: nat, found: bool, x: S.State)
    requires OneProcess(s, i, found, x)
    ensures S.Shape(s.table)
  {
  }

  lemma PassEnds(s: System, found: bool, x: S.State)
    requires OneProcess(s, S.NPROC, found, x) && !s.cond.Crossed?
    ensures var r := Apply(s, Plain(S.EndOfPass));
            && r.cond == s.cond && r.halfway == s.halfway && (found ==> OneProcess(r, 0, false, x))
            && (!found && x == S.Running ==> r.table.at == S.Idle)
  {
    hide S.HalfMade, S.Dispatched;
    assert x == S.Running ==> s.table.st[0] != S.Unused && s.table.st[0] != S.Zombie;
  }

  /** Process 0 is dispatched and trapped in `yield`. */
  lemma TrappedInYield(s: System)
    requires OneProcess(s, 0, false, S.Runnable) && s.cond == Sound && s.halfway == {} && s.table.enabled
    ensures var r := Apply(Apply(s, Plain(S.Look)), TrapInYield);
            OneProcess(r, 1, true, S.Runnable) && r.cond == Sound && r.halfway == {0}
  {
    var s1 := Apply(s, Plain(S.Look));
    assert s1.table.at == S.InProcess(0);
  }

  /** It is dispatched again. */
  lemma DispatchedHalfway(s: System)
    requires OneProcess(s, 0, false, S.Runnable) && s.cond == Sound && s.halfway == {0}
    ensures var r := Apply(s, Plain(S.Look)); OneProcess(r, 1, true, S.Running) && r.cond == Stuck(0)
  {
  }

  /** The boot code creates one process with interrupts enabled; it is trapped in its first `yield`; after
      its next dispatch the scheduler waits for an interrupt with the slot running and nobody in it. */
  lemma YieldTrapHangs(s: System) returns (steps: seq<Step>)
    requires Initial(s) && s.table.enabled
    ensures var r := Run(s, steps); r.cond == Stuck(0) && r.table.at == S.Idle
  {
    hide S.Run, S.Apply, S.FreeSlot, Apply, Run, Pass, Plains, OneProcess;
    var s1 := Booted(s);
    var s2 := Apply(Apply(s1, Plain(S.Look)), TrapInYield);
    TrappedInYield(s1);
    PassAgain(s2, 1, S.Runnable);
    var s3 := Run(s2, Pass(15));
    DispatchedHalfway(s3);
    var s4 := Apply(s3, Plain(S.Look));
    PassAgain(s4, 1, S.Running);
    var s5 := Run(s4, Pass(15));
    PassBy(s5, 0, false, S.Running);
    var s6 := Run(s5, Plains(Creation.Looks(16)));
    PassEnds(s6, false, S.Running);
    var p1, p2 := Plains(Creation.Create()), [Plain(S.Look), TrapInYield];
    var p3, p4 := Pass(15), [Plain(S.Look)];
    var p5, p6 := Pass(15), Plains(Creation.Looks(16)) + [Plain(S.EndOfPass)];
    steps := p1 + p2 + p3 + p4 + p5 + p6;
    RunAppend(s, p1 + p2 + p3 + p4 + p5, p6);
    RunAppend(s, p1 + p2 + p3 + p4, p5);
    RunAppend(s, p1 + p2 + p3, p4);
    RunAppend(s, p1 + p2, p3);
    RunAppend(s, p1, p2);
    RunTwo(s1, Plain(S.Look), TrapInYield);
    RunOne(s3, Plain(S.Look));
    RunAppend(s5, Plains(Creation.Looks(16)), [Plain(S.EndOfPass)]);
    RunOne(s6, Plain(S.EndOfPass));
  }

  lemma RunTwo(s: System, a: Step, b: Step)
    requires S.Shape(s.table)
    ensures Run(s, [a, b]) == Apply(Apply(s, a), b)
  {
    hide Apply;
    assert [a, b][1..] == [b] && [b][1..] == [];
    var s1 := Apply(s, a);
    assert Run(s, [a, b]) == Run(s1, [b]) == Run(Apply(s1, b), []);
  }

  /** After the boot code has created process 0. */
  lemma Booted(s: System) returns (s1: System)
    requires Initial(s) && s.table.enabled
    ensures s1 == Run(s, Plains(Creation.Create())) && OneProcess(s1, 0, false, S.Runnable)
    ensures s1.cond == Sound && s1.halfway == {} && s1.table.enabled
  {
    hide S.Run, S.Apply, S.FreeSlot, Run, Plains;
    Creation.FirstUnused(s.table, 0);
    Creation.CreateWhole(s.table);
    PlainCreate(s);
    s1 := Run(s, Plains(Creation.Create()));
  }
}

/**
 Creations that are preempted. `proc_create` makes its slot runnable before it writes the slot's
 context, and nothing in it masks interrupts. Here is when that does harm: the runs without damage,
 the guard that a caller can check, and what becomes of a creation that loses the hart.
 */
module Creation {
  import opened Basics
  import opened Scheduler

  // ---------- creations that keep the hart ----------

  /** Every creation under way has its creator on the hart. */
  ghost predicate OnHart(s: Sched) {
    forall c {:trigger c in s.making} :: c in s.making ==> c == Hart(s)
  }

  ghost predicate AlwaysOnHart(s: Sched, steps: seq<Step>)
    requires Shape(s)
    decreases |steps|
  {
    OnHart(s) && (steps != [] ==> AlwaysOnHart(Apply(s, steps[0]), steps[1..]))
  }

  /** No damage, and the slot that a creation has found is still unused. */
  ghost predicate Sound(s: Sched)
    requires |s.st| == NPROC
  {
    !Damaged(s) && forall c {:trigger s.making[c]} :: c in s.making && s.making[c].Chosen? && s.making[c].p < NPROC ==>
                     s.st[s.making[c].p] == Unused
  }

  lemma OnHartIsSound(s: Sched, step: Step)
    requires Inv(s) && OnHart(s) && Sound(s)
    ensures Sound(Apply(s, step))
  {
    hide WaitOk, LifeOk, PassOk, InOrder;
  }

  lemma {:induction false} WholeFrom(s: Sched, steps: seq<Step>)
    requires Inv(s) && Sound(s) && AlwaysOnHart(s, steps)
    ensures Sound(Run(s, steps))
    decreases |steps|
  {
    hide Apply, Inv, OnHart, Sound;
    if steps != [] {
      InvShape(s);
      OnHartIsSound(s, steps[0]);
      StepKeepsInv(s, steps[0]);
      WholeFrom(Apply(s, steps[0]), steps[1..]);
    }
  }

  lemma InvShape(s: Sched)
    requires Inv(s)
    ensures Shape(s)
  {
  }

  /** A run from boot in which no creator loses the hart before its creation is complete ends without
      damage. */
  lemma WholeCreationsAreSafe(s: Sched, steps: seq<Step>)
    requires Initial(s) && AlwaysOnHart(s, steps)
    ensures !Damaged(Run(s, steps))
  {
    hide Apply, Run;
    InitialInv(s);
    WholeFrom(s, steps);
  }

  // ---------- the guard ----------

  /** Processes start creations only with SIE clear. */
  ghost predicate Guarded(s: Sched, steps: seq<Step>)
    requires Shape(s)
    decreases |steps|
  {
    steps != [] ==>
      && (steps[0] == Choose && s.at.InProcess? ==> !s.enabled)
      && Guarded(Apply(s, steps[0]), steps[1..])
  }

  ghost predicate Shielded(s: Sched) {
    OnHart(s) && (s.at.InProcess? && s.at.i in s.making ==> !s.enabled)
  }

  lemma ShieldStays(s: Sched, step: Step)
    requires Inv(s) && Shielded(s) && (step == Choose && s.at.InProcess? ==> !s.enabled)
    ensures Shielded(Apply(s, step))
  {
    hide WaitOk, LifeOk, PassOk, InOrder, MakingFits, HalfMade;
    if step == Look && s.at.Scan? && !Booting(s) {
      assert s.making == map[];
    }
  }

  lemma {:induction false} GuardedFrom(s: Sched, steps: seq<Step>)
    requires Inv(s) && Shielded(s) && Guarded(s, steps)
    ensures AlwaysOnHart(s, steps)
    decreases |steps|
  {
    hide Apply, Inv, OnHart;
    if steps != [] {
      InvShape(s);
      ShieldStays(s, steps[0]);
      StepKeepsInv(s, steps[0]);
      GuardedFrom(Apply(s, steps[0]), steps[1..]);
    }
  }

  /** With that discipline no creator ever loses the hart, so no run is damaged. */
  lemma GuardedRunsAreSafe(s: Sched, steps: seq<Step>)
    requires Initial(s) && Guarded(s, steps)
    ensures AlwaysOnHart(s, steps) && !Damaged(Run(s, steps))
  {
    hide Apply, Run;
    InitialInv(s);
    GuardedFrom(s, steps);
    WholeCreationsAreSafe(s, steps);
  }

  /** The creation of agent `a` is under way at every moment of the run. */
  ghost predicate Underway(s: Sched, steps: seq<Step>, a: nat)
    requires Shape(s)
    decreases |steps|
  {
    a in s.making && (steps != [] ==> Underway(Apply(s, steps[0]), steps[1..], a))
  }

  // ---------- a creation that loses the hart with its slot runnable ----------

  /** How many slots the pass has examined. */
  function Passed(s: Sched): nat {
    match s.at
    case Scan(i, _) => i
    case _ => Hart(s) + 1
  }

  /** Creator `a` is parked, its slot `p` is runnable without a context, and the pass has not got
      past `p`; it stops there. */
  ghost predicate Doomed(s: Sched, a: nat, p: nat) {
    && a < p < NPROC && a in s.making && s.making[a] == Claimed(p) && Hart(s) != a
    && a < Passed(s) <= p + 1 && (Passed(s) == p + 1 ==> s.at == Lost(p))
    && (s.at.Scan? || s.at.InProcess? || Damaged(s))
  }

  lemma DoomLook(s: Sched, a: nat, p: nat)
    requires Inv(s) && Doomed(s, a, p)
    ensures var s' := Apply(s, Look);
            && Doomed(s', a, p) && |s'.seen| - Passed(s') == |s.seen| - Passed(s)
            && (Damaged(s) ==> s' == s)
  {
    hide WaitOk, LifeOk, PassOk, InOrder, ClaimsApart, Active, FreeSlot;
    assert MakingFits(s, a);
    if s.at == Scan(p, true) || s.at == Scan(p, false) {
      assert HalfMade(s.making, p);
    }
  }

  /** Between the creator and its slot only the process on the hart or the scan moves on. */
  lemma DoomRuns(s: Sched, step: Step, a: nat, p: nat)
    requires Inv(s) && Doomed(s, a, p) && s.at.InProcess? && step != Look
    ensures var s' := Apply(s, step);
            Doomed(s', a, p) && s'.seen == s.seen && Passed(s') == Passed(s)
  {
    hide WaitOk, LifeOk, PassOk, MakingOk, HalfMade, Active, FreeSlot;
  }

  lemma DoomWaits(s: Sched, step: Step, a: nat, p: nat)
    requires Inv(s) && Doomed(s, a, p) && !s.at.InProcess? && step != Look
    ensures Apply(s, step) == s
  {
    hide WaitOk, LifeOk, OneRunning, PassOk, MakingOk, HalfMade, Active, FreeSlot;
  }

  lemma DoomStays(s: Sched, step: Step, a: nat, p: nat)
    requires Inv(s) && Doomed(s, a, p)
    ensures var s' := Apply(s, step);
            && Doomed(s', a, p) && |s'.seen| - Passed(s') == |s.seen| - Passed(s)
            && (Damaged(s) ==> s' == s)
  {
    hide Apply, Inv, Doomed;
    if step == Look {
      DoomLook(s, a, p);
    } else if s.at.InProcess? {
      DoomRuns(s, step, a, p);
    } else {
      DoomWaits(s, step, a, p);
    }
  }

  lemma {:induction false} DoomLasts(s: Sched, steps: seq<Step>, a: nat, p: nat)
    requires Inv(s) && Doomed(s, a, p)
    ensures var r := Run(s, steps); Doomed(r, a, p) && |r.seen| - Passed(r) == |s.seen| - Passed(s)
    ensures Underway(s, steps, a)
    decreases |steps|
  {
    hide Apply, Inv;
    if steps == [] {
      InvShape(s);
    } else {
      InvShape(s);
      DoomStays(s, steps[0], a, p);
      StepKeepsInv(s, steps[0]);
      DoomLasts(Apply(s, steps[0]), steps[1..], a, p);
    }
  }

  lemma DoomBegins(s: Sched, a: nat, p: nat)
    requires Inv(s) && s.at == InProcess(a) && a in s.making && s.making[a] == Claimed(p) && s.enabled
    ensures var s' := Apply(s, Preempt); Inv(s') && Doomed(s', a, p) && Passed(s') == a + 1 && s'.seen == s.seen
  {
    hide WaitOk, LifeOk, PassOk, InOrder, ClaimsApart;
    assert MakingFits(s, a);
    PreemptKeeps(s);
  }

  /** A creator preempted after it made its slot runnable and before it wrote the context is never
      resumed: in every continuation the creation stays unfinished, the scheduler examines at most the
      slots up to the new one, and if it gets there it dispatches a slot without a context. */
  lemma TornCreationIsLost(s: Sched, a: nat, p: nat, steps: seq<Step>)
    requires Inv(s) && s.at == InProcess(a) && a in s.making && s.making[a] == Claimed(p) && s.enabled
    ensures var r := Run(Apply(s, Preempt), steps);
            && r.at != InProcess(a) && a in r.making && r.making[a] == Claimed(p)
            && a < p && |r.seen| <= |s.seen| + (p - a)
            && (|r.seen| == |s.seen| + (p - a) ==> r.at == Lost(p))
  {
    hide Apply, Run, Inv;
    InvShape(s);
    DoomBegins(s, a, p);
    DoomLasts(Apply(s, Preempt), steps, a, p);
  }

  /** What is left to do until the hart is back with the scheduler. */
  function Phase(s: Sched): nat {
    if !s.at.InProcess? then 0 else if s.at.i in s.making then 2 else 1
  }

  /** The next step towards the unfinished slot. */
  function Towards(s: Sched): Step {
    if !s.at.InProcess? then Look
    else if s.at.i !in s.making then Finish
    else if s.making[s.at.i].Chosen? then Claim(false) else Fill
  }

  lemma TowardsAdvances(s: Sched, a: nat, p: nat)
    requires Inv(s) && Doomed(s, a, p) && !Damaged(s)
    ensures var s' := Apply(s, Towards(s)); Passed(s') > Passed(s) || (Passed(s') == Passed(s) && Phase(s') < Phase(s))
  {
    hide WaitOk, LifeOk, PassOk, InOrder, ClaimsApart;
    if s.at.InProcess? && s.at.i in s.making {
      assert MakingFits(s, s.at.i);
    }
  }

  /** The scheduler can always get that far. */
  lemma {:induction false} DoomComes(s: Sched, a: nat, p: nat) returns (steps: seq<Step>)
    requires Inv(s) && Doomed(s, a, p)
    ensures Damaged(Run(s, steps)) && Underway(s, steps, a)
    decreases p + 1 - Passed(s), Phase(s)
  {
    hide Apply, Inv, Towards, Phase;
    InvShape(s);
    if Damaged(s) {
      steps := [];
    } else {
      DoomStays(s, Towards(s), a, p);
      TowardsAdvances(s, a, p);
      StepKeepsInv(s, Towards(s));
      var rest := DoomComes(Apply(s, Towards(s)), a, p);
      steps := [Towards(s)] + rest;
      assert steps[1..] == rest;
    }
  }

  // ---------- the guard is exact ----------

  /** As long as this creation is under way, there is no damage. */
  ghost predicate Harmless(s: Sched, steps: seq<Step>, a: nat)
    requires Shape(s)
  {
    Underway(s, steps, a) ==> !Damaged(Run(s, steps))
  }

  /** With SIE clear the creator stays on the hart and its slot stays its own. */
  ghost predicate Masked(s: Sched, a: nat)
    requires |s.st| == NPROC
  {
    && s.at == InProcess(a) && !s.enabled && a in s.making
    && (s.making[a].Chosen? && s.making[a].p < NPROC ==> s.st[s.making[a].p] == Unused)
  }

  lemma MaskLasts(s: Sched, step: Step, a: nat)
    requires Inv(s) && Masked(s, a)
    ensures a in Apply(s, step).making ==> Masked(Apply(s, step), a)
  {
    hide WaitOk, LifeOk, PassOk, MakingOk;
  }

  lemma {:induction false} MaskedIsHarmless(s: Sched, steps: seq<Step>, a: nat)
    requires Inv(s) && Masked(s, a)
    ensures Harmless(s, steps, a)
    decreases |steps|
  {
    hide Apply, Inv, Masked;
    InvShape(s);
    if steps == [] {
      assert s.at == InProcess(a) by { MaskedPlace(s, a); }
    } else if a in Apply(s, steps[0]).making {
      MaskLasts(s, steps[0], a);
      StepKeepsInv(s, steps[0]);
      MaskedIsHarmless(Apply(s, steps[0]), steps[1..], a);
    } else {
      assert !Underway(Apply(s, steps[0]), steps[1..], a);
    }
  }

  lemma MaskedPlace(s: Sched, a: nat)
    requires |s.st| == NPROC && Masked(s, a)
    ensures s.at == InProcess(a)
  {
  }

  /** The machine after the search, the claim and the preemption of a creation. */
  lemma TornAtOnce(s: Sched, a: nat)
    requires Inv(s) && s.at == InProcess(a) && a !in s.making && s.enabled && FreeSlot(s.st, 0) < NPROC
    ensures var s1 := Apply(s, Choose);
            var s2 := Apply(s1, Claim(true));
            && a in s1.making && Inv(s2) && s2.at == InProcess(a) && s2.enabled
            && a in s2.making && s2.making[a] == Claimed(FreeSlot(s.st, 0))
  {
    hide WaitOk, LifeOk, PassOk, MakingOk;
    StepKeepsInv(s, Choose);
    StepKeepsInv(Apply(s, Choose), Claim(true));
  }

  lemma TornRun(s: Sched, a: nat) returns (steps: seq<Step>)
    requires Inv(s) && s.at == InProcess(a) && a !in s.making && s.enabled && FreeSlot(s.st, 0) < NPROC
    ensures !Harmless(Apply(s, Choose), steps, a)
  {
    hide Apply, Inv;
    InvShape(s);
    TornAtOnce(s, a);
    var s1 := Apply(s, Choose);
    var s2 := Apply(s1, Claim(true));
    var s3, p := Apply(s2, Preempt), FreeSlot(s.st, 0);
    DoomBegins(s2, a, p);
    var rest := DoomComes(s3, a, p);
    steps := [Claim(true)] + ([Preempt] + rest);
    assert ([Preempt] + rest)[1..] == rest;
    assert steps[1..] == [Preempt] + rest;
    assert Run(s1, steps) == Run(s2, [Preempt] + rest) == Run(s3, rest);
    assert Underway(s2, [Preempt] + rest, a);
    assert Underway(s1, steps, a);
  }

  /** A caller with a free slot ahead can tell in advance: no continuation does harm while its creation
      is under way if and only if SIE is clear at the call. */
  lemma GuardIsExact(s: Sched, a: nat)
    requires Inv(s) && s.at == InProcess(a) && a !in s.making && FreeSlot(s.st, 0) < NPROC
    ensures !s.enabled <==> forall steps :: Harmless(Apply(s, Choose), steps, a)
  {
    hide Apply, Inv, Harmless, Masked;
    InvShape(s);
    if s.enabled {
      var steps := TornRun(s, a);
    } else {
      ChooseIsMasked(s, a);
      forall steps ensures Harmless(Apply(s, Choose), steps, a) {
        MaskedIsHarmless(Apply(s, Choose), steps, a);
      }
    }
  }

  lemma ChooseIsMasked(s: Sched, a: nat)
    requires Inv(s) && s.at == InProcess(a) && a !in s.making && !s.enabled && FreeSlot(s.st, 0) < NPROC
    ensures Inv(Apply(s, Choose)) && Masked(Apply(s, Choose), a)
  {
    hide WaitOk, LifeOk, PassOk, MakingOk;
    StepKeepsInv(s, Choose);
  }

  // ---------- a creation that loses the hart before it takes its slot ----------

  /** The step makes the unused slot `p` runnable for another creation. */
  ghost predicate Takes(s: Sched, step: Step, p: nat)
    requires Shape(s)
  {
    && step == Claim(true) && CanCreate(s) && Hart(s) in s.making && s.making[Hart(s)] == Chosen(p)
    && p < NPROC && s.st[p] == Unused
  }

  ghost predicate Taken(s: Sched, steps: seq<Step>, p: nat)
    requires Shape(s)
    decreases |steps|
  {
    steps != [] && (Takes(s, steps[0], p) || Taken(Apply(s, steps[0]), steps[1..], p))
  }

  lemma OnlyTakingUses(s: Sched, step: Step, p: nat)
    requires Inv(s) && p < NPROC
    ensures Apply(s, step).st[p] != Unused <==> s.st[p] != Unused || Takes(s, step, p)
  {
    hide WaitOk, LifeOk, PassOk, InOrder, MakingOk;
  }

  lemma {:induction false} UsedWhenTaken(s: Sched, steps: seq<Step>, p: nat)
    requires Inv(s) && p < NPROC
    ensures Run(s, steps).st[p] != Unused <==> s.st[p] != Unused || Taken(s, steps, p)
    decreases |steps|
  {
    hide Apply, Inv, Takes;
    InvShape(s);
    if steps != [] {
      OnlyTakingUses(s, steps[0], p);
      StepKeepsInv(s, steps[0]);
      UsedWhenTaken(Apply(s, steps[0]), steps[1..], p);
    }
  }

  /** A creator that lost the hart between its search and its claim, and has it back, clashes exactly if
      another creation has taken the slot meanwhile. */
  lemma ClashIffTaken(s: Sched, a: nat, p: nat, steps: seq<Step>)
    requires Inv(s) && a in s.making && s.making[a] == Chosen(p) && p < NPROC && s.st[p] == Unused
    requires Run(s, steps).at == InProcess(a) && a in Run(s, steps).making && Run(s, steps).making[a] == Chosen(p)
    ensures Apply(Run(s, steps), Claim(true)).at.Clash? <==> Taken(s, steps, p)
  {
    hide Run, WaitOk, LifeOk, PassOk, InOrder, MakingOk;
    UsedWhenTaken(s, steps, p);
  }

  // ---------- two runs that fail ----------

  /** What a creation does from its search to its last store. */
  function Create(): seq<Step> {
    [Choose, Claim(true), Fill]
  }

  lemma CreateParts(s: Sched)
    requires Shape(s) && CanCreate(s) && Hart(s) !in s.making && FreeSlot(s.st, 0) < NPROC
    ensures var p := FreeSlot(s.st, 0);
            Apply(Apply(Apply(s, Choose), Claim(true)), Fill) ==
                s.(st := s.st[p := Runnable], waited := s.waited[p := 0])
  {
    hide HalfMade, Dispatched, BackFrom, Active, FreeSlot;
    var c, p := Hart(s), FreeSlot(s.st, 0);
    var s1 := Apply(s, Choose);
    assert s1 == s.(making := s.making[c := Chosen(p)]);
    var s2 := Apply(s1, Claim(true));
    assert s2 == s.(st := s.st[p := Runnable], waited := s.waited[p := 0],
           making := s.making[c := Chosen(p)][c := Claimed(p)]);
    assert s.making[c := Chosen(p)][c := Claimed(p)] - {c} == s.making;
  }

  lemma RunThree(s: Sched, a: Step, b: Step, c: Step)
    requires Shape(s)
    ensures Run(s, [a, b, c]) == Apply(Apply(Apply(s, a), b), c)
  {
    hide Apply;
    assert [a, b, c][1..] == [b, c] && [b, c][1..] == [c] && [c][1..] == [];
    var s1 := Apply(s, a);
    var s2 := Apply(s1, b);
    assert Run(s, [a, b, c]) == Run(s1, [b, c]) == Run(s2, [c]) == Run(Apply(s2, c), []);
  }

  /** A creation that nothing interrupts. */
  lemma CreateWhole(s: Sched)
    requires Shape(s) && CanCreate(s) && Hart(s) !in s.making && FreeSlot(s.st, 0) < NPROC
    ensures var p := FreeSlot(s.st, 0);
            Run(s, Create()) == s.(st := s.st[p := Runnable], waited := s.waited[p := 0])
  {
    hide Apply, Run;
    CreateParts(s);
    RunThree(s, Choose, Claim(true), Fill);
  }

  /** The first `n` slots are runnable and the others unused; nobody has the hart, only process 0 may be
      creating something, and only it may be parked in a trap. */
  ghost predicate Table(s: Sched, at: Place, n: nat, making: map<nat, Making>, enabled: bool) {
    && Shape(s) && s.at == at && s.current == None && s.making == making && s.enabled == enabled
    && (forall j {:trigger s.st[j]} :: 0 <= j < NPROC ==> s.st[j] == if j < n then Runnable else Unused)
    && (forall j {:trigger s.trapped[j]} :: 0 <= j < NPROC ==> (s.trapped[j] <==> j == 0 && !enabled))
  }

  lemma FirstUnused(s: Sched, n: nat)
    requires Shape(s) && n < NPROC && forall j :: 0 <= j < n ==> s.st[j] != Unused
    requires s.st[n] == Unused
    ensures FreeSlot(s.st, 0) == n
  {
  }

  /** The boot code creates process `n`. */
  lemma BootCreates(s: Sched, n: nat)
    requires Table(s, Scan(0, false), n, map[], true) && s.seen == [] && n < NPROC
    ensures Table(Run(s, Create()), Scan(0, false), n + 1, map[], true) && Run(s, Create()).seen == []
  {
    hide Run, Apply, Create, FreeSlot;
    FirstUnused(s, n);
    CreateWhole(s);
  }

  /** Process 0 is dispatched, starts a creation and is preempted in it after `more`. */
  lemma ZeroIsPreempted(s: Sched)
    requires Table(s, Scan(0, false), 2, map[], true)
    ensures Table(Run(s, [Look, Choose, Preempt]), Scan(1, true), 2, map[0 := Chosen(2)], false)
  {
    RunThree(s, Look, Choose, Preempt);
    hide Run, FreeSlot;
    var s1 := Apply(s, Look);
    FirstUnused(s1, 2);
  }

  /** Process 1 is dispatched. */
  lemma OneCreates(s: Sched)
    requires Table(s, Scan(1, true), 2, map[0 := Chosen(2)], false)
    ensures Table(Run(s, [Look] + Create() + [Yield]), Scan(2, true), 3, map[0 := Chosen(2)], false)
  {
    hide Run, FreeSlot, Create;
    RunAppend(s, [Look] + Create(), [Yield]);
    RunAppend(s, [Look], Create());
    RunOne(s, Look);
    var s1 := Apply(s, Look);
    assert s1.at == InProcess(1);
    FirstUnused(s1, 2);
    CreateWhole(s1);
    RunOne(Run(s1, Create()), Yield);
  }

  lemma RunOne(s: Sched, step: Step)
    requires Shape(s)
    ensures Run(s, [step]) == Apply(s, step)
  {
    hide Apply;
    assert [step][1..] == [];
    assert Run(s, [step]) == Run(Apply(s, step), []);
  }

  function Looks(n: nat): seq<Step> {
    seq(n, _ => Look)
  }

  lemma {:induction false} RestOfPass(s: Sched, i: nat)
    requires 3 <= i <= NPROC && Table(s, Scan(i, true), 3, map[0 := Chosen(2)], false)
    ensures Table(Run(s, Looks(NPROC - i)), Scan(NPROC, true), 3, map[0 := Chosen(2)], false)
    decreases NPROC - i
  {
    if i < NPROC {
      assert Looks(NPROC - i) == [Look] + Looks(NPROC - i - 1);
      RunAppend(s, [Look], Looks(NPROC - i - 1));
      RunOne(s, Look);
      RestOfPass(Apply(s, Look), i + 1);
    }
  }

  /** Process 2 takes its turn, the pass ends, and process 0 is dispatched and goes on. */
  lemma ZeroComesBack(s: Sched)
    requires Table(s, Scan(2, true), 3, map[0 := Chosen(2)], false)
    ensures Run(s, [Look, Yield] + Looks(13) + [EndOfPass, Look, Claim(true)]).at == Clash(0, 2)
  {
    hide Run, Looks;
    var s1 := Apply(s, Look);
    var s2 := Apply(s1, Yield);
    assert [Look, Yield] == [Look] + [Yield];
    RunAppend(s, [Look], [Yield]);
    RunOne(s, Look);
    RunOne(s1, Yield);
    RunAppend(s, [Look, Yield] + Looks(13), [EndOfPass, Look, Claim(true)]);
    RunAppend(s, [Look, Yield], Looks(13));
    RestOfPass(s2, 3);
    var s3 := Run(s2, Looks(13));
    RunThree(s3, EndOfPass, Look, Claim(true));
    assert Apply(s3, EndOfPass).at == Scan(0, false);
  }

  /** The boot code creates one process with interrupts enabled, as `main` does; the process creates
      another and is preempted before the context is written; the next visit dispatches a slot without
      a context. */
  lemma TornCreationExists(s: Sched)
    requires Initial(s) && s.enabled
    ensures Run(s, Create() + [Look, Choose, Claim(true), Preempt, Look]).at == Lost(1)
  {
    hide Run, Create, FreeSlot;
    BootCreates(s, 0);
    var s1 := Run(s, Create());
    RunAppend(s, Create(), [Look, Choose, Claim(true), Preempt, Look]);
    var s2 := Apply(s1, Look);
    FirstUnused(s2, 1);
    assert s2.at == InProcess(0) && s2.enabled;
    var s3 := Apply(s2, Choose);
    var s4 := Apply(s3, Claim(true));
    var s5 := Apply(s4, Preempt);
    assert s5.making[0] == Claimed(1) && s5.at == Scan(1, true) && s5.st[1] == Runnable;
    assert HalfMade(s5.making, 1);
    assert [Look, Choose, Claim(true), Preempt, Look] == [Look, Choose, Claim(true)] + [Preempt] + [Look];
    RunSnoc(s1, [Look, Choose, Claim(true)] + [Preempt], Look);
    RunSnoc(s1, [Look, Choose, Claim(true)], Preempt);
    RunThree(s1, Look, Choose, Claim(true));
  }

  /** Two processes from the boot code; the first is preempted between its search and its claim, the
      second creates a process, and both creations take slot 2. */
  lemma ClashExists(s: Sched)
    requires Initial(s) && s.enabled
    ensures Run(s, Create() + Create() + [Look, Choose, Preempt] + ([Look] + Create() + [Yield])
                   + ([Look, Yield] + Looks(13) + [EndOfPass, Look, Claim(true)])).at == Clash(0, 2)
  {
    hide Run, Apply, Create, Looks;
    var p3, p4 := [Look, Choose, Preempt], [Look] + Create() + [Yield];
    var p5 := [Look, Yield] + Looks(13) + [EndOfPass, Look, Claim(true)];
    RunAppend(s, Create() + Create() + p3 + p4, p5);
    RunAppend(s, Create() + Create() + p3, p4);
    RunAppend(s, Create() + Create(), p3);
    RunAppend(s, Create(), Create());
    BootCreates(s, 0);
    BootCreates(Run(s, Create()), 1);
    ZeroIsPreempted(Run(s, Create() + Create()));
    OneCreates(Run(s, Create() + Create() + p3));
    ZeroComesBack(Run(s, Create() + Create() + p3 + p4));
  }
}

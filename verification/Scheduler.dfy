/**
 The process table and the round-robin scheduler as a state machine. The scheduler examines one
 slot per visit; visit number v looks at slot v % NPROC. A dispatched process runs until it yields,
 is preempted or returns from its entry function, and may create processes meanwhile. A creation
 takes three steps, and its creator may be preempted between them.
 */
module Scheduler {
  import opened Basics

  const NPROC: nat := 16

  datatype State = Unused | Runnable | Running | Zombie

  /** Where the hart is: in the scheduler's loop, about to examine slot `i`, off in process `i`, in the
      `wfi` branch, or back from `scheduler`. The last two end a run: slot `i` was dispatched before its
      context was written, so that `swtch` jumped to address 0; or the creation of agent `i` took slot
      `p` after another creation had taken it. */
  datatype Place =
    | Scan(i: nat, found: bool)
    | InProcess(i: nat)
    | Idle
    | Exited
    | Lost(i: nat)
    | Clash(i: nat, p: nat)

  /** A creation under way: it has found slot `p`, or has also made it runnable and has not yet
      written its context. */
  datatype Making = Chosen(p: nat) | Claimed(p: nat)

  /** `waited[p]` counts the dispatches of other slots since slot p last became runnable; `seen[v]` is
      the state that visit v found; `making` are the creations under way, by their creators, with NPROC
      for the boot code; `enabled` is SIE; `trapped[p]` says that slot p is parked in a trap. */
  datatype Sched = Sched(st: seq<State>, current: Option<nat>, at: Place, waited: seq<nat>, seen: seq<State>,
                         making: map<nat, Making>, enabled: bool, trapped: seq<bool>)

  /** `Look` is one turn of the inner loop's test, `EndOfPass` what follows the inner loop; `Choose`,
      `Claim` and `Fill` are the parts of `proc_create`: the search, what makes the slot runnable
      (unless there is no stack), and the last store into its context. */
  datatype Step = Look | EndOfPass | Choose | Claim(stackOk: bool) | Fill | Yield | Finish | Preempt

  /** The first unused slot, or NPROC. */
  function FreeSlot(st: seq<State>, i: nat): (r: nat)
    requires i <= |st| == NPROC
    ensures i <= r <= NPROC
    ensures r < NPROC ==> st[r] == Unused
    ensures forall j :: i <= j < r ==> st[j] != Unused
    decreases NPROC - i
  {
    if i == NPROC then NPROC else if st[i] == Unused then i else FreeSlot(st, i + 1)
  }

  predicate Active(st: seq<State>) {
    exists i :: 0 <= i < |st| && st[i] != Unused && st[i] != Zombie
  }

  /** Every runnable slot but `p` has seen one more dispatch. */
  function Tick(waited: seq<nat>, p: nat): (r: seq<nat>)
    ensures |r| == |waited|
    ensures forall j :: 0 <= j < |r| ==> r[j] == if j == p then waited[j] else waited[j] + 1
  {
    seq(|waited|, j requires 0 <= j < |waited| => if j == p then waited[j] else waited[j] + 1)
  }

  /** Before the scheduler has examined its first slot; the boot code creates processes here. */
  predicate Booting(s: Sched) {
    s.at == Scan(0, false) && s.seen == []
  }

  /** Who has the hart: a process, or NPROC for boot code and scheduler. */
  function Hart(s: Sched): nat {
    match s.at
    case InProcess(i) => i
    case Lost(i) => i
    case Clash(i, _) => i
    case _ => NPROC
  }

  predicate CanCreate(s: Sched) {
    s.at.InProcess? || Booting(s)
  }

  /** A run that got here ends here. */
  predicate Damaged(s: Sched) {
    s.at.Lost? || s.at.Clash?
  }

  /** Slot `p` is runnable while its context is still to be written. */
  predicate HalfMade(making: map<nat, Making>, p: nat) {
    exists c :: c in making && making[c] == Claimed(p)
  }

  predicate Shape(s: Sched) {
    |s.st| == NPROC == |s.waited| == |s.trapped|
  }

  /** The next visit dispatches slot `s.at.i`. */
  predicate Dispatches(s: Sched)
    requires Shape(s)
  {
    s.at.Scan? && s.at.i < NPROC && NPROC !in s.making && s.st[s.at.i] == Runnable
  }

  /** The hart goes to slot `i`; a process parked in a trap gets its SIE back with `sret`. */
  function Dispatched(s: Sched, i: nat): Sched
    requires Shape(s) && i < NPROC
  {
    s.(st := s.st[i := Running], current := Some(i), at := if HalfMade(s.making, i) then Lost(i) else InProcess(i),
       waited := Tick(s.waited, i), seen := s.seen + [Runnable],
       enabled := s.enabled || s.trapped[i], trapped := s.trapped[i := false])
  }

  /** `yield` in the running process `p`, then the scheduler after `swtch`. */
  function BackFrom(s: Sched, p: nat): Sched
    requires Shape(s) && p < NPROC && s.at.InProcess?
  {
    s.(st := if s.st[p] == Running then s.st[p := Runnable] else s.st,
       waited := s.waited[p := 0], current := None, at := Scan(s.at.i + 1, true))
  }

  function Apply(s: Sched, step: Step): (r: Sched)
    requires Shape(s)
    ensures Shape(r)
  {
    match step
    case Look =>
      if s.at.Scan? && s.at.i < NPROC && NPROC !in s.making then
        if s.st[s.at.i] == Runnable then Dispatched(s, s.at.i)
        else s.(at := Scan(s.at.i + 1, s.at.found), seen := s.seen + [s.st[s.at.i]])
      else s
    case EndOfPass =>
      if s.at.Idle? then s.(at := Scan(0, false))
      else if s.at.Scan? && s.at.i >= NPROC then
        if s.at.found then s.(at := Scan(0, false))
        else if Active(s.st) then s.(at := Idle) else s.(at := Exited)
      else s
    case Choose =>
      if CanCreate(s) && Hart(s) !in s.making && FreeSlot(s.st, 0) < NPROC then
        s.(making := s.making[Hart(s) := Chosen(FreeSlot(s.st, 0))])
      else s
    case Claim(stackOk) =>
      if CanCreate(s) && Hart(s) in s.making && s.making[Hart(s)].Chosen? && s.making[Hart(s)].p < NPROC then
        var c, p := Hart(s), s.making[Hart(s)].p;
        if !stackOk then s.(making := s.making - {c})
        else if s.st[p] != Unused then s.(at := Clash(c, p))
        else s.(st := s.st[p := Runnable], waited := s.waited[p := 0], making := s.making[c := Claimed(p)])
      else s
    case Fill =>
      if CanCreate(s) && Hart(s) in s.making && s.making[Hart(s)].Claimed? then
        s.(making := s.making - {Hart(s)})
      else s
    case Yield =>
      if s.at.InProcess? && s.current.Some? && s.current.value < NPROC && s.current.value !in s.making then
        BackFrom(s, s.current.value)
      else s
    case Finish =>
      // the entry function returned: zombie, then `yield`
      if s.at.InProcess? && s.current.Some? && s.current.value < NPROC && s.current.value !in s.making then
        s.(st := s.st[s.current.value := Zombie], current := None, at := Scan(s.at.i + 1, true))
      else s
    case Preempt =>
      // a timer trap, whose handler yields
      if s.at.InProcess? && s.current.Some? && s.current.value < NPROC && s.enabled then
        BackFrom(s, s.current.value).(enabled := false, trapped := s.trapped[s.current.value := true])
      else s
  }

  function Run(s: Sched, steps: seq<Step>): (r: Sched)
    requires Shape(s)
    ensures Shape(r)
    decreases |steps|
  {
    if steps == [] then s else Run(Apply(s, steps[0]), steps[1..])
  }

  // ---------- the invariant ----------

  /** Slots examined since slot `p` was last examined, when slot `i` is next. */
  function Since(i: int, p: int): int {
    (i - p - 1) % NPROC
  }

  /** The process on the hart is the current one and the only one that is running. */
  ghost predicate OneRunning(s: Sched)
    requires |s.st| == NPROC
  {
    && (s.at.InProcess? || s.at.Lost? ==> Hart(s) < NPROC)
    && s.current == (if Hart(s) < NPROC then Some(Hart(s)) else None)
    && forall j {:trigger s.st[j]} :: 0 <= j < NPROC ==> (s.st[j] == Running <==> j == Hart(s))
  }

  /** A pass that has found nothing so far has only passed slots that are not runnable. */
  ghost predicate PassOk(s: Sched)
    requires |s.st| == NPROC
  {
    match s.at
    case Scan(i, found) => i <= NPROC && (!found ==> forall j {:trigger s.st[j]} :: 0 <= j < i ==> s.st[j] != Runnable)
    case Idle => false
    case Exited => forall j {:trigger s.st[j]} :: 0 <= j < NPROC ==> s.st[j] == Unused || s.st[j] == Zombie
    case _ => true
  }

  /** The slot that the next visit examines. */
  function Next(s: Sched): nat {
    match s.at
    case Scan(i, _) => if i < NPROC then i else 0
    case _ => if Hart(s) + 1 < NPROC then Hart(s) + 1 else 0
  }

  ghost predicate WaitOk(s: Sched)
    requires |s.st| == NPROC == |s.waited|
  {
    forall p {:trigger s.waited[p]} :: 0 <= p < NPROC && s.st[p] == Runnable ==> s.waited[p] <= Since(Next(s), p)
  }

  /** `v` is a visit of slot `p`. */
  ghost predicate VisitOf(v: int, p: int) {
    v % NPROC == p
  }

  /** Each slot is found unused, then runnable, then zombie, and never goes back. */
  ghost predicate LifeOk(s: Sched)
    requires |s.st| == NPROC
  {
    && (s.at.Exited? || |s.seen| % NPROC == Next(s))
    && (forall v {:trigger s.seen[v]} :: 0 <= v < |s.seen| ==>
          && s.seen[v] != Running && (s.seen[v] != Unused ==> s.st[v % NPROC] != Unused)
          && (s.seen[v] == Zombie ==> s.st[v % NPROC] == Zombie))
    && (forall v, w {:trigger s.seen[v], s.seen[w]} :: 0 <= v < w < |s.seen| && v % NPROC == w % NPROC ==>
          (s.seen[v] != Unused ==> s.seen[w] != Unused) && (s.seen[v] == Zombie ==> s.seen[w] == Zombie))
  }

  /** Slots are taken in order. */
  ghost predicate InOrder(st: seq<State>)
    requires |st| == NPROC
  {
    forall j, k {:trigger st[j], st[k]} :: 0 <= j < k < NPROC && st[k] != Unused ==> st[j] != Unused
  }

  /** A creation that has found a slot has passed only slots in use; one that has made it runnable comes
      from an earlier slot. */
  ghost predicate MakingFits(s: Sched, c: nat)
    requires |s.st| == NPROC && c in s.making
  {
    && c <= NPROC && s.making[c].p < NPROC
    && match s.making[c]
       case Chosen(p) => forall j {:trigger s.st[j]} :: 0 <= j < p ==> s.st[j] != Unused
       case Claimed(p) => (s.st[p] == Runnable || s.at == Lost(p)) && (c < NPROC ==> c < p)
  }

  /** No two creations have made the same slot runnable. */
  ghost predicate ClaimsApart(making: map<nat, Making>) {
    forall c, d {:trigger making[c], making[d]} ::
      c in making && d in making && c != d && making[c].Claimed? ==> making[d] != making[c]
  }

  ghost predicate MakingOk(s: Sched)
    requires |s.st| == NPROC
  {
    && InOrder(s.st) && ClaimsApart(s.making)
    && (NPROC in s.making ==> Booting(s) || (s.at.Clash? && s.at.i == NPROC))
    && (forall c {:trigger c in s.making} :: c in s.making ==> MakingFits(s, c))
  }

  ghost predicate Inv(s: Sched) {
    && Shape(s)
    && OneRunning(s) && PassOk(s) && WaitOk(s) && LifeOk(s) && MakingOk(s)
  }

  /** After `proc_init`: all slots unused, no current process. */
  ghost predicate Initial(s: Sched) {
    && Shape(s)
    && (forall p :: 0 <= p < NPROC ==> s.st[p] == Unused && s.waited[p] == 0 && !s.trapped[p])
    && s.current == None && Booting(s) && s.making == map[]
  }

  lemma SinceStep(i: nat, p: nat)
    requires i < NPROC && p < NPROC && i != p
    ensures Since(if i + 1 < NPROC then i + 1 else 0, p) == Since(i, p) + 1
    ensures Since(i, i) == NPROC - 1
  {
  }

  lemma SinceBounds(i: nat, p: nat)
    requires i < NPROC && p < NPROC
    ensures 0 <= Since(i, p) < NPROC
    ensures Since(if p + 1 < NPROC then p + 1 else 0, p) == 0
  {
  }

  // ---------- every step keeps it ----------

  lemma LookKeeps(s: Sched)
    requires Inv(s) && s.at.Scan? && s.at.i < NPROC && NPROC !in s.making
    ensures Inv(Apply(s, Look))
  {
    hide WaitOk, LifeOk, Since, Next;
    LookWait(s);
    LookLife(s);
    LookMaking(s);
  }

  lemma LookMaking(s: Sched)
    requires Inv(s) && s.at.Scan? && s.at.i < NPROC && NPROC !in s.making
    ensures MakingOk(Apply(s, Look))
  {
    hide WaitOk, LifeOk, Since, Next, PassOk;
    var i, s' := s.at.i, Apply(s, Look);
    forall c | c in s'.making ensures MakingFits(s', c) {
      assert MakingFits(s, c);
      if s.making[c] == Claimed(i) { assert HalfMade(s.making, i); }
    }
  }

  lemma LookWait(s: Sched)
    requires Inv(s) && s.at.Scan? && s.at.i < NPROC && NPROC !in s.making
    ensures WaitOk(Apply(s, Look))
  {
    hide LifeOk, MakingOk, Since, OneRunning, HalfMade;
    var i, s' := s.at.i, Apply(s, Look);
    forall p | 0 <= p < NPROC && s'.st[p] == Runnable ensures s'.waited[p] <= Since(Next(s'), p) {
      assert s.waited[p] <= Since(i, p);
      SinceStep(i, p);
    }
  }

  lemma LookLife(s: Sched)
    requires Inv(s) && s.at.Scan? && s.at.i < NPROC && NPROC !in s.making
    ensures LifeOk(Apply(s, Look))
  {
    hide WaitOk, MakingOk, Since, PassOk, HalfMade;
    var i, s' := s.at.i, Apply(s, Look);
    NextVisit(|s.seen|);
    assert |s.seen| % NPROC == i;
    forall v | 0 <= v < |s.seen| && v % NPROC == i
      ensures (s.seen[v] != Unused ==> s.st[i] != Unused) && (s.seen[v] == Zombie ==> s.st[i] == Zombie)
    {
    }
  }

  lemma NextVisit(v: nat)
    ensures (v + 1) % NPROC == if v % NPROC + 1 < NPROC then v % NPROC + 1 else 0
  {
  }

  lemma EndOfPassKeeps(s: Sched)
    requires Inv(s)
    ensures Inv(Apply(s, EndOfPass))
  {
    hide LifeOk, WaitOk, Since, InOrder;
    var s' := Apply(s, EndOfPass);
    forall c | c in s'.making ensures MakingFits(s', c) {
      assert MakingFits(s, c);
    }
    assert PassOk(s') && OneRunning(s') && MakingOk(s');
    SameWaits(s, s');
    SameLife(s, s');
  }

  lemma SameWaits(s: Sched, s': Sched)
    requires |s.st| == NPROC == |s.waited| && WaitOk(s) && s'.st == s.st && s'.waited == s.waited && Next(s') == Next(s)
    ensures WaitOk(s')
  {
    hide Since, Next;
  }

  lemma SameLife(s: Sched, s': Sched)
    requires |s.st| == NPROC && LifeOk(s) && s'.st == s.st && s'.seen == s.seen
    requires s'.at.Exited? || (Next(s') == Next(s) && !s.at.Exited?)
    ensures LifeOk(s')
  {
    hide Next;
  }

  /** A change of one slot along its life. */
  lemma LifeMoves(s: Sched, s': Sched, p: nat)
    requires |s.st| == NPROC && LifeOk(s) && p < NPROC && s'.seen == s.seen
    requires |s'.st| == NPROC && s'.st == s.st[p := s'.st[p]]
    requires s.st[p] != Unused ==> s'.st[p] != Unused
    requires s.st[p] != Zombie
    requires !s'.at.Exited? && !s.at.Exited? && Next(s') == Next(s)
    ensures LifeOk(s')
  {
    hide Next;
    forall v | 0 <= v < |s.seen|
      ensures s.seen[v] != Running && (s.seen[v] != Unused ==> s'.st[v % NPROC] != Unused)
      ensures s.seen[v] == Zombie ==> s'.st[v % NPROC] == Zombie
    {
      assert s.seen[v] == Zombie ==> s.st[v % NPROC] == Zombie;
    }
  }

  lemma ChooseKeeps(s: Sched)
    requires Inv(s)
    ensures Inv(Apply(s, Choose))
  {
    hide LifeOk, WaitOk, Since, MakingOk;
    var s' := Apply(s, Choose);
    ChooseMaking(s);
    SameWaits(s, s');
    SameLife(s, s');
  }

  lemma ChooseMaking(s: Sched)
    requires Inv(s)
    ensures MakingOk(Apply(s, Choose))
  {
    hide LifeOk, WaitOk, Since, Next, PassOk, OneRunning, InOrder;
    var s' := Apply(s, Choose);
    if CanCreate(s) {
      HartInRange(s);
    }
    forall c | c in s'.making ensures MakingFits(s', c) {
      assert c in s.making ==> MakingFits(s, c);
    }
  }

  lemma HartInRange(s: Sched)
    requires |s.st| == NPROC && OneRunning(s) && CanCreate(s)
    ensures Hart(s) <= NPROC && (Hart(s) == NPROC ==> Booting(s))
  {
  }

  lemma ClaimKeeps(s: Sched, stackOk: bool)
    requires Inv(s)
    ensures Inv(Apply(s, Claim(stackOk)))
  {
    hide LifeOk, Since, MakingOk, InOrder;
    var s' := Apply(s, Claim(stackOk));
    ClaimMaking(s, stackOk);
    if s'.st == s.st {
      SameWaits(s, s');
      SameLife(s, s');
    } else {
      var p := s.making[Hart(s)].p;
      LifeMoves(s, s', p);
      SinceBounds(Next(s), p);
    }
  }

  lemma ClaimMaking(s: Sched, stackOk: bool)
    requires Inv(s)
    ensures MakingOk(Apply(s, Claim(stackOk)))
  {
    hide LifeOk, WaitOk, Since, Next, PassOk, OneRunning, InOrder;
    var s' := Apply(s, Claim(stackOk));
    if s'.st == s.st {
      forall c | c in s'.making ensures MakingFits(s', c) {
        assert MakingFits(s, c);
      }
    } else {
      ClaimTakes(s);
    }
  }

  /** A creation makes its slot runnable. */
  lemma ClaimTakes(s: Sched)
    requires Inv(s) && CanCreate(s) && Hart(s) in s.making && s.making[Hart(s)].Chosen?
    requires s.making[Hart(s)].p < NPROC && s.st[s.making[Hart(s)].p] == Unused
    ensures MakingOk(Apply(s, Claim(true)))
  {
    hide LifeOk, WaitOk, Since, Next, PassOk;
    var s', c, p := Apply(s, Claim(true)), Hart(s), s.making[Hart(s)].p;
    assert MakingFits(s, c);
    assert InOrder(s'.st);
    assert c < NPROC ==> c < p by {
      assert c < NPROC ==> s.st[c] == Running;
    }
    forall d | d in s'.making ensures MakingFits(s', d) && (d != c ==> s'.making[d] != Claimed(p)) {
      assert MakingFits(s, d);
    }
  }

  lemma FillKeeps(s: Sched)
    requires Inv(s)
    ensures Inv(Apply(s, Fill))
  {
    hide LifeOk, WaitOk, Since, InOrder;
    var s' := Apply(s, Fill);
    forall c | c in s'.making ensures MakingFits(s', c) {
      assert MakingFits(s, c);
    }
    SameWaits(s, s');
    SameLife(s, s');
  }

  /** The current process `p` goes back to the scheduler in state `x`. */
  lemma BackKeeps(s: Sched, s': Sched, x: State)
    requires Inv(s) && s.at.InProcess? && (x == Runnable || x == Zombie) && |s'.trapped| == NPROC
    requires var p := s.at.i;
             p < NPROC && s'.st == s.st[p := x] && (s'.waited == s.waited || s'.waited == s.waited[p := 0])
    requires x == Runnable ==> s'.waited[s.at.i] == 0
    requires s'.current == None && s'.at == Scan(s.at.i + 1, true) && s'.seen == s.seen && s'.making == s.making
    ensures Inv(s')
  {
    hide LifeOk, Since;
    var p := s.at.i;
    LifeMoves(s, s', p);
    SinceBounds(Next(s), p);
    forall c | c in s'.making ensures MakingFits(s', c) {
      assert MakingFits(s, c);
    }
  }

  lemma YieldKeeps(s: Sched)
    requires Inv(s)
    ensures Inv(Apply(s, Yield))
  {
    hide LifeOk, WaitOk, MakingOk, Since, Next;
    if s.at.InProcess? && s.at.i !in s.making {
      BackKeeps(s, Apply(s, Yield), Runnable);
    }
  }

  lemma FinishKeeps(s: Sched)
    requires Inv(s)
    ensures Inv(Apply(s, Finish))
  {
    hide LifeOk, WaitOk, MakingOk, Since, Next;
    if s.at.InProcess? && s.at.i !in s.making {
      BackKeeps(s, Apply(s, Finish), Zombie);
    }
  }

  lemma PreemptKeeps(s: Sched)
    requires Inv(s)
    ensures Inv(Apply(s, Preempt))
  {
    hide LifeOk, WaitOk, MakingOk, Since, Next;
    if s.at.InProcess? && s.enabled {
      BackKeeps(s, Apply(s, Preempt), Runnable);
    }
  }

  lemma StepKeepsInv(s: Sched, step: Step)
    requires Inv(s)
    ensures Inv(Apply(s, step))
  {
    hide OneRunning, PassOk, WaitOk, LifeOk, MakingOk;
    match step
    case Look => if s.at.Scan? && s.at.i < NPROC && NPROC !in s.making { LookKeeps(s); }
    case EndOfPass => EndOfPassKeeps(s);
    case Choose => ChooseKeeps(s);
    case Claim(ok) => ClaimKeeps(s, ok);
    case Fill => FillKeeps(s);
    case Yield => YieldKeeps(s);
    case Finish => FinishKeeps(s);
    case Preempt => PreemptKeeps(s);
  }

  lemma {:induction false} RunKeepsInv(s: Sched, steps: seq<Step>)
    requires Inv(s)
    ensures Inv(Run(s, steps))
    decreases |steps|
  {
    if steps != [] {
      StepKeepsInv(s, steps[0]);
      RunKeepsInv(Apply(s, steps[0]), steps[1..]);
    }
  }

  lemma InitialInv(s: Sched)
    requires Initial(s)
    ensures Inv(s)
  {
    forall p | 0 <= p < NPROC ensures s.waited[p] <= Since(0, p) {
      SinceBounds(0, p);
    }
  }

  // ---------- what holds in every run ----------

  /** At most one process is running, and none while the scheduler scans; the `wfi` branch is never
      taken; and the scheduler returns only when every slot is unused or zombie. */
  lemma SchedulerSafety(s: Sched, steps: seq<Step>)
    requires Initial(s)
    ensures var r := Run(s, steps);
            && |r.st| == NPROC && r.at != Idle
            && (forall i, j :: 0 <= i < NPROC && 0 <= j < NPROC && r.st[i] == Running && r.st[j] == Running ==> i == j)
            && (r.at.Scan? ==> r.current == None && forall j :: 0 <= j < NPROC ==> r.st[j] != Running)
            && (r.at.InProcess? ==> r.at.i < NPROC && r.current == Some(r.at.i) && r.st[r.at.i] == Running)
            && (r.at.Exited? ==> forall j :: 0 <= j < NPROC ==> r.st[j] == Unused || r.st[j] == Zombie)
  {
    hide WaitOk, LifeOk, Apply;
    InitialInv(s);
    RunKeepsInv(s, steps);
  }

  /** Bounded waiting: a runnable process has seen at most NPROC - 1 dispatches of others. */
  lemma BoundedWaiting(s: Sched, steps: seq<Step>, p: nat)
    requires Initial(s) && p < NPROC
    ensures var r := Run(s, steps);
            |r.st| == NPROC == |r.waited| && (r.st[p] == Runnable ==> r.waited[p] <= NPROC - 1)
  {
    hide LifeOk, Apply, OneRunning, PassOk, Since;
    InitialInv(s);
    RunKeepsInv(s, steps);
    var r := Run(s, steps);
    assert r.st[p] == Runnable ==> r.waited[p] <= Since(Next(r), p);
    NextInRange(r);
    SinceBounds(Next(r), p);
  }

  lemma NextInRange(s: Sched)
    ensures Next(s) < NPROC
  {
  }

  /** Some visit strictly between `v` and `w` examines slot `b`. */
  ghost predicate Examined(v: nat, w: nat, b: nat) {
    exists u: nat :: v < u < w && VisitOf(u, b)
  }

  /** A slot found runnable before and after visit `u` is found runnable, hence dispatched, at `u`. */
  ghost predicate Persistent(seen: seq<State>, u0: nat, u: nat, u1: nat)
    requires u0 <= u <= u1 < |seen|
  {
    u0 % NPROC == u % NPROC == u1 % NPROC && seen[u0] == Runnable == seen[u1] ==> seen[u] == Runnable
  }

  /** Two dispatches of one slot with none of that slot in between are exactly NPROC visits apart;
      so every other slot is examined exactly once in between, and a slot that is runnable before
      and after is dispatched at that one visit. */
  lemma RoundRobin(s: Sched, steps: seq<Step>, v: nat, w: nat)
    requires Initial(s)
    requires v < w < |Run(s, steps).seen| && v % NPROC == w % NPROC
    requires Run(s, steps).seen[v] == Runnable == Run(s, steps).seen[w]
    requires forall u: nat :: v < u < w && VisitOf(u, v % NPROC) ==> Run(s, steps).seen[u] != Runnable
    ensures w == v + NPROC
    ensures forall u1: nat, u2: nat :: v < u1 < w && v < u2 < w && u1 != u2 ==> u1 % NPROC != u2 % NPROC
    ensures forall b: nat :: b < NPROC && b != v % NPROC ==> Examined(v, w, b)
    ensures forall u0: nat, u: nat, u1: nat :: u0 <= u <= u1 < |Run(s, steps).seen| ==>
            Persistent(Run(s, steps).seen, u0, u, u1)
  {
    hide Run, Apply, WaitOk, OneRunning, PassOk, Next;
    InitialInv(s);
    RunKeepsInv(s, steps);
    var r := Run(s, steps);
    NextOccurrence(v, w);
    assert VisitOf(v + NPROC, v % NPROC) && Persistent(r.seen, v, v + NPROC, w);
    assert w == v + NPROC;
    forall u1: nat, u2: nat | v < u1 < w && v < u2 < w && u1 != u2 ensures u1 % NPROC != u2 % NPROC {
      DistinctVisits(u1, u2);
    }
    forall b: nat | b < NPROC && b != v % NPROC ensures Examined(v, w, b) {
      var u := VisitBetween(v, b);
      assert VisitOf(u, b);
    }
  }

  lemma StepMovesOn(s: Sched, step: Step, b: nat)
    requires Inv(s) && b < NPROC && s.st[b] != Unused
    ensures var s' := Apply(s, step);
            && |s'.st| == NPROC && s'.st[b] != Unused && s.seen <= s'.seen
            && (forall u: nat :: |s.seen| <= u < |s'.seen| && u % NPROC == b ==> s'.seen[u] != Unused)
  {
    hide OneRunning, PassOk, WaitOk, HalfMade, Active;
  }

  /** A slot that is in use is never again found unused. */
  lemma {:induction false} UsedStaysUsed(s: Sched, steps: seq<Step>, b: nat)
    requires Inv(s) && b < NPROC && s.st[b] != Unused
    ensures var r := Run(s, steps);
            && s.seen <= r.seen
            && (forall u: nat :: |s.seen| <= u < |r.seen| && u % NPROC == b ==> r.seen[u] != Unused)
    decreases |steps|
  {
    hide Apply, OneRunning, PassOk, WaitOk, LifeOk, MakingOk;
    if steps != [] {
      StepKeepsInv(s, steps[0]);
      StepMovesOn(s, steps[0], b);
      UsedStaysUsed(Apply(s, steps[0]), steps[1..], b);
    }
  }

  /** A slot that is in use at one moment of a run and has not ended at a later one is dispatched by
      every visit the scheduler pays to it in between. */
  lemma VisitsDispatch(s: Sched, early: seq<Step>, late: seq<Step>, b: nat, u: nat)
    requires Initial(s) && b < NPROC && u % NPROC == b
    requires Run(s, early).st[b] != Unused
    requires var r := Run(Run(s, early), late); |Run(s, early).seen| <= u < |r.seen| && r.st[b] != Zombie
    ensures Run(Run(s, early), late).seen[u] == Runnable
  {
    hide Run, Apply, OneRunning, PassOk, WaitOk, Next;
    InitialInv(s);
    RunKeepsInv(s, early);
    RunKeepsInv(Run(s, early), late);
    UsedStaysUsed(Run(s, early), late, b);
  }

  lemma {:induction false} RunAppend(s: Sched, a: seq<Step>, b: seq<Step>)
    requires Shape(s)
    ensures Run(s, a + b) == Run(Run(s, a), b)
    decreases |a|
  {
    hide Apply;
    if a == [] {
      assert a + b == b;
    } else {
      assert (a + b)[1..] == a[1..] + b;
      RunAppend(Apply(s, a[0]), a[1..], b);
    }
  }

  lemma RunSnoc(s: Sched, steps: seq<Step>, step: Step)
    requires Shape(s)
    ensures Run(s, steps + [step]) == Apply(Run(s, steps), step)
  {
    hide Apply;
    RunAppend(s, steps, [step]);
    assert [step][1..] == [];
    assert Run(Run(s, steps), [step]) == Run(Apply(Run(s, steps), step), []);
  }

  /** Slot `a` has just been dispatched. */
  predicate JustDispatched(s: Sched, a: nat) {
    s.at == InProcess(a) && s.seen != [] && s.seen[|s.seen| - 1] == Runnable && (|s.seen| - 1) % NPROC == a
  }

  /** Visit `u` lies strictly between `v` and `w` and dispatches slot `b`. */
  ghost predicate DispatchedAt(seen: seq<State>, v: nat, u: int, w: nat, b: nat) {
    v < u < w < |seen| && VisitOf(u, b) && seen[u] == Runnable
  }

  ghost predicate NeverBetween(seen: seq<State>, v: nat, w: nat, a: nat) {
    forall u {:trigger DispatchedAt(seen, v, u, w, a)} :: !DispatchedAt(seen, v, u, w, a)
  }

  ghost predicate OnceBetween(seen: seq<State>, v: nat, w: nat, b: nat) {
    exists u {:trigger DispatchedAt(seen, v, u, w, b)} ::
      DispatchedAt(seen, v, u, w, b) && forall x {:trigger DispatchedAt(seen, v, x, w, b)} ::
          DispatchedAt(seen, v, x, w, b) ==> x == u
  }

  /** Between two consecutive dispatches of slot `a`, every other slot that has a process at the first
      and has not ended by the second is dispatched exactly once. */
  lemma RoundRobinOnce(s: Sched, early: seq<Step>, late: seq<Step>, a: nat, b: nat)
    requires Initial(s) && a < NPROC && b < NPROC && a != b
    requires JustDispatched(Run(s, early), a) && JustDispatched(Run(Run(s, early), late), a)
    requires |Run(s, early).seen| < |Run(Run(s, early), late).seen|
    requires NeverBetween(Run(Run(s, early), late).seen, |Run(s, early).seen| - 1,
             |Run(Run(s, early), late).seen| - 1, a)
    requires Run(s, early).st[b] != Unused && Run(Run(s, early), late).st[b] != Zombie
    ensures OnceBetween(Run(Run(s, early), late).seen, |Run(s, early).seen| - 1, |Run(Run(s, early), late).seen| - 1, b)
  {
    hide Run, Apply, OneRunning, PassOk, WaitOk, LifeOk, Next, Inv;
    var r1, r2 := Run(s, early), Run(Run(s, early), late);
    var v, w: nat := |r1.seen| - 1, |r2.seen| - 1;
    SeenGrows(s, early, late);
    RunAppend(s, early, late);
    forall x: nat | v < x < w && VisitOf(x, v % NPROC) ensures r2.seen[x] != Runnable {
      assert !DispatchedAt(r2.seen, v, x, w, a);
    }
    RoundRobin(s, early + late, v, w);
    assert Examined(v, w, b);
    var u: nat :| v < u < w && VisitOf(u, b);
    VisitsDispatch(s, early, late, b, u);
    assert DispatchedAt(r2.seen, v, u, w, b);
    forall x | DispatchedAt(r2.seen, v, x, w, b) ensures x == u {
      if x != u { DistinctVisits(x, u); }
    }
  }

  lemma SeenGrows(s: Sched, early: seq<Step>, late: seq<Step>)
    requires Initial(s)
    ensures Run(s, early).seen <= Run(Run(s, early), late).seen
  {
    hide Apply;
    InitialInv(s);
    RunKeepsInv(s, early);
    RunGrows(Run(s, early), late);
  }

  lemma {:induction false} RunGrows(s: Sched, steps: seq<Step>)
    requires Shape(s)
    ensures s.seen <= Run(s, steps).seen
    decreases |steps|
  {
    if steps != [] {
      RunGrows(Apply(s, steps[0]), steps[1..]);
    }
  }

  lemma NextOccurrence(v: nat, w: nat)
    requires v < w && v % NPROC == w % NPROC
    ensures v + NPROC <= w && (v + NPROC) % NPROC == v % NPROC
  {
  }

  lemma DistinctVisits(a: nat, b: nat)
    requires a < b < a + NPROC || b < a < b + NPROC
    ensures a % NPROC != b % NPROC
  {
  }

  lemma VisitBetween(v: nat, b: nat) returns (u: nat)
    requires b < NPROC && b != v % NPROC
    ensures v < u < v + NPROC && u % NPROC == b
  {
    var c := v % NPROC;
    u := if c < b then v + (b - c) else v + (NPROC + b - c);
  }

  // ---------- what single steps change ----------

  ghost predicate SameHalfMade(making: map<nat, Making>, making': map<nat, Making>) {
    forall p {:trigger HalfMade(making', p)} :: HalfMade(making', p) <==> HalfMade(making, p)
  }

  /** Slot `i` has become half made. */
  ghost predicate OneMore(making: map<nat, Making>, making': map<nat, Making>, i: nat) {
    forall p {:trigger HalfMade(making', p)} :: HalfMade(making', p) <==> HalfMade(making, p) || p == i
  }

  /** Slot `i` is no longer half made. */
  ghost predicate OneLess(making: map<nat, Making>, making': map<nat, Making>, i: nat) {
    forall p {:trigger HalfMade(making', p)} :: HalfMade(making', p) <==> HalfMade(making, p) && p != i
  }

  /** The machine's search changes only what is being made. */
  lemma ChooseEffect(s: Sched)
    requires Shape(s) && CanCreate(s) && Hart(s) !in s.making
    ensures var p := FreeSlot(s.st, 0);
            Apply(s, Choose) == if p < NPROC then s.(making := s.making[Hart(s) := Chosen(p)]) else s
  {
    hide FreeSlot, HalfMade;
  }

  lemma ChoosingIsNotMaking(making: map<nat, Making>, c: nat, p: nat)
    requires c !in making
    ensures SameHalfMade(making, making[c := Chosen(p)])
  {
    forall q: nat ensures HalfMade(making[c := Chosen(p)], q) <==> HalfMade(making, q) {
      if HalfMade(making, q) {
        var d :| d in making && making[d] == Claimed(q);
        assert making[c := Chosen(p)][d] == Claimed(q);
      }
    }
  }

  lemma SlotInRange(s: Sched, c: nat)
    requires Inv(s) && c in s.making
    ensures s.making[c].p < NPROC
  {
    hide OneRunning, WaitOk, LifeOk, PassOk, InOrder, ClaimsApart;
    assert MakingFits(s, c);
  }

  lemma ClaimEffect(s: Sched, stackOk: bool)
    requires Shape(s) && CanCreate(s) && Hart(s) in s.making && s.making[Hart(s)].Chosen? && s.making[Hart(s)].p < NPROC
    ensures var c, p := Hart(s), s.making[Hart(s)].p;
            Apply(s, Claim(stackOk)) ==
            if !stackOk then s.(making := s.making - {c})
            else if s.st[p] != Unused then s.(at := Clash(c, p))
            else s.(st := s.st[p := Runnable], waited := s.waited[p := 0], making := s.making[c := Claimed(p)])
  {
    hide FreeSlot, HalfMade;
  }

  lemma FillEffect(s: Sched)
    requires Shape(s) && CanCreate(s) && Hart(s) in s.making && s.making[Hart(s)].Claimed?
    ensures Apply(s, Fill) == s.(making := s.making - {Hart(s)})
  {
    hide FreeSlot, HalfMade;
  }

  /** Giving up a slot that was only found leaves no other slot half made. */
  lemma RefusedIsNotMaking(making: map<nat, Making>, c: nat)
    requires c in making && making[c].Chosen?
    ensures SameHalfMade(making, making - {c})
  {
    forall q: nat ensures HalfMade(making - {c}, q) <==> HalfMade(making, q) {
      if HalfMade(making, q) {
        var d :| d in making && making[d] == Claimed(q);
        assert (making - {c})[d] == Claimed(q);
      }
    }
  }

  lemma ClaimedIsMaking(making: map<nat, Making>, c: nat, p: nat)
    requires c in making && making[c].Chosen?
    ensures OneMore(making, making[c := Claimed(p)], p)
  {
    var making' := making[c := Claimed(p)];
    assert making'[c] == Claimed(p);
    forall q: nat ensures HalfMade(making', q) <==> HalfMade(making, q) || q == p {
      if HalfMade(making, q) {
        var d :| d in making && making[d] == Claimed(q);
        assert making'[d] == Claimed(q);
      }
    }
  }

  lemma FilledIsNotMaking(making: map<nat, Making>, c: nat, p: nat)
    requires c in making && making[c] == Claimed(p) && ClaimsApart(making)
    ensures OneLess(making, making - {c}, p)
  {
    forall q: nat ensures HalfMade(making - {c}, q) <==> HalfMade(making, q) && q != p {
      if HalfMade(making, q) && q != p {
        var d :| d in making && making[d] == Claimed(q);
        assert (making - {c})[d] == Claimed(q);
      }
    }
  }

  lemma SlotInUse(s: Sched, c: nat)
    requires Inv(s) && c in s.making && s.making[c].Claimed?
    ensures s.making[c].p < NPROC && s.st[s.making[c].p] != Unused && ClaimsApart(s.making)
  {
    hide WaitOk, LifeOk, PassOk, InOrder;
    assert MakingFits(s, c);
  }

  lemma LookEffect(s: Sched, p: nat)
    requires Inv(s) && s.at.Scan? && s.at.i == p < NPROC && NPROC !in s.making && s.st[p] == Runnable
    ensures var s' := Apply(s, Look);
            && s'.st == s.st[p := Running] && s'.current == Some(p) && s'.making == s.making
            && s'.at == (if HalfMade(s.making, p) then Lost(p) else InProcess(p))
            && s'.enabled == (s.enabled || s.trapped[p]) && s'.trapped == s.trapped[p := false]
  {
    hide OneRunning, PassOk, WaitOk, LifeOk, MakingOk, HalfMade;
  }

  lemma YieldEffect(s: Sched, p: nat)
    requires Inv(s) && s.at == InProcess(p) && p !in s.making
    ensures p < NPROC && s.st[p] == Running && s.current == Some(p)
    ensures var s' := Apply(s, Yield);
            && s'.st == s.st[p := Runnable] && s'.current == None && s'.at == Scan(p + 1, true) && s'.making == s.making
            && s'.enabled == s.enabled && s'.trapped == s.trapped
  {
    hide PassOk, WaitOk, LifeOk, MakingOk, HalfMade;
  }

  lemma PreemptEffect(s: Sched, p: nat)
    requires Inv(s) && s.at == InProcess(p) && s.enabled
    ensures p < NPROC && s.st[p] == Running && s.current == Some(p)
    ensures var s' := Apply(s, Preempt);
            && s'.st == s.st[p := Runnable] && s'.current == None && s'.at == Scan(p + 1, true) && s'.making == s.making
            && !s'.enabled && s'.trapped == s.trapped[p := true]
  {
    hide PassOk, WaitOk, LifeOk, MakingOk, HalfMade;
  }

  lemma FinishEffect(s: Sched, p: nat)
    requires Inv(s) && s.at == InProcess(p) && p !in s.making
    ensures p < NPROC && s.st[p] == Running && s.current == Some(p)
    ensures var s' := Apply(s, Finish);
            && s'.st == s.st[p := Zombie] && s'.current == None && s'.at == Scan(p + 1, true) && s'.making == s.making
            && s'.enabled == s.enabled && s'.trapped == s.trapped
  {
    hide PassOk, WaitOk, LifeOk, MakingOk, HalfMade;
  }
}

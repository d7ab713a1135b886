/**
 The process table as arrays changed in place, and the scheduler loop with processes that need
 finitely many turns and may be interrupted inside `proc_create`. Every assignment is a step of the
 machine in Scheduler, so its safety and fairness hold here; in addition the loop is shown to end,
 and, unless an interrupted creation brings it down, each process to get exactly the turns it needs.
 */
module ProcessTable {
  import opened Basics
  import opened Scheduler
  import opened ProcessRecords
  import PA = PageAllocator
  import PageHeap
  import Paging

  /** The machine after `proc_init`. */
  ghost function Blank(sie: bool): (s: Sched)
    ensures Initial(s) && s.st == seq(NPROC, _ => Unused) && s.current == None && |s.waited| == NPROC
    ensures s.making == map[] && s.enabled == sie && s.trapped == seq(NPROC, _ => false)
  {
    Sched(seq(NPROC, _ => Unused), None, Scan(0, false), seq(NPROC, _ => 0), [], map[], sie, seq(NPROC, _ => false))
  }

  lemma BlankReady(sie: bool)
    ensures Initial(Blank(sie)) && Inv(Blank(sie)) && Run(Blank(sie), []) == Blank(sie)
  {
    hide Blank;
    InitialInv(Blank(sie));
  }

  /** The creations under way, as the creators' local variables and as the machine has them. */
  ghost predicate Held(pending: seq<Option<Pending>>, making: map<nat, Making>) {
    && |pending| == NPROC + 1
    && (forall c {:trigger c in making} :: c in making ==> c <= NPROC)
    && (forall c {:trigger pending[c]} :: 0 <= c <= NPROC ==>
          match pending[c]
          case None => c !in making
          case Some(w) => c in making && making[c] == if w.claimed then Claimed(w.slot) else Chosen(w.slot))
  }

  lemma NothingHeld(pending: seq<Option<Pending>>)
    requires |pending| == NPROC + 1 && forall c :: 0 <= c <= NPROC ==> pending[c] == None
    ensures Held(pending, map[])
  {
  }

  lemma PendingIs(pending: seq<Option<Pending>>, making: map<nat, Making>, c: nat)
    requires Held(pending, making) && c <= NPROC
    ensures |pending| == NPROC + 1
    ensures pending[c].None? <==> c !in making
    ensures pending[c].Some? ==>
              making[c] == if pending[c].value.claimed then Claimed(pending[c].value.slot)
                  else Chosen(pending[c].value.slot)
  {
  }

  lemma HoldMore(pending: seq<Option<Pending>>, making: map<nat, Making>, c: nat, w: Pending)
    requires Held(pending, making) && c <= NPROC
    ensures |pending| == NPROC + 1
    ensures Held(pending[c := Some(w)], making[c := if w.claimed then Claimed(w.slot) else Chosen(w.slot)])
  {
  }

  lemma HoldLess(pending: seq<Option<Pending>>, making: map<nat, Making>, c: nat)
    requires Held(pending, making) && c <= NPROC
    ensures |pending| == NPROC + 1
    ensures Held(pending[c := None], making - {c})
  {
  }

  lemma NoMove(st: seq<State>)
    ensures SameUnused(st, st)
  {
  }

  lemma SameMaking(making: map<nat, Making>)
    ensures SameHalfMade(making, making)
  {
  }

  /** No program of a process has an interrupted creation ahead. */
  ghost predicate WholeTable(st: seq<State>, pr: seq<Prog>) {
    |st| == |pr| && forall p {:trigger pr[p]} :: 0 <= p < |st| && st[p] != Unused ==> Whole(pr[p])
  }

  class Kernel {
    const state: array<State>
    const prog: array<Prog>
    const pid: array<nat>
    const stack: array<nat>
    const name: array<seq<byte>>
    const context: array<seq<nat>>              // as `proc_create` leaves it
    const pending: array<Option<Pending>>       // local variables of unfinished `proc_create` calls
    const inTrap: array<bool>                   // parked by a trap
    const forkret: nat
    const pages: PageHeap.Allocator
    var current: Option<nat>
    var sie: bool
    ghost var sched: Sched
    ghost var start: Sched          // the machine after `proc_init` ...
    ghost var trace: seq<Step>      // ... and the steps taken since
    ghost var given: seq<Prog>      // the program each slot was created with
    ghost var turns: seq<nat>       // dispatches of each slot so far

    ghost predicate Sized()
      reads this`given, this`turns
    {
      state.Length == NPROC == prog.Length && |given| == NPROC == |turns|
    }

    /** Dispatches so far plus turns to come are the turns of the program. */
    ghost predicate Accounted()
      requires Sized()
      reads this`given, this`turns, state, prog
    {
      forall p {:trigger turns[p]} :: 0 <= p < NPROC ==>
        match state[p]
        case Unused => turns[p] == 0
        case Runnable => turns[p] + Turns(prog[p]) == Turns(given[p])
        case Running => turns[p] + Turns(prog[p]) == Turns(given[p]) + 1
        case Zombie => turns[p] == Turns(given[p])
    }

    /** Creations under way, SIE and traps are as in the machine. */
    ghost predicate Mirrored()
      reads this`sched, this`sie, pending, inTrap
    {
      && pending.Length == NPROC + 1 && inTrap.Length == NPROC
      && Held(pending[..], sched.making) && sched.enabled == sie && sched.trapped == inTrap[..]
    }

    ghost predicate Valid()
      reads this, state, prog, pending, inTrap
    {
      && Sized() && Inv(sched) && sched.st == state[..] && sched.current == current && Accounted() && Mirrored()
      && Initial(start) && sched == Run(start, trace)
    }

    ghost function Columns(): Fields
      reads pid, stack, name, context
    {
      Fields(pid[..], stack[..], name[..], context[..])
    }

    /** The arrays hold the records of the slots that are in use by `st`. */
    ghost predicate RecordedFor(st: seq<State>, making: map<nat, Making>)
      reads pid, stack, name, context, pages
    {
      && pid != stack && forkret != 0
      && pages.Valid() && Records(st, making, forkret, Columns(), pages.owner)
    }

    ghost predicate Recorded()
      reads this`sched, state, pid, stack, name, context, pages
    {
      RecordedFor(state[..], sched.making)
    }

    ghost predicate AllWhole()
      requires Sized()
      reads this`given, this`turns, state, prog
    {
      WholeTable(state[..], prog[..])
    }

    /** SIE is clear and nobody is parked in a trap, so that it stays clear. */
    ghost predicate NoTraps()
      reads this`sie, inTrap
    {
      !sie && forall p {:trigger inTrap[p]} :: 0 <= p < inTrap.Length ==> !inTrap[p]
    }

    ghost function UnusedSlots(): nat
      requires Sized()
      reads this`given, this`turns, state
    {
      Slots(state[..], NPROC)
    }

    ghost function WorkLeft(): nat
      requires Sized()
      reads this`given, this`turns, state, prog
    {
      Work(state[..], prog[..], NPROC)
    }

    /** All slots are unused, their fields cleared, and nothing is under way. */
    ghost predicate Cleared()
      reads this, state, pid, stack, name, context, pending, inTrap
    {
      && Sized() && turns == seq(NPROC, _ => 0) && current == None && trace == []
      && pid.Length == stack.Length == name.Length == context.Length == inTrap.Length == NPROC
      && pending.Length == NPROC + 1
      && sched == start == Blank(sie) && (forall c :: 0 <= c <= NPROC ==> pending[c] == None)
      && (forall p :: 0 <= p < NPROC ==>
            && state[p] == Unused && pid[p] == 0 && stack[p] == 0 && name[p] == NoName() && context[p] == ZeroContext()
            && !inTrap[p])
    }

    lemma ClearedIsValid()
      requires Cleared() && pid != stack && forkret != 0 && pages.Valid()
      ensures Valid() && Recorded() && Initial(sched)
    {
      hide Inv, Run, Records, Blank, Initial, NoName, ZeroContext, Held, PageHeap.Allocator.Valid;
      BlankReady(sie);
      NoRecords(state[..], forkret, Columns(), pages.owner);
      NothingHeld(pending[..]);
      assert state[..] == sched.st && inTrap[..] == sched.trapped;
    }

    /** No slot in use, and nothing under way. */
    static method ClearedStates() returns (states: array<State>, progs: array<Prog>, pendings: array<Option<Pending>>,
                                traps: array<bool>)
      ensures fresh(states) && fresh(progs) && fresh(pendings) && fresh(traps)
      ensures states.Length == progs.Length == traps.Length == NPROC && pendings.Length == NPROC + 1
      ensures forall p :: 0 <= p < NPROC ==> states[p] == Unused && !traps[p]
      ensures forall c :: 0 <= c <= NPROC ==> pendings[c] == None
    {
      states := new State[NPROC](_ => Unused);
      progs := new Prog[NPROC](_ => Last([]));
      pendings := new Option<Pending>[NPROC + 1](_ => None);
      traps := new bool[NPROC](_ => false);
    }

    /** The other fields of the table, cleared. */
    static method ClearedColumns()
      returns (pids: array<nat>, stacks: array<nat>, names: array<seq<byte>>, contexts: array<seq<nat>>)
      ensures fresh(pids) && fresh(stacks) && fresh(names) && fresh(contexts) && pids != stacks
      ensures pids.Length == stacks.Length == names.Length == contexts.Length == NPROC
      ensures forall p :: 0 <= p < NPROC ==>
                pids[p] == 0 && stacks[p] == 0 && names[p] == NoName() && contexts[p] == ZeroContext()
    {
      pids := new nat[NPROC](_ => 0);
      stacks := new nat[NPROC](_ => 0);
      names := new seq<byte>[NPROC](_ => NoName());
      contexts := new seq<nat>[NPROC](_ => ZeroContext());
    }

    /** `proc_init`; `sie` is the interrupt flag, which it leaves. */
    constructor (pages: PageHeap.Allocator, forkret: nat, sie: bool)
      requires pages.Valid() && forkret != 0
      ensures Valid() && Recorded() && Initial(sched) && this.pages == pages && this.forkret == forkret
              && this.sie == sie
      ensures fresh(state) && fresh(prog) && fresh(pid) && fresh(stack) && fresh(name) && fresh(context)
      ensures fresh(pending) && fresh(inTrap)
      ensures forall p :: 0 <= p < NPROC ==>
                pid[p] == 0 && stack[p] == 0 && name[p][0] == 0 && context[p] == ZeroContext()
    {
      hide Kernel.Valid, Kernel.Recorded, Blank, Initial, NoName, ZeroContext, PageHeap.Allocator.Valid;
      this.pages, this.forkret, this.sie := pages, forkret, sie;
      var states, progs, pendings, traps := ClearedStates();
      state, prog, pending, inTrap := states, progs, pendings, traps;
      var pids, stacks, names, contexts := ClearedColumns();
      pid, stack, name, context := pids, stacks, names, contexts;
      current := None;
      sched, start := Blank(sie), Blank(sie);
      given, turns, trace := seq(NPROC, _ => Last([])), seq(NPROC, _ => 0), [];
      new;
      ClearedIsValid();
    }

    /** The machine takes a step. */
    ghost method Advance(step: Step)
      requires Inv(sched) && Initial(start) && sched == Run(start, trace)
      modifies this`sched, this`trace
      ensures sched == Apply(old(sched), step) && trace == old(trace) + [step]
      ensures Inv(sched) && sched == Run(start, trace)
    {
      hide OneRunning, PassOk, WaitOk, LifeOk, MakingOk, Apply, Run;
      StepKeepsInv(sched, step);
      RunSnoc(start, trace, step);
      sched, trace := Apply(sched, step), trace + [step];
    }

    /** The records carry over when no slot starts or stops being unused or half made. */
    ghost method KeepRecords(st: seq<State>, making: map<nat, Making>)
      requires Sized() && RecordedFor(st, making) && SameUnused(st, state[..]) && SameHalfMade(making, sched.making)
      ensures Recorded()
    {
      hide Records, PageHeap.Chain, PageHeap.HeapPages, PA.Run, PA.Fresh;
      RecordsCarry(st, state[..], making, sched.making, forkret, Columns(), pages.owner);
    }

    /** The search for an unused slot. */
    method FindSlot() returns (i: nat)
      requires Sized()
      ensures i == FreeSlot(state[..], 0)
    {
      i := 0;
      while i < NPROC && state[i] != Unused
        invariant i <= NPROC && FreeSlot(state[..], i) == FreeSlot(state[..], 0)
      {
        i := i + 1;
      }
    }

    lemma Lens()
      requires Valid()
      ensures Sized() && pending.Length == NPROC + 1 && inTrap.Length == NPROC
      ensures Shape(sched) && sched.st == state[..]
    {
      hide Held, Run, Initial, OneRunning, PassOk, WaitOk, LifeOk, MakingOk;
    }

    lemma Columned()
      requires Recorded()
      ensures pid.Length == stack.Length == name.Length == context.Length == NPROC == state.Length && pid != stack
      ensures forall p {:trigger name[p]} :: 0 <= p < NPROC ==> |name[p]| == NAME_SIZE
    {
      hide StacksOwned, HalfMade, PageHeap.Allocator.Valid;
      Lengths(state[..], sched.making, forkret, Columns(), pages.owner);
      assert forall p {:trigger name[p]} :: 0 <= p < NPROC ==> name[p] == name[..][p];
    }

    /** What agent `c` is creating. */
    lemma Known(c: nat)
      requires Valid() && c <= NPROC
      ensures pending.Length == NPROC + 1 && (pending[c].None? <==> c !in sched.making)
      ensures pending[c].Some? ==>
                var w := pending[c].value;
                w.slot < NPROC && sched.making[c] == if w.claimed then Claimed(w.slot) else Chosen(w.slot)
    {
      hide Inv, Held, Run, Initial;
      PendingIs(pending[..], sched.making, c);
      if c in sched.making {
        SlotInRange(sched, c);
      }
    }

    /** The first part of `proc_create` by agent `c`, up to the check of the slot. */
    method Search(c: nat, child: Child) returns (found: bool)
      requires Valid() && Recorded() && CanCreate(sched) && c == Hart(sched) <= NPROC && pending[c].None?
      modifies this`sched, this`trace, pending
      ensures Valid() && Recorded() && sched == Apply(old(sched), Choose)
      ensures found <==> FreeSlot(state[..], 0) < NPROC
      ensures sched.at == old(sched.at) && sched.seen == old(sched.seen) && sched.enabled == old(sched.enabled)
      ensures sched.making == if found then old(sched.making)[c := Chosen(FreeSlot(state[..], 0))]
                              else old(sched.making)
      ensures pending[..] == if found then old(pending[..])[c := Some(Pending(FreeSlot(state[..], 0), child, false))]
                             else old(pending[..])
    {
      hide Inv, Accounted, Run, Apply, Booting, Initial, Records, PageHeap.Allocator.Valid, FreeSlot, HalfMade, Held,
        SameHalfMade, SameUnused;
      var i := FindSlot();
      PendingIs(pending[..], sched.making, c);
      ChooseEffect(sched);
      ghost var making := sched.making;
      Advance(Choose);
      if i < NPROC {
        HoldMore(pending[..], making, c, Pending(i, child, false));
        pending[c] := Some(Pending(i, child, false));
        ChoosingIsNotMaking(making, c, i);
      } else {
        SameMaking(making);
      }
      NoMove(state[..]);
      KeepRecords(state[..], making);
      found := i < NPROC;
    }

    /** The fields of a new process other than state and context. */
    method WriteEntry(i: nat, n: Option<seq<byte>>, s: nat)
      requires pid.Length == stack.Length == name.Length == NPROC && pid != stack
      requires i < NPROC && |name[i]| == NAME_SIZE
      modifies pid, stack, name
      ensures Columns() == Entered(old(Columns()), i, s, NameField(old(name[i]), n))
    {
      hide NameField;
      pid[i] := i + 1;
      stack[i] := s;
      name[i] := CopyName(name[i], n);
      assert pid[..] == old(pid[..])[i := i + 1] && stack[..] == old(stack[..])[i := s];
      assert name[..] == old(name[..])[i := NameField(old(name[i]), n)];
    }

    /** There is no stack: the creation ends without a process. */
    method Refuse(c: nat)
      requires Valid() && CanCreate(sched) && c == Hart(sched) <= NPROC && pending[c].Some? && !pending[c].value.claimed
      modifies this`sched, this`trace, pending
      ensures Valid() && sched == Apply(old(sched), Claim(false)) && sched.making == old(sched.making) - {c}
      ensures sched.st == old(sched.st) && sched.at == old(sched.at) && sched.seen == old(sched.seen)
      ensures pending[..] == old(pending[..])[c := None]
    {
      hide Inv, Accounted, Run, Apply, Booting, Initial, FreeSlot, HalfMade, Held;
      PendingIs(pending[..], sched.making, c);
      SlotInRange(sched, c);
      ClaimEffect(sched, false);
      HoldLess(pending[..], sched.making, c);
      Advance(Claim(false));
      pending[c] := None;
      assert pending[..] == old(pending[..])[c := None];
    }

    /** Another creation has taken the slot: the run ends here. */
    ghost method Collide(c: nat)
      requires Valid() && CanCreate(sched) && c == Hart(sched) <= NPROC && pending[c].Some? && !pending[c].value.claimed
      requires pending[c].value.slot < NPROC && state[pending[c].value.slot] != Unused
      modifies this`sched, this`trace
      ensures Valid() && sched == Apply(old(sched), Claim(true)) && sched.making == old(sched.making)
      ensures sched.at == Clash(c, pending[c].value.slot)
    {
      hide Inv, Run, Apply, Initial, FreeSlot, HalfMade, Held;
      Known(c);
      ClaimEffect(sched, true);
      Advance(Claim(true));
    }

    /** The slot becomes runnable. */
    method Occupy(c: nat)
      requires Valid() && CanCreate(sched) && c == Hart(sched) <= NPROC && pending[c].Some? && !pending[c].value.claimed
      requires pending[c].value.slot < NPROC && state[pending[c].value.slot] == Unused
      modifies this`sched, this`trace, this`given, state, prog, pending
      ensures Valid() && sched == Apply(old(sched), Claim(true))
      ensures var w := old(pending[c].value); var i := w.slot;
              && state[..] == old(state[..])[i := Runnable] && prog[..] == old(prog[..])[i := w.child.prog]
              && given == old(given)[i := w.child.prog]
              && pending[..] == old(pending[..])[c := Some(w.(claimed := true))]
              && sched.at == old(sched.at) && sched.seen == old(sched.seen)
              && sched.making == old(sched.making)[c := Claimed(i)]
      ensures UnusedSlots() == old(UnusedSlots()) - 1
    {
      hide Inv, Run, Apply, Booting, Initial, FreeSlot, HalfMade, Held, Slots, Work, Turns;
      PendingIs(pending[..], sched.making, c);
      var w := pending[c].value;
      var i := w.slot;
      ClaimEffect(sched, true);
      HoldMore(pending[..], sched.making, c, w.(claimed := true));
      OneSlot(state[..], prog[..], i, Runnable, w.child.prog, NPROC);
      state[i] := Runnable;
      prog[i] := w.child.prog;
      given := given[i := w.child.prog];
      pending[c] := Some(w.(claimed := true));
      Advance(Claim(true));
      assert state[..] == old(state[..])[i := Runnable] && prog[..] == old(prog[..])[i := w.child.prog];
      assert pending[..] == old(pending[..])[c := Some(w.(claimed := true))];
    }

    /** The middle part of `proc_create`: takes a stack and makes the slot runnable, unless there is no
        stack. If another creation has taken the slot, the run ends here. */
    method TakeStack(c: nat) returns (clash: bool)
      requires Valid() && Recorded() && CanCreate(sched) && c == Hart(sched) <= NPROC
      requires pending[c].Some? && !pending[c].value.claimed
      modifies this`sched, this`trace, this`given, state, prog, pid, stack, name, pending
      modifies pages`mem, pages`freeList, pages`freeCount, pages`free, pages`owner, pages`serial, pages`trace
      ensures Valid() && Recorded() && sched == Apply(old(sched), Claim(old(pages.free) != []))
      ensures pages.State() == PA.Apply(old(pages.State()), PA.Alloc(STACK_SIZE)) && pages.mem == old(pages.mem)
      ensures old(pages.free) == [] ==> pages.State() == old(pages.State())
      ensures old(pending[c].value).slot < NPROC
      ensures clash <==> old(pages.free) != [] && old(state[..])[old(pending[c].value).slot] != Unused
      ensures clash || old(pages.free) == [] ==>
                && Columns() == old(Columns()) && state[..] == old(state[..]) && prog[..] == old(prog[..])
                && given == old(given)
                && pending[..] == (if clash then old(pending[..]) else old(pending[..])[c := None])
      ensures clash ==> sched.at == Clash(c, old(pending[c].value).slot)
      ensures !clash ==> sched.at == old(sched.at) && sched.seen == old(sched.seen)
      ensures old(pages.free) == [] ==> sched.making == old(sched.making) - {c}
      ensures !clash && old(pages.free) != [] ==>
                var w := old(pending[c].value); var i := w.slot;
                && Columns() == Entered(old(Columns()), i, PageHeap.AddrOf(old(pages.free)[0]),
                     NameField(old(name[i]), w.child.name))
                && state[..] == old(state[..])[i := Runnable] && prog[..] == old(prog[..])[i := w.child.prog]
                && given == old(given)[i := w.child.prog]
                && pending[..] == old(pending[..])[c := Some(w.(claimed := true))]
                && sched.making == old(sched.making)[c := Claimed(i)]
                && UnusedSlots() == old(UnusedSlots()) - 1
    {
      hide Kernel.Valid, Inv, Run, Apply, Booting, Initial, Records, NameField, EntryContext, Held, HalfMade,
        SameHalfMade, OneMore,
        PageHeap.Allocator.Valid, PA.Apply, PA.Partitioned, Slots, FreeSlot, SameUnused;
      Lens();
      Known(c);
      var w := pending[c].value;
      var i := w.slot;
      ghost var h, st, making := pages.State(), state[..], sched.making;
      Lengths(st, making, forkret, Columns(), h.owner);
      PageHeap.EveryAllocator(pages, 0);
      var s := Paging.TakePage(pages);
      NoMove(st);
      if s == 0 {
        Paging.NoTableTaken(h, pages.State());
        Refuse(c);
        RefusedIsNotMaking(making, c);
        KeepRecords(st, making);
        return false;
      }
      TakenPageOwned(h);
      if state[i] != Unused {
        MoreOwned(st, making, forkret, Columns(), h.owner, pages.owner);
        Collide(c);
        return true;
      }
      ghost var f := Columns();
      assert pages.owner == pages.State().owner == PA.Apply(h, PA.Alloc(STACK_SIZE)).owner;
      ClaimedIsMaking(making, c, i);
      NewRecord(st, making, making[c := Claimed(i)], forkret, f, h.owner, pages.owner, i, h.free[0],
          NameField(name[i], w.child.name));
      Occupy(c);
      WriteEntry(i, w.child.name, s);
      clash := false;
    }

    /** The last part of `proc_create`: the context. */
    method WriteContext(c: nat)
      requires Valid() && Recorded() && CanCreate(sched) && c == Hart(sched) <= NPROC && pending[c].Some?
               && pending[c].value.claimed
      modifies this`sched, this`trace, context, pending
      ensures Valid() && Recorded() && sched == Apply(old(sched), Fill)
      ensures old(pending[c].value).slot < NPROC
      ensures sched.at == old(sched.at) && sched.seen == old(sched.seen) && sched.making == old(sched.making) - {c}
      ensures var i := old(pending[c].value).slot;
              context[..] == old(context[..])[i := EntryContext(forkret, stack[i])]
                  && pending[..] == old(pending[..])[c := None]
    {
      hide Inv, Accounted, Run, Apply, Booting, Initial, Records, Held, HalfMade, OneLess, PageHeap.Allocator.Valid,
        FreeSlot;
      PendingIs(pending[..], sched.making, c);
      SlotInRange(sched, c);
      var i := pending[c].value.slot;
      ghost var f, making := Columns(), sched.making;
      Lengths(state[..], making, forkret, f, pages.owner);
      context[i] := ZeroContext();
      context[i] := context[i][1 := stack[i] + STACK_SIZE];
      context[i] := context[i][0 := forkret];
      assert context[i] == EntryContext(forkret, stack[i]);
      assert context[..] == f.contexts[i := EntryContext(forkret, stack[i])];
      SlotInUse(sched, c);
      FilledIsNotMaking(making, c, i);
      FilledRecord(state[..], making, making - {c}, forkret, f, pages.owner, i);
      FillEffect(sched);
      HoldLess(pending[..], making, c);
      Advance(Fill);
      pending[c] := None;
      assert pending[..] == old(pending[..])[c := None];
    }

    /** `proc_create` by boot code or a running process, uninterrupted: the first unused slot becomes
        runnable, with a stack page from the allocator, its number, its name and the context in which it
        will start, unless there is no slot or no page; then nothing changes. */
    method ProcCreate(c: nat, child: Child) returns (r: Option<nat>)
      requires Valid() && Recorded() && CanCreate(sched) && c == Hart(sched) <= NPROC && pending[c].None?
      modifies this`sched, this`trace, this`given, state, prog, pid, stack, name, context, pending
      modifies pages`mem, pages`freeList, pages`freeCount, pages`free, pages`owner, pages`serial, pages`trace
      ensures Valid() && Recorded() && sched == Created(old(sched), old(pages.free) != [])
      ensures r == if FreeSlot(old(state[..]), 0) < NPROC && old(pages.free) != []
                   then Some(FreeSlot(old(state[..]), 0)) else None
      ensures pending[..] == old(pending[..]) && sched.at == old(sched.at) && sched.making == old(sched.making)
      ensures r.None? ==>
                && Columns() == old(Columns()) && state[..] == old(state[..]) && prog[..] == old(prog[..])
                && given == old(given)
                && pages.State() == old(pages.State()) && pages.mem == old(pages.mem)
      ensures r.Some? ==>
                var i, s := r.value, PageHeap.AddrOf(old(pages.free)[0]);
                && Columns() == Entered(old(Columns()), i, s, NameField(old(name[i]), child.name))
                                .(contexts := old(context[..])[i := EntryContext(forkret, s)])
                && state[..] == old(state[..])[i := Runnable] && prog[..] == old(prog[..])[i := child.prog]
                && given == old(given)[i := child.prog]
                && pages.State() == PA.Apply(old(pages.State()), PA.Alloc(STACK_SIZE))
                && UnusedSlots() == old(UnusedSlots()) - 1
      ensures Grown(old(state[..]), state[..], old(prog[..]), prog[..], child.prog)
      ensures UnusedSlots() < old(UnusedSlots())
              || (UnusedSlots() == old(UnusedSlots()) && WorkLeft() == old(WorkLeft()))
    {
      hide Kernel.Valid, Kernel.Recorded, Kernel.AllWhole, Apply, NameField, EntryContext, HalfMade, PA.Apply, Slots,
        Work, FreeSlot, Grown;
      Lens();
      Known(c);
      Columned();
      NotGrown(state[..], prog[..], child.prog);
      ghost var s0, ok := sched, pages.free != [];
      var found := Search(c, child);
      if !found {
        NothingToClaim(s0, ok);
        return None;
      }
      Lens();
      Known(c);
      var i := pending[c].value.slot;
      GrownByOne(state[..], prog[..], i, child.prog);
      var clash := TakeStack(c);
      Lens();
      if pending[c].None? {
        NothingToFill(sched);
        assert pending[..] == old(pending[..]);
        return None;
      }
      WriteContext(c);
      assert pending[..] == old(pending[..]);
      r := Some(i);
    }

    /** What a creation of agent `c` that was interrupted does after it has the hart back; it ends the run
        if another creation has taken its slot. */
    method Complete(c: nat) returns (broken: bool)
      requires Valid() && Recorded() && CanCreate(sched) && c == Hart(sched) <= NPROC
      modifies this`sched, this`trace, this`given, state, prog, pid, stack, name, context, pending
      modifies pages`mem, pages`freeList, pages`freeCount, pages`free, pages`owner, pages`serial, pages`trace
      ensures Valid() && Recorded()
      ensures old(pending[c]).None? ==> sched == old(sched)
      ensures old(pending[c]).Some? ==>
              sched == Completed(old(sched), old(pending[c].value).claimed, old(pages.free) != [])
      ensures broken ==> Damaged(sched) && old(pending[c]).Some? && !old(pending[c].value).claimed
      ensures broken ==> old(pending[c].value).slot < NPROC && old(state[..])[old(pending[c].value).slot] != Unused
      ensures !broken ==> pending[c].None? && sched.at == old(sched.at) && sched.seen == old(sched.seen)
      ensures !broken ==> sched.making == old(sched.making) - {c}
      ensures old(pending[c]).Some? ==>
              Grown(old(state[..]), state[..], old(prog[..]), prog[..], old(pending[c].value).child.prog)
      ensures old(pending[c]).None? ==> state[..] == old(state[..]) && prog[..] == old(prog[..])
      ensures UnusedSlots() < old(UnusedSlots())
              || (UnusedSlots() == old(UnusedSlots()) && WorkLeft() == old(WorkLeft()))
    {
      hide Kernel.Valid, Kernel.Recorded, Kernel.AllWhole, Apply, NameField, EntryContext, HalfMade, PA.Apply, Slots,
        Work, FreeSlot;
      Lens();
      Known(c);
      broken := false;
      if pending[c].Some? {
        if !pending[c].value.claimed {
          broken := TakeStack(c);
          Lens();
          if broken {
            NothingMore(sched);
            return;
          }
        }
        if pending[c].Some? {
          WriteContext(c);
        } else {
          NothingToFill(sched);
        }
      } else {
        assert sched.making - {c} == sched.making;
      }
    }

    /** The processes that process `i` creates during its turn. */
    method CreateChildren(i: nat, p: Prog)
      requires Valid() && Recorded() && i < NPROC && sched.at == InProcess(i) && prog[i] == p && pending[i].None?
      modifies this`sched, this`trace, this`given, state, prog, pid, stack, name, context, pending
      modifies pages`mem, pages`freeList, pages`freeCount, pages`free, pages`owner, pages`serial, pages`trace
      ensures Valid() && Recorded() && sched.at == InProcess(i) && prog[i] == p && pending[i].None?
      ensures sched.making == old(sched.making)
      ensures old(AllWhole()) && Whole(p) ==> AllWhole()
      ensures UnusedSlots() < old(UnusedSlots())
              || (UnusedSlots() == old(UnusedSlots()) && WorkLeft() == old(WorkLeft()))
    {
      hide Kernel.Valid, Kernel.Recorded, Kernel.Columns, WholeTable, Inv, Entered, Slots, Work, PA.Apply, FreeSlot,
        NameField,
        EntryContext, Created, Grown, PageHeap.Allocator.State;
      ReadyToCreate(i);
      for n := 0 to |p.children|
        invariant Sized() && Valid() && Recorded() && sched.at == InProcess(i) && prog[i] == p
        invariant pending.Length == NPROC + 1 && pending[i].None? && sched.making == old(sched.making)
        invariant old(AllWhole()) && Whole(p) ==> AllWhole()
        invariant UnusedSlots() < old(UnusedSlots())
                  || (UnusedSlots() == old(UnusedSlots()) && WorkLeft() == old(WorkLeft()))
      {
        ReadyToCreate(i);
        ghost var st, pr := state[..], prog[..];
        var r := ProcCreate(i, p.children[n]);
        assert Whole(p) ==> Whole(p.children[n].prog);
        StillCreating(i, st, pr, p.children[n].prog);
      }
    }

    lemma ReadyToCreate(i: nat)
      requires Valid() && sched.at == InProcess(i)
      ensures Sized() && pending.Length == NPROC + 1 && CanCreate(sched) && i == Hart(sched) < NPROC
              && state[i] == Running
    {
      hide Held, Run, Initial, WaitOk, LifeOk, PassOk, MakingOk;
      InUse(sched, i);
    }

    /** A creation leaves its creator's program, and leaves all programs whole if the new one is. */
    lemma StillCreating(i: nat, st: seq<State>, pr: seq<Prog>, p: Prog)
      requires Valid() && i < NPROC && |st| == NPROC == |pr| && st[i] == Running
               && Grown(st, state[..], pr, prog[..], p)
      ensures prog[i] == pr[i]
      ensures WholeTable(st, pr) && Whole(p) ==> AllWhole()
    {
      hide Inv, Held, Run, Initial, Whole;
      assert prog[..][i] == prog[i];
    }

    /** `p->state = PROC_RUNNING; current_process = p` and the `swtch`; a process parked in a trap comes
        back with SIE set. If the context of the slot is not written yet, the run ends here. */
    method Dispatch(i: nat)
      requires Valid() && i < NPROC && sched.at.Scan? && sched.at.i == i && NPROC !in sched.making
               && state[i] == Runnable
      modifies this`current, this`sie, this`sched, this`trace, this`turns, state, inTrap
      ensures Valid() && sched == Apply(old(sched), Look) && sched.making == old(sched.making)
      ensures sched.at == (if HalfMade(sched.making, i) then Lost(i) else InProcess(i))
      ensures state[..] == old(state[..])[i := Running] && turns == old(turns)[i := old(turns)[i] + 1]
      ensures sie == (old(sie) || old(inTrap[i])) && inTrap[..] == old(inTrap[..])[i := false]
      ensures UnusedSlots() == old(UnusedSlots()) && WorkLeft() == old(WorkLeft()) - Turns(prog[i])
    {
      hide Inv, Run, Initial, Apply, HalfMade, Held, Turns, Slots, Work;
      LookEffect(sched, i);
      OneSlot(state[..], prog[..], i, Running, prog[i], NPROC);
      state[i] := Running;
      current := Some(i);
      sie := sie || inTrap[i];
      inTrap[i] := false;
      turns := turns[i := turns[i] + 1];
      Advance(Look);
      assert state[..] == old(state[..])[i := Running] && prog[..] == old(prog[..])[i := prog[i]];
      assert inTrap[..] == old(inTrap[..])[i := false];
    }

    /** `yield` with `rest` still to do, and the scheduler's line after the `swtch`. */
    method YieldBack(i: nat, rest: Prog)
      requires Valid() && sched.at == InProcess(i) && i < NPROC && pending[i].None? && prog[i].Turn?
               && prog[i].rest == rest
      modifies this`current, this`sched, this`trace, state, prog
      ensures Valid() && sched == Apply(old(sched), Yield) && sched.at == Scan(i + 1, true)
              && sched.making == old(sched.making)
      ensures state[..] == old(state[..])[i := Runnable] && prog[..] == old(prog[..])[i := rest]
              && old(state[i]) == Running
      ensures UnusedSlots() == old(UnusedSlots()) && WorkLeft() == old(WorkLeft()) + Turns(rest)
    {
      hide Inv, Run, Initial, Apply, HalfMade, Held, Slots, Work;
      Known(i);
      YieldEffect(sched, i);
      OneSlot(state[..], prog[..], i, Runnable, rest, NPROC);
      prog[i] := rest;
      if state[i] == Running {
        state[i] := Runnable;
      }
      current := None;
      Advance(Yield);
      assert state[..] == old(state[..])[i := Runnable] && prog[..] == old(prog[..])[i := rest];
    }

    /** A timer trap whose handler yields: the same, and SIE is clear. */
    method PreemptBack(i: nat, rest: Prog)
      requires Valid() && sched.at == InProcess(i) && i < NPROC && sie && prog[i].Turn? && prog[i].rest == rest
      modifies this`current, this`sie, this`sched, this`trace, state, prog, inTrap
      ensures Valid() && sched == Apply(old(sched), Preempt) && sched.at == Scan(i + 1, true)
              && sched.making == old(sched.making)
      ensures state[..] == old(state[..])[i := Runnable] && prog[..] == old(prog[..])[i := rest]
              && old(state[i]) == Running
      ensures !sie && inTrap[..] == old(inTrap[..])[i := true]
      ensures UnusedSlots() == old(UnusedSlots()) && WorkLeft() == old(WorkLeft()) + Turns(rest)
    {
      hide Inv, Run, Initial, Apply, HalfMade, Held, Slots, Work;
      PreemptEffect(sched, i);
      OneSlot(state[..], prog[..], i, Runnable, rest, NPROC);
      sie := false;
      inTrap[i] := true;
      prog[i] := rest;
      if state[i] == Running {
        state[i] := Runnable;
      }
      current := None;
      Advance(Preempt);
      assert state[..] == old(state[..])[i := Runnable] && prog[..] == old(prog[..])[i := rest];
    }

    /** `forkret` after the entry function has returned, and the scheduler's line after the `swtch`. */
    method FinishUp(i: nat)
      requires Valid() && sched.at == InProcess(i) && i < NPROC && pending[i].None? && prog[i].Last?
      modifies this`current, this`sched, this`trace, state
      ensures Valid() && sched == Apply(old(sched), Finish) && sched.at == Scan(i + 1, true)
              && sched.making == old(sched.making)
      ensures state[..] == old(state[..])[i := Zombie] && old(state[i]) == Running
      ensures UnusedSlots() == old(UnusedSlots()) && WorkLeft() == old(WorkLeft())
    {
      hide Inv, Run, Initial, Apply, HalfMade, Held, Slots, Work;
      Known(i);
      FinishEffect(sched, i);
      OneSlot(state[..], prog[..], i, Zombie, prog[i], NPROC);
      state[i] := Zombie;
      current := None;
      Advance(Finish);
      assert state[..] == old(state[..])[i := Zombie] && prog[..] == old(prog[..])[i := prog[i]];
    }

    /** `proc_create` by process `i` up to the cut. */
    method StartCreation(i: nat, child: Child, cut: Cut)
      requires Valid() && Recorded() && i < NPROC && sched.at == InProcess(i) && pending[i].None?
      modifies this`sched, this`trace, this`given, state, prog, pid, stack, name, pending
      modifies pages`mem, pages`freeList, pages`freeCount, pages`free, pages`owner, pages`serial, pages`trace
      ensures Valid() && Recorded() && sched.at == InProcess(i) && prog[i] == old(prog[i])
      ensures pending[i].Some? && !pending[i].value.claimed ==>
                pending[i].value.slot < NPROC && state[pending[i].value.slot] == Unused
      ensures sched.making - {i} == old(sched.making)
      ensures UnusedSlots() < old(UnusedSlots())
              || (UnusedSlots() == old(UnusedSlots()) && WorkLeft() == old(WorkLeft()))
    {
      hide Kernel.Valid, Kernel.Recorded, Kernel.AllWhole, Apply, NameField, EntryContext, HalfMade, PA.Apply, Slots,
        Work, FreeSlot;
      ReadyToCreate(i);
      Known(i);
      ghost var making := sched.making;
      assert making - {i} == making;
      var found := Search(i, child);
      Lens();
      if found {
        assert sched.making - {i} == making;
        if cut == BeforeContext {
          ReadyToCreate(i);
          var clash := TakeStack(i);
          Lens();
          assert sched.making - {i} == making;
        }
      }
    }

    /** A process leaves the hart, in a trap or by `yield`, with `rest` still to do. */
    method GiveUp(i: nat, trap: bool, rest: Prog)
      requires Valid() && Recorded() && i < NPROC && sched.at == InProcess(i)
               && (if trap then sie else pending[i].None?)
      requires prog[i].Turn? && prog[i].rest == rest
      modifies this`current, this`sie, this`sched, this`trace, state, prog, inTrap
      ensures Valid() && Recorded() && sched.at == Scan(i + 1, true) && sched.making == old(sched.making)
      ensures !trap && old(NoTraps()) ==> NoTraps()
      ensures old(AllWhole()) && Whole(rest) ==> AllWhole()
      ensures UnusedSlots() == old(UnusedSlots()) && WorkLeft() == old(WorkLeft()) + Turns(rest)
    {
      hide Kernel.RecordedFor, Kernel.Accounted, Inv, Slots, Work, Turns, Whole, WholeTable, Apply, Run, Held,
        Initial, HalfMade;
      ghost var st, pr, making := state[..], prog[..], sched.making;
      if trap {
        PreemptBack(i, rest);
      } else {
        YieldBack(i, rest);
      }
      SameMaking(making);
      KeepRecords(st, making);
      WholeMoves(st, pr, i, Runnable, rest);
    }

    /** The end of a turn: what is left to do is `rest`. */
    method EndTurn(i: nat, end: End, rest: Prog)
      requires Valid() && Recorded() && i < NPROC && sched.at == InProcess(i) && pending[i].None?
      requires prog[i].Turn? && prog[i].end == end && prog[i].rest == rest
      modifies this`current, this`sie, this`sched, this`trace, this`given
      modifies state, prog, pid, stack, name, context, pending, inTrap
      modifies pages`mem, pages`freeList, pages`freeCount, pages`free, pages`owner, pages`serial, pages`trace
      ensures Valid() && Recorded() && sched.at == Scan(i + 1, true)
      ensures sched.making - {i} == old(sched.making)
      ensures !old(sie) || !end.Torn? ==> sched.making == old(sched.making)
      ensures old(NoTraps()) ==> NoTraps()
      ensures old(AllWhole()) && !end.Torn? && Whole(rest) ==> AllWhole()
      ensures UnusedSlots() < old(UnusedSlots())
              || (UnusedSlots() == old(UnusedSlots()) && WorkLeft() == old(WorkLeft()) + Turns(rest))
    {
      hide Kernel.Valid, Kernel.Recorded, Kernel.AllWhole, Slots, Work, Turns, PA.Apply, Whole, HalfMade;
      Lens();
      Known(i);
      assert sched.making - {i} == sched.making;
      if end.Torn? {
        StartCreation(i, end.child, end.cut);
        Lens();
        if !sie {
          FinishCreation(i);
          Lens();
        }
      }
      GiveUp(i, !end.Yields? && sie, rest);
    }

    /** A creation that was not interrupted after all. */
    method FinishCreation(i: nat)
      requires Valid() && Recorded() && i < NPROC && sched.at == InProcess(i)
      requires pending[i].Some? && !pending[i].value.claimed ==>
                 pending[i].value.slot < NPROC && state[pending[i].value.slot] == Unused
      modifies this`sched, this`trace, this`given, state, prog, pid, stack, name, context, pending
      modifies pages`mem, pages`freeList, pages`freeCount, pages`free, pages`owner, pages`serial, pages`trace
      ensures Valid() && Recorded() && sched.at == InProcess(i) && pending[i].None? && prog[i] == old(prog[i])
      ensures sched.making == old(sched.making) - {i}
      ensures UnusedSlots() < old(UnusedSlots())
              || (UnusedSlots() == old(UnusedSlots()) && WorkLeft() == old(WorkLeft()))
    {
      hide Kernel.Recorded, Kernel.Accounted, Inv, Slots, Work, Turns, PA.Apply, Completed, Apply, Run, Held, Initial,
        HalfMade;
      ReadyToCreate(i);
      ghost var st, pr := state[..], prog[..];
      var broken := Complete(i);
      assert prog[..][i] == prog[i] && st[i] == Running;
    }

    /** No creation is under way, and none can be interrupted: the programs of all processes say so, or
        SIE is clear and nobody is parked in a trap. */
    ghost predicate Tame()
      requires Sized()
      reads this`sched, this`sie, this`given, this`turns, state, prog, inTrap
    {
      sched.making == map[] && (AllWhole() || NoTraps())
    }

    /** A slot is dispatched; `swtch` jumps to address 0 if its context is not written yet. */
    method Enter(i: nat) returns (lost: bool)
      requires Valid() && Recorded() && i < NPROC && sched.at.Scan? && sched.at.i == i && NPROC !in sched.making
      requires state[i] == Runnable
      modifies this`current, this`sie, this`sched, this`trace, this`turns, state, inTrap
      ensures Valid() && Recorded() && sched.making == old(sched.making) && (lost <==> HalfMade(sched.making, i))
      ensures sched.at == if lost then Lost(i) else InProcess(i)
      ensures old(AllWhole()) ==> AllWhole() && Whole(prog[i])
      ensures old(NoTraps()) ==> NoTraps()
      ensures UnusedSlots() == old(UnusedSlots()) && WorkLeft() == old(WorkLeft()) - Turns(prog[i])
    {
      hide Kernel.Accounted, Inv, Slots, Work, Turns, Whole, WholeTable, Apply, Run, Held, Initial, HalfMade, Records,
        SameUnused, PageHeap.Allocator.Valid;
      ghost var st, pr, making := state[..], prog[..], sched.making;
      Dispatch(i);
      SameMaking(making);
      Stirs(st, i, Running);
      KeepRecords(st, making);
      WholeStays(st, pr, i, Running);
      Lengths(state[..], making, forkret, Columns(), pages.owner);
      ZeroReturnAddress(state[..], making, forkret, Columns(), pages.owner, i);
      lost := context[i][0] == 0;
    }

    /** The entry function has returned. */
    method Leave(i: nat)
      requires Valid() && Recorded() && i < NPROC && sched.at == InProcess(i) && pending[i].None? && prog[i].Last?
      modifies this`current, this`sched, this`trace, state
      ensures Valid() && Recorded() && sched.at == Scan(i + 1, true) && sched.making == old(sched.making)
      ensures old(AllWhole()) ==> AllWhole()
      ensures UnusedSlots() == old(UnusedSlots()) && WorkLeft() == old(WorkLeft())
    {
      hide Kernel.RecordedFor, Kernel.Accounted, Inv, Slots, Work, Turns, Whole, WholeTable, Apply, Run, Held,
        Initial, HalfMade, SameUnused;
      ghost var st, pr, making := state[..], prog[..], sched.making;
      FinishUp(i);
      SameMaking(making);
      Stirs(st, i, Zombie);
      KeepRecords(st, making);
      WholeStays(st, pr, i, Zombie);
    }

    /** What process `i` does in its turn but for an unfinished creation. */
    method Act(i: nat)
      requires Valid() && Recorded() && i < NPROC && sched.at == InProcess(i) && pending[i].None?
      modifies this`current, this`sie, this`sched, this`trace, this`given
      modifies state, prog, pid, stack, name, context, pending, inTrap
      modifies pages`mem, pages`freeList, pages`freeCount, pages`free, pages`owner, pages`serial, pages`trace
      ensures Valid() && Recorded() && sched.at == Scan(i + 1, true)
      ensures NPROC !in old(sched.making) ==> NPROC !in sched.making
      ensures old(Safely(i)) ==> Tame()
      ensures UnusedSlots() < old(UnusedSlots())
              || (UnusedSlots() == old(UnusedSlots()) && WorkLeft() < old(WorkLeft()) + Turns(old(prog[i])))
    {
      hide Kernel.Valid, Kernel.Recorded, Kernel.AllWhole, Slots, Work, PA.Apply, HalfMade, Whole;
      Lens();
      var p := prog[i];
      ghost var making := sched.making;
      CreateChildren(i, p);
      Lens();
      WholeParts(p);
      match p {
        case Last(_) =>
          Leave(i);
        case Turn(_, end, rest) =>
          EndTurn(i, end, rest);
          assert NPROC in sched.making ==> NPROC in sched.making - {i};
      }
      Lens();
    }

    /** The running process has no interrupted creation behind it, nor ahead. */
    ghost predicate Safely(i: nat)
      requires Sized() && i < NPROC
      reads this`sched, this`sie, this`given, this`turns, state, prog, inTrap
    {
      sched.making == map[] && ((AllWhole() && Whole(prog[i])) || NoTraps())
    }

    /** One turn of process `i`: what happens between the two sides of the scheduler's `swtch`. */
    method RunTurn(i: nat) returns (broken: bool)
      requires Valid() && Recorded() && i < NPROC && sched.at.Scan? && sched.at.i == i && NPROC !in sched.making
      requires state[i] == Runnable
      modifies this`current, this`sie, this`sched, this`trace, this`given, this`turns
      modifies state, prog, pid, stack, name, context, pending, inTrap
      modifies pages`mem, pages`freeList, pages`freeCount, pages`free, pages`owner, pages`serial, pages`trace
      ensures Valid() && Recorded() && (broken <==> Damaged(sched))
      ensures !broken ==> sched.at == Scan(i + 1, true) && NPROC !in sched.making
      ensures !broken ==> UnusedSlots() < old(UnusedSlots())
                          || (UnusedSlots() == old(UnusedSlots()) && WorkLeft() < old(WorkLeft()))
      ensures old(Tame()) ==> !broken && Tame()
    {
      hide Kernel.Valid, Kernel.Recorded, Kernel.AllWhole, Slots, Work, PA.Apply, HalfMade, Whole;
      Lens();
      NothingHalfMade(i);
      broken := Enter(i);
      if broken {
        return;
      }
      Lens();
      assert old(Tame()) ==> Safely(i) && pending[i].None?;
      broken := Resume(i);
      if broken {
        return;
      }
      Lens();
      assert old(Tame()) ==> Safely(i);
      Act(i);
    }

    /** Process `i` goes on with the creation in which it was interrupted, if any. */
    method Resume(i: nat) returns (broken: bool)
      requires Valid() && Recorded() && i < NPROC && sched.at == InProcess(i)
      modifies this`sched, this`trace, this`given, state, prog, pid, stack, name, context, pending
      modifies pages`mem, pages`freeList, pages`freeCount, pages`free, pages`owner, pages`serial, pages`trace
      ensures Valid() && Recorded() && (broken <==> Damaged(sched))
      ensures broken ==> old(pending[i]).Some?
      ensures !broken ==> sched.at == InProcess(i) && pending[i].None? && prog[i] == old(prog[i])
      ensures !broken ==> sched.making == old(sched.making) - {i}
      ensures old(pending[i]).None? && old(AllWhole()) ==> AllWhole()
      ensures UnusedSlots() < old(UnusedSlots())
              || (UnusedSlots() == old(UnusedSlots()) && WorkLeft() == old(WorkLeft()))
    {
      hide Kernel.Recorded, Kernel.Accounted, Inv, Slots, Work, Turns, PA.Apply, Completed, Apply, Run, Held, Initial,
        HalfMade,
        WholeTable;
      ReadyToCreate(i);
      ghost var st, pr := state[..], prog[..];
      broken := Complete(i);
      assert prog[..][i] == prog[i] && st[i] == Running && pr[i] == old(prog[i]);
    }

    /** The inner `for` loop: one pass over the table, unless it ends the run. */
    method Pass() returns (found: bool, broken: bool)
      requires Valid() && Recorded() && sched.at == Scan(0, false) && NPROC !in sched.making
      modifies this`current, this`sie, this`sched, this`trace, this`given, this`turns
      modifies state, prog, pid, stack, name, context, pending, inTrap
      modifies pages`mem, pages`freeList, pages`freeCount, pages`free, pages`owner, pages`serial, pages`trace
      ensures Valid() && Recorded() && (broken <==> Damaged(sched))
      ensures !broken ==> sched.at == Scan(NPROC, found) && NPROC !in sched.making
      ensures !broken && found ==> UnusedSlots() < old(UnusedSlots())
                                   || (UnusedSlots() == old(UnusedSlots()) && WorkLeft() < old(WorkLeft()))
      ensures old(Tame()) ==> !broken && Tame()
    {
      hide Kernel.Recorded, Kernel.Accounted, Kernel.Tame, Inv, Run, Slots, Work, Held, Initial, HalfMade, Dispatched,
        BackFrom, FreeSlot;
      found, broken := false, false;
      for i := 0 to NPROC
        invariant Valid() && Recorded() && sched.at == Scan(i, found) && NPROC !in sched.making && !broken
        invariant if found then UnusedSlots() < old(UnusedSlots())
                  || (UnusedSlots() == old(UnusedSlots()) && WorkLeft() < old(WorkLeft()))
                  else UnusedSlots() == old(UnusedSlots()) && WorkLeft() == old(WorkLeft())
        invariant old(Tame()) ==> Tame()
      {
        if state[i] == Runnable {
          broken := RunTurn(i);
          if broken {
            return;
          }
          found := true;
        } else {
          Skip(i);
        }
      }
    }

    /** The scheduler looks at a slot that is not runnable. */
    ghost method Skip(i: nat)
      requires Valid() && Recorded() && i < NPROC && sched.at.Scan? && sched.at.i == i && NPROC !in sched.making
      requires state[i] != Runnable
      modifies this`sched, this`trace
      ensures Valid() && Recorded() && sched.at == Scan(i + 1, old(sched.at.found)) && sched.making == old(sched.making)
      ensures old(Tame()) ==> Tame()
    {
      hide Kernel.RecordedFor, Kernel.Accounted, Inv, Run, Held, Initial, HalfMade, Dispatched, BackFrom, FreeSlot,
        Slots, Work;
      Advance(Look);
    }

    /** The loop that looks for processes that are neither unused nor zombie. */
    method AnyActive() returns (active: bool)
      requires Sized()
      ensures active <==> Active(state[..])
    {
      active := false;
      for i := 0 to NPROC
        invariant !active && forall j :: 0 <= j < i ==> state[j] == Unused || state[j] == Zombie
      {
        if state[i] != Unused && state[i] != Zombie {
          assert state[..][i] == state[i];
          return true;
        }
      }
    }

    lemma NothingHalfMade(i: nat)
      requires Valid() && i < NPROC
      ensures sched.making == map[] ==> !HalfMade(sched.making, i) && pending[i].None? && sched.making - {i} == map[]
    {
      hide Inv, Run, Initial;
      PendingIs(pending[..], sched.making, i);
    }

    /** `scheduler`: it ends. Either it returns, with every slot unused or zombie and every process having
        had exactly the turns of its program; or an interrupted creation has brought it down, which
        does not happen if no creation is under way and none can be interrupted. The `wfi` branch is not
        reached. */
    method RunScheduler() returns (broken: bool)
      requires Valid() && Recorded() && sched.at == Scan(0, false) && NPROC !in sched.making
      modifies this`current, this`sie, this`sched, this`trace, this`given, this`turns
      modifies state, prog, pid, stack, name, context, pending, inTrap
      modifies pages`mem, pages`freeList, pages`freeCount, pages`free, pages`owner, pages`serial, pages`trace
      ensures Valid() && Recorded() && (broken <==> Damaged(sched)) && (!broken <==> sched.at == Exited)
      ensures !broken ==> forall p :: 0 <= p < NPROC ==>
                            state[p] == Unused || (state[p] == Zombie && turns[p] == Turns(given[p]))
      ensures old(Tame()) ==> !broken
    {
      hide Kernel.Recorded, Kernel.Tame, Run, Slots, Work, OneRunning, WaitOk, LifeOk, MakingOk, Held, Dispatched,
        BackFrom, FreeSlot,
        HalfMade, Initial;
      while true
        invariant Valid() && Recorded() && sched.at == Scan(0, false) && NPROC !in sched.making
        invariant old(Tame()) ==> Tame()
        decreases UnusedSlots(), WorkLeft()
      {
        var found;
        found, broken := Pass();
        if broken {
          break;
        }
        if !found {
          NothingActive(sched);
          var active := AnyActive();
          assert !active;
        }
        EndPass();
        if !found {
          break;
        }
      }
    }

    /** What follows the inner loop, when nothing is active after a pass that found nothing. */
    ghost method EndPass()
      requires Valid() && Recorded() && sched.at.Scan? && sched.at.i == NPROC && (sched.at.found || !Active(sched.st))
      modifies this`sched, this`trace
      ensures Valid() && Recorded() && sched.at == (if old(sched.at.found) then Scan(0, false) else Exited)
      ensures sched.making == old(sched.making) && sched.st == old(sched.st)
      ensures old(Tame()) ==> Tame()
    {
      hide Kernel.RecordedFor, Kernel.Accounted, Inv, Run, Held, Initial, HalfMade, Dispatched, BackFrom, FreeSlot,
        Slots, Work, Active;
      Advance(EndOfPass);
    }
  }


  /** The machine's creation without an interruption. */
  ghost function Created(s: Sched, stackOk: bool): Sched
    requires Shape(s)
  {
    Apply(Apply(Apply(s, Choose), Claim(stackOk)), Fill)
  }

  lemma NothingToFill(s: Sched)
    requires Shape(s) && Hart(s) !in s.making
    ensures Apply(s, Fill) == s
  {
    hide FreeSlot, HalfMade;
  }

  lemma NothingToClaim(s: Sched, stackOk: bool)
    requires Shape(s) && Hart(s) !in s.making && FreeSlot(s.st, 0) == NPROC
    ensures Apply(s, Choose) == s && Created(s, stackOk) == s
  {
    hide FreeSlot, HalfMade;
  }

  /** The machine's rest of a creation. */
  ghost function Completed(s: Sched, claimed: bool, stackOk: bool): Sched
    requires Shape(s)
  {
    Apply(if claimed then s else Apply(s, Claim(stackOk)), Fill)
  }

  lemma NothingMore(s: Sched)
    requires Shape(s) && s.at.Clash?
    ensures Apply(s, Fill) == s
  {
    hide FreeSlot, HalfMade;
  }

  /** At most one unused slot has got a process, and its program is `p`. */
  ghost predicate Grown(st: seq<State>, st': seq<State>, pr: seq<Prog>, pr': seq<Prog>, p: Prog) {
    && |st| == |st'| == |pr| == |pr'|
    && forall q {:trigger pr'[q]} :: 0 <= q < |st| ==>
         (st'[q] == st[q] && pr'[q] == pr[q]) || (st[q] == Unused && st'[q] == Runnable && pr'[q] == p)
  }

  lemma NotGrown(st: seq<State>, pr: seq<Prog>, p: Prog)
    requires |st| == |pr|
    ensures Grown(st, st, pr, pr, p)
  {
  }

  lemma GrownByOne(st: seq<State>, pr: seq<Prog>, i: nat, p: Prog)
    requires |st| == |pr| && i < |st| && st[i] == Unused
    ensures Grown(st, st[i := Runnable], pr, pr[i := p], p)
  {
  }

  lemma InUse(s: Sched, i: nat)
    requires Inv(s) && s.at == InProcess(i)
    ensures i < NPROC && s.st[i] == Running && s.current == Some(i)
  {
    hide WaitOk, LifeOk, PassOk, MakingOk;
  }

  lemma WholeMoves(st: seq<State>, pr: seq<Prog>, i: nat, x: State, p: Prog)
    requires |st| == |pr| && i < |st|
    ensures WholeTable(st, pr) && Whole(p) ==> WholeTable(st[i := x], pr[i := p])
  {
  }

  lemma WholeStays(st: seq<State>, pr: seq<Prog>, i: nat, x: State)
    requires |st| == |pr| && i < |st| && st[i] != Unused
    ensures WholeTable(st, pr) ==> WholeTable(st[i := x], pr) && Whole(pr[i])
  {
  }

  lemma WholeParts(p: Prog)
    ensures Whole(p) && p.Turn? ==> !p.end.Torn? && Whole(p.rest)
  {
  }

  /** A slot in use moves on. */
  lemma Stirs(st: seq<State>, i: nat, x: State)
    requires i < |st| && st[i] != Unused && x != Unused
    ensures SameUnused(st, st[i := x])
  {
  }

  /** A pass that found nothing leaves nothing active. */
  lemma NothingActive(s: Sched)
    requires Inv(s) && s.at == Scan(NPROC, false)
    ensures !Active(s.st)
  {
    hide WaitOk, LifeOk, MakingOk;
  }

}

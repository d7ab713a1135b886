/**
 What the slots of the process table record: the programs of their processes, stacks, numbers, names
 and start contexts, and the measure by which the scheduler ends. Stacks come from the page
 allocator of PageHeap.
 */
module ProcessRecords {
  import opened Basics
  import opened Scheduler
  import PA = PageAllocator
  import PageHeap
  import Paging

  /** What a process does: at each turn it creates `children`; then it gives up the CPU or, in its last
      turn, its entry function returns. */
  datatype Prog = Last(children: seq<Child>) | Turn(children: seq<Child>, end: End, rest: Prog)
  datatype Child = Child(prog: Prog, name: Option<seq<byte>>)

  /** It gives up the CPU by `yield`, or by a timer trap between its creations or inside one. With SIE
      clear there is no trap, and it goes on to its next `yield`. */
  datatype End = Yields | Preempted | Torn(child: Child, cut: Cut)

  /** Where a trap falls in a creation: after the search and before the stack is allocated, or after the
      slot became runnable and before its context is written. */
  datatype Cut = BeforeStack | BeforeContext

  /** A creation that is under way, as its creator's local variables tell. */
  datatype Pending = Pending(slot: nat, child: Child, claimed: bool)

  function Turns(p: Prog): (n: nat)
    ensures n >= 1
  {
    match p
    case Last(_) => 1
    case Turn(_, _, rest) => 1 + Turns(rest)
  }

  // ---------- the termination measure ----------

  /** Unused slots among the first `k`. */
  function Slots(st: seq<State>, k: nat): nat
    requires k <= |st|
  {
    if k == 0 then 0 else Slots(st, k - 1) + (if st[k - 1] == Unused then 1 else 0)
  }

  /** Turns still to come of the runnable slots among the first `k`. */
  function Work(st: seq<State>, pr: seq<Prog>, k: nat): nat
    requires k <= |st| == |pr|
  {
    if k == 0 then 0 else Work(st, pr, k - 1) + (if st[k - 1] == Runnable then Turns(pr[k - 1]) else 0)
  }

  function UnusedBit(x: State): nat { if x == Unused then 1 else 0 }
  function Share(x: State, p: Prog): nat { if x == Runnable then Turns(p) else 0 }

  /** Changing slot `i` changes both measures by the change of that slot. */
  lemma {:induction false} OneSlot(st: seq<State>, pr: seq<Prog>, i: nat, x: State, p: Prog, k: nat)
    requires k <= |st| == |pr| && i < |st|
    ensures Slots(st[i := x], k) == Slots(st, k) + (if i < k then UnusedBit(x) as int - UnusedBit(st[i]) else 0)
    ensures Work(st[i := x], pr[i := p], k) ==
            Work(st, pr, k) + (if i < k then Share(x, p) as int - Share(st[i], pr[i]) else 0)
  {
    if k > 0 {
      OneSlot(st, pr, i, x, p, k - 1);
    }
  }

  /** No creation of the program, nor of the programs it creates, is interrupted. */
  predicate Whole(p: Prog) {
    && (forall k :: 0 <= k < |p.children| ==> Whole(p.children[k].prog))
    && match p
       case Last(_) => true
       case Turn(_, end, rest) => !end.Torn? && Whole(rest)
  }

  // ---------- stacks, names, contexts ----------

  const STACK_SIZE: nat := 4096
  const NAME_SIZE: nat := 16

  /** Every slot in use has a stack page of its own. */
  ghost predicate StacksOwned(st: seq<State>, stacks: seq<nat>, owner: map<nat, nat>) {
    && |st| == NPROC == |stacks|
    && (forall p {:trigger stacks[p]} :: 0 <= p < NPROC && st[p] != Unused ==>
          PageHeap.AddrOf(PageHeap.PageOf(stacks[p])) == stacks[p] && PageHeap.PageOf(stacks[p]) in owner)
    && (forall p, q {:trigger stacks[p], stacks[q]} :: 0 <= p < q < NPROC && st[p] != Unused && st[q] != Unused ==>
          PageHeap.PageOf(stacks[p]) != PageHeap.PageOf(stacks[q]))
  }

  ghost predicate SameUnused(st: seq<State>, st': seq<State>) {
    |st| == |st'| && forall p {:trigger st'[p]} :: 0 <= p < |st| ==> (st'[p] == Unused <==> st[p] == Unused)
  }

  lemma StacksCarry(st: seq<State>, st': seq<State>, stacks: seq<nat>, owner: map<nat, nat>)
    requires StacksOwned(st, stacks, owner) && SameUnused(st, st')
    ensures StacksOwned(st', stacks, owner)
  {
    hide PageHeap.PageOf, PageHeap.AddrOf;
  }

  /** The fields of the process table other than the states. */
  datatype Fields = Fields(pids: seq<nat>, stacks: seq<nat>, names: seq<seq<byte>>, contexts: seq<seq<nat>>)

  /** A slot in use has its number, a stack of its own, and the context in which its process starts; the
      context of an unused slot, or of one whose creation is not complete, is still zero. */
  ghost predicate Records(st: seq<State>, making: map<nat, Making>, forkret: nat, f: Fields, owner: map<nat, nat>) {
    && |st| == |f.pids| == |f.names| == |f.contexts| == NPROC && StacksOwned(st, f.stacks, owner)
    && (forall p {:trigger f.pids[p]} :: 0 <= p < NPROC && st[p] != Unused ==> f.pids[p] == p + 1)
    && (forall p {:trigger f.names[p]} :: 0 <= p < NPROC ==> |f.names[p]| == NAME_SIZE)
    && (forall p {:trigger f.contexts[p]} :: 0 <= p < NPROC ==>
          f.contexts[p] == if st[p] == Unused || HalfMade(making, p) then ZeroContext()
                           else EntryContext(forkret, f.stacks[p]))
  }

  lemma RecordsCarry(st: seq<State>, st': seq<State>, making: map<nat, Making>, making': map<nat, Making>,
                     forkret: nat, f: Fields, owner: map<nat, nat>)
    requires Records(st, making, forkret, f, owner) && SameUnused(st, st') && SameHalfMade(making, making')
    ensures Records(st', making', forkret, f, owner)
  {
    hide StacksOwned, HalfMade;
    StacksCarry(st, st', f.stacks, owner);
  }

  /** A page that no one owned becomes the stack of a new process. */
  lemma NewStack(st: seq<State>, stacks: seq<nat>, owner: map<nat, nat>, owner': map<nat, nat>, i: nat, page: nat)
    requires StacksOwned(st, stacks, owner) && i < NPROC && page !in owner && page in owner'
             && owner.Keys <= owner'.Keys
    requires PageHeap.PageOf(PageHeap.AddrOf(page)) == page && st[i] == Unused
    ensures StacksOwned(st[i := Runnable], stacks[i := PageHeap.AddrOf(page)], owner')
  {
    hide PageHeap.PageOf, PageHeap.AddrOf;
    var stacks' := stacks[i := PageHeap.AddrOf(page)];
    forall p | 0 <= p < NPROC && p != i && st[p] != Unused ensures PageHeap.PageOf(stacks[p]) != page {
      assert PageHeap.PageOf(stacks[p]) in owner;
    }
  }

  /** The fields of a slot taken by a creation, up to its context. */
  function Entered(f: Fields, i: nat, stack: nat, name: seq<byte>): Fields
    requires i < |f.pids| && i < |f.stacks| && i < |f.names|
  {
    f.(pids := f.pids[i := i + 1], stacks := f.stacks[i := stack], names := f.names[i := name])
  }

  lemma NewRecord(st: seq<State>, making: map<nat, Making>, making': map<nat, Making>, forkret: nat, f: Fields,
                  owner: map<nat, nat>, owner': map<nat, nat>, i: nat, page: nat, name: seq<byte>)
    requires Records(st, making, forkret, f, owner) && |name| == NAME_SIZE
    requires i < NPROC && page !in owner && page in owner' && owner.Keys <= owner'.Keys && st[i] == Unused
    requires OneMore(making, making', i)
    ensures i < |f.pids| && i < |f.stacks| && i < |f.names|
    ensures Records(st[i := Runnable], making', forkret, Entered(f, i, PageHeap.AddrOf(page), name), owner')
  {
    hide StacksOwned, HalfMade;
    PageHeap.PageAddress(page, 0);
    assert |f.stacks| == NPROC by { Lengths(st, making, forkret, f, owner); }
    NewStack(st, f.stacks, owner, owner', i, page);
  }

  lemma Lengths(st: seq<State>, making: map<nat, Making>, forkret: nat, f: Fields, owner: map<nat, nat>)
    requires Records(st, making, forkret, f, owner)
    ensures |st| == |f.pids| == |f.stacks| == |f.names| == |f.contexts| == NPROC
    ensures forall p {:trigger f.names[p]} :: 0 <= p < NPROC ==> |f.names[p]| == NAME_SIZE
  {
  }

  /** The context of slot `i` is written. */
  lemma FilledRecord(st: seq<State>, making: map<nat, Making>, making': map<nat, Making>, forkret: nat, f: Fields,
                     owner: map<nat, nat>, i: nat)
    requires Records(st, making, forkret, f, owner) && i < NPROC && |st| == |f.stacks| == NPROC && st[i] != Unused
    requires |f.contexts| == NPROC
    requires OneLess(making, making', i)
    ensures Records(st, making', forkret, f.(contexts := f.contexts[i := EntryContext(forkret, f.stacks[i])]), owner)
  {
    hide StacksOwned, HalfMade;
  }

  /** More pages in use do not matter. */
  lemma MoreOwned(st: seq<State>, making: map<nat, Making>, forkret: nat, f: Fields, owner: map<nat, nat>,
                  owner': map<nat, nat>)
    requires Records(st, making, forkret, f, owner) && owner.Keys <= owner'.Keys
    ensures Records(st, making, forkret, f, owner')
  {
    hide HalfMade;
  }

  /** Address 0 is what `swtch` finds as return address exactly while a creation is not complete. */
  lemma ZeroReturnAddress(st: seq<State>, making: map<nat, Making>, forkret: nat, f: Fields, owner: map<nat, nat>,
                          p: nat)
    requires Records(st, making, forkret, f, owner) && p < NPROC && |st| == NPROC == |f.contexts| && st[p] != Unused
    requires forkret != 0
    ensures |f.contexts[p]| == 14 && (f.contexts[p][0] == 0 <==> HalfMade(making, p))
  {
    hide StacksOwned, HalfMade;
    Lengths(st, making, forkret, f, owner);
    assert f.contexts[p] == if HalfMade(making, p) then ZeroContext() else EntryContext(forkret, f.stacks[p]);
  }

  /** In the table that `proc_init` leaves no slot is in use. */
  lemma NoRecords(st: seq<State>, forkret: nat, f: Fields, owner: map<nat, nat>)
    requires |st| == |f.pids| == |f.stacks| == |f.names| == |f.contexts| == NPROC
    requires forall p :: 0 <= p < NPROC ==>
               st[p] == Unused && |f.names[p]| == NAME_SIZE && f.contexts[p] == ZeroContext()
    ensures Records(st, map[], forkret, f, owner)
  {
  }

  /** The stacks of different processes do not overlap. */
  lemma StacksApart(st: seq<State>, stacks: seq<nat>, owner: map<nat, nat>, p: nat, q: nat)
    requires StacksOwned(st, stacks, owner) && p < NPROC && q < NPROC && p != q && st[p] != Unused && st[q] != Unused
    ensures stacks[p] + STACK_SIZE <= stacks[q] || stacks[q] + STACK_SIZE <= stacks[p]
  {
    var a, b := PageHeap.PageOf(stacks[p]), PageHeap.PageOf(stacks[q]);
    assert a != b;
    assert stacks[p] == a * STACK_SIZE && stacks[q] == b * STACK_SIZE;
  }

  /** What a one-page request does to the pages in use. */
  lemma TakenPageOwned(h: PA.Heap)
    requires PA.Partitioned(h) && h.free != []
    ensures h.free[0] !in h.owner && h.free[0] in PA.Apply(h, PA.Alloc(STACK_SIZE)).owner
    ensures h.owner.Keys <= PA.Apply(h, PA.Alloc(STACK_SIZE)).owner.Keys
  {
    hide PA.RunFree, PA.Without, PA.FirstRun;
    Paging.OnePage(h.free);
    PageHeap.SinglePage(h.free);
    PA.AllocTakesOnlyFree(h, STACK_SIZE);
    assert h.free[0] in h.free;
  }

  /** How many characters of a name are copied: up to its NUL, and at most 15. */
  function NameLen(name: seq<byte>, i: nat): (n: nat)
    requires i <= |name| && i < NAME_SIZE
    ensures i <= n <= |name| && n < NAME_SIZE
    ensures forall j :: i <= j < n ==> name[j] != 0
    ensures n < |name| && n < NAME_SIZE - 1 ==> name[n] == 0
    decreases NAME_SIZE - i
  {
    if i == |name| || name[i] == 0 || i == NAME_SIZE - 1 then i else NameLen(name, i + 1)
  }

  /** The copy loop from character `i` on, and the NUL behind it. */
  function CopyFrom(field: seq<byte>, name: seq<byte>, i: nat): (f: seq<byte>)
    requires |field| == NAME_SIZE && i <= |name| && i < NAME_SIZE
    ensures |f| == NAME_SIZE
    decreases NAME_SIZE - i
  {
    if i == |name| || name[i] == 0 || i == NAME_SIZE - 1 then field[i := 0]
    else CopyFrom(field[i := name[i]], name, i + 1)
  }

  /** A name field after `proc_create`; a NULL name leaves the empty string. */
  function NameField(field: seq<byte>, name: Option<seq<byte>>): (f: seq<byte>)
    requires |field| == NAME_SIZE
    ensures |f| == NAME_SIZE
  {
    if name.None? then field[0 := 0] else CopyFrom(field, name.value, 0)
  }

  /** The field holds the name's characters up to its NUL, at most 15, then a NUL, then what was there. */
  lemma {:induction false} CopyFromIs(field: seq<byte>, name: seq<byte>, i: nat, j: nat)
    requires |field| == NAME_SIZE && i <= |name| && i < NAME_SIZE && j < NAME_SIZE
    ensures var n := NameLen(name, i);
            CopyFrom(field, name, i)[j] == if i <= j < n then name[j] else if j == n then 0 else field[j]
    decreases NAME_SIZE - i
  {
    if !(i == |name| || name[i] == 0 || i == NAME_SIZE - 1) {
      CopyFromIs(field[i := name[i]], name, i + 1, j);
    }
  }

  /** The name field of a new process: the name's characters up to its first NUL, at most 15 of them,
      then a NUL, then what was there; without a name, a NUL at the start. */
  lemma NameFieldIs(field: seq<byte>, name: Option<seq<byte>>) returns (n: nat)
    requires |field| == 16
    ensures n <= 15 && (name.None? ==> n == 0)
    ensures name.Some? ==>
              var s := name.value;
              n <= |s| && (forall j :: 0 <= j < n ==> s[j] != 0) && (n == |s| || n == 15 || s[n] == 0)
    ensures forall j {:trigger NameField(field, name)[j]} :: 0 <= j < 16 ==>
              NameField(field, name)[j] ==
              if j < n && name.Some? then name.value[j] else if j == n then 0 else field[j]
  {
    hide CopyFrom;
    if name.None? {
      n := 0;
    } else {
      n := NameLen(name.value, 0);
      forall j | 0 <= j < 16
        ensures NameField(field, name)[j] == if j < n then name.value[j] else if j == n then 0 else field[j]
      {
        CopyFromIs(field, name.value, 0, j);
      }
    }
  }

  function NoName(): (f: seq<byte>)
    ensures |f| == NAME_SIZE && f[0] == 0
  {
    seq(NAME_SIZE, _ => 0)
  }

  function ZeroContext(): (c: seq<nat>)
    ensures |c| == 14
  {
    seq(14, _ => 0)
  }

  /** The context of a new process: the entry wrapper, the top of the stack, and zeros. */
  function EntryContext(forkret: nat, stack: nat): (c: seq<nat>)
    ensures |c| == 14
  {
    [forkret, stack + STACK_SIZE] + seq(12, _ => 0)
  }

  /** The copy loop for a name. */
  method CopyName(before: seq<byte>, n: Option<seq<byte>>) returns (f: seq<byte>)
    requires |before| == NAME_SIZE
    ensures f == NameField(before, n)
  {
    f := before;
    var len := 0;
    if n.Some? {
      while len < |n.value| && n.value[len] != 0 && len < NAME_SIZE - 1
        invariant len <= |n.value| && len < NAME_SIZE && |f| == NAME_SIZE
        invariant CopyFrom(f, n.value, len) == CopyFrom(before, n.value, 0)
      {
        f := f[len := n.value[len]];
        len := len + 1;
      }
    }
    f := f[len := 0];
  }
}

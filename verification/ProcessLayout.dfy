/**
 Where contexts and stacks lie in memory: the contexts in the process table and next to it, the
 stacks on pages of the allocator. What Preemption takes for granted of a layout holds of this one.
 */
module ProcessLayout {
  import opened Basics
  import opened Scheduler
  import opened ProcessRecords
  import opened ProcessTable
  import opened Preemption
  import PA = PageAllocator
  import PageHeap
  import ContextSwitch

  const PROCESS_SIZE: nat := 152     // struct process
  const CONTEXT_OFFSET: nat := 16    // its context, behind pid, state and stack

  /** Addresses outside the heap: the process table, the scheduler's context and its stack; and the
      compiler's frame for the trap handler with the return address of its call. */
  datatype Image = Image(procs: nat, schedContext: nat, bootStack: nat, bootSize: nat, frame: nat, ret: nat)

  ghost predicate ImageOk(im: Image, heapStart: nat, heapEnd: nat) {
    var table := NPROC * PROCESS_SIZE;
    && im.frame >= ContextSwitch.SAVED_AREA
    && im.procs + table <= WORD_MOD && im.schedContext + ContextSwitch.CONTEXT_SIZE <= WORD_MOD
    && im.bootStack + im.bootSize < WORD_MOD && heapEnd < WORD_MOD
    && Preemption.Apart(im.procs, table, im.schedContext, ContextSwitch.CONTEXT_SIZE)
    && Preemption.Apart(im.procs, table, im.bootStack, im.bootSize)
    && Preemption.Apart(im.schedContext, ContextSwitch.CONTEXT_SIZE, im.bootStack, im.bootSize)
    && OutsideHeap(im.procs, table, heapStart, heapEnd)
    && OutsideHeap(im.schedContext, ContextSwitch.CONTEXT_SIZE, heapStart, heapEnd)
    && OutsideHeap(im.bootStack, im.bootSize, heapStart, heapEnd)
  }

  predicate OutsideHeap(a: nat, size: nat, heapStart: nat, heapEnd: nat) {
    a + size <= heapStart || heapEnd <= a
  }

  function ContextAt(im: Image, p: nat): nat {
    if p < NPROC then im.procs + p * PROCESS_SIZE + CONTEXT_OFFSET else im.schedContext
  }

  /** The layout of a table: slots without a process have no stack yet. */
  ghost function LayoutOf(im: Image, st: seq<State>, stacks: seq<nat>, forkret: nat): (l: Layout)
    requires |st| == NPROC == |stacks|
    ensures |l.ctx| == |l.stack| == |l.size| == NPROC + 1
    ensures forall p: nat :: p <= NPROC ==> l.ctx[p] == ContextAt(im, p)
    ensures forall p: nat :: p < NPROC ==> l.stack[p] == (if st[p] == Unused then 0 else stacks[p])
    ensures forall p: nat :: p < NPROC ==> l.size[p] == (if st[p] == Unused then 0 else STACK_SIZE)
    ensures l.stack[NPROC] == im.bootStack && l.size[NPROC] == im.bootSize
    ensures l.frame == im.frame && l.ret == im.ret && l.start == forkret
  {
    Layout(seq(NPROC + 1, p requires 0 <= p => ContextAt(im, p)),
           seq(NPROC, p requires 0 <= p < NPROC => if st[p] == Unused then 0 else stacks[p]) + [im.bootStack],
           seq(NPROC, p requires 0 <= p < NPROC => if st[p] == Unused then 0 else STACK_SIZE) + [im.bootSize],
           im.frame, im.ret, forkret)
  }

  /** The stack of a slot in use is a page of the heap. */
  lemma StackInHeap(st: seq<State>, stacks: seq<nat>, h: PA.Heap, heapStart: nat, heapEnd: nat, p: nat)
    requires StacksOwned(st, stacks, h.owner) && PA.Partitioned(h) && p < NPROC && st[p] != Unused
    requires h.lo == PageHeap.PageOf(heapStart) && h.hi == PageHeap.PageOf(heapEnd)
    requires heapStart % PA.PAGE_SIZE == 0 == heapEnd % PA.PAGE_SIZE
    ensures heapStart <= stacks[p] && stacks[p] + STACK_SIZE <= heapEnd
  {
    var page := PageHeap.PageOf(stacks[p]);
    assert stacks[p] == PageHeap.AddrOf(page) && page in h.owner;
    PageHeap.PageAddress(0, heapStart);
    PageHeap.PageAddress(0, heapEnd);
    assert h.lo <= page < h.hi;
  }

  lemma ContextsInTable(im: Image, p: nat, q: nat)
    requires p < q <= NPROC && Preemption.Apart(im.procs, NPROC * PROCESS_SIZE, im.schedContext,
             ContextSwitch.CONTEXT_SIZE)
    ensures Preemption.Apart(ContextAt(im, p), ContextSwitch.CONTEXT_SIZE, ContextAt(im, q), ContextSwitch.CONTEXT_SIZE)
  {
  }

  /** A region of the heap is apart from every context. */
  lemma ContextOffHeap(im: Image, heapStart: nat, heapEnd: nat, p: nat, a: nat, size: nat)
    requires ImageOk(im, heapStart, heapEnd) && p <= NPROC && heapStart <= a && a + size <= heapEnd
    ensures Preemption.Apart(ContextAt(im, p), ContextSwitch.CONTEXT_SIZE, a, size)
  {
  }

  lemma ContextOffBootStack(im: Image, heapStart: nat, heapEnd: nat, p: nat)
    requires ImageOk(im, heapStart, heapEnd) && p <= NPROC
    ensures Preemption.Apart(ContextAt(im, p), ContextSwitch.CONTEXT_SIZE, im.bootStack, im.bootSize)
    ensures ContextAt(im, p) + ContextSwitch.CONTEXT_SIZE <= WORD_MOD
  {
  }

  /** The stacks that `proc_create` takes from the allocator and the contexts in the table satisfy what
      preemption needs: no two contexts, no two stacks, and no context and stack overlap. */
  lemma LayoutHolds(im: Image, st: seq<State>, stacks: seq<nat>, forkret: nat, h: PA.Heap, heapStart: nat, heapEnd: nat)
    requires StacksOwned(st, stacks, h.owner) && PA.Partitioned(h) && ImageOk(im, heapStart, heapEnd)
    requires h.lo == PageHeap.PageOf(heapStart) && h.hi == PageHeap.PageOf(heapEnd)
    requires heapStart % PA.PAGE_SIZE == 0 == heapEnd % PA.PAGE_SIZE
    ensures LayoutOk(LayoutOf(im, st, stacks, forkret))
  {
    hide StacksOwned, PA.Partitioned, ImageOk, ContextAt, LayoutOf, PageHeap.PageOf;
    assert |st| == NPROC == |stacks|
           && ImageNumbers(im, heapEnd) by { Numbers(im, st, stacks, h.owner, heapStart, heapEnd); }
    var l := LayoutOf(im, st, stacks, forkret);
    forall p: nat | p <= NPROC
      ensures l.ctx[p] + ContextSwitch.CONTEXT_SIZE <= WORD_MOD && l.stack[p] + l.size[p] < WORD_MOD
    {
      ContextOffBootStack(im, heapStart, heapEnd, p);
      if p < NPROC && st[p] != Unused { StackInHeap(st, stacks, h, heapStart, heapEnd, p); }
    }
    forall p: nat, q: nat | p < q <= NPROC
      ensures Preemption.Apart(l.ctx[p], ContextSwitch.CONTEXT_SIZE, l.ctx[q], ContextSwitch.CONTEXT_SIZE)
      ensures Preemption.Apart(l.stack[p], l.size[p], l.stack[q], l.size[q])
    {
      TableApart(im, heapStart, heapEnd);
      ContextsInTable(im, p, q);
      if st[p] != Unused {
        StackInHeap(st, stacks, h, heapStart, heapEnd, p);
        if q < NPROC && st[q] != Unused { StacksApart(st, stacks, h.owner, p, q); }
      }
    }
    forall p: nat, q: nat | p <= NPROC && q <= NPROC
      ensures Preemption.Apart(l.ctx[p], ContextSwitch.CONTEXT_SIZE, l.stack[q], l.size[q])
    {
      ContextOffBootStack(im, heapStart, heapEnd, p);
      if q < NPROC && st[q] != Unused {
        StackInHeap(st, stacks, h, heapStart, heapEnd, q);
        ContextOffHeap(im, heapStart, heapEnd, p, stacks[q], STACK_SIZE);
      }
    }
  }

  ghost predicate ImageNumbers(im: Image, heapEnd: nat) {
    im.frame >= ContextSwitch.SAVED_AREA && im.bootStack + im.bootSize < WORD_MOD && heapEnd < WORD_MOD
  }

  lemma Numbers(im: Image, st: seq<State>, stacks: seq<nat>, owner: map<nat, nat>, heapStart: nat, heapEnd: nat)
    requires StacksOwned(st, stacks, owner) && ImageOk(im, heapStart, heapEnd)
    ensures |st| == NPROC == |stacks| && ImageNumbers(im, heapEnd)
  {
  }

  lemma TableApart(im: Image, heapStart: nat, heapEnd: nat)
    requires ImageOk(im, heapStart, heapEnd)
    ensures Preemption.Apart(im.procs, NPROC * PROCESS_SIZE, im.schedContext, ContextSwitch.CONTEXT_SIZE)
    ensures OutsideHeap(im.bootStack, im.bootSize, heapStart, heapEnd)
  {
  }

  /** ... in every state of the table that the code brings about; and a slot in use whose creation is
      complete has the context with which Preemption starts a process. */
  lemma TableLayout(k: Kernel, im: Image)
    requires k.Valid() && k.Recorded() && ImageOk(im, k.pages.heapStart, k.pages.heapEnd)
    ensures k.state.Length == k.stack.Length == k.context.Length == NPROC
    ensures var l := LayoutOf(im, k.state[..], k.stack[..], k.forkret);
            && LayoutOk(l)
            && (forall p: nat :: p < NPROC && k.state[p] != Unused ==>
                  k.context[p] == if HalfMade(k.sched.making, p) then Zeros() else NewContext(l, p))
  {
    hide StacksOwned, PA.Run, PA.Fresh, PageHeap.Chain, PageHeap.HeapPages, ImageOk, LayoutOk, LayoutOf, HalfMade;
    k.Lens();
    k.Columned();
    PageHeap.EveryAllocator(k.pages, 0);
    LayoutHolds(im, k.state[..], k.stack[..], k.forkret, k.pages.State(), k.pages.heapStart, k.pages.heapEnd);
    var l := LayoutOf(im, k.state[..], k.stack[..], k.forkret);
    forall p: nat | p < NPROC && k.state[p] != Unused
      ensures k.context[p] == if HalfMade(k.sched.making, p) then Zeros() else NewContext(l, p)
    {
      assert k.context[p] == k.context[..][p];
      assert NewContext(l, p) == EntryContext(k.forkret, k.stack[p]);
      assert ZeroContext() == Zeros();
    }
  }
}

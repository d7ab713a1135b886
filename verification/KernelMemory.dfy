/**
 Everything that draws on the page allocator at once: clients that allocate, free and write pages,
 and `map_page` that takes tables. A run is any interleaving of these. Clients free and write only
 pages they own; what the allocator does to the links inside free pages is left open.
 */
module KernelMemory {
  import opened Basics
  import opened PageAllocator
  import opened PageHeap
  import opened Sv39
  import opened PageTable
  import opened KernelSpace
  import Paging

  datatype State = State(mem: Memory, tree: Tree, heap: Heap)

  ghost function SpaceOf(s: State): Space {
    Space(s.mem, s.tree, s.heap.free)
  }

  datatype Step =
    | ClientAlloc(size: nat, mem: Memory)
    | ClientFree(page: nat, mem: Memory)
    | ClientWrite(page: nat, words: seq<nat>)
    | Map(m: Mapping)

  /** A page that a client got from the allocator: in use, but not as a table. */
  ghost predicate Client(s: State, p: nat) {
    p in s.heap.owner && !InTree(s.tree, p)
  }

  /** Only pages of a list have changed, and all pages are still there. */
  ghost predicate OnlyIn(mem: Memory, mem': Memory, ps: seq<nat>) {
    && PagesKept(mem, mem')
    && (forall p: nat {:trigger mem'[p]} {:trigger p in mem'} :: p in mem && p !in ps ==>
          p in mem' && mem'[p] == mem[p])
  }

  /** All pages of the heap exist and can be tables. */
  ghost predicate HeapInMemory(s: State) {
    forall p: nat {:trigger IsPage(s.mem, p)} :: s.heap.lo <= p < s.heap.hi ==> IsPage(s.mem, p) && p < PPN_LIMIT
  }

  ghost predicate Inv(s: State) {
    SpaceOk(SpaceOf(s)) && Partitioned(s.heap) && HeapInMemory(s)
  }

  /** Can `map_page` carry out this mapping? */
  ghost predicate Mappable(s: State, m: Mapping)
    requires SpaceOk(SpaceOf(s))
  {
    CanMap(SpaceOf(s), m.va)
  }

  ghost function AfterMap(s: State, m: Mapping): State
    requires SpaceOk(SpaceOf(s)) && Mappable(s, m)
  {
    var sp := MapPage(SpaceOf(s), m.va, m.pa, m.flags);
    State(sp.mem, sp.tree, PageAllocator.Run(s.heap, TableRequests(Missing(s.tree, m.va))))
  }

  /** A step that is not enabled changes nothing. */
  ghost function Apply(s: State, step: Step): State
    requires Inv(s)
  {
    match step
    case ClientAlloc(size, mem) =>
      if OnlyIn(s.mem, mem, s.heap.free) then s.(mem := mem, heap := PageAllocator.Apply(s.heap, Alloc(size))) else s
    case ClientFree(p, mem) =>
      if Client(s, p) && OnlyIn(s.mem, mem, [p] + s.heap.free) then
        s.(mem := mem, heap := PageAllocator.Apply(s.heap, Free(p)))
      else s
    case ClientWrite(p, words) =>
      if Client(s, p) && |words| == WORDS then s.(mem := s.mem[p := words]) else s
    case Map(m) =>
      if Mappable(s, m) then AfterMap(s, m) else s
  }

  ghost function Run(s: State, steps: seq<Step>): (r: State)
    requires Inv(s)
    ensures Inv(r)
    decreases |steps|
  {
    if steps == [] then s
    else
      StepKeepsInv(s, steps[0]);
      Run(Apply(s, steps[0]), steps[1..])
  }

  /** The mappings that a run carries out, in order. */
  ghost function Mapped(s: State, steps: seq<Step>): (ms: seq<Mapping>)
    requires Inv(s)
    decreases |steps|
  {
    if steps == [] then []
    else
      StepKeepsInv(s, steps[0]);
      var rest := Mapped(Apply(s, steps[0]), steps[1..]);
      if steps[0].Map? && Mappable(s, steps[0].m) then [steps[0].m] + rest else rest
  }

  // ---------- every step keeps the separation ----------

  /** Changes outside the tree leave the tree and its translations. */
  lemma OutsideTheTree(s: State, mem': Memory, ps: seq<nat>, x: nat)
    requires TreeOk(s.mem, s.tree) && OnlyIn(s.mem, mem', ps) && forall p: nat :: p in ps ==> !InTree(s.tree, p)
    ensures TreeOk(mem', s.tree) && Translate(mem', s.tree.root, x) == Translate(s.mem, s.tree.root, x)
  {
    hide InTree, Translate, PagesKept;
    forall p: nat | InTree(s.tree, p) ensures p in s.mem && p in mem' && mem'[p] == s.mem[p] {
      TreePageExists(s.mem, s.tree, p);
    }
    TreeFrame(s.mem, mem', s.tree, x);
  }

  lemma HeapStays(s: State, s': State)
    requires HeapInMemory(s) && PagesKept(s.mem, s'.mem) && s'.heap.lo == s.heap.lo && s'.heap.hi == s.heap.hi
    ensures HeapInMemory(s')
  {
    hide IsPage;
    forall p: nat | s'.heap.lo <= p < s'.heap.hi ensures IsPage(s'.mem, p) && p < PPN_LIMIT {
      assert IsPage(s.mem, p);
    }
  }

  lemma FreeInHeap(s: State)
    requires Inv(s)
    ensures forall p: nat :: p in s.heap.free ==> !InTree(s.tree, p) && s.heap.lo <= p < s.heap.hi
  {
    hide TreeOk, InTree;
  }

  /** A space whose free pages are heap pages outside the tree. */
  lemma SpaceFromHeap(s: State)
    requires TreeOk(s.mem, s.tree) && Partitioned(s.heap) && HeapInMemory(s)
    requires forall p: nat :: p in s.heap.free ==> !InTree(s.tree, p)
    ensures SpaceOk(SpaceOf(s))
  {
    hide TreeOk, InTree, IsPage;
    forall p: nat | p in s.heap.free ensures IsPage(s.mem, p) && p < PPN_LIMIT {
      assert s.heap.lo <= p < s.heap.hi;
    }
  }

  lemma AllocKeeps(s: State, size: nat, mem': Memory, x: nat)
    requires Inv(s)
    ensures var s' := Apply(s, ClientAlloc(size, mem'));
            Inv(s') && s'.tree == s.tree && Translate(s'.mem, s.tree.root, x) == Translate(s.mem, s.tree.root, x)
  {
    hide TreeOk, InTree, Translate, OnlyIn, RunFree, FirstRun, Block;
    var s' := Apply(s, ClientAlloc(size, mem'));
    if OnlyIn(s.mem, mem', s.heap.free) {
      FreeInHeap(s);
      OutsideTheTree(s, mem', s.heap.free, x);
      StepKeepsPartition(s.heap, Alloc(size));
      OnlyInKeeps(s.mem, mem', s.heap.free);
      HeapStays(s, s');
      SpaceFromHeap(s');
    }
  }

  lemma OnlyInKeeps(mem: Memory, mem': Memory, ps: seq<nat>)
    requires OnlyIn(mem, mem', ps)
    ensures PagesKept(mem, mem')
  {
  }

  lemma FreeKeeps(s: State, p: nat, mem': Memory, x: nat)
    requires Inv(s)
    ensures var s' := Apply(s, ClientFree(p, mem'));
            Inv(s') && s'.tree == s.tree && Translate(s'.mem, s.tree.root, x) == Translate(s.mem, s.tree.root, x)
  {
    hide TreeOk, InTree, Translate, OnlyIn;
    var s' := Apply(s, ClientFree(p, mem'));
    if Client(s, p) && OnlyIn(s.mem, mem', [p] + s.heap.free) {
      FreeInHeap(s);
      OutsideTheTree(s, mem', [p] + s.heap.free, x);
      StepKeepsPartition(s.heap, Free(p));
      OnlyInKeeps(s.mem, mem', [p] + s.heap.free);
      HeapStays(s, s');
      SpaceFromHeap(s');
    }
  }

  lemma WriteKeeps(s: State, p: nat, words: seq<nat>, x: nat)
    requires Inv(s)
    ensures var s' := Apply(s, ClientWrite(p, words));
            Inv(s') && s'.tree == s.tree && Translate(s'.mem, s.tree.root, x) == Translate(s.mem, s.tree.root, x)
  {
    hide TreeOk, InTree, Translate;
    var s' := Apply(s, ClientWrite(p, words));
    if Client(s, p) && |words| == WORDS {
      FreeInHeap(s);
      OutsideTheTree(s, s'.mem, [p], x);
      HeapStays(s, s');
      SpaceFromHeap(s');
    }
  }

  /** One-page requests take the list from the front. */
  lemma {:induction false} TablesFromFront(h: Heap, n: nat)
    requires Distinct(h.free) && n <= |h.free|
    ensures PageAllocator.Run(h, TableRequests(n)).free == h.free[n..]
  {
    hide PageAllocator.Run, PageAllocator.Apply, Distinct;
    if n == 0 {
      OneMoreTable(h, 0);
    } else {
      TablesFromFront(h, n - 1);
      OneMoreTable(h, n - 1);
      DistinctTail(h.free, n - 1);
      TakesFirst(PageAllocator.Run(h, TableRequests(n - 1)));
    }
  }

  lemma DistinctTail(s: seq<nat>, n: nat)
    requires Distinct(s) && n <= |s|
    ensures Distinct(s[n..])
  {
  }

  lemma TakesFirst(h: Heap)
    requires Distinct(h.free) && h.free != []
    ensures PageAllocator.Apply(h, Alloc(PAGE_SIZE)).free == h.free[1..]
  {
    hide RunFree, Without, FirstRun;
    Paging.OnePage(h.free);
    SinglePage(h.free);
  }

  /** `map_page` turns no page into something else. */
  lemma MapPageKeepsPages(sp: Space, va: nat, pa: nat, flags: nat)
    requires SpaceOk(sp) && CanMap(sp, va)
    ensures PagesKept(sp.mem, MapPage(sp, va, pa, flags).mem)
  {
    hide Px, TreeOk, Pointer, LeafPte, SetWord, Cleared;
    var sp1, sp2, sp3 := Opened2(sp, va), Opened(sp, va), MapPage(sp, va, pa, flags);
    Opened2KeepsPages(sp, va);
    OpenedKeepsPages(sp, va);
    LeafKeepsPages(sp2, Px(2, va), Px(1, va), Px(0, va), LeafPte(pa, flags));
    PagesKeptTwice(sp.mem, sp1.mem, sp2.mem);
    PagesKeptTwice(sp.mem, sp2.mem, sp3.mem);
  }

  lemma StoreKeepsPages(mem: Memory, p: nat, t: nat, i: nat, w: nat)
    requires IsPage(mem, p) && IsPage(mem, t) && i < WORDS
    ensures PagesKept(mem, SetWord(Cleared(mem, p), t, i, w)) && PagesKept(mem, SetWord(mem, t, i, w))
  {
  }

  lemma Opened2KeepsPages(sp: Space, va: nat)
    requires SpaceOk(sp) && CanMap(sp, va)
    ensures PagesKept(sp.mem, Opened2(sp, va).mem)
  {
    hide Px, Pointer, SetWord, Cleared, InTree;
    SamePages(sp.mem);
    if Px(2, va) !in sp.tree.t1 {
      FreshPage(sp);
      StoreKeepsPages(sp.mem, sp.free[0], sp.tree.root, Px(2, va), Pointer(sp.free[0]));
    }
  }

  lemma OpenedKeepsPages(sp: Space, va: nat)
    requires SpaceOk(sp) && CanMap(sp, va)
    ensures PagesKept(Opened2(sp, va).mem, Opened(sp, va).mem)
  {
    hide Px, Pointer, SetWord, Cleared, InTree, Opened2, OnePath;
    var sp1 := Opened2(sp, va);
    SamePages(sp1.mem);
    var i, j := Px(2, va), Px(1, va);
    if (i, j) !in sp1.tree.t0 {
      FreshPage(sp1);
      assert Middle(sp1.mem, sp1.tree, i);
      StoreKeepsPages(sp1.mem, sp1.free[0], sp1.tree.t1[i], j, Pointer(sp1.free[0]));
    }
  }

  lemma LeafKeepsPages(sp: Space, i: nat, j: nat, k: nat, pte: nat)
    requires SpaceOk(sp) && (i, j) in sp.tree.t0 && k < WORDS
    ensures PagesKept(sp.mem, SetLeaf(sp, i, j, k, pte).mem)
  {
    hide SetWord, Cleared, InTree;
    StoreKeepsPages(sp.mem, sp.tree.t0[(i, j)], sp.tree.t0[(i, j)], k, pte);
  }

  lemma MapKeeps(s: State, m: Mapping)
    requires Inv(s)
    ensures Inv(Apply(s, Map(m))) && Apply(s, Map(m)).tree.root == s.tree.root
  {
    hide TreeOk, InTree, MapPage, CanMap, Missing, PagesKept, Spares, PageAllocator.Run;
    if Mappable(s, m) {
      var s' := AfterMap(s, m);
      EnoughFor(SpaceOf(s), m.va);
      MapPageFrame(SpaceOf(s), m.va, m.pa, m.flags);
      MapPageKeepsPages(SpaceOf(s), m.va, m.pa, m.flags);
      TablesFromFront(s.heap, Missing(s.tree, m.va));
      RunKeepsPartition(s.heap, TableRequests(Missing(s.tree, m.va)));
      HeapStays(s, s');
    }
  }

  lemma StepKeepsInv(s: State, step: Step)
    requires Inv(s)
    ensures Inv(Apply(s, step)) && Apply(s, step).tree.root == s.tree.root
  {
    hide Inv;
    match step
    case ClientAlloc(size, mem) => AllocKeeps(s, size, mem, 0);
    case ClientFree(p, mem) => FreeKeeps(s, p, mem, 0);
    case ClientWrite(p, words) => WriteKeeps(s, p, words, 0);
    case Map(m) => MapKeeps(s, m);
  }

  // ---------- what holds in every run ----------

  /** What one step does to the translation of one address. */
  lemma StepTranslates(s: State, step: Step, x: nat)
    requires Inv(s) && Canonical(x)
    ensures var t, t' := Translate(s.mem, s.tree.root, x), Translate(Apply(s, step).mem, s.tree.root, x);
            t' == if step.Map? && Mappable(s, step.m) then Effect([step.m], x, t) else t
  {
    hide Inv, SpaceOk, Translate, Canonical, Vpn, LegalLeaf, LeafPage, MapPage, CanMap, Missing;
    match step
    case ClientAlloc(size, mem) => AllocKeeps(s, size, mem, x);
    case ClientFree(p, mem) => FreeKeeps(s, p, mem, x);
    case ClientWrite(p, words) => WriteKeeps(s, p, words, x);
    case Map(m) =>
      InvSpace(s);
      if Mappable(s, m) {
        MapPageRefines(SpaceOf(s), m.va, m.pa, m.flags, x);
        assert [m][1..] == [];
      }
  }

  lemma InvSpace(s: State)
    requires Inv(s)
    ensures SpaceOk(SpaceOf(s))
  {
    hide SpaceOk;
  }

  lemma EffectCons(m: Mapping, ms: seq<Mapping>, x: nat, t: Option<nat>)
    ensures Effect([m] + ms, x, t) == Effect(ms, x, Effect([m], x, t))
  {
    hide Vpn, LegalLeaf, LeafPage;
    assert ([m] + ms)[1..] == ms && [m][1..] == [];
  }

  /** Whatever clients allocate, free and write in between, the translation after a run is the one
      before it with the run's mappings applied in order. */
  lemma {:induction false} OnlyMapsTranslate(s: State, steps: seq<Step>, x: nat)
    requires Inv(s) && Canonical(x)
    ensures Run(s, steps).tree.root == s.tree.root
    ensures Translate(Run(s, steps).mem, s.tree.root, x) ==
            Effect(Mapped(s, steps), x, Translate(s.mem, s.tree.root, x))
    decreases |steps|
  {
    hide Inv, Apply, Translate, Canonical, Mappable, Vpn, LegalLeaf, LeafPage;
    if steps != [] {
      var s1, t := Apply(s, steps[0]), Translate(s.mem, s.tree.root, x);
      StepKeepsInv(s, steps[0]);
      StepTranslates(s, steps[0], x);
      OnlyMapsTranslate(s1, steps[1..], x);
      InvSpace(s);
      if steps[0].Map? && Mappable(s, steps[0].m) {
        EffectCons(steps[0].m, Mapped(s1, steps[1..]), x, t);
      }
    }
  }

  /** The step neither frees nor writes page `p`. */
  predicate Spares(step: Step, p: nat) {
    match step
    case ClientFree(q, _) => q != p
    case ClientWrite(q, _) => q != p
    case _ => true
  }

  ghost predicate AllSpare(steps: seq<Step>, p: nat) {
    forall i {:trigger steps[i]} :: 0 <= i < |steps| ==> Spares(steps[i], p)
  }

  /** Client page `p` is the same in both states. */
  ghost predicate SameClient(s: State, s': State, p: nat) {
    && Client(s, p) && Client(s', p) && s'.heap.owner[p] == s.heap.owner[p]
    && p in s.mem && p in s'.mem && s'.mem[p] == s.mem[p]
  }

  lemma ClientPageExists(s: State, p: nat)
    requires Inv(s) && Client(s, p)
    ensures IsPage(s.mem, p) && p !in s.heap.free
  {
    hide TreeOk, InTree;
  }

  lemma StepSparesClient(s: State, step: Step, p: nat)
    requires Inv(s) && Client(s, p) && Spares(step, p)
    ensures SameClient(s, Apply(s, step), p)
  {
    hide SpaceOk, HeapInMemory, InTree, MapPage, CanMap, Missing, PageAllocator.Run, RunFree, FirstRun, PagesKept;
    ClientPageExists(s, p);
    match step
    case ClientAlloc(size, mem) => AllocTakesOnlyFree(s.heap, size);
    case ClientFree(q, mem) =>
    case ClientWrite(q, words) =>
    case Map(m) =>
      if Mappable(s, m) {
        MapSparesClient(s, m, p);
      }
  }

  lemma MapSparesClient(s: State, m: Mapping, p: nat)
    requires Inv(s) && Client(s, p) && Mappable(s, m)
    ensures SameClient(s, AfterMap(s, m), p)
  {
    hide TreeOk, InTree, MapPage, CanMap, Missing, PageAllocator.Run, Partitioned;
    ClientPageExists(s, p);
    assert Foreign(SpaceOf(s), p);
    MapPageFrame(SpaceOf(s), m.va, m.pa, m.flags);
    KeptUntilFreed(s.heap, TableRequests(Missing(s.tree, m.va)), p);
  }

  /** A client's page keeps its owner and its contents through any run in which nobody frees or
      writes it, whatever is mapped, allocated and freed meanwhile. */
  lemma {:induction false} ClientPageKept(s: State, steps: seq<Step>, p: nat)
    requires Inv(s) && Client(s, p) && AllSpare(steps, p)
    ensures SameClient(s, Run(s, steps), p)
    decreases |steps|
  {
    hide Apply, Client, Spares, Inv;
    if steps == [] {
      StaysSame(s, p);
    } else {
      assert Spares(steps[0], p);
      StepKeepsInv(s, steps[0]);
      StepSparesClient(s, steps[0], p);
      forall i | 0 <= i < |steps[1..]| ensures Spares(steps[1..][i], p) {
        assert steps[1..][i] == steps[i + 1];
      }
      ClientPageKept(Apply(s, steps[0]), steps[1..], p);
    }
  }

  lemma StaysSame(s: State, p: nat)
    requires Inv(s) && Client(s, p)
    ensures SameClient(s, s, p)
  {
    ClientPageExists(s, p);
  }

  /** After every run each page of the heap is exactly one of free, table and client. */
  lemma PagesApart(s: State, steps: seq<Step>, p: nat)
    requires Inv(s)
    ensures var r := Run(s, steps);
            var f, t, c := p in r.heap.free, InTree(r.tree, p), Client(r, p);
            r.heap.lo <= p < r.heap.hi ==> (f && !t && !c) || (!f && t && !c) || (!f && !t && c)
  {
    hide TreeOk, InTree, Run;
    var r := Run(s, steps);
  }

  // ---------- the code's routines as steps ----------

  ghost function StateOf(a: Allocator, tr: Tree): State
    reads a
  {
    State(a.mem, tr, a.State())
  }

  /** An allocator of the code whose pages are below the limit, with a tree in its memory, is such a
      state. */
  lemma FromAllocator(a: Allocator, tr: Tree)
    requires a.Valid() && SpaceOk(Space(a.mem, tr, a.free)) && a.heapEnd <= AddrOf(PPN_LIMIT)
    ensures Inv(StateOf(a, tr))
  {
    hide SpaceOk, Run, Fresh, Chain, IsPage;
    EveryAllocator(a, 0);
    forall p: nat | PageOf(a.heapStart) <= p < PageOf(a.heapEnd) ensures IsPage(a.mem, p) && p < PPN_LIMIT {
      InHeap(p, a.heapStart, a.heapEnd);
      HeapPage(a.mem, a.heapStart, a.heapEnd, p);
    }
  }

  /** `mem_alloc` for a client. */
  method AllocFor(a: Allocator, size: nat, ghost tr: Tree) returns (r: nat)
    requires a.Valid() && Inv(StateOf(a, tr))
    modifies a`mem, a`freeList, a`freeCount, a`free, a`owner, a`serial, a`trace
    ensures a.Valid() && StateOf(a, tr) == Apply(old(StateOf(a, tr)), ClientAlloc(size, a.mem))
    ensures Inv(StateOf(a, tr))
    ensures r != 0 <==> Request(old(a.free), size).0.Granted?
    ensures r != 0 ==> forall b: nat :: r <= b < r + size ==>
                         Client(StateOf(a, tr), PageOf(b)) && a.owner[PageOf(b)] == old(a.serial)
  {
    hide SpaceOk, Inv, Request, RunFree, Chain, HeapPages, PagesKept, Run, Fresh, InTree;
    ghost var s := StateOf(a, tr);
    r := a.MemAlloc(size);
    RequestSucceedsIff(s.heap.free, size);
    AllocKeeps(s, size, a.mem, 0);
    if r != 0 {
      PageAddress(Request(s.heap.free, size).0.page, 0);
      GrantedToClient(s, size, a.mem);
      forall b: nat | r <= b < r + size
        ensures Client(StateOf(a, tr), PageOf(b)) && a.owner[PageOf(b)] == old(a.serial)
      {
        ByteIsHeld(r, size, b);
        PagesHoldBytes(PageOf(r), size, PageOf(b));
      }
    }
  }

  /** The pages of a grant are client pages with the number of the request. */
  lemma GrantedToClient(s: State, size: nat, mem': Memory)
    requires Inv(s) && OnlyIn(s.mem, mem', s.heap.free) && Request(s.heap.free, size).0.Granted?
    ensures var s', p := Apply(s, ClientAlloc(size, mem')), Request(s.heap.free, size).0.page;
            forall x: nat :: p <= x < p + PagesFor(size) ==> Client(s', x) && s'.heap.owner[x] == s.heap.serial
  {
    hide TreeOk, InTree, OnlyIn;
    FreeInHeap(s);
    var p, n := Request(s.heap.free, size).0.page, PagesFor(size);
    assert RunFree(s.heap.free, p, n);
    forall x: nat | p <= x < p + n ensures !InTree(s.tree, x) {
      assert x in s.heap.free;
    }
  }

  /** `mem_free` of a client's page. */
  method FreeFor(a: Allocator, p: nat, ghost tr: Tree)
    requires a.Valid() && Inv(StateOf(a, tr)) && Client(StateOf(a, tr), p) && a.heapEnd <= AddrOf(PPN_LIMIT)
    modifies a`mem, a`freeList, a`freeCount, a`free, a`owner, a`serial, a`trace
    ensures a.Valid() && StateOf(a, tr) == Apply(old(StateOf(a, tr)), ClientFree(p, a.mem))
    ensures Inv(StateOf(a, tr)) && p in a.free
  {
    hide SpaceOk, Request, RunFree, Chain, HeapPages, PagesKept, Run, Fresh, InTree, IsPage;
    ghost var s := StateOf(a, tr);
    ClientInHeap(a, tr, p);
    a.MemFree(AddrOf(p));
    FreeKeeps(s, p, a.mem, 0);
  }

  lemma ClientInHeap(a: Allocator, tr: Tree, p: nat)
    requires a.Valid() && Inv(StateOf(a, tr)) && Client(StateOf(a, tr), p) && a.heapEnd <= AddrOf(PPN_LIMIT)
    ensures AddrOf(p) > 0 && a.heapStart <= AddrOf(p) < a.heapEnd && AddrOf(p) % PAGE_SIZE == 0
    ensures VirtToPhys(AddrOf(p)) == AddrOf(p) && PageOf(AddrOf(p)) == p && p !in a.free
  {
    hide TreeOk, InTree, Run, Fresh, Chain;
    PageAddress(p, 0);
    InHeap(p, a.heapStart, a.heapEnd);
    ClientPageExists(StateOf(a, tr), p);
    Paging.SmallAddress(p);
  }

  /** `map_page` between client activities. */
  method MapFor(a: Allocator, root: nat, m: Mapping, ghost tr: Tree) returns (fault: bool, ghost tr': Tree)
    requires a.Valid() && Inv(StateOf(a, tr)) && root == AddrOf(tr.root)
    requires SpaceOk(Space(a.mem, tr, a.free)) && CanWalk(Space(a.mem, tr, a.free), m.va)
    modifies a`mem, a`freeList, a`freeCount, a`free, a`owner, a`serial, a`trace
    ensures a.Valid() && (fault <==> !CanMap(old(Space(a.mem, tr, a.free)), m.va))
    ensures !fault ==> StateOf(a, tr') == Apply(old(StateOf(a, tr)), Map(m)) && Inv(StateOf(a, tr'))
  {
    hide SpaceOk, CanWalk, CanMap, Missing, MapPage, Exhausted, Request, Chain, HeapPages, PagesKept, Run, Fresh,
      IsPage, Partitioned;
    ghost var s := StateOf(a, tr);
    fault, tr' := Paging.MapPage(a, root, m.va, m.pa, m.flags, tr);
    if !fault {
      MapKeeps(s, m);
      EnoughFor(SpaceOf(s), m.va);
      MapPageFrame(SpaceOf(s), m.va, m.pa, m.flags);
    }
  }
}

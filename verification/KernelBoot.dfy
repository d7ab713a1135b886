/** The boot sequence on the allocator's memory: `relocate_kernel`, then `mem_init`. */
module KernelBoot {
  import opened Basics
  import opened PageAllocator
  import opened PageHeap
  import opened Sv39
  import opened PageTable
  import opened KernelSpace
  import Paging

  /** One `map_page` call uses up the first of the mappings still to do. */
  lemma MapAllStep(sp: Space, ms: seq<Mapping>)
    requires SpaceOk(sp) && ms != [] && Open(sp, ms)
    ensures CanWalk(sp, ms[0].va) && (CanMap(sp, ms[0].va) || Cost(sp.tree, ms) > |sp.free|)
    ensures CanMap(sp, ms[0].va) ==>
              var sp' := MapPage(sp, ms[0].va, ms[0].pa, ms[0].flags);
              && sp'.tree.root == sp.tree.root && Open(sp', ms[1..])
              && (Cost(sp'.tree, ms[1..]) <= |sp'.free| <==> Cost(sp.tree, ms) <= |sp.free|)
              && (Cost(sp.tree, ms) <= |sp.free| ==> MapAll(sp', ms[1..]) == MapAll(sp, ms))
  {
    hide SpaceOk, Open, Cost, CanMap, CanWalk, MapPage;
    FirstWalks(sp, ms);
    if CanMap(sp, ms[0].va) {
      FirstLeaves(sp, ms);
      SameRoot(sp, ms[0]);
    }
  }

  /** The mappings `todo` remain, and finishing them is what the whole sequence `ms` asks for. */
  ghost predicate Remaining(sp: Space, ms: seq<Mapping>, cur: Space, todo: seq<Mapping>)
    requires SpaceOk(sp) && Open(sp, ms)
  {
    && SpaceOk(cur) && cur.tree.root == sp.tree.root && Open(cur, todo)
    && (Cost(cur.tree, todo) <= |cur.free| <==> Cost(sp.tree, ms) <= |sp.free|)
    && (Cost(sp.tree, ms) <= |sp.free| ==> MapAll(cur, todo) == MapAll(sp, ms))
  }

  lemma RemainingStep(sp: Space, ms: seq<Mapping>, cur: Space, todo: seq<Mapping>)
    requires SpaceOk(sp) && Open(sp, ms) && Remaining(sp, ms, cur, todo) && todo != []
    ensures SpaceOk(cur) && CanWalk(cur, todo[0].va) && cur.tree.root == sp.tree.root
    ensures CanMap(cur, todo[0].va) ==>
              Remaining(sp, ms, MapPage(cur, todo[0].va, todo[0].pa, todo[0].flags), todo[1..])
    ensures !CanMap(cur, todo[0].va) ==> Cost(sp.tree, ms) > |sp.free|
  {
    hide SpaceOk, Open, Cost, CanMap, CanWalk, MapPage, MapAll;
    MapAllStep(cur, todo);
  }

  lemma NothingRemains(sp: Space, ms: seq<Mapping>, cur: Space)
    requires SpaceOk(sp) && Open(sp, ms) && Remaining(sp, ms, cur, [])
    ensures Cost(sp.tree, ms) <= |sp.free| && cur == MapAll(sp, ms)
  {
    hide SpaceOk, Open;
    assert Prefixes2([]) == {} && Prefixes1([]) == {};
  }

  /** `setup_uart_mapping` followed by the loop of `setup_virtio_mappings`. It runs into the access
      fault exactly when the mappings cost more tables than pages are free. */
  method SetupDeviceMappings(a: Allocator, root: nat, ghost tr: Tree) returns (fault: bool, ghost tr': Tree)
    requires a.Valid() && root == AddrOf(tr.root) && SpaceOk(Space(a.mem, tr, a.free))
    requires Open(Space(a.mem, tr, a.free), DeviceMappings())
    modifies a`mem, a`freeList, a`freeCount, a`free, a`owner, a`serial, a`trace
    ensures a.Valid()
    ensures fault <==> Cost(tr, DeviceMappings()) > |old(a.free)|
    ensures !fault ==> Space(a.mem, tr', a.free) == MapAll(old(Space(a.mem, tr, a.free)), DeviceMappings())
  {
    hide SpaceOk, Open, Cost, CanMap, CanWalk, MapPage, MapAll, Exhausted, Remaining, Chain, HeapPages, Run, Fresh,
      Paging.TablesTaken;
    ghost var sp := Space(a.mem, tr, a.free);
    assert DeviceMappings()[1..] == Slots(1);
    AllRemain(sp);
    RemainingStep(sp, DeviceMappings(), sp, DeviceMappings());
    fault, tr' := Paging.MapPage(a, root, MMIO_BASE, MMIO_BASE, 15, tr);
    if fault {
      return;
    }
    var slot := 1;
    while slot <= VIRTIO_SLOTS
      invariant 1 <= slot <= VIRTIO_SLOTS + 1
      invariant a.Valid() && Remaining(sp, DeviceMappings(), Space(a.mem, tr', a.free), Slots(slot))
    {
      RemainingStep(sp, DeviceMappings(), Space(a.mem, tr', a.free), Slots(slot));
      assert Slots(slot)[1..] == Slots(slot + 1);
      var addr := MMIO_BASE + slot * 0x1000;
      fault, tr' := Paging.MapPage(a, root, addr, addr, 6, tr');
      if fault {
        return;
      }
      slot := slot + 1;
    }
    NothingRemains(sp, DeviceMappings(), Space(a.mem, tr', a.free));
  }

  lemma AllRemain(sp: Space)
    requires SpaceOk(sp) && Open(sp, DeviceMappings())
    ensures Remaining(sp, DeviceMappings(), sp, DeviceMappings())
  {
    hide SpaceOk, Open, Cost, MapAll, DeviceMappings;
  }

  // ---------- relocate_kernel ----------

  /** `setup_boot_page_table`: stores the two gigapage entries in a table that is still zero. */
  method SetupBootTable(a: Allocator, p: nat)
    requires a.Valid() && IsPage(a.mem, p) && p !in a.free && a.mem[p] == Zeros()
    modifies a`mem
    ensures a.Valid() && a.mem == BareRoot(old(a.mem), p)
  {
    hide Chain, Px, HeapPages, PagesKept, Run, Fresh;
    ghost var mem0 := a.mem;
    assert Cleared(mem0, p) == mem0;
    a.mem := SetWord(a.mem, p, Px(2, BASE_ADDR), GIGAPAGE);
    a.mem := SetWord(a.mem, p, Px(2, KERNEL_BASE_VA), GIGAPAGE);
    Paging.ChainFrame(mem0, a.mem, a.freeList, a.free);
    OneRootChanged(mem0, a.mem, p);
    HeapPagesKept(mem0, a.mem, a.heapStart, a.heapEnd);
  }

  lemma OneRootChanged(mem: Memory, mem': Memory, p: nat)
    requires IsPage(mem, p) && mem' == BareRoot(mem, p)
    ensures PagesKept(mem, mem')
  {
    hide Px;
  }

  /** The pages that `page_allocator_init` will find, below the addresses that a table can hold. */
  ghost predicate HeapReady(mem: Memory, heapSymbol: nat, stackSymbol: nat) {
    HeapPages(mem, HeapStart(heapSymbol), HeapEnd(heapSymbol, stackSymbol))
        && HeapEnd(heapSymbol, stackSymbol) <= AddrOf(PPN_LIMIT)
  }

  /** How many pages the heap has. */
  function HeapSize(heapSymbol: nat, stackSymbol: nat): nat {
    var lo, hi := PageOf(HeapStart(heapSymbol)), PageOf(HeapEnd(heapSymbol, stackSymbol));
    if lo < hi then hi - lo else 0
  }

  /** `relocate_kernel`: builds the heap and, in the zeroed page `boot` outside it, the first table. It
      needs two pages of the heap, and faults exactly when it has fewer. */
  method RelocateKernel(mem: Memory, heapSymbol: nat, stackSymbol: nat, boot: nat)
    returns (fault: bool, a: Allocator, root: nat, ghost tr: Tree)
    requires HeapReady(mem, heapSymbol, stackSymbol) && IsPage(mem, boot) && mem[boot] == Zeros()
    requires !(HeapStart(heapSymbol) <= AddrOf(boot) < HeapEnd(heapSymbol, stackSymbol))
    ensures fresh(a) && a.Valid() && root == AddrOf(boot) && tr.root == boot
    ensures a.heapStart == HeapStart(heapSymbol) && a.heapEnd == HeapEnd(heapSymbol, stackSymbol)
    ensures fault <==> HeapSize(heapSymbol, stackSymbol) < 2
    ensures !fault ==> a.free == Ascending(PageOf(a.heapStart) + 2, PageOf(a.heapEnd))
    ensures !fault ==> |a.free| == HeapSize(heapSymbol, stackSymbol) - 2 && SpaceOk(Space(a.mem, tr, a.free))
    ensures !fault ==> forall x: nat :: Translate(a.mem, boot, x) == KernelMap(x)
  {
    hide Chain, MapAll, Translate, KernelMap, Open, Cost, SpaceOk, BareRoot, DeviceMappings, HeapPages, Run, TreeOk,
      PagesKept, IsPage;
    a := new Allocator(mem, heapSymbol, stackSymbol);
    ghost var mem1, free1 := a.mem, a.free;
    BootPage(mem, a, heapSymbol, stackSymbol, boot);
    root := AddrOf(boot);
    SetupBootTable(a, boot);
    KernelTableFits(mem1, boot, free1);
    tr := Tree(boot, map[], map[]);
    fault, tr := SetupDeviceMappings(a, root, tr);
    if fault {
      tr := Tree(boot, map[], map[]);
    } else {
      KernelTableShape(mem1, boot, free1);
      RestOfHeap(PageOf(a.heapStart), PageOf(a.heapEnd));
      forall x: nat ensures Translate(a.mem, boot, x) == KernelMap(x) {
        KernelTableMeaning(mem1, boot, free1, x);
      }
    }
  }

  lemma RestOfHeap(lo: nat, hi: nat)
    requires lo + 2 <= hi
    ensures Ascending(lo, hi)[2..] == Ascending(lo + 2, hi)
  {
    assert Ascending(lo, hi) == [lo] + ([lo + 1] + Ascending(lo + 2, hi));
  }

  /** After `page_allocator_init` the boot table's page is untouched and apart from the free list. */
  lemma BootPage(mem: Memory, a: Allocator, heapSymbol: nat, stackSymbol: nat, boot: nat)
    requires HeapReady(mem, heapSymbol, stackSymbol) && IsPage(mem, boot) && mem[boot] == Zeros()
    requires !(HeapStart(heapSymbol) <= AddrOf(boot) < HeapEnd(heapSymbol, stackSymbol))
    requires a.Valid() && a.heapStart == HeapStart(heapSymbol) && a.heapEnd == HeapEnd(heapSymbol, stackSymbol)
    requires a.free == Ascending(PageOf(a.heapStart), PageOf(a.heapEnd)) && PagesKept(mem, a.mem)
    requires a.mem.Keys == mem.Keys && forall p :: p in mem && p !in a.free ==> a.mem[p] == mem[p]
    ensures boot !in a.free && IsPage(a.mem, boot) && a.mem[boot] == Zeros() && Prepared(a.mem, boot, a.free)
    ensures |a.free| == HeapSize(heapSymbol, stackSymbol)
  {
    hide Run, Fresh, HeapStart, HeapEnd;
    forall p: nat | p in a.free ensures IsPage(a.mem, p) && p < PPN_LIMIT && a.heapStart <= AddrOf(p) < a.heapEnd {
      var i :| 0 <= i < |a.free| && a.free[i] == p;
      assert IsPage(a.mem, a.free[i]);
    }
  }

  // ---------- mem_init ----------

  /** How `mem_init` ends: with a failure status, in an access fault, or with a new root. */
  datatype Outcome = NoPage | Fault | Ready(root: nat)

  /** `mem_init` up to the write of `satp`. It reports a failure when no page is free, faults on one or
      two, and otherwise builds a root that gives every address its meaning. */
  method MemInit(a: Allocator) returns (r: Outcome, ghost tr: Tree)
    requires a.Valid() && (forall p: nat :: p in a.free ==> p < PPN_LIMIT)
    modifies a`mem, a`freeList, a`freeCount, a`free, a`owner, a`serial, a`trace
    ensures a.Valid()
    ensures r.NoPage? <==> |old(a.free)| == 0
    ensures r.Fault? <==> 1 <= |old(a.free)| <= 2
    ensures r.NoPage? ==> a.mem == old(a.mem) && a.State() == old(a.State())
    ensures r.Ready? ==> r.root == AddrOf(old(a.free)[0]) && a.free == old(a.free)[3..]
    ensures r.Ready? ==> r.root == AddrOf(tr.root) && SpaceOk(Space(a.mem, tr, a.free))
    ensures r.Ready? ==> forall p: nat :: IsPage(old(a.mem), p) && p !in old(a.free) ==>
                           p in a.mem && a.mem[p] == old(a.mem)[p]
    ensures r.Ready? ==> forall x: nat :: Translate(a.mem, old(a.free)[0], x) == KernelMap(x)
  {
    hide Chain, MapAll, Translate, KernelMap, Open, Cost, SpaceOk, BareRoot, DeviceMappings, HeapPages, Run, Fresh,
      IsPage, TreeOk;
    tr := Tree(0, map[], map[]);
    ghost var mem0, free0, h := a.mem, a.free, a.State();
    if |free0| > 0 {
      FreeListPrepared(a.mem, a.freeList, a.free);
    }
    var root := Paging.TakePage(a);
    if root == 0 {
      Paging.NoTableTaken(h, a.State());
      return NoPage, tr;
    }
    ghost var p, rest := free0[0], free0[1..];
    PageAddress(p, root);
    BuildRoot(a, PageOf(root));
    KernelTableFits(mem0, p, rest);
    var fault;
    fault, tr := SetupDeviceMappings(a, root, Tree(p, map[], map[]));
    if fault {
      return Fault, tr;
    }
    r := Ready(root);
    KernelTableShape(mem0, p, rest);
    assert rest[2..] == free0[3..];
    SparedByTable(mem0, p, rest);
    forall x: nat ensures Translate(a.mem, p, x) == KernelMap(x) {
      KernelTableMeaning(mem0, p, rest, x);
    }
  }

  /** The finished table leaves every page that was neither its root nor free. */
  lemma SparedByTable(mem: Memory, root: nat, free: seq<nat>)
    requires Prepared(mem, root, free) && |free| >= 2
    ensures forall q: nat :: IsPage(mem, q) && q != root && q !in free ==>
              q in KernelTable(mem, root, free).mem && KernelTable(mem, root, free).mem[q] == mem[q]
  {
    hide KernelTable;
    KernelTableShape(mem, root, free);
    BareSpaceOk(mem, root, free);
    forall q: nat | IsPage(mem, q) && q != root && q !in free
      ensures q in KernelTable(mem, root, free).mem && KernelTable(mem, root, free).mem[q] == mem[q]
    {
      assert Foreign(BareSpace(mem, root, free), q);
    }
  }

  lemma FreeListPrepared(mem: Memory, head: nat, free: seq<nat>)
    requires Chain(mem, head, free) && Distinct(free) && free != [] && forall p: nat :: p in free ==> p < PPN_LIMIT
    ensures Prepared(mem, free[0], free[1..])
  {
    assert IsPage(mem, free[0]) && free[0] in free;
    forall p: nat | p in free[1..] ensures IsPage(mem, p) && p < PPN_LIMIT && p != free[0] {
      var i :| 0 <= i < |free[1..]| && free[1..][i] == p;
      assert free[i + 1] == p && p in free;
    }
  }

  /** Clears the root page and stores the two gigapage entries. */
  method BuildRoot(a: Allocator, p: nat)
    requires a.Valid() && IsPage(a.mem, p) && p !in a.free
    modifies a`mem
    ensures a.Valid() && a.mem == BareRoot(old(a.mem), p)
  {
    hide Chain, Px, HeapPages, PagesKept, Run, Fresh;
    ghost var mem0 := a.mem;
    a.mem := Cleared(a.mem, p);
    a.mem := SetWord(a.mem, p, Px(2, BASE_ADDR), GIGAPAGE);
    a.mem := SetWord(a.mem, p, Px(2, KERNEL_BASE_VA), GIGAPAGE);
    Paging.ChainFrame(mem0, a.mem, a.freeList, a.free);
    OneRootChanged(mem0, a.mem, p);
    HeapPagesKept(mem0, a.mem, a.heapStart, a.heapEnd);
  }

  // ---------- the switch of satp ----------

  /** The boot sequence: `relocate_kernel`, then `mem_init`. On a heap of at least five pages both
      succeed, and in the final memory the table that `satp` held and the table it gets translate every
      virtual address alike; with three or four pages `mem_init` faults, and with two it reports that
      there is no page. */
  method Boot(mem: Memory, heapSymbol: nat, stackSymbol: nat, boot: nat)
    returns (first: bool, second: Outcome, a: Allocator)
    requires HeapReady(mem, heapSymbol, stackSymbol) && IsPage(mem, boot) && mem[boot] == Zeros()
    requires !(HeapStart(heapSymbol) <= AddrOf(boot) < HeapEnd(heapSymbol, stackSymbol))
    ensures a.Valid() && (first <==> HeapSize(heapSymbol, stackSymbol) >= 2)
    ensures first ==> (second.Ready? <==> HeapSize(heapSymbol, stackSymbol) >= 5)
    ensures first ==> (second.Fault? <==> 3 <= HeapSize(heapSymbol, stackSymbol) <= 4)
    ensures first && second.Ready? ==> second.root == AddrOf(PageOf(HeapStart(heapSymbol)) + 2)
    ensures first && second.Ready? ==>
              forall x: nat :: Translate(a.mem, PageOf(second.root), x) == Translate(a.mem, boot, x) == KernelMap(x)
  {
    hide Translate, KernelMap, SpaceOk, TreeOk, Chain, HeapPages, Run, Fresh, IsPage, HeapStart, HeapEnd;
    var fault, root;
    ghost var tr;
    fault, a, root, tr := RelocateKernel(mem, heapSymbol, stackSymbol, boot);
    first, second := !fault, NoPage;
    if fault {
      return;
    }
    ghost var mem1, free1 := a.mem, a.free;
    FreeBelowLimit(Space(mem1, tr, free1));
    ghost var tr2;
    second, tr2 := MemInit(a);
    if second.Ready? {
      PageAddress(free1[0], second.root);
      forall x: nat ensures Translate(a.mem, boot, x) == KernelMap(x) {
        FirstTableStays(Space(mem1, tr, free1), a.mem, x);
      }
    }
  }

  lemma FreeBelowLimit(sp: Space)
    requires SpaceOk(sp)
    ensures forall p: nat :: p in sp.free ==> p < PPN_LIMIT
  {
    hide TreeOk;
  }

  /** Writing only free pages changes no translation. */
  lemma FirstTableStays(sp: Space, mem': Memory, x: nat)
    requires SpaceOk(sp)
    requires forall p: nat :: IsPage(sp.mem, p) && p !in sp.free ==> p in mem' && mem'[p] == sp.mem[p]
    ensures Translate(mem', sp.tree.root, x) == Translate(sp.mem, sp.tree.root, x)
  {
    hide Translate;
    forall p: nat | InTree(sp.tree, p) ensures p in sp.mem && p in mem' && mem'[p] == sp.mem[p] {
      TreePageExists(sp.mem, sp.tree, p);
    }
    TreeFrame(sp.mem, mem', sp.tree, x);
  }
}

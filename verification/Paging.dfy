/**
 The page-table routines as the code: loops over levels that chase physical addresses through
 memory and take tables from the allocator of PageHeap.
 */
module Paging {
  import opened Basics
  import opened PageAllocator
  import opened PageHeap
  import opened Sv39
  import opened PT = PageTable

  /** `PTE2PA`, a 64-bit shift. */
  function Pte2Pa(pte: nat): nat {
    pte / 1024 * 0x1000 % WORD_MOD
  }

  lemma PointerAddress(p: nat)
    requires p < PPN_LIMIT
    ensures Pte2Pa(Pointer(p)) == AddrOf(p) && PageOf(Pte2Pa(Pointer(p))) == p && Valid(Pointer(p))
    ensures AddrOf(p) / 0x1000 * 1024 + 1 == Pointer(p)
    ensures VirtToPhys(AddrOf(p)) == AddrOf(p)
  {
    PointerSplits(p);
    PageAddress(p, 0);
    SmallAddress(p);
  }

  lemma SmallAddress(p: nat)
    requires p < PPN_LIMIT
    ensures AddrOf(p) < KERNEL_BASE_VA < WORD_MOD && p * 0x1000 % WORD_MOD == AddrOf(p)
  {
  }

  lemma PointerSplits(p: nat)
    ensures Pointer(p) / 1024 == p && Valid(Pointer(p))
  {
    Div1024(Pointer(p), p, 1);
    Div2(Pointer(p), 512 * p, 1);
  }

  /** The space when the loop has reached `level`, and the table it stands on. */
  ghost function Opening(sp: Space, va: nat, level: nat): (r: Space)
    requires SpaceOk(sp) && CanMap(sp, va) && level <= 2
    ensures SpaceOk(r)
  {
    if level == 2 then sp else if level == 1 then Opened2(sp, va) else Opened(sp, va)
  }

  ghost predicate StandsOn(tr: Tree, va: nat, level: nat, p: nat) {
    if level == 2 then p == tr.root
    else if level == 1 then Px(2, va) in tr.t1 && p == tr.t1[Px(2, va)]
    else (Px(2, va), Px(1, va)) in tr.t0 && p == tr.t0[(Px(2, va), Px(1, va))]
  }

  /** A list does not notice changes to pages that are not on it. */
  lemma ChainFrame(mem: Memory, mem': Memory, head: nat, s: seq<nat>)
    requires Chain(mem, head, s)
    requires forall p :: p in s && p in mem ==> p in mem' && mem'[p] == mem[p]
    ensures Chain(mem', head, s)
  {
    forall i | 0 <= i < |s| ensures IsPage(mem', s[i]) && mem'[s[i]][0] == LinkTo(s, i + 1) {
      assert IsPage(mem, s[i]);
    }
  }

  /** One turn of the loop when the entry is valid: follow it. */
  lemma Follows(sp: Space, va: nat, level: nat, p: nat)
    requires SpaceOk(sp) && CanMap(sp, va) && 1 <= level <= 2
    requires StandsOn(Opening(sp, va, level).tree, va, level, p)
    ensures var cur := Opening(sp, va, level);
            && IsPage(cur.mem, p)
            && (Valid(cur.mem[p][Px(level, va)]) ==>
                  && Opening(sp, va, level - 1) == cur
                  && StandsOn(cur.tree, va, level - 1, PageOf(Pte2Pa(cur.mem[p][Px(level, va)]))))
            && (!Valid(cur.mem[p][Px(level, va)]) ==>
                  cur.free != [] && cur.free[0] < PPN_LIMIT && IsPage(cur.mem, cur.free[0]))
  {
    var cur := Opening(sp, va, level);
    var i, j := Px(2, va), Px(1, va);
    assert cur.free != [] ==> cur.free[0] in cur.free;
    if level == 2 {
      if i in cur.tree.t1 {
        PointerAddress(cur.tree.t1[i]);
        assert cur.mem[p][i] == Pointer(cur.tree.t1[i]);
        assert StandsOn(cur.tree, va, 1, cur.tree.t1[i]);
      }
    } else {
      assert Middle(cur.mem, cur.tree, i);
      if (i, j) in cur.tree.t0 {
        PointerAddress(cur.tree.t0[(i, j)]);
        assert cur.mem[p][j] == Pointer(cur.tree.t0[(i, j)]);
        assert StandsOn(cur.tree, va, 0, cur.tree.t0[(i, j)]);
      }
    }
    hide Px, Pte2Pa;
  }

  /** An invalid entry has no table below it. */
  lemma InvalidRootEntry(mem: Memory, tr: Tree, i: nat)
    requires TreeOk(mem, tr) && i < WORDS && !Valid(mem[tr.root][i])
    ensures i !in tr.t1
  {
    if i in tr.t1 {
      PointerAddress(tr.t1[i]);
      assert false;
    }
  }

  lemma InvalidMiddleEntry(mem: Memory, tr: Tree, i: nat, j: nat)
    requires TreeOk(mem, tr) && i in tr.t1 && j < WORDS && IsPage(mem, tr.t1[i]) && !Valid(mem[tr.t1[i]][j])
    ensures (i, j) !in tr.t0
  {
    assert Middle(mem, tr, i);
    if (i, j) in tr.t0 {
      PointerAddress(tr.t0[(i, j)]);
      assert false;
    }
  }

  lemma TakenPage(sp: Space, p: nat)
    requires SpaceOk(sp) && sp.free != [] && InTree(sp.tree, p)
    ensures p !in sp.free[1..] && sp.free[0] !in sp.free[1..]
  {
    hide InTree, TreeOk;
    assert p !in sp.free;
  }

  lemma TableInTree(tr: Tree, va: nat, level: nat, p: nat)
    requires level <= 2 && StandsOn(tr, va, level, p)
    ensures InTree(tr, p)
  {
    hide Px;
  }

  /** One turn of the loop when the entry is not valid: install the next free page. */
  lemma InstallsNext(sp: Space, va: nat, level: nat, p: nat)
    requires SpaceOk(sp) && CanMap(sp, va) && 1 <= level <= 2
    requires StandsOn(Opening(sp, va, level).tree, va, level, p)
    requires var cur := Opening(sp, va, level);
             IsPage(cur.mem, p) && !Valid(cur.mem[p][Px(level, va)]) && cur.free != []
    ensures var cur, next := Opening(sp, va, level), Opening(sp, va, level - 1);
            && next.free == cur.free[1..]
            && next.mem == SetWord(Cleared(cur.mem, cur.free[0]), p, Px(level, va), Pointer(cur.free[0]))
            && StandsOn(next.tree, va, level - 1, cur.free[0])
            && p !in next.free && cur.free[0] !in next.free
  {
    hide Px, InTree, Valid, TreeOk, Pointer, CanMap, SetWord, Cleared;
    var cur := Opening(sp, va, level);
    TableInTree(cur.tree, va, level, p);
    TakenPage(cur, p);
    if level == 2 {
      InvalidRootEntry(cur.mem, cur.tree, Px(2, va));
    } else {
      InvalidMiddleEntry(cur.mem, cur.tree, Px(2, va), Px(1, va));
    }
  }

  // With too few free pages the loop stops at the first missing table it cannot get.

  lemma FollowsShort(sp: Space, va: nat, level: nat, cur: Space, p: nat)
    requires SpaceOk(sp) && CanWalk(sp, va) && !CanMap(sp, va)
    requires (level == 2 && cur == sp) || (level == 1 && cur == Exhausted(sp, va))
    requires StandsOn(cur.tree, va, level, p)
    ensures IsPage(cur.mem, p)
    ensures Valid(cur.mem[p][Px(level, va)]) ==>
              level == 2 && cur == Exhausted(sp, va)
                  && StandsOn(cur.tree, va, 1, PageOf(Pte2Pa(cur.mem[p][Px(level, va)])))
    ensures !Valid(cur.mem[p][Px(level, va)]) ==> (cur.free == [] ==> cur == Exhausted(sp, va))
    ensures cur.free != [] ==> level == 2 && cur.free[0] < PPN_LIMIT && IsPage(cur.mem, cur.free[0])
  {
    hide Px, Pte2Pa, SetWord, Cleared, InTree;
    var i := Px(2, va);
    assert cur.free != [] ==> cur.free[0] in cur.free;
    if level == 2 {
      if i in cur.tree.t1 {
        PointerAddress(cur.tree.t1[i]);
        assert cur.mem[p][i] == Pointer(cur.tree.t1[i]);
      }
    } else {
      ExhaustedEntry(sp, va);
    }
  }

  /** Where the pages have run out, the level-1 entry is still invalid. */
  lemma ExhaustedEntry(sp: Space, va: nat)
    requires SpaceOk(sp) && CanWalk(sp, va) && !CanMap(sp, va) && Px(2, va) in Exhausted(sp, va).tree.t1
    ensures var cur := Exhausted(sp, va);
            IsPage(cur.mem, cur.tree.t1[Px(2, va)]) && !Valid(cur.mem[cur.tree.t1[Px(2, va)]][Px(1, va)])
  {
    hide Px, Pointer, InTree;
    if sp.free != [] {
      var i := Px(2, va);
      NoOrphans(sp, i, Px(1, va));
      AddTable1Tree(sp, i);
    }
  }

  lemma InstallsShort(sp: Space, va: nat, p: nat)
    requires SpaceOk(sp) && CanWalk(sp, va) && !CanMap(sp, va) && StandsOn(sp.tree, va, 2, p)
    requires IsPage(sp.mem, p) && !Valid(sp.mem[p][Px(2, va)]) && sp.free != []
    ensures var next := Exhausted(sp, va);
            && next.free == sp.free[1..]
            && next.mem == SetWord(Cleared(sp.mem, sp.free[0]), p, Px(2, va), Pointer(sp.free[0]))
            && StandsOn(next.tree, va, 1, sp.free[0])
            && p !in next.free && sp.free[0] !in next.free
  {
    hide Px, InTree, Valid, TreeOk, Pointer, CanMap, SetWord, Cleared;
    TableInTree(sp.tree, va, 2, p);
    TakenPage(sp, p);
  }

  /** The space when the loop has reached `level`, with or without enough pages. */
  ghost predicate AtLevel(sp: Space, va: nat, level: nat, cur: Space)
    requires SpaceOk(sp) && CanWalk(sp, va)
  {
    if CanMap(sp, va) then level <= 2 && cur == Opening(sp, va, level)
    else (level == 2 && cur == sp) || (level == 1 && cur == Exhausted(sp, va))
  }

  lemma Start(sp: Space, va: nat)
    requires SpaceOk(sp) && CanWalk(sp, va)
    ensures AtLevel(sp, va, 2, sp) && StandsOn(sp.tree, va, 2, sp.tree.root)
  {
    hide SpaceOk, CanWalk, CanMap, Px;
  }

  lemma Follow(sp: Space, va: nat, level: nat, cur: Space, p: nat)
    requires SpaceOk(sp) && CanWalk(sp, va) && 1 <= level <= 2 && AtLevel(sp, va, level, cur)
             && StandsOn(cur.tree, va, level, p)
    ensures IsPage(cur.mem, p)
    ensures var pte := cur.mem[p][Px(level, va)];
            if Valid(pte) then AtLevel(sp, va, level - 1, cur) && StandsOn(cur.tree, va, level - 1, PageOf(Pte2Pa(pte)))
            else if cur.free == [] then !CanMap(sp, va) && cur == Exhausted(sp, va)
            else cur.free[0] < PPN_LIMIT && IsPage(cur.mem, cur.free[0])
  {
    hide SpaceOk, CanWalk, CanMap, Px, StandsOn, Exhausted, Opening, IsPage, Valid, Pte2Pa, PageOf;
    if CanMap(sp, va) {
      Follows(sp, va, level, p);
    } else {
      FollowsShort(sp, va, level, cur, p);
    }
  }

  lemma Install(sp: Space, va: nat, level: nat, cur: Space, p: nat) returns (next: Space)
    requires SpaceOk(sp) && CanWalk(sp, va) && 1 <= level <= 2 && AtLevel(sp, va, level, cur)
             && StandsOn(cur.tree, va, level, p)
    requires IsPage(cur.mem, p) && !Valid(cur.mem[p][Px(level, va)]) && cur.free != []
    ensures AtLevel(sp, va, level - 1, next) && StandsOn(next.tree, va, level - 1, cur.free[0])
    ensures next.free == cur.free[1..] && p !in next.free && cur.free[0] !in next.free
    ensures next.mem == SetWord(Cleared(cur.mem, cur.free[0]), p, Px(level, va), Pointer(cur.free[0]))
  {
    hide SpaceOk, CanWalk, CanMap, Px, StandsOn, Exhausted, Opening, IsPage, Valid, SetWord, Cleared, Pointer;
    if CanMap(sp, va) {
      InstallsNext(sp, va, level, p);
      next := Opening(sp, va, level - 1);
    } else {
      FollowsShort(sp, va, level, cur, p);
      InstallsShort(sp, va, p);
      next := Exhausted(sp, va);
    }
  }

  lemma Arrived(sp: Space, va: nat, cur: Space)
    requires SpaceOk(sp) && CanWalk(sp, va) && AtLevel(sp, va, 0, cur)
    ensures CanMap(sp, va) && cur == Opened(sp, va)
  {
    hide SpaceOk, CanWalk, CanMap, Opened;
  }

  /** From `h` to `h'` the allocator granted one-page requests and nothing else. */
  ghost predicate TablesTaken(h: Heap, h': Heap) {
    |h'.free| <= |h.free| && h' == PageAllocator.Run(h, TableRequests(|h.free| - |h'.free|))
  }

  lemma NoTables(h: Heap)
    ensures TablesTaken(h, h)
  {
    OneMoreTable(h, 0);
  }

  lemma OneTable(h: Heap, h1: Heap, h2: Heap)
    requires TablesTaken(h, h1) && h2 == PageAllocator.Apply(h1, Alloc(PAGE_SIZE)) && |h2.free| == |h1.free| - 1
    ensures TablesTaken(h, h2)
  {
    hide Run, PageAllocator.Apply;
    OneMoreTable(h, |h.free| - |h1.free|);
  }

  /** `map_page`: the code changes memory and the free list exactly as the specification says. If the
      pages run out it uses up what there is and then stores through a NULL table, where `fault` stands
      for the access fault; this happens exactly when more tables are missing than pages are free. */
  method MapPage(a: Allocator, root: nat, va: nat, pa: nat, flags: nat, ghost tr: Tree)
    returns (fault: bool, ghost tr': Tree)
    requires a.Valid() && root == AddrOf(tr.root)
    requires SpaceOk(Space(a.mem, tr, a.free)) && CanWalk(Space(a.mem, tr, a.free), va)
    modifies a`mem, a`freeList, a`freeCount, a`free, a`owner, a`serial, a`trace
    ensures a.Valid() && TablesTaken(old(a.State()), a.State())
    ensures fault <==> !CanMap(old(Space(a.mem, tr, a.free)), va)
    ensures Space(a.mem, tr', a.free) ==
            if fault then Exhausted(old(Space(a.mem, tr, a.free)), va)
            else PT.MapPage(old(Space(a.mem, tr, a.free)), va, pa, flags)
  {
    hide SpaceOk, CanWalk, CanMap, Opened, Exhausted, Px, Chain, LeafPte, StandsOn, SetWord, AddrOf, HeapPages, Run,
      Fresh, TablesTaken;
    ghost var sp := Space(a.mem, tr, a.free);
    var pt;
    fault, pt, tr' := Descend(a, root, va, tr);
    if !fault {
      Stored(sp, va, pa, flags, PageOf(pt));
      StoreWord(a, PageOf(pt), Px(0, va), LeafPte(pa, flags));
    }
  }

  method StoreWord(a: Allocator, p: nat, i: nat, w: nat)
    requires a.Valid() && IsPage(a.mem, p) && p !in a.free && i < WORDS
    modifies a`mem
    ensures a.Valid() && a.mem == SetWord(old(a.mem), p, i, w)
  {
    hide Chain, HeapPages, PagesKept, Run, Fresh;
    ghost var mem0 := a.mem;
    SetWordKeepsPages(a.mem, p, i, w);
    a.mem := SetWord(a.mem, p, i, w);
    ChainFrame(mem0, a.mem, a.freeList, a.free);
    HeapPagesKept(mem0, a.mem, a.heapStart, a.heapEnd);
  }

  /** The loop over levels 2 and 1. */
  method Descend(a: Allocator, root: nat, va: nat, ghost tr: Tree) returns (fault: bool, pt: nat, ghost tr': Tree)
    requires a.Valid() && root == AddrOf(tr.root)
    requires SpaceOk(Space(a.mem, tr, a.free)) && CanWalk(Space(a.mem, tr, a.free), va)
    modifies a`mem, a`freeList, a`freeCount, a`free, a`owner, a`serial, a`trace
    ensures a.Valid() && TablesTaken(old(a.State()), a.State())
    ensures fault <==> !CanMap(old(Space(a.mem, tr, a.free)), va)
    ensures Space(a.mem, tr', a.free) ==
            if fault then Exhausted(old(Space(a.mem, tr, a.free)), va) else Opened(old(Space(a.mem, tr, a.free)), va)
    ensures !fault ==> StandsOn(tr', va, 0, PageOf(pt))
  {
    hide SpaceOk, CanWalk, CanMap, Opened, Exhausted, Opening, AtLevel, Px, Chain, Pointer, Pte2Pa, StandsOn,
      SetWord, Cleared, HeapPages, Run, Fresh, TablesTaken;
    ghost var sp, h := Space(a.mem, tr, a.free), a.State();
    PageAddress(tr.root, root);
    NoTables(h);
    Start(sp, va);
    fault, tr', pt := false, tr, root;
    var level := 2;
    while level > 0
      invariant 0 <= level <= 2
      invariant a.Valid() && TablesTaken(h, a.State()) && AtLevel(sp, va, level, Space(a.mem, tr', a.free))
      invariant StandsOn(tr', va, level, PageOf(pt))
    {
      var vpn := Px(level, va);
      ghost var cur := Space(a.mem, tr', a.free);
      Follow(sp, va, level, cur, PageOf(pt));
      var pte := a.mem[PageOf(pt)][vpn];
      if Valid(pte) {
        pt := Pte2Pa(pte);
      } else {
        ghost var before := a.State();
        var next := TakePage(a);
        if next == 0 {
          NoTableTaken(before, a.State());
          return true, 0, tr';
        }
        OneTable(h, before, a.State());
        ghost var grown := Install(sp, va, level, cur, PageOf(pt));
        LinkTable(a, pt, vpn, next, cur.free[0]);
        pt, tr' := next, grown.tree;
      }
      level := level - 1;
    }
    Arrived(sp, va, Space(a.mem, tr', a.free));
  }

  lemma NoTableTaken(h: Heap, h': Heap)
    requires h' == PageAllocator.Apply(h, Alloc(PAGE_SIZE)) && h.free == []
    ensures h' == h
  {
    OnePage(h.free);
  }

  /** Clears the page at `next` and makes the entry `vpn` of table `pt` point to it. */
  method LinkTable(a: Allocator, pt: nat, vpn: nat, next: nat, ghost p: nat)
    requires a.Valid() && next == AddrOf(p) && p < PPN_LIMIT && IsPage(a.mem, p)
    requires IsPage(a.mem, PageOf(pt)) && vpn < WORDS && PageOf(pt) !in a.free && p !in a.free
    modifies a`mem
    ensures a.Valid() && PageOf(next) == p
    ensures a.mem == SetWord(Cleared(old(a.mem), p), PageOf(pt), vpn, Pointer(p))
  {
    hide Chain, Pointer, HeapPages, Run, Fresh;
    ghost var mem0 := a.mem;
    PageAddress(p, next);
    PointerAddress(p);
    a.mem := Cleared(a.mem, PageOf(next));
    a.mem := SetWord(a.mem, PageOf(pt), vpn, VirtToPhys(next) / 0x1000 * 1024 + 1);
    ChainFrame(mem0, a.mem, a.freeList, a.free);
    HeapPagesKept(mem0, a.mem, a.heapStart, a.heapEnd);
  }

  lemma Stored(sp: Space, va: nat, pa: nat, flags: nat, p: nat)
    requires SpaceOk(sp) && CanMap(sp, va) && StandsOn(Opened(sp, va).tree, va, 0, p)
    ensures IsPage(Opened(sp, va).mem, p) && p !in Opened(sp, va).free
    ensures PT.MapPage(sp, va, pa, flags) ==
            Opened(sp, va).(mem := SetWord(Opened(sp, va).mem, p, Px(0, va), LeafPte(pa, flags)))
  {
    hide InTree, Px, LeafPte, OnePath;
    InTreeFacts(Opened(sp, va).tree);
  }

  /** `mem_alloc(PAGE_SIZE)`: the first free page, or NULL. */
  method TakePage(a: Allocator) returns (r: nat)
    requires a.Valid()
    modifies a`mem, a`freeList, a`freeCount, a`free, a`owner, a`serial, a`trace
    ensures a.Valid() && a.mem == old(a.mem)
    ensures a.State() == PageAllocator.Apply(old(a.State()), Alloc(PAGE_SIZE))
    ensures old(a.free) == [] ==> r == 0 && a.free == []
    ensures old(a.free) != [] ==> r == AddrOf(old(a.free)[0]) > 0 && a.free == old(a.free)[1..]
  {
    hide Chain, Without, RunFree, HeapPages, Run, Fresh, PagesKept;
    OnePage(a.free);
    if a.freeCount > 0 {
      SinglePage(a.free);
      NullIsEnd(a.mem, a.freeList, a.free, 0);
    }
    r := a.MemAlloc(PAGE_SIZE);
  }

  lemma OnePage(free: seq<nat>)
    ensures PagesFor(PAGE_SIZE) == 1
    ensures free == [] ==> Request(free, PAGE_SIZE) == (Refused, [])
  {
  }

  // ---------- va2pa ----------

  /** No superpage leaf on the path: neither routine tests for one. */
  ghost predicate NoSuperpage(mem: Memory, tr: Tree, va: nat)
    requires TreeOk(mem, tr)
  {
    var i, j := Px(2, va), Px(1, va);
    if i !in tr.t1 then !Valid(mem[tr.root][i])
    else (i, j) !in tr.t0 ==> IsPage(mem, tr.t1[i]) && !Valid(mem[tr.t1[i]][j])
  }

  /** The valid level-0 entry that the path of `va` ends in, if there is one. */
  ghost function LastEntry(mem: Memory, tr: Tree, va: nat): Option<nat>
    requires TreeOk(mem, tr)
  {
    var x := (Px(2, va), Px(1, va));
    if x in tr.t0 && Valid(mem[tr.t0[x]][Px(0, va)]) then Some(mem[tr.t0[x]][Px(0, va)]) else None
  }

  /** A canonical address whose path ends in an entry that the hardware accepts as a leaf. */
  ghost predicate Mapped(mem: Memory, tr: Tree, va: nat)
    requires TreeOk(mem, tr)
  {
    var last := LastEntry(mem, tr, va);
    Canonical(va) && last.Some? && Usable(last.value) && Leaf(last.value)
  }

  /** `va2pa` returns the hardware's translation exactly for the addresses that are mapped; for every
      other address the hardware faults. Where the path ends early it returns 0. It tests neither that
      the address is canonical nor that the last entry is legal, and answers there although the
      hardware faults. */
  method Va2Pa(mem: Memory, root: nat, va: nat, ghost tr: Tree) returns (pa: nat)
    requires TreeOk(mem, tr) && root == AddrOf(tr.root) && NoSuperpage(mem, tr, va)
    ensures Translate(mem, tr.root, va) == Some(pa) <==> Mapped(mem, tr, va)
    ensures Translate(mem, tr.root, va) == None <==> !Mapped(mem, tr, va)
    ensures var last := LastEntry(mem, tr, va);
            pa == if last.None? then 0 else last.value / 1024 * 0x1000 % 0x1_0000_0000_0000_0000 + va % 0x1000
  {
    hide TreeOk, Px, Pte2Pa, Level2, NoSuperpage, LastEntry, Valid, Usable, Leaf, StandsOn, Canonical;
    var pt: nat := root;
    var level := 2;
    PageAddress(tr.root, root);
    AtRoot(tr, va);
    while level > 0
      invariant 0 <= level <= 2
      invariant StandsOn(tr, va, level, PageOf(pt))
    {
      Reads(mem, tr, va, level, PageOf(pt));
      var pte := mem[PageOf(pt)][Px(level, va)];
      if !Valid(pte) {
        return 0;
      }
      pt := Pte2Pa(pte);
      level := level - 1;
    }
    ReadsLeaf(mem, tr, va, PageOf(pt));
    var pte := mem[PageOf(pt)][Px(0, va)];
    if !Valid(pte) {
      return 0;
    }
    pa := Pte2Pa(pte) + va % 0x1000;
    PageNumberShifted(pte);
  }

  /** The page number of an entry, shifted to an address of 64 bits. */
  lemma PageNumberShifted(pte: nat)
    ensures Pte2Pa(pte) == pte / 1024 * 0x1000 % 0x1_0000_0000_0000_0000
  {
  }

  lemma AtRoot(tr: Tree, va: nat)
    ensures StandsOn(tr, va, 2, tr.root)
  {
  }

  lemma Reads(mem: Memory, tr: Tree, va: nat, level: nat, p: nat)
    requires TreeOk(mem, tr) && NoSuperpage(mem, tr, va) && 1 <= level <= 2 && StandsOn(tr, va, level, p)
    ensures IsPage(mem, p)
    ensures Valid(mem[p][Px(level, va)]) ==> StandsOn(tr, va, level - 1, PageOf(Pte2Pa(mem[p][Px(level, va)])))
    ensures !Valid(mem[p][Px(level, va)]) ==> Level2(mem, tr.root, va) == None && LastEntry(mem, tr, va) == None
  {
    hide Px, Pte2Pa, Leaf, Ppn, Level1, LeafAddress, InTree;
    var i, j := Px(2, va), Px(1, va);
    if level == 2 {
      if i in tr.t1 {
        PointerAddress(tr.t1[i]);
        assert mem[p][i] == Pointer(tr.t1[i]);
        assert StandsOn(tr, va, 1, tr.t1[i]);
      } else {
        WalkNoTable1(mem, tr, va);
      }
    } else {
      assert Middle(mem, tr, i);
      if (i, j) in tr.t0 {
        PointerAddress(tr.t0[(i, j)]);
        assert mem[p][j] == Pointer(tr.t0[(i, j)]);
        assert StandsOn(tr, va, 0, tr.t0[(i, j)]);
      } else {
        WalkNoTable0(mem, tr, va);
      }
    }
  }

  lemma ReadsLeaf(mem: Memory, tr: Tree, va: nat, p: nat)
    requires TreeOk(mem, tr) && StandsOn(tr, va, 0, p)
    ensures IsPage(mem, p)
    ensures var pte := mem[p][Px(0, va)];
            && LastEntry(mem, tr, va) == (if Valid(pte) then Some(pte) else None)
            && Level2(mem, tr.root, va) ==
               if Usable(pte) && Leaf(pte) then Some(Pte2Pa(pte) + va % 0x1000) else None
    ensures Usable(mem[p][Px(0, va)]) ==> Valid(mem[p][Px(0, va)])
  {
    hide Px, Pte2Pa, Level1, Level2, LeafAddress, Leaf;
    WalkTable0(mem, tr, va);
    var pte := mem[p][Px(0, va)];
    if Usable(pte) {
      SmallLeaf(pte, va);
    }
  }

  lemma SmallLeaf(pte: nat, va: nat)
    requires pte < PTE_LIMIT
    ensures LeafAddress(pte, 0, va) == Some(Pte2Pa(pte) + va % 0x1000)
  {
    Div1024(pte, pte / 1024, pte % 1024);
    assert pte / 1024 < PPN_LIMIT;
  }

  /** An address and its alias 2^39 bytes higher have the same path. The alias is not canonical, so the
      hardware faults on it, but `va2pa` finds the same last entry. */
  lemma NonCanonicalAlias(mem: Memory, tr: Tree, va: nat)
    requires TreeOk(mem, tr) && va < 0x40_0000_0000 && Mapped(mem, tr, va)
    ensures var alias := va + 0x80_0000_0000;
            && LastEntry(mem, tr, alias) == LastEntry(mem, tr, va) && alias % 0x1000 == va % 0x1000
            && Translate(mem, tr.root, va).Some? && Translate(mem, tr.root, alias) == None && !Mapped(mem, tr, alias)
  {
    hide TreeOk, Level1, LeafAddress, Usable, Leaf, Valid, Pte2Pa;
    AliasIndices(va);
    hide Px;
    ReadsLeaf(mem, tr, va, tr.t0[(Px(2, va), Px(1, va))]);
  }

  lemma AliasIndices(va: nat)
    ensures var alias := va + 0x80_0000_0000;
            && Px(2, alias) == Px(2, va) && Px(1, alias) == Px(1, va) && Px(0, alias) == Px(0, va)
            && alias % 0x1000 == va % 0x1000
  {
    var alias := va + 0x80_0000_0000;
    var n := va / 0x1000;
    var m := n / 0x200;
    var k := m / 0x200;
    NestedDivision(va);
    NestedDivision(alias);
    Div4096(alias, n + 0x800_0000, va % 0x1000);
    Div512(n + 0x800_0000, m + 0x4_0000, n % 0x200);
    Div512(m + 0x4_0000, k + 0x200, m % 0x200);
    Div512(k + 0x200, k / 0x200 + 1, k % 0x200);
  }
}

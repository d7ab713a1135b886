/**
 The kernel's address space: sequences of `map_page` calls, how many table pages they cost, and
 the two tables of the boot: the one built before paging is switched on and the one built by
 `mem_init` that replaces it.
 */
module KernelSpace {
  import opened Basics
  import opened PageAllocator
  import opened PageHeap
  import opened Sv39
  import opened PageTable

  datatype Mapping = Mapping(va: nat, pa: nat, flags: nat)

  // ---------- sequences of map_page calls ----------

  /** No megapage leaves anywhere, and no gigapage leaf at a level-2 index that is to be mapped. */
  ghost predicate Open(sp: Space, ms: seq<Mapping>)
    requires SpaceOk(sp)
  {
    && (forall i, j: nat :: i in sp.tree.t1 && j < WORDS && (i, j) !in sp.tree.t0 ==>
          IsPage(sp.mem, sp.tree.t1[i]) && !Valid(sp.mem[sp.tree.t1[i]][j]))
    && (forall m :: m in ms ==> Px(2, m.va) in sp.tree.t1 || !Valid(sp.mem[sp.tree.root][Px(2, m.va)]))
  }

  ghost function Prefixes2(ms: seq<Mapping>): set<nat> {
    set m | m in ms :: Px(2, m.va)
  }

  ghost function Prefixes1(ms: seq<Mapping>): set<(nat, nat)> {
    set m | m in ms :: (Px(2, m.va), Px(1, m.va))
  }

  /** How many tables a sequence of mappings adds: the new level-2 prefixes and the new
      level-2/level-1 prefixes among its addresses. */
  ghost function Cost(tr: Tree, ms: seq<Mapping>): nat {
    |Prefixes2(ms) - tr.t1.Keys| + |Prefixes1(ms) - tr.t0.Keys|
  }

  ghost function MapAll(sp: Space, ms: seq<Mapping>): (r: Space)
    requires SpaceOk(sp) && Open(sp, ms) && Cost(sp.tree, ms) <= |sp.free|
    ensures SpaceOk(r)
    decreases |ms|
  {
    if ms == [] then sp
    else
      var m := ms[0];
      FirstFits(sp, ms);
      FirstLeavesRest(sp, ms);
      MapAll(MapPage(sp, m.va, m.pa, m.flags), ms[1..])
  }

  lemma NewMembers<T>(a: set<T>, b: set<T>, x: T)
    ensures |(a + {x}) - b| == |a - (b + {x})| + (if x in b then 0 else 1)
  {
    var rest := a - (b + {x});
    if x in b {
      assert (a + {x}) - b == rest;
    } else {
      assert (a + {x}) - b == rest + {x};
    }
  }

  lemma PrefixesCons(ms: seq<Mapping>)
    requires ms != []
    ensures Prefixes2(ms) == Prefixes2(ms[1..]) + {Px(2, ms[0].va)}
    ensures Prefixes1(ms) == Prefixes1(ms[1..]) + {(Px(2, ms[0].va), Px(1, ms[0].va))}
  {
    hide Px;
    var m, rest := ms[0], ms[1..];
    assert ms == [m] + rest;
  }

  lemma CostSplits(tr: Tree, tr': Tree, ms: seq<Mapping>)
    requires ms != [] && OnePath(tr)
    requires tr'.t1.Keys == tr.t1.Keys + {Px(2, ms[0].va)}
    requires tr'.t0.Keys == tr.t0.Keys + {(Px(2, ms[0].va), Px(1, ms[0].va))}
    ensures Cost(tr, ms) == Missing(tr, ms[0].va) + Cost(tr', ms[1..])
  {
    hide Px, Prefixes1, Prefixes2;
    PrefixesCons(ms);
    NewMembers(Prefixes2(ms[1..]), tr.t1.Keys, Px(2, ms[0].va));
    NewMembers(Prefixes1(ms[1..]), tr.t0.Keys, (Px(2, ms[0].va), Px(1, ms[0].va)));
  }

  lemma FirstFits(sp: Space, ms: seq<Mapping>)
    requires SpaceOk(sp) && ms != [] && Open(sp, ms) && Cost(sp.tree, ms) <= |sp.free|
    ensures CanMap(sp, ms[0].va)
  {
    hide Px, TreeOk, Cost;
    var i, x := Px(2, ms[0].va), (Px(2, ms[0].va), Px(1, ms[0].va));
    assert ms[0] in ms;
    AtLeastMissing(sp, ms);
  }

  lemma AtLeastMissing(sp: Space, ms: seq<Mapping>)
    requires SpaceOk(sp) && ms != []
    ensures Missing(sp.tree, ms[0].va) <= Cost(sp.tree, ms)
  {
    hide Px;
    var i, x := Px(2, ms[0].va), (Px(2, ms[0].va), Px(1, ms[0].va));
    assert ms[0] in ms;
    assert i in Prefixes2(ms) && x in Prefixes1(ms);
    if x !in sp.tree.t0 {
      SubsetSize({x}, Prefixes1(ms) - sp.tree.t0.Keys);
    }
    if i !in sp.tree.t1 {
      NoOrphans(sp, x.0, x.1);
      SubsetSize({i}, Prefixes2(ms) - sp.tree.t1.Keys);
    }
  }

  /** Mapping the first of a sequence pays for exactly its share of the cost. */
  lemma FirstLeaves(sp: Space, ms: seq<Mapping>)
    requires SpaceOk(sp) && ms != [] && Open(sp, ms) && CanMap(sp, ms[0].va)
    ensures var sp' := MapPage(sp, ms[0].va, ms[0].pa, ms[0].flags);
            Open(sp', ms[1..]) && |sp.free| - Cost(sp.tree, ms) == |sp'.free| - Cost(sp'.tree, ms[1..])
  {
    hide Px, Cost, Prefixes1, Prefixes2;
    var m := ms[0];
    var sp' := MapPage(sp, m.va, m.pa, m.flags);
    MapPageFrame(sp, m.va, m.pa, m.flags);
    CostSplits(sp.tree, sp'.tree, ms);
    MapPageOpen(sp, ms);
  }

  lemma FirstLeavesRest(sp: Space, ms: seq<Mapping>)
    requires SpaceOk(sp) && ms != [] && Open(sp, ms) && Cost(sp.tree, ms) <= |sp.free| && CanMap(sp, ms[0].va)
    ensures var sp' := MapPage(sp, ms[0].va, ms[0].pa, ms[0].flags);
            Open(sp', ms[1..]) && Cost(sp'.tree, ms[1..]) <= |sp'.free|
  {
    hide SpaceOk, CanMap, Open, Cost, MapPage;
    FirstLeaves(sp, ms);
  }

  /** No superpage is in the way of a sequence, so only a lack of pages can stop its first mapping, and
      then the whole sequence costs more than there is. */
  lemma FirstWalks(sp: Space, ms: seq<Mapping>)
    requires SpaceOk(sp) && ms != [] && Open(sp, ms)
    ensures CanWalk(sp, ms[0].va)
    ensures CanMap(sp, ms[0].va) || Cost(sp.tree, ms) > |sp.free|
  {
    hide Px, TreeOk, Cost;
    assert ms[0] in ms;
    AtLeastMissing(sp, ms);
  }

  /** `map_page` creates no leaf above level 0. */
  lemma MapPageOpen(sp: Space, ms: seq<Mapping>)
    requires SpaceOk(sp) && ms != [] && Open(sp, ms) && CanMap(sp, ms[0].va)
    ensures Open(MapPage(sp, ms[0].va, ms[0].pa, ms[0].flags), ms[1..])
  {
    var m := ms[0];
    var i, j := Px(2, m.va), Px(1, m.va);
    var sp1 := Opened2(sp, m.va);
    assert Open(sp1, ms) by { Open1(sp, ms); }
    var sp2 := Opened(sp, m.va);
    assert Open(sp2, ms) by { Open0(sp1, ms); }
    OpenLeaf(sp2, ms, i, j, Px(0, m.va), LeafPte(m.pa, m.flags));
    hide SpaceOk, Open, Px, Opened, Opened2, LeafPte;
  }

  lemma Open1(sp: Space, ms: seq<Mapping>)
    requires SpaceOk(sp) && ms != [] && Open(sp, ms) && CanMap(sp, ms[0].va)
    ensures Open(Opened2(sp, ms[0].va), ms)
  {
    hide Px, InTree, Pointer, NoTable;
    var i := Px(2, ms[0].va);
    if i !in sp.tree.t1 {
      AddTable1Tree(sp, i);
      FreshPage(sp);
      AddTable1Ok(sp, i);
      OpenAfter1(sp, AddTable1(sp, i), ms, i);
    }
  }

  lemma OpenAfter1(sp: Space, sp': Space, ms: seq<Mapping>, i: nat)
    requires SpaceOk(sp) && SpaceOk(sp') && Open(sp, ms) && i !in sp.tree.t1 && sp.free != []
    requires Outside(sp.tree, sp.free[0]) && Installed(sp.mem, sp'.mem, sp.tree.root, i, sp.free[0])
    requires sp'.tree == sp.tree.(t1 := sp.tree.t1[i := sp.free[0]])
    ensures Open(sp', ms)
  {
    hide Px, InTree, Pointer, NoTable, Middle;
    var tr := sp'.tree;
    forall k, l: nat | k in tr.t1 && l < WORDS && (k, l) !in tr.t0
      ensures IsPage(sp'.mem, tr.t1[k]) && !Valid(sp'.mem[tr.t1[k]][l])
    {
      if k != i {
        assert IsPage(sp.mem, sp.tree.t1[k]) && !Valid(sp.mem[sp.tree.t1[k]][l]);
      }
    }
  }

  lemma Open0(sp: Space, ms: seq<Mapping>)
    requires SpaceOk(sp) && ms != [] && Open(sp, ms) && CanMap(sp, ms[0].va) && Px(2, ms[0].va) in sp.tree.t1
    ensures Open(Opened(sp, ms[0].va), ms)
  {
    hide Px, InTree, Pointer, NoTable;
    var i, j := Px(2, ms[0].va), Px(1, ms[0].va);
    if (i, j) !in sp.tree.t0 {
      AddTable0Tree(sp, i, j);
      FreshPage(sp);
      AddTable0Ok(sp, i, j);
      OpenAfter0(sp, AddTable0(sp, i, j), ms, i, j);
    }
  }

  lemma OpenAfter0(sp: Space, sp': Space, ms: seq<Mapping>, i: nat, j: nat)
    requires SpaceOk(sp) && SpaceOk(sp') && Open(sp, ms) && i in sp.tree.t1 && sp.free != []
    requires Outside(sp.tree, sp.free[0]) && Installed(sp.mem, sp'.mem, sp.tree.t1[i], j, sp.free[0])
    requires sp'.tree == sp.tree.(t0 := sp.tree.t0[(i, j) := sp.free[0]])
    ensures Open(sp', ms)
  {
    hide Px, InTree, Pointer, NoTable, Middle, Outside, Installed;
    var tr := sp.tree;
    forall k, l: nat | k in tr.t1 && l < WORDS && (k, l) !in sp'.tree.t0
      ensures IsPage(sp'.mem, tr.t1[k]) && !Valid(sp'.mem[tr.t1[k]][l])
    {
      assert IsPage(sp.mem, tr.t1[k]) && !Valid(sp.mem[tr.t1[k]][l]);
      OtherEntry(sp.mem, sp'.mem, tr, i, j, sp.free[0], k, l);
    }
    RootStays(sp.mem, sp'.mem, tr, i, j, sp.free[0]);
  }

  /** Installing a level-0 table leaves every other level-1 entry. */
  lemma OtherEntry(mem: Memory, mem': Memory, tr: Tree, i: nat, j: nat, p: nat, k: nat, l: nat)
    requires OnePath(tr) && i in tr.t1 && k in tr.t1 && Outside(tr, p) && Installed(mem, mem', tr.t1[i], j, p)
    requires IsPage(mem, tr.t1[k]) && l < WORDS && (k, l) != (i, j)
    ensures IsPage(mem', tr.t1[k]) && mem'[tr.t1[k]][l] == mem[tr.t1[k]][l]
  {
    hide Pointer;
    assert k != i ==> tr.t1[k] != tr.t1[i];
  }

  lemma RootStays(mem: Memory, mem': Memory, tr: Tree, i: nat, j: nat, p: nat)
    requires OnePath(tr) && i in tr.t1 && Outside(tr, p) && Installed(mem, mem', tr.t1[i], j, p) && IsPage(mem, tr.root)
    ensures IsPage(mem', tr.root) && mem'[tr.root] == mem[tr.root]
  {
    hide Pointer;
  }

  lemma OpenLeaf(sp: Space, ms: seq<Mapping>, i: nat, j: nat, k: nat, pte: nat)
    requires SpaceOk(sp) && ms != [] && Open(sp, ms) && (i, j) in sp.tree.t0 && k < WORDS
    ensures SpaceOk(SetLeaf(sp, i, j, k, pte)) && Open(SetLeaf(sp, i, j, k, pte), ms[1..])
  {
    SetLeafOk(sp, i, j, k, pte);
    hide Px, InTree;
  }

  /** `sp'` is `sp` after paying for the tables of `ms`. */
  ghost predicate Charged(sp: Space, sp': Space, ms: seq<Mapping>) {
    && Cost(sp.tree, ms) <= |sp.free| && sp'.free == sp.free[Cost(sp.tree, ms)..]
    && sp'.tree.root == sp.tree.root
    && sp'.tree.t1.Keys == sp.tree.t1.Keys + Prefixes2(ms)
    && sp'.tree.t0.Keys == sp.tree.t0.Keys + Prefixes1(ms)
    && Spares(sp, sp')
  }

  lemma ChargedStep(sp: Space, sp1: Space, sp2: Space, ms: seq<Mapping>)
    requires ms != [] && OnePath(sp.tree) && Charged(sp1, sp2, ms[1..]) && Spares(sp, sp1)
    requires Missing(sp.tree, ms[0].va) <= |sp.free| && sp1.free == sp.free[Missing(sp.tree, ms[0].va)..]
    requires sp1.tree.root == sp.tree.root
    requires sp1.tree.t1.Keys == sp.tree.t1.Keys + {Px(2, ms[0].va)}
    requires sp1.tree.t0.Keys == sp.tree.t0.Keys + {(Px(2, ms[0].va), Px(1, ms[0].va))}
    ensures Charged(sp, sp2, ms)
  {
    hide Px, Spares, Cost, Missing, Prefixes1, Prefixes2, OnePath;
    PrefixesCons(ms);
    CostSplits(sp.tree, sp1.tree, ms);
    SkipTwice(sp.free, Missing(sp.tree, ms[0].va), Cost(sp1.tree, ms[1..]));
    SparesTwice(sp, sp1, sp2);
  }

  /** The tables taken for any sequence of mappings are exactly its distinct new prefixes, and pages
      that belong to neither this tree nor the free list are untouched. */
  lemma {:induction false} MapAllCost(sp: Space, ms: seq<Mapping>)
    requires SpaceOk(sp) && Open(sp, ms) && Cost(sp.tree, ms) <= |sp.free|
    ensures Charged(sp, MapAll(sp, ms), ms)
    decreases |ms|
  {
    hide SpaceOk, OnePath, Px, Open, MapPage, CanMap, Spares, Cost, Missing, Charged;
    if ms == [] {
      ChargedNothing(sp);
    } else {
      FirstFits(sp, ms);
      FirstLeavesRest(sp, ms);
      var sp1 := MapPage(sp, ms[0].va, ms[0].pa, ms[0].flags);
      MapPageFrame(sp, ms[0].va, ms[0].pa, ms[0].flags);
      MapAllCost(sp1, ms[1..]);
      PathOf(sp);
      EnoughFor(sp, ms[0].va);
      ChargedStep(sp, sp1, MapAll(sp1, ms[1..]), ms);
    }
  }

  lemma ChargedNothing(sp: Space)
    ensures Charged(sp, sp, [])
  {
    assert Prefixes2([]) == {} && Prefixes1([]) == {};
  }

  lemma EnoughFor(sp: Space, va: nat)
    requires SpaceOk(sp) && CanMap(sp, va)
    ensures Missing(sp.tree, va) <= |sp.free|
  {
  }

  lemma PathOf(sp: Space)
    requires SpaceOk(sp)
    ensures OnePath(sp.tree)
  {
  }

  /** What a sequence of mappings makes of the translation `t` of address `x`. */
  ghost function Effect(ms: seq<Mapping>, x: nat, t: Option<nat>): Option<nat>
    decreases |ms|
  {
    if ms == [] then t
    else
      var m := ms[0];
      Effect(ms[1..], x,
             if Vpn(x) != Vpn(m.va) then t
             else if LegalLeaf(m.pa, m.flags) then Some(LeafPage(m.pa, m.flags) * 0x1000 + x % 0x1000) else None)
  }

  /** Any sequence of `map_page` calls refines the corresponding map updates. */
  lemma {:induction false} MapAllRefines(sp: Space, ms: seq<Mapping>, x: nat)
    requires SpaceOk(sp) && Open(sp, ms) && Cost(sp.tree, ms) <= |sp.free| && Canonical(x)
    ensures Translate(MapAll(sp, ms).mem, sp.tree.root, x) == Effect(ms, x, Translate(sp.mem, sp.tree.root, x))
    decreases |ms|
  {
    hide SpaceOk, Open, Cost, Missing, CanMap, MapPage, Translate, Canonical, Vpn, LegalLeaf, LeafPage;
    if ms != [] {
      var m := ms[0];
      FirstFits(sp, ms);
      FirstLeavesRest(sp, ms);
      var sp1 := MapPage(sp, m.va, m.pa, m.flags);
      MapPageRefines(sp, m.va, m.pa, m.flags, x);
      SameRoot(sp, m);
      MapAllRefines(sp1, ms[1..], x);
    }
  }

  lemma SameRoot(sp: Space, m: Mapping)
    requires SpaceOk(sp) && CanMap(sp, m.va)
    ensures MapPage(sp, m.va, m.pa, m.flags).tree.root == sp.tree.root
  {
    hide Missing, Spares;
    MapPageFrame(sp, m.va, m.pa, m.flags);
  }

  // ---------- the two kernel tables ----------

  const BASE_ADDR: nat := 0x8000_0000
  const MMIO_BASE: nat := 0x1000_0000
  const VIRTIO_SLOTS: nat := 8

  /** `PA2PTE(BASE_ADDR) | PTE_V | PTE_R | PTE_W | PTE_X` */
  const GIGAPAGE: nat := BASE_ADDR / 0x1000 * 1024 + 15

  /** The VirtIO slots from `slot` on, identity-mapped with R and W. */
  function Slots(slot: nat): (ms: seq<Mapping>)
    decreases VIRTIO_SLOTS + 1 - slot
  {
    if slot > VIRTIO_SLOTS then []
    else [Mapping(MMIO_BASE + slot * 0x1000, MMIO_BASE + slot * 0x1000, 6)] + Slots(slot + 1)
  }

  /** The UART page with all permissions, then the VirtIO slots. */
  function DeviceMappings(): (ms: seq<Mapping>)
  {
    [Mapping(MMIO_BASE, MMIO_BASE, 15)] + Slots(1)
  }

  /** A cleared root with the identity and the high-half gigapage. */
  ghost function BareRoot(mem: Memory, root: nat): (r: Memory)
    requires IsPage(mem, root)
    ensures IsPage(r, root) && r.Keys == mem.Keys
  {
    SetWord(SetWord(Cleared(mem, root), root, Px(2, BASE_ADDR), GIGAPAGE), root, Px(2, KERNEL_BASE_VA), GIGAPAGE)
  }

  /** What the kernel's address space means: one gigabyte of memory, at its own address and at the top of
      the address space, and the nine device pages at their own addresses. */
  function KernelMap(x: nat): Option<nat> {
    if 0x8000_0000 <= x < 0xC000_0000 then Some(x)
    else if 0xFFFF_FFC0_8000_0000 <= x < 0xFFFF_FFC0_C000_0000 then Some(x - 0xFFFF_FFC0_0000_0000)
    else if 0x1000_0000 <= x < 0x1000_9000 then Some(x)
    else None
  }

  /** The same by table index and page number. */
  lemma KernelMapByIndex(x: nat)
    ensures KernelMap(x) ==
            if !Canonical(x) then None
            else if Px(2, x) == 2 || Px(2, x) == 258 then Some(BASE_ADDR + x % 0x4000_0000)
            else if MMIO_BASE / 0x1000 <= Vpn(x) <= MMIO_BASE / 0x1000 + VIRTIO_SLOTS
            then Some(Vpn(x) * 0x1000 + x % 0x1000)
            else None
  {
    if x < 0x40_0000_0000 {
      LowIndices(x);
    } else if Canonical(x) {
      HighIndices(x, x - 0xFFFF_FFC0_0000_0000);
    }
  }

  lemma LowIndices(x: nat)
    requires x < 0x40_0000_0000
    ensures Px(2, x) == x / 0x4000_0000 < 256 && Vpn(x) == x / 0x1000
  {
  }

  lemma HighIndices(x: nat, low: nat)
    requires x == 0xFFFF_FFC0_0000_0000 + low && low < 0x40_0000_0000
    ensures Px(2, x) == 256 + low / 0x4000_0000 && Vpn(x) >= 0x400_0000 && x % 0x4000_0000 == low % 0x4000_0000
  {
    assert x / 0x4000_0000 == 0x3_FFFF_FF00 + low / 0x4000_0000;
    assert x / 0x1000 == 0xF_FFFF_FC00_0000 + low / 0x1000;
  }

  /** The device mappings one by one: each page at its own address, the UART with R, W and X, the VirtIO
      slots with R and W. */
  lemma DeviceList(i: nat)
    ensures |DeviceMappings()| == 9
    ensures i < 9 ==>
              var a := 0x1000_0000 + i * 0x1000;
              DeviceMappings()[i] == Mapping(a, a, if i == 0 then 0xF else 0x6)
  {
    if 0 < i < 9 {
      SlotAt(1, i - 1);
    } else {
      SlotAt(1, 0);
    }
  }

  lemma {:induction false} SlotAt(slot: nat, i: nat)
    requires slot + i <= 8
    ensures |Slots(slot)| == 9 - slot
    ensures Slots(slot)[i] == Mapping(0x1000_0000 + (slot + i) * 0x1000, 0x1000_0000 + (slot + i) * 0x1000, 0x6)
    decreases i, 8 - slot
  {
    if i > 0 {
      SlotAt(slot + 1, i - 1);
    } else if slot < 8 {
      SlotAt(slot + 1, 0);
    }
  }

  /** A root page outside the free list of a heap. */
  ghost predicate Prepared(mem: Memory, root: nat, free: seq<nat>) {
    && IsPage(mem, root) && root !in free && Distinct(free)
    && forall p: nat :: p in free ==> IsPage(mem, p) && p < PPN_LIMIT
  }

  ghost function BareSpace(mem: Memory, root: nat, free: seq<nat>): Space
    requires IsPage(mem, root)
  {
    Space(BareRoot(mem, root), Tree(root, map[], map[]), free)
  }

  lemma KernelIndices()
    ensures Px(2, BASE_ADDR) == 2 && Px(2, KERNEL_BASE_VA) == 258
    ensures Usable(GIGAPAGE) && Leaf(GIGAPAGE) && Ppn(GIGAPAGE) * 0x1000 == BASE_ADDR
  {
  }

  lemma BareSpaceOk(mem: Memory, root: nat, free: seq<nat>)
    requires Prepared(mem, root, free)
    ensures SpaceOk(BareSpace(mem, root, free))
    ensures BareRoot(mem, root)[root][2] == 0x2000_000F == BareRoot(mem, root)[root][258]
    ensures forall i :: 0 <= i < WORDS && i != 2 && i != 258 ==> BareRoot(mem, root)[root][i] == 0
    ensures forall p :: p in mem && p != root ==> BareRoot(mem, root)[p] == mem[p]
  {
    hide Px, Usable, Leaf, Ppn;
    KernelIndices();
    ZeroEntry();
  }

  lemma BareTranslate(mem: Memory, root: nat, free: seq<nat>, x: nat)
    requires Prepared(mem, root, free) && Canonical(x)
    ensures Translate(BareRoot(mem, root), root, x) ==
            if Px(2, x) == 2 || Px(2, x) == 258 then Some(BASE_ADDR + x % 0x4000_0000) else None
  {
    hide Px, Usable, Leaf, Ppn, TreeOk, Level1, Level2, BareRoot;
    BareSpaceOk(mem, root, free);
    KernelIndices();
    ZeroEntry();
    var sp := BareSpace(mem, root, free);
    WalkNoTable1(sp.mem, sp.tree, x);
    assert BASE_ADDR % 0x4000_0000 == 0;
  }

  // The device mappings lie under one level-2 and one level-1 index.

  lemma {:induction false} SlotIndices(slot: nat, m: Mapping)
    requires m in Slots(slot)
    ensures Px(2, m.va) == 0 && Px(1, m.va) == 128
    decreases VIRTIO_SLOTS + 1 - slot
  {
    if m != Slots(slot)[0] {
      assert m in Slots(slot + 1);
      SlotIndices(slot + 1, m);
    }
  }

  /** UART and VirtIO slots cost exactly two table pages on a fresh root. */
  lemma DeviceCost(root: nat)
    ensures Prefixes2(DeviceMappings()) == {0} && Prefixes1(DeviceMappings()) == {(0, 128)}
    ensures Cost(Tree(root, map[], map[]), DeviceMappings()) == 2
  {
    hide Px, DeviceMappings;
    var ms := DeviceMappings();
    DeviceIndices();
    assert ms[0] in ms;
    assert Prefixes2(ms) == {0};
    assert Prefixes1(ms) == {(0, 128)};
    var tr := Tree(root, map[], map[]);
    assert Prefixes2(ms) - tr.t1.Keys == {0} && Prefixes1(ms) - tr.t0.Keys == {(0, 128)};
  }

  lemma DeviceIndices()
    ensures DeviceMappings() != []
    ensures forall m :: m in DeviceMappings() ==> Px(2, m.va) == 0 && Px(1, m.va) == 128
  {
    hide Px, Slots;
    var ms := DeviceMappings();
    UartPage();
    forall m | m in ms ensures Px(2, m.va) == 0 && Px(1, m.va) == 128 {
      if m != ms[0] {
        assert m in Slots(1);
        SlotIndices(1, m);
      }
    }
  }

  lemma UartPage()
    ensures Px(2, MMIO_BASE) == 0 && Px(1, MMIO_BASE) == 128
    ensures Vpn(MMIO_BASE) == MMIO_BASE / 0x1000 && LegalLeaf(MMIO_BASE, 15)
    ensures LeafPage(MMIO_BASE, 15) == MMIO_BASE / 0x1000
  {
    hide Or, LeafPage;
    PlainLeaf(MMIO_BASE, 15);
  }

  lemma SlotPage(slot: nat)
    requires slot <= VIRTIO_SLOTS
    ensures var addr := MMIO_BASE + slot * 0x1000;
            && Vpn(addr) == MMIO_BASE / 0x1000 + slot && LegalLeaf(addr, 6)
            && LeafPage(addr, 6) == MMIO_BASE / 0x1000 + slot
  {
    hide Or, LeafPage;
    PlainLeaf(MMIO_BASE + slot * 0x1000, 6);
  }

  lemma SlotEffect(slot: nat, x: nat, t: Option<nat>)
    requires slot <= VIRTIO_SLOTS + 1
    ensures Effect(Slots(slot), x, t) ==
            if MMIO_BASE / 0x1000 + slot <= Vpn(x) <= MMIO_BASE / 0x1000 + VIRTIO_SLOTS
            then Some(Vpn(x) * 0x1000 + x % 0x1000) else t
    decreases VIRTIO_SLOTS + 1 - slot
  {
    hide Vpn, LegalLeaf, LeafPage;
    if slot <= VIRTIO_SLOTS {
      SlotPage(slot);
      assert Slots(slot)[1..] == Slots(slot + 1);
      var page := MMIO_BASE / 0x1000 + slot;
      SlotEffect(slot + 1, x, if Vpn(x) != page then t else Some(page * 0x1000 + x % 0x1000));
    }
  }

  // ---------- boot and the switch of satp ----------

  /** The space after building the kernel's table at `root`. */
  ghost function KernelTable(mem: Memory, root: nat, free: seq<nat>): (r: Space)
    requires Prepared(mem, root, free) && |free| >= 2
    ensures SpaceOk(r)
  {
    KernelTableFits(mem, root, free);
    MapAll(BareSpace(mem, root, free), DeviceMappings())
  }

  lemma KernelTableFits(mem: Memory, root: nat, free: seq<nat>)
    requires Prepared(mem, root, free)
    ensures var sp := BareSpace(mem, root, free);
            SpaceOk(sp) && Open(sp, DeviceMappings()) && Cost(sp.tree, DeviceMappings()) == 2
  {
    hide Px, DeviceMappings, Cost, BareRoot, SpaceOk;
    BareSpaceOk(mem, root, free);
    DeviceCost(root);
    DeviceIndices();
    assert !Valid(0);
  }

  /** Either kernel table gives every virtual address its meaning in KernelMap. */
  lemma KernelTableMeaning(mem: Memory, root: nat, free: seq<nat>, x: nat)
    requires Prepared(mem, root, free) && |free| >= 2
    ensures Translate(KernelTable(mem, root, free).mem, root, x) == KernelMap(x)
  {
    KernelMapByIndex(x);
    if Canonical(x) {
      KernelTableFits(mem, root, free);
      MapAllRefines(BareSpace(mem, root, free), DeviceMappings(), x);
      BareTranslate(mem, root, free, x);
      DeviceEffect(x, Translate(BareRoot(mem, root), root, x));
      GigapagesApart(x);
    }
    hide Prepared, SpaceOk, Open, Cost, MapAll, Effect, Level2, BareRoot, DeviceMappings, Px, Vpn, KernelMap;
  }

  /** Memory from its base up to 1 GiB means itself, and so does its image in the high half: the in-page
      links of the free list and the page numbers in the tables, written before `satp` was set, stay
      good afterwards. */
  lemma MemoryMeansItself(mem: Memory, root: nat, free: seq<nat>, x: nat)
    requires Prepared(mem, root, free) && |free| >= 2 && 0x8000_0000 <= x < 0xC000_0000
    ensures var t := KernelTable(mem, root, free).mem;
            Translate(t, root, x) == Some(x) == Translate(t, root, x + 0xFFFF_FFC0_0000_0000)
  {
    hide Prepared, KernelTable, Translate;
    KernelTableMeaning(mem, root, free, x);
    KernelTableMeaning(mem, root, free, x + 0xFFFF_FFC0_0000_0000);
  }

  lemma DeviceEffect(x: nat, t: Option<nat>)
    ensures Effect(DeviceMappings(), x, t) ==
            if MMIO_BASE / 0x1000 <= Vpn(x) <= MMIO_BASE / 0x1000 + VIRTIO_SLOTS
            then Some(Vpn(x) * 0x1000 + x % 0x1000) else t
  {
    hide Vpn, LegalLeaf, LeafPage, Slots;
    var m := Mapping(MMIO_BASE, MMIO_BASE, 15);
    UartPage();
    assert DeviceMappings()[1..] == Slots(1);
    SlotEffect(1, x, if Vpn(x) != Vpn(m.va) then t else Some(m.pa / 0x1000 * 0x1000 + x % 0x1000));
  }

  lemma GigapagesApart(x: nat)
    ensures MMIO_BASE / 0x1000 <= Vpn(x) <= MMIO_BASE / 0x1000 + VIRTIO_SLOTS ==> Px(2, x) == 0
  {
    VpnIsIndices(x);
  }

  /** `relocate_kernel` builds the boot table in a page outside the heap; `mem_init` takes a page for
      the new root and builds the second table. The second gives every virtual address the same
      translation as the first, and building it leaves the first as it was, so switching `satp`
      changes no address. */
  lemma SatpSwitchKeepsMeaning(mem: Memory, boot: nat, free: seq<nat>, x: nat)
    requires Prepared(mem, boot, free) && |free| >= 5
    ensures var first := KernelTable(mem, boot, free);
            && |first.free| >= 3 && Prepared(first.mem, first.free[0], first.free[1..])
            && var second := KernelTable(first.mem, first.free[0], first.free[1..]);
               && Translate(second.mem, first.free[0], x) == Translate(first.mem, boot, x) == KernelMap(x)
               && Translate(second.mem, boot, x) == Translate(first.mem, boot, x)
  {
    hide KernelTable, KernelMap, Translate;
    var first := KernelTable(mem, boot, free);
    KernelTableShape(mem, boot, free);
    var root, rest := first.free[0], first.free[1..];
    NextPrepared(first);
    KernelTableMeaning(mem, boot, free, x);
    KernelTableMeaning(first.mem, root, rest, x);
    SecondSparesFirst(first, root, rest);
    hide Prepared, SpaceOk;
    TreeFrame(first.mem, KernelTable(first.mem, root, rest).mem, first.tree, x);
  }

  lemma KernelTableShape(mem: Memory, root: nat, free: seq<nat>)
    requires Prepared(mem, root, free) && |free| >= 2
    ensures var r := KernelTable(mem, root, free);
            r.tree.root == root && r.free == free[2..] && TreeOk(r.mem, r.tree) && Spares(BareSpace(mem, root, free), r)
  {
    KernelTableFits(mem, root, free);
    MapAllCost(BareSpace(mem, root, free), DeviceMappings());
    hide Prepared, Open, Cost, MapAll, Spares, TreeOk, Prefixes1, Prefixes2, DeviceMappings;
  }

  lemma NextPrepared(sp: Space)
    requires SpaceOk(sp) && sp.free != []
    ensures Prepared(sp.mem, sp.free[0], sp.free[1..])
  {
    hide TreeOk, InTree;
    var rest := sp.free[1..];
    assert sp.free == [sp.free[0]] + rest;
    assert sp.free[0] in sp.free;
    forall p: nat | p in rest ensures p in sp.free && p != sp.free[0] {
    }
  }

  /** Every page of the first tree is foreign to the second. */
  lemma SecondSparesFirst(first: Space, root: nat, rest: seq<nat>)
    requires SpaceOk(first) && first.free == [root] + rest && |rest| >= 2 && Prepared(first.mem, root, rest)
    ensures forall p: nat :: InTree(first.tree, p) ==>
              p in first.mem && p in KernelTable(first.mem, root, rest).mem
              && KernelTable(first.mem, root, rest).mem[p] == first.mem[p]
  {
    hide KernelTable;
    var bare, second := BareSpace(first.mem, root, rest), KernelTable(first.mem, root, rest);
    KernelTableShape(first.mem, root, rest);
    BareSpaceOk(first.mem, root, rest);
    forall p: nat | InTree(first.tree, p)
      ensures p in first.mem && p in second.mem && second.mem[p] == first.mem[p]
    {
      TreePageExists(first.mem, first.tree, p);
      assert p !in first.free && p != root && p !in rest;
      assert Foreign(bare, p);
    }
  }
}

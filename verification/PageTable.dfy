/**
 `map_page` and `va2pa`. A space is memory, the tree under construction and the free list the
 tables are taken from. Mapping a page is at most two table insertions followed by one leaf
 store; each of these three is shown to keep the tree and to leave every other translation.
 */
module PageTable {
  import opened Basics
  import opened PageAllocator
  import opened PageHeap
  import opened Sv39

  datatype Space = Space(mem: Memory, tree: Tree, free: seq<nat>)

  /** Free pages and table pages are apart, and the free list repeats nothing. */
  ghost predicate SpaceOk(sp: Space) {
    && TreeOk(sp.mem, sp.tree) && Distinct(sp.free)
    && (forall p: nat {:trigger p in sp.free} :: p in sp.free ==>
          IsPage(sp.mem, p) && p < PPN_LIMIT && !InTree(sp.tree, p))
  }

  function Zeros(): (z: seq<nat>)
    ensures |z| == WORDS && forall i :: 0 <= i < WORDS ==> z[i] == 0
  {
    seq(WORDS, _ => 0)
  }

  function Cleared(mem: Memory, p: nat): (r: Memory)
    ensures r.Keys == mem.Keys + {p} && r[p] == Zeros()
    ensures forall q :: q in mem && q != p ==> r[q] == mem[q]
  {
    mem[p := Zeros()]
  }

  // ---------- the three elementary updates ----------

  /** A fresh, cleared page becomes the level-1 table of root entry `i`. */
  ghost function AddTable1(sp: Space, i: nat): Space
    requires SpaceOk(sp) && sp.free != [] && i < WORDS
  {
    var p := sp.free[0];
    Space(SetWord(Cleared(sp.mem, p), sp.tree.root, i, Pointer(p)), sp.tree.(t1 := sp.tree.t1[i := p]), sp.free[1..])
  }

  /** A fresh, cleared page becomes the level-0 table of entry `j` under root entry `i`. */
  ghost function AddTable0(sp: Space, i: nat, j: nat): Space
    requires SpaceOk(sp) && sp.free != [] && i in sp.tree.t1 && j < WORDS
  {
    var p := sp.free[0];
    assert Middle(sp.mem, sp.tree, i);
    Space(SetWord(Cleared(sp.mem, p), sp.tree.t1[i], j, Pointer(p)), sp.tree.(t0 := sp.tree.t0[(i, j) := p]),
        sp.free[1..])
  }

  ghost function SetLeaf(sp: Space, i: nat, j: nat, k: nat, pte: nat): Space
    requires SpaceOk(sp) && (i, j) in sp.tree.t0 && k < WORDS
  {
    sp.(mem := SetWord(sp.mem, sp.tree.t0[(i, j)], k, pte))
  }

  /** Page `p` is neither a table nor free. */
  ghost predicate Foreign(sp: Space, p: nat) {
    !InTree(sp.tree, p) && p !in sp.free
  }

  lemma FreshPage(sp: Space)
    requires SpaceOk(sp) && sp.free != []
    ensures IsPage(sp.mem, sp.free[0]) && sp.free[0] !in sp.free[1..] && Outside(sp.tree, sp.free[0])
  {
    InTreeFacts(sp.tree);
    hide InTree, TreeOk;
    assert sp.free[0] in sp.free;
  }

  lemma FreeStaysApart(sp: Space, sp': Space)
    requires SpaceOk(sp) && sp.free != [] && sp'.free == sp.free[1..]
    requires forall q: nat :: InTree(sp'.tree, q) ==> InTree(sp.tree, q) || q == sp.free[0]
    requires forall q: nat :: IsPage(sp.mem, q) ==> IsPage(sp'.mem, q)
    ensures Distinct(sp'.free)
    ensures forall p: nat :: p in sp'.free ==> IsPage(sp'.mem, p) && p < PPN_LIMIT && !InTree(sp'.tree, p)
    ensures forall p: nat :: Foreign(sp, p) ==> Foreign(sp', p)
  {
    hide TreeOk, InTree, IsPage;
    FreshPage(sp);
    forall p: nat | p in sp'.free ensures p in sp.free && p != sp.free[0] {
    }
  }

  lemma AddPath1(tr: Tree, i: nat, p: nat)
    requires OnePath(tr) && i < WORDS && i !in tr.t1 && p < PPN_LIMIT && p != tr.root
    requires forall k :: k in tr.t1 ==> tr.t1[k] != p
    requires forall x :: x in tr.t0 ==> tr.t0[x] != p
    ensures OnePath(tr.(t1 := tr.t1[i := p]))
  {
  }

  lemma AddPath0(tr: Tree, i: nat, j: nat, p: nat)
    requires OnePath(tr) && i in tr.t1 && j < WORDS && (i, j) !in tr.t0 && p < PPN_LIMIT && p != tr.root
    requires forall k :: k in tr.t1 ==> tr.t1[k] != p
    requires forall x :: x in tr.t0 ==> tr.t0[x] != p
    ensures OnePath(tr.(t0 := tr.t0[(i, j) := p]))
  {
  }

  /** Where the tables of a tree stay the same, so do the entries of its level-1 tables. */
  lemma MiddleStays(mem: Memory, mem': Memory, tr: Tree, tr': Tree, k: nat)
    requires k in tr.t1 && k in tr'.t1 && tr'.t1[k] == tr.t1[k] && Middle(mem, tr, k)
    requires tr.t1[k] in mem' && mem'[tr.t1[k]] == mem[tr.t1[k]]
    requires forall j: nat :: (k, j) in tr'.t0 <==> (k, j) in tr.t0
    requires forall j: nat :: (k, j) in tr.t0 ==> tr'.t0[(k, j)] == tr.t0[(k, j)]
    ensures Middle(mem', tr', k)
  {
  }

  /** `mem'` is `mem` with page `p` cleared and the entry `i` of table `t` pointing to it. */
  ghost predicate Installed(mem: Memory, mem': Memory, t: nat, i: nat, p: nat) {
    && IsPage(mem', t) && t in mem && |mem[t]| == WORDS && i < WORDS
    && mem'[t][i] == Pointer(p)
    && (forall k :: 0 <= k < WORDS && k != i ==> mem'[t][k] == mem[t][k])
    && IsPage(mem', p) && mem'[p] == Zeros()
    && (forall q :: q in mem && q != t && q != p ==> q in mem' && mem'[q] == mem[q])
  }

  lemma Installs(mem: Memory, t: nat, i: nat, p: nat)
    requires IsPage(mem, t) && IsPage(mem, p) && t != p && i < WORDS
    ensures Installed(mem, SetWord(Cleared(mem, p), t, i, Pointer(p)), t, i, p)
  {
    hide Pointer;
  }

  /** Page `p` is outside the tree. */
  ghost predicate Outside(tr: Tree, p: nat) {
    && p < PPN_LIMIT && p != tr.root
    && (forall k :: k in tr.t1 ==> tr.t1[k] != p)
    && (forall x :: x in tr.t0 ==> tr.t0[x] != p)
  }

  lemma Tree1After(mem: Memory, mem': Memory, tr: Tree, i: nat, p: nat)
    requires TreeOk(mem, tr) && i < WORDS && i !in tr.t1 && Outside(tr, p) && Installed(mem, mem', tr.root, i, p)
    ensures TreeOk(mem', tr.(t1 := tr.t1[i := p]))
  {
    var tr' := tr.(t1 := tr.t1[i := p]);
    AddPath1(tr, i, p);
    ZeroEntry();
    hide Pointer, NoTable, Usable;
    assert Root(mem', tr');
    hide Root;
    forall k | k in tr'.t1 ensures Middle(mem', tr', k) {
      if k != i {
        MiddleStays(mem, mem', tr, tr', k);
      }
    }
  }

  lemma Tree0After(mem: Memory, mem': Memory, tr: Tree, i: nat, j: nat, p: nat)
    requires TreeOk(mem, tr) && i in tr.t1 && j < WORDS && (i, j) !in tr.t0 && Outside(tr, p)
    requires Installed(mem, mem', tr.t1[i], j, p)
    ensures TreeOk(mem', tr.(t0 := tr.t0[(i, j) := p]))
  {
    hide Pointer, NoTable, Middle;
    var tr' := tr.(t0 := tr.t0[(i, j) := p]);
    AddPath0(tr, i, j, p);
    assert Root(mem', tr') by { assert mem'[tr.root] == mem[tr.root]; }
    forall k | k in tr'.t1 ensures Middle(mem', tr', k) {
      assert k in tr.t1 && Middle(mem, tr, k);
      if k != i {
        assert tr.t1[k] != tr.t1[i] && tr.t1[k] != p && tr.t1[k] in mem by { PageOfMiddle(mem, tr, k); }
        MiddleStays(mem, mem', tr, tr', k);
      } else {
        MiddleGains(mem, mem', tr, i, j, p);
      }
    }
  }

  lemma PageOfMiddle(mem: Memory, tr: Tree, k: nat)
    requires k in tr.t1 && Middle(mem, tr, k)
    ensures IsPage(mem, tr.t1[k])
  {
  }

  lemma MiddleGains(mem: Memory, mem': Memory, tr: Tree, i: nat, j: nat, p: nat)
    requires i in tr.t1 && Middle(mem, tr, i) && j < WORDS && Installed(mem, mem', tr.t1[i], j, p)
    ensures Middle(mem', tr.(t0 := tr.t0[(i, j) := p]), i)
  {
    hide Pointer, NoTable;
  }

  lemma AddTable1Tree(sp: Space, i: nat)
    requires SpaceOk(sp) && sp.free != [] && i < WORDS && i !in sp.tree.t1
    ensures Installed(sp.mem, AddTable1(sp, i).mem, sp.tree.root, i, sp.free[0])
    ensures TreeOk(AddTable1(sp, i).mem, AddTable1(sp, i).tree)
  {
    hide InTree, Middle;
    FreshPage(sp);
    Installs(sp.mem, sp.tree.root, i, sp.free[0]);
    Tree1After(sp.mem, AddTable1(sp, i).mem, sp.tree, i, sp.free[0]);
  }

  lemma ZeroEntry()
    ensures NoTable(0) && !Usable(0)
  {
  }

  lemma AddTable1Ok(sp: Space, i: nat)
    requires SpaceOk(sp) && sp.free != [] && i < WORDS && i !in sp.tree.t1
    ensures SpaceOk(AddTable1(sp, i))
    ensures forall q: nat :: Foreign(sp, q) ==> Foreign(AddTable1(sp, i), q)
    ensures forall q: nat :: Foreign(sp, q) && q in sp.mem ==>
              q in AddTable1(sp, i).mem && AddTable1(sp, i).mem[q] == sp.mem[q]
  {
    hide TreeOk;
    AddTable1Tree(sp, i);
    FreshPage(sp);
    assert InTree(sp.tree, sp.tree.root);
    FreeStaysApart(sp, AddTable1(sp, i));
  }

  /** An empty table where there was no entry: everything translates as before. */
  lemma Walk1After(mem: Memory, mem': Memory, tr: Tree, i: nat, p: nat, va: nat)
    requires TreeOk(mem, tr) && i < WORDS && i !in tr.t1 && Outside(tr, p) && Installed(mem, mem', tr.root, i, p)
    requires !Valid(mem[tr.root][i])
    ensures Level2(mem', tr.root, va) == Level2(mem, tr.root, va)
  {
    hide Px, Span, LeafAddress, Level1, Level2, Usable, Leaf, Pointer, NoTable, Root, Middle;
    var tr' := tr.(t1 := tr.t1[i := p]);
    Tree1After(mem, mem', tr, i, p);
    var m, n := Px(2, va), Px(1, va);
    ZeroEntry();
    UsableValid(mem[tr.root][i]);
    if m !in tr'.t1 {
      WalkNoTable1(mem, tr, va);
      WalkNoTable1(mem', tr', va);
    } else if m == i {
      WalkNoTable1(mem, tr, va);
      WalkNoTable0(mem', tr', va);
    } else if (m, n) !in tr.t0 {
      WalkNoTable0(mem, tr, va);
      WalkNoTable0(mem', tr', va);
    } else {
      WalkTable0(mem, tr, va);
      WalkTable0(mem', tr', va);
    }
  }

  lemma AddTable1Walk(sp: Space, i: nat, va: nat)
    requires SpaceOk(sp) && sp.free != [] && i < WORDS && i !in sp.tree.t1 && !Valid(sp.mem[sp.tree.root][i])
    ensures Translate(AddTable1(sp, i).mem, sp.tree.root, va) == Translate(sp.mem, sp.tree.root, va)
  {
    hide Installed, TreeOk, Level2, Outside;
    AddTable1Tree(sp, i);
    FreshPage(sp);
    Walk1After(sp.mem, AddTable1(sp, i).mem, sp.tree, i, sp.free[0], va);
  }

  lemma AddTable0Tree(sp: Space, i: nat, j: nat)
    requires SpaceOk(sp) && sp.free != [] && i in sp.tree.t1 && j < WORDS && (i, j) !in sp.tree.t0
    ensures Installed(sp.mem, AddTable0(sp, i, j).mem, sp.tree.t1[i], j, sp.free[0])
    ensures TreeOk(AddTable0(sp, i, j).mem, AddTable0(sp, i, j).tree)
  {
    FreshPage(sp);
    assert Middle(sp.mem, sp.tree, i);
    Installs(sp.mem, sp.tree.t1[i], j, sp.free[0]);
    hide InTree, Middle;
    Tree0After(sp.mem, AddTable0(sp, i, j).mem, sp.tree, i, j, sp.free[0]);
  }

  lemma AddTable0Ok(sp: Space, i: nat, j: nat)
    requires SpaceOk(sp) && sp.free != [] && i in sp.tree.t1 && j < WORDS && (i, j) !in sp.tree.t0
    ensures SpaceOk(AddTable0(sp, i, j))
    ensures forall q: nat :: Foreign(sp, q) ==> Foreign(AddTable0(sp, i, j), q)
    ensures forall q: nat :: Foreign(sp, q) && q in sp.mem ==>
              q in AddTable0(sp, i, j).mem && AddTable0(sp, i, j).mem[q] == sp.mem[q]
  {
    hide TreeOk, Pointer;
    AddTable0Tree(sp, i, j);
    FreshPage(sp);
    assert InTree(sp.tree, sp.tree.t1[i]);
    FreeStaysApart(sp, AddTable0(sp, i, j));
  }

  lemma Walk0After(mem: Memory, mem': Memory, tr: Tree, i: nat, j: nat, p: nat, va: nat)
    requires TreeOk(mem, tr) && i in tr.t1 && j < WORDS && (i, j) !in tr.t0 && Outside(tr, p)
    requires Installed(mem, mem', tr.t1[i], j, p) && !Valid(mem[tr.t1[i]][j])
    ensures Level2(mem', tr.root, va) == Level2(mem, tr.root, va)
  {
    var tr' := tr.(t0 := tr.t0[(i, j) := p]);
    Tree0After(mem, mem', tr, i, j, p);
    var m, n := Px(2, va), Px(1, va);
    ZeroEntry();
    UsableValid(mem[tr.t1[i]][j]);
    hide Px, Span, LeafAddress, Level1, Level2, Usable, Leaf, Pointer, NoTable, Root, Middle;
    if m !in tr.t1 {
      WalkNoTable1(mem, tr, va);
      WalkNoTable1(mem', tr', va);
    } else if (m, n) !in tr'.t0 {
      WalkNoTable0(mem, tr, va);
      WalkNoTable0(mem', tr', va);
    } else if (m, n) == (i, j) {
      WalkNoTable0(mem, tr, va);
      WalkTable0(mem', tr', va);
    } else {
      WalkTable0(mem, tr, va);
      WalkTable0(mem', tr', va);
    }
  }

  lemma AddTable0Walk(sp: Space, i: nat, j: nat, va: nat)
    requires SpaceOk(sp) && sp.free != [] && i in sp.tree.t1 && j < WORDS && (i, j) !in sp.tree.t0
    requires IsPage(sp.mem, sp.tree.t1[i]) && !Valid(sp.mem[sp.tree.t1[i]][j])
    ensures Translate(AddTable0(sp, i, j).mem, sp.tree.root, va) == Translate(sp.mem, sp.tree.root, va)
  {
    hide Installed, TreeOk, Level2, Outside;
    AddTable0Tree(sp, i, j);
    FreshPage(sp);
    Walk0After(sp.mem, AddTable0(sp, i, j).mem, sp.tree, i, j, sp.free[0], va);
  }

  lemma SetLeafOk(sp: Space, i: nat, j: nat, k: nat, pte: nat)
    requires SpaceOk(sp) && (i, j) in sp.tree.t0 && k < WORDS
    ensures SpaceOk(SetLeaf(sp, i, j, k, pte))
    ensures forall q: nat :: Foreign(sp, q) && q in sp.mem ==>
              q in SetLeaf(sp, i, j, k, pte).mem && SetLeaf(sp, i, j, k, pte).mem[q] == sp.mem[q]
  {
    hide InTree, NoTable, Pointer;
    InTreeFacts(sp.tree);
    var mem', tr := SetLeaf(sp, i, j, k, pte).mem, sp.tree;
    forall m | m in tr.t1 ensures Middle(mem', tr, m) {
      assert Middle(sp.mem, tr, m);
      assert mem'[tr.t1[m]] == sp.mem[tr.t1[m]];
    }
  }

  /** Storing a leaf changes the translation of its page only. */
  lemma SetLeafWalk(sp: Space, i: nat, j: nat, k: nat, pte: nat, va: nat)
    requires SpaceOk(sp) && (i, j) in sp.tree.t0 && k < WORDS
    ensures var mem' := SetLeaf(sp, i, j, k, pte).mem;
            Level2(mem', sp.tree.root, va) ==
            if Px(2, va) == i && Px(1, va) == j && Px(0, va) == k
            then (if Usable(pte) && Leaf(pte) then LeafAddress(pte, 0, va) else None)
            else Level2(sp.mem, sp.tree.root, va)
  {
    hide Px, Span, LeafAddress, Level1, Level2, Usable, Leaf, Pointer, InTree, NoTable;
    SetLeafOk(sp, i, j, k, pte);
    var mem', tr := SetLeaf(sp, i, j, k, pte).mem, sp.tree;
    var m, n := Px(2, va), Px(1, va);
    if m !in tr.t1 {
      assert m != i;
      WalkNoTable1(sp.mem, tr, va);
      WalkNoTable1(mem', tr, va);
    } else if (m, n) !in tr.t0 {
      WalkNoTable0(sp.mem, tr, va);
      WalkNoTable0(mem', tr, va);
    } else {
      WalkTable0(sp.mem, tr, va);
      WalkTable0(mem', tr, va);
    }
  }
  // ---------- map_page ----------

  /** Tables the walk for `va` still lacks. */
  ghost function Missing(tr: Tree, va: nat): nat {
    if Px(2, va) !in tr.t1 then 2 else if (Px(2, va), Px(1, va)) !in tr.t0 then 1 else 0
  }

  /** No superpage leaf on the path of `va`: what the code takes for granted. */
  ghost predicate CanWalk(sp: Space, va: nat)
    requires SpaceOk(sp)
  {
    var i, j := Px(2, va), Px(1, va);
    && (i !in sp.tree.t1 ==> !Valid(sp.mem[sp.tree.root][i]))
    && (i in sp.tree.t1 && (i, j) !in sp.tree.t0 ==>
          IsPage(sp.mem, sp.tree.t1[i]) && !Valid(sp.mem[sp.tree.t1[i]][j]))
  }

  /** ... and enough free pages for the missing tables. */
  ghost predicate CanMap(sp: Space, va: nat)
    requires SpaceOk(sp)
  {
    CanWalk(sp, va) && Missing(sp.tree, va) <= |sp.free|
  }

  /** The space when the loop of `map_page` finds the free list empty: what was there has become the
      level-1 table, if that was missing. */
  ghost function Exhausted(sp: Space, va: nat): (r: Space)
    requires SpaceOk(sp) && CanWalk(sp, va) && !CanMap(sp, va)
    ensures SpaceOk(r) && r.free == []
  {
    if sp.free == [] then sp
    else
      AddTable1Ok(sp, Px(2, va));
      AddTable1(sp, Px(2, va))
  }

  /** Running out of pages leaves every translation as it was. */
  lemma ExhaustedWalk(sp: Space, va: nat, x: nat)
    requires SpaceOk(sp) && CanWalk(sp, va) && !CanMap(sp, va)
    ensures Exhausted(sp, va).tree.root == sp.tree.root
    ensures Translate(Exhausted(sp, va).mem, sp.tree.root, x) == Translate(sp.mem, sp.tree.root, x)
  {
    hide SpaceOk, TreeOk, Translate, Px;
    if sp.free != [] {
      AddTable1Walk(sp, Px(2, va), x);
    }
  }

  /** The space when the loop of `map_page` has passed level 2. */
  ghost function Opened2(sp: Space, va: nat): (r: Space)
    requires SpaceOk(sp) && CanMap(sp, va)
    ensures SpaceOk(r) && CanMap(r, va) && Px(2, va) in r.tree.t1
  {
    if Px(2, va) in sp.tree.t1 then sp
    else
      AddTable1Ok(sp, Px(2, va));
      AddTable1Can(sp, va);
      AddTable1(sp, Px(2, va))
  }

  lemma AddTable1Can(sp: Space, va: nat)
    requires SpaceOk(sp) && CanMap(sp, va) && Px(2, va) !in sp.tree.t1
    ensures SpaceOk(AddTable1(sp, Px(2, va))) && CanMap(AddTable1(sp, Px(2, va)), va)
  {
    hide Px, SpaceOk;
    AddTable1Ok(sp, Px(2, va));
    AddTable1Tree(sp, Px(2, va));
    assert (Px(2, va), Px(1, va)) !in sp.tree.t0 by { NoOrphans(sp, Px(2, va), Px(1, va)); }
  }

  lemma NoOrphans(sp: Space, i: nat, j: nat)
    requires SpaceOk(sp) && i !in sp.tree.t1
    ensures (i, j) !in sp.tree.t0
  {
  }

  /** ... and when it has passed level 1. */
  ghost function Opened(sp: Space, va: nat): (r: Space)
    requires SpaceOk(sp) && CanMap(sp, va)
    ensures SpaceOk(r) && (Px(2, va), Px(1, va)) in r.tree.t0
  {
    var sp1 := Opened2(sp, va);
    if (Px(2, va), Px(1, va)) in sp1.tree.t0 then sp1
    else
      AddTable0Ok(sp1, Px(2, va), Px(1, va));
      AddTable0(sp1, Px(2, va), Px(1, va))
  }

  /** Bitwise or. */
  function Or(a: nat, b: nat): nat
    decreases a + b
  {
    if a == 0 then b else 2 * Or(a / 2, b / 2) + (if a % 2 == 1 || b % 2 == 1 then 1 else 0)
  }

  lemma {:induction false} OrZero(a: nat)
    ensures Or(a, 0) == a && Or(0, a) == a
  {
    if a > 0 {
      OrZero(a / 2);
    }
  }

  /** Bits below those of the one number are taken from the other. */
  lemma Or2(a: nat, b: nat, c: nat)
    requires c < 2
    ensures Or(2 * a, 2 * b + c) == 2 * Or(a, b) + c
  {
    Div2(2 * b + c, b, c);
  }

  lemma Or4(a: nat, b: nat, c: nat)
    requires c < 4
    ensures Or(4 * a, 4 * b + c) == 4 * Or(a, b) + c
  {
    hide Or;
    Or2(2 * a, 2 * b + c / 2, c % 2);
    Or2(a, b, c / 2);
  }

  lemma Or16(a: nat, b: nat, c: nat)
    requires c < 16
    ensures Or(16 * a, 16 * b + c) == 16 * Or(a, b) + c
  {
    hide Or;
    Or4(4 * a, 4 * b + c / 4, c % 4);
    Or4(a, b, c / 4);
  }

  lemma Or1024(a: nat, b: nat, c: nat)
    requires c < 1024
    ensures Or(1024 * a, 1024 * b + c) == 1024 * Or(a, b) + c
  {
    hide Or;
    var d := c / 16;
    Or16(64 * a, 64 * b + d, c % 16);
    Or16(4 * a, 4 * b + d / 16, d % 16);
    Or4(a, b, d / 16);
  }

  /** `PA2PTE(pa) | flags | PTE_V` */
  function LeafPte(pa: nat, flags: nat): nat {
    Or(Or(pa / 0x1000 * 1024, flags), 1)
  }

  /** The page number in the entry: bits of `flags` above the flag field fall into it. */
  function LeafPage(pa: nat, flags: nat): nat {
    Or(pa / 0x1000, flags / 1024)
  }

  lemma PlainLeaf(pa: nat, flags: nat)
    requires flags < 1024
    ensures LeafPage(pa, flags) == pa / 0x1000
  {
    OrZero(pa / 0x1000);
  }

  /** The fields of the entry: that page number, and the low ten bits of `flags` with V set. */
  lemma LeafPteFields(pa: nat, flags: nat)
    ensures var f := flags % 1024;
            LeafPte(pa, flags) == LeafPage(pa, flags) * 1024 + (if f % 2 == 1 then f else f + 1)
  {
    var n, q, f := pa / 0x1000, flags / 1024, flags % 1024;
    Or1024(n, q, f);
    var x := 1024 * Or(n, q) + f;
    assert Or(n * 1024, flags) == x;
    OrOne(x);
    DropMultiple(f, 128 * Or(n, q));
  }

  lemma OrOne(x: nat)
    ensures Or(x, 1) == if x % 2 == 1 then x else x + 1
  {
    OrZero(x / 2);
  }

  ghost function MapPage(sp: Space, va: nat, pa: nat, flags: nat): (r: Space)
    requires SpaceOk(sp) && CanMap(sp, va)
    ensures SpaceOk(r)
  {
    SetLeafOk(Opened(sp, va), Px(2, va), Px(1, va), Px(0, va), LeafPte(pa, flags));
    SetLeaf(Opened(sp, va), Px(2, va), Px(1, va), Px(0, va), LeafPte(pa, flags))
  }

  /** A caller's flags and address that the hardware takes as a 4 KiB leaf: R, or X without W. */
  predicate LegalLeaf(pa: nat, flags: nat) {
    LeafPage(pa, flags) < PPN_LIMIT && (flags / 2 % 2 == 1 || (flags / 4 % 2 == 0 && flags / 8 % 2 == 1))
  }

  lemma LeafPteLegal(pa: nat, flags: nat)
    ensures Usable(LeafPte(pa, flags)) && Leaf(LeafPte(pa, flags)) <==> LegalLeaf(pa, flags)
  {
    hide LeafPte, LeafPage;
    LeafPteFields(pa, flags);
    EntryLegal(LeafPage(pa, flags), flags % 1024);
    FlagBits(flags);
  }

  /** The permission bits of the flags are among their low ten. */
  lemma FlagBits(flags: nat)
    ensures var f := flags % 1024;
            flags / 2 % 2 == f / 2 % 2 && flags / 4 % 2 == f / 4 % 2 && flags / 8 % 2 == f / 8 % 2
  {
    var f, q := flags % 1024, flags / 1024;
    Div2(flags / 2, f / 4 + 256 * q, f / 2 % 2);
    Div2(flags / 4, f / 8 + 128 * q, f / 4 % 2);
    Div2(flags / 8, f / 16 + 64 * q, f / 8 % 2);
  }

  /** An entry with page number `n` and low bits `f` with V set is a legal leaf exactly when the page
      number fits and it has R, or X without W. */
  lemma EntryLegal(n: nat, f: nat)
    requires f < 1024
    ensures var pte := n * 1024 + (if f % 2 == 1 then f else f + 1);
            Usable(pte) && Leaf(pte) <==> n < PPN_LIMIT && (f / 2 % 2 == 1 || (f / 4 % 2 == 0 && f / 8 % 2 == 1))
  {
    var g := if f % 2 == 1 then f else f + 1;
    EntryFields(n, g);
    SetValidBit(f);
    assert n < PPN_LIMIT <==> n * 1024 + g < PTE_LIMIT;
    LowThreeBits(f / 2);
  }

  lemma LeafPteAddress(pa: nat, flags: nat, va: nat)
    requires LeafPage(pa, flags) < PPN_LIMIT
    ensures LeafAddress(LeafPte(pa, flags), 0, va) == Some(LeafPage(pa, flags) * 0x1000 + va % 0x1000)
  {
    hide LeafPte, LeafPage;
    LeafPteFields(pa, flags);
    var f := flags % 1024;
    Div1024(LeafPte(pa, flags), LeafPage(pa, flags), if f % 2 == 1 then f else f + 1);
  }

  lemma EntryFields(n: nat, f: nat)
    requires f < 1024
    ensures var pte := n * 1024 + f;
            && pte / 1024 == n && pte % 2 == f % 2
            && pte / 2 % 2 == f / 2 % 2 && pte / 4 % 2 == f / 4 % 2 && pte / 2 % 8 == f / 2 % 8
  {
    var pte := n * 1024 + f;
    Div1024(pte, n, f);
    Div2(pte, f / 2 + 8 * (n * 64), f % 2);
    Div4(pte, f / 4 + 8 * (n * 32), f % 4);
    DropMultiple(f, n * 128);
    DropMultiple(f / 2, n * 64);
    DropMultiple(f / 4, n * 32);
  }

  lemma DropMultiple(h: nat, m: nat)
    ensures (h + 8 * m) % 8 == h % 8 && (h + 8 * m) % 2 == h % 2
  {
    Div8(h + 8 * m, h / 8 + m, h % 8);
    Div2(h + 8 * m, h / 2 + 4 * m, h % 2);
  }

  lemma SetValidBit(flags: nat)
    ensures var f := if flags % 2 == 1 then flags else flags + 1;
            f % 2 == 1 && f / 2 == flags / 2 && f / 4 == flags / 4
  {
    var f := if flags % 2 == 1 then flags else flags + 1;
    Div2(f, flags / 2, 1);
    Div4(f, flags / 4, f - flags / 4 * 4);
  }

  lemma LowThreeBits(x: nat)
    ensures x % 8 != 0 <==> x % 2 == 1 || x / 2 % 2 == 1 || x / 4 % 2 == 1
  {
    var q, r := x / 8, x % 8;
    Div2(x, 4 * q + r / 2, r % 2);
    Div4(x, 2 * q + r / 4, r % 4);
    Div2(x / 2, 2 * q + r / 4, r / 2 % 2);
    Div2(x / 4, q, r / 4);
  }

  /** `map_page` refines a map update: every address in the page of `va` now translates to the page of
      `pa` plus its offset, exactly when the entry is a legal leaf, and every other address as before. */
  lemma MapPageRefines(sp: Space, va: nat, pa: nat, flags: nat, x: nat)
    requires SpaceOk(sp) && CanMap(sp, va)
    ensures Translate(MapPage(sp, va, pa, flags).mem, sp.tree.root, x) ==
            if !Canonical(x) then None
            else if Vpn(x) == Vpn(va) then
              (if LegalLeaf(pa, flags) then Some(LeafPage(pa, flags) * 0x1000 + x % 0x1000) else None)
            else Translate(sp.mem, sp.tree.root, x)
  {
    OpenedWalk(sp, va, x);
    SamePageSameIndices(x, va);
    LeafPteLegal(pa, flags);
    if LegalLeaf(pa, flags) {
      LeafPteAddress(pa, flags, x);
    }
    SetLeafWalk(Opened(sp, va), Px(2, va), Px(1, va), Px(0, va), LeafPte(pa, flags), x);
    hide SpaceOk, CanMap, Px, Opened, SetLeaf, Usable, Leaf, LeafAddress, Level2, LegalLeaf, LeafPte, Vpn;
  }

  lemma OpenedWalk(sp: Space, va: nat, x: nat)
    requires SpaceOk(sp) && CanMap(sp, va)
    ensures Opened(sp, va).tree.root == sp.tree.root
    ensures Translate(Opened(sp, va).mem, sp.tree.root, x) == Translate(sp.mem, sp.tree.root, x)
  {
    hide SpaceOk, TreeOk, Translate, Px;
    var i, j := Px(2, va), Px(1, va);
    if i !in sp.tree.t1 {
      AddTable1Walk(sp, i, x);
    }
    var sp1 := Opened2(sp, va);
    if (i, j) !in sp1.tree.t0 {
      AddTable0Walk(sp1, i, j, x);
    }
  }

  /** Everything that is neither free nor a table of this tree stays as it is. */
  ghost predicate Spares(sp: Space, sp': Space) {
    && (forall q: nat :: Foreign(sp, q) ==> Foreign(sp', q))
    && (forall q: nat :: Foreign(sp, q) && q in sp.mem ==> q in sp'.mem && sp'.mem[q] == sp.mem[q])
  }

  lemma SparesTwice(a: Space, b: Space, c: Space)
    requires Spares(a, b) && Spares(b, c)
    ensures Spares(a, c)
  {
    hide Foreign;
  }

  lemma Opened2Frame(sp: Space, va: nat)
    requires SpaceOk(sp) && CanMap(sp, va)
    ensures var r := Opened2(sp, va);
            && Spares(sp, r) && r.tree.root == sp.tree.root && r.tree.t0 == sp.tree.t0
            && r.tree.t1.Keys == sp.tree.t1.Keys + {Px(2, va)}
            && r.free == sp.free[if Px(2, va) in sp.tree.t1 then 0 else 1..]
  {
    hide SpaceOk, Px, Foreign;
    if Px(2, va) !in sp.tree.t1 {
      AddTable1Ok(sp, Px(2, va));
    }
  }

  lemma OpenedFrame(sp: Space, va: nat)
    requires SpaceOk(sp) && CanMap(sp, va)
    ensures var sp1, r := Opened2(sp, va), Opened(sp, va);
            && Spares(sp1, r) && r.tree.root == sp1.tree.root && r.tree.t1 == sp1.tree.t1
            && r.tree.t0.Keys == sp1.tree.t0.Keys + {(Px(2, va), Px(1, va))}
            && r.free == sp1.free[if (Px(2, va), Px(1, va)) in sp1.tree.t0 then 0 else 1..]
  {
    hide SpaceOk, Px, Foreign, Opened2;
    var sp1 := Opened2(sp, va);
    if (Px(2, va), Px(1, va)) !in sp1.tree.t0 {
      AddTable0Ok(sp1, Px(2, va), Px(1, va));
    }
  }

  /** Mapping takes the missing tables from the front of the free list, adds exactly their paths to
      the tree, and leaves every page that is neither free nor a table of this tree. */
  lemma MapPageFrame(sp: Space, va: nat, pa: nat, flags: nat)
    requires SpaceOk(sp) && CanMap(sp, va)
    ensures var sp' := MapPage(sp, va, pa, flags);
            && sp'.free == sp.free[Missing(sp.tree, va)..]
            && sp'.tree.root == sp.tree.root
            && sp'.tree.t1.Keys == sp.tree.t1.Keys + {Px(2, va)}
            && sp'.tree.t0.Keys == sp.tree.t0.Keys + {(Px(2, va), Px(1, va))}
            && Spares(sp, sp')
  {
    hide Px, LeafPte, Foreign, Spares, Opened2, Opened;
    var i, j := Px(2, va), Px(1, va);
    Opened2Frame(sp, va);
    OpenedFrame(sp, va);
    if i !in sp.tree.t1 {
      NoOrphans(sp, i, j);
    }
    hide SpaceOk;
    var sp1, sp2 := Opened2(sp, va), Opened(sp, va);
    SkipTwice(sp.free, if i in sp.tree.t1 then 0 else 1, if (i, j) in sp1.tree.t0 then 0 else 1);
    LeafSpares(sp2, i, j, Px(0, va), LeafPte(pa, flags));
    SparesTwice(sp, sp1, sp2);
    SparesTwice(sp, sp2, MapPage(sp, va, pa, flags));
  }

  lemma SkipTwice(s: seq<nat>, a: nat, b: nat)
    requires a + b <= |s|
    ensures s[a..][b..] == s[a + b..]
  {
  }

  lemma LeafSpares(sp: Space, i: nat, j: nat, k: nat, pte: nat)
    requires SpaceOk(sp) && (i, j) in sp.tree.t0 && k < WORDS
    ensures Spares(sp, SetLeaf(sp, i, j, k, pte))
  {
    hide SpaceOk;
    SetLeafOk(sp, i, j, k, pte);
  }
}

/**
 Sv39 address translation as sections 4.3.2 and 4.4 of the RISC-V Privileged Architecture
 (version 20211203) define it, and the shape of the trees the kernel builds. Page permissions
 and the A and D bits are not modelled: the result is the physical address or a fault.
 */
module Sv39 {
  import opened Basics
  import opened PageHeap

  const PPN_LIMIT: nat := 0x1000_0000_0000       // 2^44
  const PTE_LIMIT: nat := 0x40_0000_0000_0000    // 2^54, bits above are reserved
  const VPN_LIMIT: nat := 0x800_0000             // 2^27

  /** The bytes that one entry of a level covers. */
  function Span(level: nat): nat {
    if level == 0 then 0x1000 else if level == 1 then 0x20_0000 else 0x4000_0000
  }

  /** The 9-bit table index of a virtual address at a level. */
  function Px(level: nat, va: nat): (r: nat)
    ensures r < WORDS
  {
    va / Span(level) % WORDS
  }

  function Vpn(va: nat): nat {
    va / 0x1000 % VPN_LIMIT
  }

  lemma NestedDivision(va: nat)
    ensures va / 0x20_0000 == va / 0x1000 / 0x200
    ensures va / 0x4000_0000 == va / 0x1000 / 0x200 / 0x200
  {
  }

  lemma DigitsOf(q: nat)
    ensures q % VPN_LIMIT == q / 0x200 / 0x200 % 0x200 * 0x4_0000 + q / 0x200 % 0x200 * 0x200 + q % 0x200
  {
    var t := q / 0x200;
    var u := t / 0x200;
    assert q == (u / 0x200 * 0x800_0000) + (u % 0x200 * 0x4_0000 + t % 0x200 * 0x200 + q % 0x200);
  }

  lemma VpnIsIndices(va: nat)
    ensures Vpn(va) == Px(2, va) * 0x4_0000 + Px(1, va) * 0x200 + Px(0, va)
  {
    NestedDivision(va);
    DigitsOf(va / 0x1000);
  }

  lemma SamePageSameIndices(a: nat, b: nat)
    ensures Vpn(a) == Vpn(b) <==> Px(2, a) == Px(2, b) && Px(1, a) == Px(1, b) && Px(0, a) == Px(0, b)
  {
    hide Px, Vpn;
    VpnIsIndices(a);
    VpnIsIndices(b);
  }

  // ---------- page-table entries ----------

  predicate Valid(pte: nat) { pte % 2 == 1 }
  predicate Readable(pte: nat) { pte / 2 % 2 == 1 }
  predicate Writable(pte: nat) { pte / 4 % 2 == 1 }
  predicate Leaf(pte: nat) { pte / 2 % 8 != 0 }

  function Ppn(pte: nat): nat { pte / 1024 % PPN_LIMIT }

  /** An entry the hardware accepts at this point of the walk. */
  predicate Usable(pte: nat) {
    Valid(pte) && !(Writable(pte) && !Readable(pte)) && pte < PTE_LIMIT
  }

  /** The entry that points to table page `p`. */
  function Pointer(p: nat): nat { p * 1024 + 1 }

  lemma PointerBits(p: nat)
    requires p < PPN_LIMIT
    ensures Usable(Pointer(p)) && !Leaf(Pointer(p)) && Ppn(Pointer(p)) == p
  {
  }

  // ---------- the hardware walk ----------

  predicate Canonical(va: nat) {
    va < 0x40_0000_0000 || 0xFFFF_FFC0_0000_0000 <= va < WORD_MOD
  }

  function LeafAddress(pte: nat, level: nat, va: nat): Option<nat> {
    if Ppn(pte) * 0x1000 % Span(level) == 0 then Some(Ppn(pte) * 0x1000 + va % Span(level)) else None
  }

  ghost function Level0(mem: Memory, a: nat, va: nat): Option<nat> {
    if !IsPage(mem, a) then None
    else var pte := mem[a][Px(0, va)];
      if Usable(pte) && Leaf(pte) then LeafAddress(pte, 0, va) else None
  }

  ghost function Level1(mem: Memory, a: nat, va: nat): Option<nat> {
    if !IsPage(mem, a) then None
    else var pte := mem[a][Px(1, va)];
      if !Usable(pte) then None
      else if Leaf(pte) then LeafAddress(pte, 1, va)
      else Level0(mem, Ppn(pte), va)
  }

  ghost function Level2(mem: Memory, a: nat, va: nat): Option<nat> {
    if !IsPage(mem, a) then None
    else var pte := mem[a][Px(2, va)];
      if !Usable(pte) then None
      else if Leaf(pte) then LeafAddress(pte, 2, va)
      else Level1(mem, Ppn(pte), va)
  }

  ghost function Translate(mem: Memory, root: nat, va: nat): Option<nat> {
    if Canonical(va) then Level2(mem, root, va) else None
  }

  // ---------- trees ----------

  /** The tables below a root: `t1` by level-2 index and `t0` by level-2 and level-1 index. */
  datatype Tree = Tree(root: nat, t1: map<nat, nat>, t0: map<(nat, nat), nat>)

  ghost predicate InTree(tr: Tree, p: nat) {
    p == tr.root || p in tr.t1.Values || p in tr.t0.Values
  }

  /** Each table is reached along one path only. */
  ghost predicate OnePath(tr: Tree) {
    && (forall i :: i in tr.t1 ==> i < WORDS && tr.t1[i] != tr.root && tr.t1[i] < PPN_LIMIT)
    && (forall i, k :: i in tr.t1 && k in tr.t1 && i != k ==> tr.t1[i] != tr.t1[k])
    && (forall x :: x in tr.t0 ==> x.0 in tr.t1 && x.1 < WORDS && tr.t0[x] != tr.root && tr.t0[x] < PPN_LIMIT)
    && (forall x, y :: x in tr.t0 && y in tr.t0 && x != y ==> tr.t0[x] != tr.t0[y])
    && (forall i, x :: i in tr.t1 && x in tr.t0 ==> tr.t1[i] != tr.t0[x])
  }

  /** An entry with no table below it is invalid or a superpage leaf. */
  predicate NoTable(pte: nat) {
    !Valid(pte) || Leaf(pte)
  }

  ghost predicate Root(mem: Memory, tr: Tree) {
    && IsPage(mem, tr.root)
    && (forall i {:trigger mem[tr.root][i]} :: 0 <= i < WORDS ==>
          if i in tr.t1 then mem[tr.root][i] == Pointer(tr.t1[i]) else NoTable(mem[tr.root][i]))
  }

  ghost predicate Middle(mem: Memory, tr: Tree, i: nat)
    requires i in tr.t1
  {
    && IsPage(mem, tr.t1[i])
    && (forall j: nat {:trigger mem[tr.t1[i]][j]} :: j < WORDS ==>
          if (i, j) in tr.t0 then mem[tr.t1[i]][j] == Pointer(tr.t0[(i, j)]) else NoTable(mem[tr.t1[i]][j]))
  }

  ghost predicate TreeOk(mem: Memory, tr: Tree) {
    && OnePath(tr) && Root(mem, tr)
    && (forall i {:trigger i in tr.t1} :: i in tr.t1 ==> Middle(mem, tr, i))
    && (forall x {:trigger x in tr.t0} :: x in tr.t0 ==> IsPage(mem, tr.t0[x]))
  }

  /** Every page of a tree is a page of memory. */
  lemma TreePageExists(mem: Memory, tr: Tree, p: nat)
    requires TreeOk(mem, tr) && InTree(tr, p)
    ensures IsPage(mem, p)
  {
    if p in tr.t1.Values {
      var i :| i in tr.t1 && tr.t1[i] == p;
      assert Middle(mem, tr, i);
    } else if p in tr.t0.Values {
      var y :| y in tr.t0 && tr.t0[y] == p;
    }
  }

  // What the walk finds, read off the tree.

  lemma WalkNoTable1(mem: Memory, tr: Tree, va: nat)
    requires TreeOk(mem, tr) && Px(2, va) !in tr.t1
    ensures var pte := mem[tr.root][Px(2, va)];
            Level2(mem, tr.root, va) == if Usable(pte) then LeafAddress(pte, 2, va) else None
  {
    hide Px, Span, LeafAddress, Level1, OnePath;
    assert NoTable(mem[tr.root][Px(2, va)]);
  }

  lemma WalkTable1(mem: Memory, tr: Tree, va: nat)
    requires TreeOk(mem, tr) && Px(2, va) in tr.t1
    ensures Level2(mem, tr.root, va) == Level1(mem, tr.t1[Px(2, va)], va)
  {
    hide Px, Span, LeafAddress, Level1, Usable, Leaf, Ppn, Pointer;
    PointerBits(tr.t1[Px(2, va)]);
    assert mem[tr.root][Px(2, va)] == Pointer(tr.t1[Px(2, va)]);
  }

  lemma WalkNoTable0(mem: Memory, tr: Tree, va: nat)
    requires TreeOk(mem, tr) && Px(2, va) in tr.t1 && (Px(2, va), Px(1, va)) !in tr.t0
    ensures IsPage(mem, tr.t1[Px(2, va)])
    ensures var pte := mem[tr.t1[Px(2, va)]][Px(1, va)];
            Level2(mem, tr.root, va) == if Usable(pte) then LeafAddress(pte, 1, va) else None
  {
    hide Px, Span, LeafAddress, OnePath, Level2, Level0, Usable, Pointer;
    WalkTable1(mem, tr, va);
    assert Middle(mem, tr, Px(2, va));
    var pte := mem[tr.t1[Px(2, va)]][Px(1, va)];
    assert NoTable(pte);
    assert Usable(pte) ==> Leaf(pte) by { UsableValid(pte); }
  }

  lemma UsableValid(pte: nat)
    ensures Usable(pte) ==> Valid(pte)
  {
  }

  lemma WalkTable0(mem: Memory, tr: Tree, va: nat)
    requires TreeOk(mem, tr) && (Px(2, va), Px(1, va)) in tr.t0
    ensures Level2(mem, tr.root, va) == Level0(mem, tr.t0[(Px(2, va), Px(1, va))], va)
  {
    var i, j := Px(2, va), Px(1, va);
    assert i in tr.t1;
    WalkTable1(mem, tr, va);
    PointerBits(tr.t0[(i, j)]);
    hide Px, Span, LeafAddress, Level2, Level0, Usable, Leaf, Ppn, Pointer, OnePath;
    assert Middle(mem, tr, i);
    assert mem[tr.t1[i]][j] == Pointer(tr.t0[(i, j)]);
  }

  /** Translation through a tree depends only on the pages of the tree. */
  lemma TreeFrame(mem: Memory, mem': Memory, tr: Tree, va: nat)
    requires TreeOk(mem, tr)
    requires forall p: nat :: InTree(tr, p) ==> p in mem && p in mem' && mem'[p] == mem[p]
    ensures TreeOk(mem', tr)
    ensures Translate(mem', tr.root, va) == Translate(mem, tr.root, va)
  {
    hide Px, Span, LeafAddress, OnePath, TreeOk, Usable, Leaf, Level1, Level2, InTree;
    TreeFrameOk(mem, mem', tr);
    var i, j := Px(2, va), Px(1, va);
    assert InTree(tr, tr.root) by { InTreeFacts(tr); }
    if i !in tr.t1 {
      WalkNoTable1(mem, tr, va);
      WalkNoTable1(mem', tr, va);
    } else if (i, j) !in tr.t0 {
      assert InTree(tr, tr.t1[i]) by { InTreeFacts(tr); }
      WalkNoTable0(mem, tr, va);
      WalkNoTable0(mem', tr, va);
    } else {
      assert InTree(tr, tr.t0[(i, j)]) by { InTreeFacts(tr); }
      WalkTable0(mem, tr, va);
      WalkTable0(mem', tr, va);
    }
  }

  lemma InTreeFacts(tr: Tree)
    ensures InTree(tr, tr.root)
    ensures forall i :: i in tr.t1 ==> InTree(tr, tr.t1[i])
    ensures forall x :: x in tr.t0 ==> InTree(tr, tr.t0[x])
  {
  }

  lemma TreeFrameOk(mem: Memory, mem': Memory, tr: Tree)
    requires TreeOk(mem, tr)
    requires forall p: nat :: InTree(tr, p) ==> p in mem && p in mem' && mem'[p] == mem[p]
    ensures TreeOk(mem', tr)
  {
    hide InTree, OnePath;
    InTreeFacts(tr);
    assert Root(mem', tr);
    forall i | i in tr.t1 ensures Middle(mem', tr, i) {
      assert Middle(mem, tr, i);
    }
  }
}

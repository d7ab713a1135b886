/**
 The allocator as the pointer code: a singly linked list whose links live in word 0 of the free
 pages. Memory is indexed by page number; a pointer to page `p` is the address `p * PAGE_SIZE`,
 and 0 is NULL.
 */
module PageHeap {
  import opened Basics
  import opened PageAllocator

  const WORDS: nat := 512
  const MAX_HEAP_SIZE: nat := 0x100_0000
  const VIRT_OFFSET: nat := 0xFFFF_FFC0_0000_0000
  const KERNEL_BASE_VA: nat := 0xFFFF_FFC0_8000_0000

  type Memory = map<nat, seq<nat>>

  function VirtToPhys(addr: nat): nat {
    if addr >= KERNEL_BASE_VA then addr - VIRT_OFFSET else addr
  }

  function AddrOf(p: nat): nat {
    p * PAGE_SIZE
  }

  function PageOf(addr: nat): nat {
    addr / PAGE_SIZE
  }

  /** Page-aligned addresses and page numbers are the same thing. */
  lemma PageAddress(p: nat, a: nat)
    ensures PageOf(AddrOf(p)) == p && AddrOf(p) % PAGE_SIZE == 0
    ensures a % PAGE_SIZE == 0 ==> AddrOf(PageOf(a)) == a
  {
  }

  function RoundUp(a: nat): nat {
    AddrOf(PageOf(a + PAGE_SIZE - 1))
  }

  function RoundDown(a: nat): nat {
    AddrOf(PageOf(a))
  }

  function HeapStart(heapSymbol: nat): nat {
    RoundUp(VirtToPhys(heapSymbol))
  }

  function HeapEnd(heapSymbol: nat, stackSymbol: nat): nat {
    var end, limit := HeapStart(heapSymbol) + MAX_HEAP_SIZE, VirtToPhys(stackSymbol);
    RoundDown(if end > limit then limit else end)
  }

  /** The heap starts at the first page boundary from its symbol on, and ends at the last one below the
      stack that is at most 16 MiB further. */
  lemma HeapBounds(heapSymbol: nat, stackSymbol: nat)
    ensures var lo := HeapStart(heapSymbol);
            var first :=
              if heapSymbol >= 0xFFFF_FFC0_8000_0000 then heapSymbol - 0xFFFF_FFC0_0000_0000 else heapSymbol;
            lo % 4096 == 0 && first <= lo < first + 4096
    ensures var lo, hi := HeapStart(heapSymbol), HeapEnd(heapSymbol, stackSymbol);
            var last :=
              if stackSymbol >= 0xFFFF_FFC0_8000_0000 then stackSymbol - 0xFFFF_FFC0_0000_0000 else stackSymbol;
            && hi % 4096 == 0 && hi <= last && hi <= lo + 0x100_0000
            && (hi + 4096 > last || hi + 4096 > lo + 0x100_0000)
  {
    hide VirtToPhys;
    RoundsUp(VirtToPhys(heapSymbol));
    var end, limit := HeapStart(heapSymbol) + MAX_HEAP_SIZE, VirtToPhys(stackSymbol);
    RoundsDown(if end > limit then limit else end);
    PhysicalAddress(heapSymbol);
    PhysicalAddress(stackSymbol);
  }

  lemma PhysicalAddress(a: nat)
    ensures VirtToPhys(a) == if a >= 0xFFFF_FFC0_8000_0000 then a - 0xFFFF_FFC0_0000_0000 else a
  {
  }

  lemma RoundsUp(a: nat)
    ensures RoundUp(a) % 4096 == 0 && a <= RoundUp(a) < a + 4096
  {
  }

  lemma RoundsDown(a: nat)
    ensures RoundDown(a) % 4096 == 0 && RoundDown(a) <= a < RoundDown(a) + 4096
  {
  }

  /** The link to list position `i`. */
  function LinkTo(s: seq<nat>, i: nat): nat {
    if i < |s| then AddrOf(s[i]) else 0
  }

  ghost predicate IsPage(mem: Memory, p: nat) {
    p > 0 && p in mem && |mem[p]| == WORDS
  }

  /** One word of one page replaced. */
  function SetWord(mem: Memory, p: nat, i: nat, w: nat): (r: Memory)
    requires p in mem && i < |mem[p]|
    ensures r.Keys == mem.Keys && |r[p]| == |mem[p]| && r[p][i] == w
    ensures forall q :: q in mem && q != p ==> r[q] == mem[q]
    ensures forall j :: 0 <= j < |mem[p]| && j != i ==> r[p][j] == mem[p][j]
  {
    var page: seq<nat> := mem[p];
    mem[p := page[i := w]]
  }

  /** The list that starts at address `head` is `s`. */
  ghost predicate Chain(mem: Memory, head: nat, s: seq<nat>) {
    && head == LinkTo(s, 0)
    && (forall i {:trigger s[i]} :: 0 <= i < |s| ==> IsPage(mem, s[i]) && mem[s[i]][0] == LinkTo(s, i + 1))
  }

  /** In a chain only the end is NULL. */
  lemma NullIsEnd(mem: Memory, head: nat, s: seq<nat>, i: nat)
    requires Chain(mem, head, s) && i <= |s|
    ensures LinkTo(s, i) == 0 <==> i == |s|
    ensures i < |s| ==> PageOf(LinkTo(s, i)) == s[i] && IsPage(mem, s[i]) && mem[s[i]][0] == LinkTo(s, i + 1)
  {
    if i < |s| {
      assert IsPage(mem, s[i]);
    }
  }

  /** A pointer to a list pointer: the list head or the link word of a page. */
  datatype Link = Head | NextOf(p: nat)

  lemma ChainWithoutHead(mem: Memory, s: seq<nat>)
    requires s != [] && Chain(mem, AddrOf(s[0]), s)
    ensures Chain(mem, mem[s[0]][0], s[1..])
  {
  }

  /** How entries and links move when the entry behind `a` is dropped. */
  lemma LinksAfterDrop(a: seq<nat>, x: nat, b: seq<nat>, i: nat)
    requires i < |a + b| && a != []
    ensures var s, t := a + [x] + b, a + b;
            if i < |a| then t[i] == s[i] && (i < |a| - 1 ==> LinkTo(t, i + 1) == LinkTo(s, i + 1))
            else t[i] == s[i + 1] && LinkTo(t, i + 1) == LinkTo(s, i + 2)
    ensures LinkTo(a + b, |a|) == LinkTo(a + [x] + b, |a| + 1) && LinkTo(a + b, 0) == LinkTo(a + [x] + b, 0)
  {
  }

  /** Storing the successor of an entry in the link that led to it unlinks the entry. */
  lemma UnlinkAfter(mem: Memory, head: nat, a: seq<nat>, x: nat, b: seq<nat>)
    requires Distinct(a + [x] + b) && Chain(mem, head, a + [x] + b) && a != []
    ensures var q := a[|a| - 1]; IsPage(mem, q) && IsPage(mem, x) && Chain(SetWord(mem, q, 0, mem[x][0]), head, a + b)
  {
    hide LinkTo, SetWord;
    var s, t, q := a + [x] + b, a + b, a[|a| - 1];
    assert s[|a| - 1] == q && s[|a|] == x;
    LinksAfterDrop(a, x, b, 0);
    var mem' := SetWord(mem, q, 0, mem[x][0]);
    forall i | 0 <= i < |t| ensures IsPage(mem', t[i]) && mem'[t[i]][0] == LinkTo(t, i + 1) {
      LinksAfterDrop(a, x, b, i);
      var j := if i < |a| then i else i + 1;
      assert t[i] == s[j] && IsPage(mem, s[j]) && mem[s[j]][0] == LinkTo(s, j + 1);
      assert j != |a| - 1 ==> s[j] != q;
    }
  }

  lemma UnlinkFirst(mem: Memory, x: nat, b: seq<nat>)
    requires Chain(mem, AddrOf(x), [x] + b)
    ensures IsPage(mem, x) && Chain(mem, mem[x][0], b)
  {
    ChainWithoutHead(mem, [x] + b);
    assert ([x] + b)[1..] == b;
  }

  lemma DistinctDrop(a: seq<nat>, x: nat, b: seq<nat>)
    requires Distinct(a + [x] + b)
    ensures Distinct(a + b)
  {
    var s, t := a + [x] + b, a + b;
    forall i, j | 0 <= i < j < |t| ensures t[i] != t[j] {
      assert t[i] == s[if i < |a| then i else i + 1];
      assert t[j] == s[if j < |a| then j else j + 1];
    }
  }

  /** The unlinking loop stands after the entries `kept`, with `rest` still to look at. */
  ghost predicate Walking(mem: Memory, head: nat, link: Link, at: nat, kept: seq<nat>, rest: seq<nat>) {
    && Distinct(kept + rest) && Chain(mem, head, kept + rest)
    && at == LinkTo(rest, 0)
    && link == (if kept == [] then Head else NextOf(kept[|kept| - 1]))
  }

  lemma WalkingAt(mem: Memory, head: nat, link: Link, at: nat, kept: seq<nat>, rest: seq<nat>)
    requires Walking(mem, head, link, at, kept, rest)
    ensures at == 0 <==> rest == []
    ensures rest != [] ==> PageOf(at) == rest[0] && IsPage(mem, rest[0]) && at == AddrOf(rest[0])
                           && mem[rest[0]][0] == LinkTo(rest[1..], 0)
    ensures rest != [] && link.NextOf? ==> IsPage(mem, link.p) && link.p in kept
  {
    var s := kept + rest;
    NullIsEnd(mem, head, s, |kept|);
    if rest != [] {
      assert s[|kept|] == rest[0];
      assert LinkTo(s, |kept| + 1) == LinkTo(rest[1..], 0);
    }
    if link.NextOf? {
      assert s[|kept| - 1] == link.p;
    }
  }

  /** What the loop stores when it drops an entry: in the list head or in a page. */
  function StoreLink(mem: Memory, head: nat, link: Link, w: nat): (Memory, nat)
    requires link.NextOf? ==> link.p in mem && |mem[link.p]| > 0
  {
    match link
    case Head => (mem, w)
    case NextOf(q) => (SetWord(mem, q, 0, w), head)
  }

  lemma WalkStarts(mem: Memory, head: nat, s: seq<nat>)
    requires Chain(mem, head, s) && Distinct(s)
    ensures Walking(mem, head, Head, head, [], s)
  {
    assert [] + s == s;
  }

  lemma WalkEnds(mem: Memory, head: nat, link: Link, at: nat, kept: seq<nat>, rest: seq<nat>, p: nat, n: nat)
    requires Walking(mem, head, link, at, kept, rest) && at == 0
    ensures Chain(mem, head, kept) && Distinct(kept) && kept + Without(rest, p, n) == kept
  {
    WalkingAt(mem, head, link, at, kept, rest);
    assert kept + rest == kept;
  }

  /** How the list left so far changes when the loop passes one entry. */
  lemma WithoutStep(kept: seq<nat>, rest: seq<nat>, p: nat, n: nat)
    requires rest != []
    ensures kept + Without(rest, p, n) ==
            if p <= rest[0] < p + n then kept + Without(rest[1..], p, n)
            else kept + [rest[0]] + Without(rest[1..], p, n)
  {
  }

  lemma WalkDrops(mem: Memory, head: nat, link: Link, at: nat, kept: seq<nat>, rest: seq<nat>)
    requires Walking(mem, head, link, at, kept, rest) && rest != []
    requires IsPage(mem, rest[0]) && (link.NextOf? ==> IsPage(mem, link.p))
    ensures var next := mem[rest[0]][0];
            var (mem', head') := StoreLink(mem, head, link, next);
            Walking(mem', head', link, next, kept, rest[1..])
  {
    var x, b := rest[0], rest[1..];
    assert rest == [x] + b && kept + rest == kept + [x] + b;
    WalkingAt(mem, head, link, at, kept, rest);
    DistinctDrop(kept, x, b);
    if kept == [] {
      assert kept + rest == [x] + b && kept + b == b;
      UnlinkFirst(mem, x, b);
    } else {
      UnlinkAfter(mem, head, kept, x, b);
    }
  }

  lemma WalkKeeps(mem: Memory, head: nat, link: Link, at: nat, kept: seq<nat>, rest: seq<nat>)
    requires Walking(mem, head, link, at, kept, rest) && rest != []
    requires IsPage(mem, rest[0])
    ensures Walking(mem, head, NextOf(rest[0]), mem[rest[0]][0], kept + [rest[0]], rest[1..])
  {
    WalkingAt(mem, head, link, at, kept, rest);
    assert kept + [rest[0]] + rest[1..] == kept + rest;
  }

  /** A run that would end beyond the heap is not free. */
  lemma BeyondHeap(free: seq<nat>, p: nat, n: nat, heapEnd: nat)
    requires n > 0 && heapEnd % PAGE_SIZE == 0 && AddrOf(p) + n * PAGE_SIZE > heapEnd
    requires forall i :: 0 <= i < |free| ==> AddrOf(free[i]) < heapEnd
    ensures !RunFree(free, p, n)
  {
    assert AddrOf(p + n - 1) >= heapEnd;
    assert p + n - 1 !in free;
  }

  /** Fewer free pages than asked for hold no run. */
  lemma NoRoom(free: seq<nat>, n: nat)
    requires Distinct(free) && n > |free|
    ensures forall p: nat :: !RunFree(free, p, n)
  {
    forall p: nat ensures !RunFree(free, p, n) {
      CountFindsRuns(free, p, n);
    }
  }

  /** A single page is a run, and taking it leaves the tail. */
  lemma SinglePage(free: seq<nat>)
    requires Distinct(free) && free != []
    ensures FirstRun(free, 1, 0) == Some(0) && Without(free, free[0], 1) == free[1..]
  {
    assert RunFree(free, free[0], 1);
    AllStay(free[1..], free[0], 1);
  }

  /** Stepping down one page puts a new, lower page in front of an ascending list. */
  lemma OnePageDown(addr: nat, end: nat)
    requires addr % PAGE_SIZE == 0 && PAGE_SIZE <= addr && PageOf(addr) <= end
    ensures AddrOf(PageOf(addr - PAGE_SIZE)) == addr - PAGE_SIZE
    ensures PageOf(addr - PAGE_SIZE) !in Ascending(PageOf(addr), end)
    ensures Ascending(PageOf(addr - PAGE_SIZE), end) == [PageOf(addr - PAGE_SIZE)] + Ascending(PageOf(addr), end)
  {
  }

  /** All pages between two addresses exist. */
  ghost predicate HeapPages(mem: Memory, start: nat, end: nat) {
    forall p: nat {:trigger IsPage(mem, p)} :: start <= AddrOf(p) < end ==> IsPage(mem, p)
  }

  /** A page stays a page, whatever becomes of its contents. */
  ghost predicate PagesKept(mem: Memory, mem': Memory) {
    forall p: nat {:trigger IsPage(mem', p)} :: IsPage(mem, p) ==> IsPage(mem', p)
  }

  lemma HeapPagesKept(mem: Memory, mem': Memory, start: nat, end: nat)
    requires HeapPages(mem, start, end) && PagesKept(mem, mem')
    ensures HeapPages(mem', start, end)
  {
    hide IsPage, AddrOf;
    forall p: nat | start <= AddrOf(p) < end ensures IsPage(mem', p) {
      assert IsPage(mem, p);
    }
  }

  lemma PagesKeptTwice(a: Memory, b: Memory, c: Memory)
    requires PagesKept(a, b) && PagesKept(b, c)
    ensures PagesKept(a, c)
  {
    hide IsPage;
    forall p: nat | IsPage(a, p) ensures IsPage(c, p) {
      assert IsPage(b, p);
    }
  }

  lemma SetWordKeepsPages(mem: Memory, p: nat, i: nat, w: nat)
    requires p in mem && i < |mem[p]|
    ensures PagesKept(mem, SetWord(mem, p, i, w))
  {
  }

  lemma PageOrder(a: nat, b: nat)
    requires a <= b
    ensures PageOf(a) <= PageOf(b)
  {
  }

  lemma HeadIsFirst(mem: Memory, head: nat, s: seq<nat>)
    requires Chain(mem, head, s)
    ensures head == LinkTo(s, 0)
  {
  }

  lemma InByteRange(p: nat, start: nat, n: nat)
    requires start % PAGE_SIZE == 0
    ensures start <= AddrOf(p) < start + n * PAGE_SIZE <==> PageOf(start) <= p < PageOf(start) + n
  {
  }

  lemma HeapPage(mem: Memory, start: nat, end: nat, p: nat)
    requires HeapPages(mem, start, end) && start <= AddrOf(p) < end
    ensures IsPage(mem, p)
  {
    hide IsPage;
  }

  lemma PageHasWords(mem: Memory, p: nat)
    requires IsPage(mem, p)
    ensures p in mem && |mem[p]| == WORDS
  {
  }

  lemma SamePages(mem: Memory)
    ensures PagesKept(mem, mem)
  {
  }

  /** Aligned addresses in the heap are the page numbers between its bounds. */
  lemma InHeap(p: nat, start: nat, end: nat)
    requires start % PAGE_SIZE == 0 == end % PAGE_SIZE
    ensures start <= AddrOf(p) < end <==> PageOf(start) <= p < PageOf(end)
  {
  }

  lemma NoEvents(h: Heap)
    ensures Run(h, []) == h
  {
  }

  /** Putting a page in front of a chain. */
  lemma PushChain(mem: Memory, head: nat, s: seq<nat>, p: nat)
    requires Chain(mem, head, s) && Distinct(s) && IsPage(mem, p) && p !in s
    ensures Chain(SetWord(mem, p, 0, head), AddrOf(p), [p] + s) && Distinct([p] + s)
  {
    hide SetWord;
    var mem', t := SetWord(mem, p, 0, head), [p] + s;
    forall i | 0 <= i < |t| ensures IsPage(mem', t[i]) && mem'[t[i]][0] == LinkTo(t, i + 1) {
      if i > 0 {
        assert t[i] == s[i - 1] && IsPage(mem, s[i - 1]) && mem[s[i - 1]][0] == LinkTo(s, i);
      }
    }
  }

  class Allocator {
    var mem: Memory
    var freeList: nat
    var freeCount: nat
    var heapStart: nat
    var heapEnd: nat
    ghost var free: seq<nat>
    // the account of PageAllocator: the pages in use and the events since `page_allocator_init`
    ghost var owner: map<nat, nat>
    ghost var serial: nat
    ghost var trace: seq<Event>

    /** The list in memory is `free`, and all pages of the heap exist. */
    ghost predicate Listed()
      reads this
    {
      && Chain(mem, freeList, free) && Distinct(free) && freeCount == |free|
      && heapStart % PAGE_SIZE == 0 == heapEnd % PAGE_SIZE
      && (forall i {:trigger free[i]} :: 0 <= i < |free| ==> heapStart <= AddrOf(free[i]) < heapEnd)
      && HeapPages(mem, heapStart, heapEnd)
    }

    ghost function State(): Heap
      reads this
    {
      Heap(PageOf(heapStart), PageOf(heapEnd), free, owner, serial)
    }

    /** The allocator has got here by requests and frees from a fresh heap, so what PageAllocator proves
        of every run holds of it. */
    ghost predicate Valid()
      reads this
    {
      Listed() && State() == Run(Fresh(PageOf(heapStart), PageOf(heapEnd)), trace)
    }

    /** `page_allocator_init`: rounds the bounds and builds an ascending list from the top down. */
    constructor (mem: Memory, heapSymbol: nat, stackSymbol: nat)
      requires HeapPages(mem, HeapStart(heapSymbol), HeapEnd(heapSymbol, stackSymbol))
      ensures Valid() && heapStart == HeapStart(heapSymbol) && heapEnd == HeapEnd(heapSymbol, stackSymbol)
      ensures var first :=
                if heapSymbol >= 0xFFFF_FFC0_8000_0000 then heapSymbol - 0xFFFF_FFC0_0000_0000 else heapSymbol;
              heapStart % 4096 == 0 && first <= heapStart < first + 4096
      ensures var last :=
                if stackSymbol >= 0xFFFF_FFC0_8000_0000 then stackSymbol - 0xFFFF_FFC0_0000_0000 else stackSymbol;
              && heapEnd % 4096 == 0 && heapEnd <= last && heapEnd <= heapStart + 0x100_0000
              && (heapEnd + 4096 > last || heapEnd + 4096 > heapStart + 0x100_0000)
      ensures State() == Fresh(PageOf(heapStart), PageOf(heapEnd)) && trace == []
      ensures this.mem.Keys == mem.Keys && PagesKept(mem, this.mem)
      ensures forall p :: p in mem && p !in free ==> this.mem[p] == mem[p]
    {
      hide Ascending, IsPage;
      heapStart := HeapStart(heapSymbol);
      var end := HeapStart(heapSymbol) + MAX_HEAP_SIZE;
      var limit := VirtToPhys(stackSymbol);
      if end > limit {
        end := limit;
      }
      this.mem, heapEnd := mem, RoundDown(end);
      freeList, freeCount, free := 0, 0, [];
      owner, serial, trace := map[], 0, [];
      new;
      hide *;
      HeapBounds(heapSymbol, stackSymbol);
      BuildList();
      NoEvents(Fresh(PageOf(heapStart), PageOf(heapEnd)));
    }

    method BuildList()
      requires Listed() && free == []
      modifies this`mem, this`freeList, this`freeCount, this`free
      ensures Listed() && free == Ascending(PageOf(heapStart), PageOf(heapEnd))
      ensures mem.Keys == old(mem).Keys && PagesKept(old(mem), mem)
      ensures forall p :: p in mem && p !in free ==> mem[p] == old(mem)[p]
    {
      hide Chain, AddrOf, PageOf, IsPage, Ascending, SetWord, HeapPages, PagesKept;
      var addr := heapEnd;
      SamePages(mem);
      while addr > heapStart
        invariant addr % PAGE_SIZE == 0 && (addr == heapEnd || heapStart <= addr < heapEnd)
        invariant free == Ascending(PageOf(addr), PageOf(heapEnd))
        invariant Listed() && mem.Keys == old(mem).Keys && PagesKept(old(mem), mem)
        invariant forall p :: p in mem && p !in free ==> mem[p] == old(mem)[p]
      {
        PageOrder(addr, heapEnd);
        OnePageDown(addr, PageOf(heapEnd));
        addr := addr - PAGE_SIZE;
        HeapPage(mem, heapStart, heapEnd, PageOf(addr));
        ghost var before := mem;
        PushFree(PageOf(addr));
        PagesKeptTwice(old(mem), before, mem);
      }
      PageOrder(addr, heapStart);
    }

    /** `node->next = free_list; free_list = node; free_page_count++` */
    method PushFree(p: nat)
      requires Listed() && IsPage(mem, p) && p !in free && heapStart <= AddrOf(p) < heapEnd
      modifies this`mem, this`freeList, this`freeCount, this`free
      ensures Listed() && free == [p] + old(free)
      ensures mem == SetWord(old(mem), p, 0, old(freeList)) && PagesKept(old(mem), mem)
    {
      hide Chain, HeapPages, PagesKept, IsPage, SetWord;
      PageHasWords(mem, p);
      SetWordKeepsPages(mem, p, 0, freeList);
      HeapPagesKept(mem, SetWord(mem, p, 0, freeList), heapStart, heapEnd);
      PushChain(mem, freeList, free, p);
      mem := SetWord(mem, p, 0, freeList);
      freeList := AddrOf(p);
      free := [p] + free;
      freeCount := freeCount + 1;
    }

    /** Enters an event in the account. */
    ghost method Record(e: Event, before: Heap)
      requires before == Run(Fresh(PageOf(heapStart), PageOf(heapEnd)), trace)
      requires before.lo == PageOf(heapStart) && before.hi == PageOf(heapEnd) && Apply(before, e).free == free
      modifies this`owner, this`serial, this`trace
      ensures State() == Apply(before, e) == Run(Fresh(PageOf(heapStart), PageOf(heapEnd)), trace)
    {
      hide Run, Request, Fresh;
      RunSnoc(Fresh(PageOf(heapStart), PageOf(heapEnd)), trace, e);
      owner, serial, trace := Apply(before, e).owner, Apply(before, e).serial, trace + [e];
    }

    /** `mem_free`: gives one page back unless the pointer is NULL, outside the heap or unaligned. */
    method MemFree(page: nat)
      requires Valid()
      requires VirtToPhys(page) % PAGE_SIZE == 0 ==> PageOf(VirtToPhys(page)) !in free  // no double free
      modifies this`mem, this`freeList, this`freeCount, this`free, this`owner, this`serial, this`trace
      ensures Valid() && PagesKept(old(mem), mem)
      ensures var a := VirtToPhys(page);
              if page == 0 || a < heapStart || a >= heapEnd || a % PAGE_SIZE != 0
              then State() == old(State()) && mem == old(mem)
              else && PageOf(a) in old(owner) && State() == Apply(old(State()), Free(PageOf(a)))
                   && free == [PageOf(a)] + old(free)
                   && IsPage(old(mem), PageOf(a)) && mem == SetWord(old(mem), PageOf(a), 0, old(freeList))
    {
      hide Chain, HeapPages, PagesKept, Run, Fresh;
      var addr := VirtToPhys(page);
      SamePages(mem);
      if page == 0 || addr < heapStart || addr >= heapEnd || addr % PAGE_SIZE != 0 {
        return;
      }
      ghost var before := State();
      PageAddress(0, addr);
      HeapPage(mem, heapStart, heapEnd, PageOf(addr));
      EveryRun(PageOf(heapStart), PageOf(heapEnd), trace, 0);
      InHeap(PageOf(addr), heapStart, heapEnd);
      PushFree(PageOf(addr));
      Record(Free(PageOf(addr)), before);
    }

    /** The counting loop: how many list entries lie in the byte range `start .. start + n pages`. */
    method CountRange(start: nat, n: nat) returns (found: nat)
      requires Listed() && start % PAGE_SIZE == 0
      ensures found == CountIn(free, PageOf(start), n)
    {
      hide Chain;
      found := 0;
      var page := freeList;
      ghost var i := 0;
      HeadIsFirst(mem, freeList, free);
      NullIsEnd(mem, freeList, free, i);
      while page != 0
        invariant 0 <= i <= |free| && page == LinkTo(free, i)
        invariant page == 0 <==> i == |free|
        invariant found == CountIn(free[..i], PageOf(start), n)
        decreases |free| - i
      {
        NullIsEnd(mem, freeList, free, i);
        NullIsEnd(mem, freeList, free, i + 1);
        InByteRange(free[i], start, n);
        assert free[..i + 1][..i] == free[..i];
        if page >= start && page < start + n * PAGE_SIZE {
          found := found + 1;
        }
        page := mem[PageOf(page)][0];
        i := i + 1;
      }
      assert free[..i] == free;
    }

    /** The pointer-to-pointer loop: unlinks every entry of the range and keeps the others in order. */
    method Unlink(start: nat, n: nat)
      requires Listed() && start % PAGE_SIZE == 0
      modifies this`mem, this`freeList, this`free
      ensures Chain(mem, freeList, free) && Distinct(free)
      ensures free == Without(old(free), PageOf(start), n)
      ensures mem.Keys == old(mem).Keys && PagesKept(old(mem), mem)
      ensures forall p :: p in mem && p !in old(free) ==> mem[p] == old(mem)[p]
    {
      hide Walking, Chain, Without, IsPage, LinkTo, AddrOf, PageOf, SetWord, PagesKept, HeapPages;
      ghost var s := free;
      SamePages(mem);
      ghost var kept, rest: seq<nat> := [], free;
      WalkStarts(mem, freeList, free);
      var link := Head;
      var at: nat := freeList;
      while at != 0
        invariant Walking(mem, freeList, link, at, kept, rest)
        invariant kept + Without(rest, PageOf(start), n) == Without(s, PageOf(start), n)
        invariant forall x :: x in kept || x in rest ==> x in s
        invariant mem.Keys == old(mem).Keys && PagesKept(old(mem), mem)
        invariant forall q :: q in mem && q !in s ==> mem[q] == old(mem)[q]
        decreases |rest|
      {
        WalkingAt(mem, freeList, link, at, kept, rest);
        InByteRange(rest[0], start, n);
        var next: nat := mem[PageOf(at)][0];
        if at >= start && at < start + n * PAGE_SIZE {
          WalkDrops(mem, freeList, link, at, kept, rest);
          WithoutStep(kept, rest, PageOf(start), n);
          if link.Head? {
            freeList := next;
          } else {
            PageHasWords(mem, link.p);
            SetWordKeepsPages(mem, link.p, 0, next);
            PagesKeptTwice(old(mem), mem, SetWord(mem, link.p, 0, next));
            mem := SetWord(mem, link.p, 0, next);
          }
        } else {
          WalkKeeps(mem, freeList, link, at, kept, rest);
          link := NextOf(PageOf(at));
          WithoutStep(kept, rest, PageOf(start), n);
          kept := kept + [rest[0]];
        }
        rest := rest[1..];
        at := next;
      }
      WalkEnds(mem, freeList, link, at, kept, rest, PageOf(start), n);
      free := kept;
    }

    /** The single-page path. */
    method PopFirst() returns (r: nat)
      requires Listed() && free != []
      modifies this`freeList, this`freeCount, this`free
      ensures Listed() && r == AddrOf(old(free)[0]) > 0 && free == old(free)[1..]
    {
      hide HeapPages;
      NullIsEnd(mem, freeList, free, 0);
      ChainWithoutHead(mem, free);
      hide Chain;
      r := freeList;
      freeList := mem[PageOf(r)][0];
      freeCount := freeCount - 1;
      free := free[1..];
    }

    /** The outer loop: the first entry whose whole range is counted, or NULL. */
    method FindRun(count: nat) returns (r: nat)
      requires Listed() && count > 0
      ensures var i := FirstRun(free, count, 0); r == if i.Some? then AddrOf(free[i.value]) else 0
      ensures r != 0 <==> FirstRun(free, count, 0).Some?
    {
      hide Chain, RunFree, HeapPages;
      var first := freeList;
      ghost var i := 0;
      HeadIsFirst(mem, freeList, free);
      NullIsEnd(mem, freeList, free, i);
      while first != 0
        invariant 0 <= i <= |free| && first == LinkTo(free, i)
        invariant first == 0 <==> i == |free|
        invariant FirstRun(free, count, i) == FirstRun(free, count, 0)
        decreases |free| - i
      {
        NullIsEnd(mem, freeList, free, i);
        NullIsEnd(mem, freeList, free, i + 1);
        PageAddress(free[i], first);
        var start := first;
        var end := start + count * PAGE_SIZE;
        if end <= heapEnd {
          var found := CountRange(start, count);
          CountFindsRuns(free, free[i], count);
          if found == count {
            return start;
          }
        } else {
          BeyondHeap(free, free[i], count, heapEnd);
        }
        first := mem[PageOf(first)][0];
        i := i + 1;
      }
      r := 0;
    }

    /** `mem_alloc`: the address of the first list entry that starts a long enough run, or NULL. */
    method MemAlloc(size: nat) returns (r: nat)
      requires Valid()
      modifies this`mem, this`freeList, this`freeCount, this`free, this`owner, this`serial, this`trace
      ensures Valid() && State() == Apply(old(State()), Alloc(size))
      ensures var outcome := Request(old(free), size).0; r == if outcome.Granted? then AddrOf(outcome.page) else 0
      ensures r != 0 <==> size > 0 && exists a: nat :: FreeRange(old(free), a, size)
      ensures r != 0 ==> r % 4096 == 0 && heapStart <= r && r + size <= heapEnd
      ensures r != 0 ==> forall b: nat :: r <= b < r + size ==>
                           PageOf(b) in owner && PageOf(b) in old(free) && owner[PageOf(b)] == old(serial)
      ensures r != 0 ==> forall p: nat {:trigger p in owner} :: p in owner && owner[p] == old(serial) ==>
                           exists b: nat :: r <= b < r + size && PageOf(b) == p
      ensures mem.Keys == old(mem).Keys && PagesKept(old(mem), mem)
      ensures size <= 4096 ==> mem == old(mem)
      ensures forall p :: p in mem && p !in old(free) ==> mem[p] == old(mem)[p]
    {
      hide Chain, RunFree, FreeRange, HeapPages, PagesKept, Run, Fresh, Request;
      ghost var before := State();
      EveryRun(PageOf(heapStart), PageOf(heapEnd), trace, size);
      r := TakePages(size);
      ApplyFree(before, size);
      Record(Alloc(size), before);
      if r != 0 {
        GrantedBytes(before, State(), size, r, heapStart, heapEnd);
      }
    }

    /** What `mem_alloc` does to memory and list. */
    method TakePages(size: nat) returns (r: nat)
      requires Listed()
      modifies this`mem, this`freeList, this`freeCount, this`free
      ensures Listed()
      ensures var (outcome, rest) := Request(old(free), size);
              free == rest && r == if outcome.Granted? then AddrOf(outcome.page) else 0
      ensures r != 0 <==> size > 0 && exists a: nat :: FreeRange(old(free), a, size)
      ensures forall p: nat :: p in free <==> p in old(free) && !(r != 0 && Touches(r, size, p))
      ensures mem.Keys == old(mem).Keys && PagesKept(old(mem), mem)
      ensures size <= 4096 ==> mem == old(mem)
      ensures forall p :: p in mem && p !in old(free) ==> mem[p] == old(mem)[p]
    {
      hide Chain, RunFree, HeapPages, PagesKept;
      RequestSucceedsIff(free, size);
      SamePages(mem);
      if size == 0 {
        return 0;
      }
      var count := PagesFor(size);
      if count > freeCount {
        NoRoom(free, count);
        return 0;
      }
      if count == 1 {
        SinglePage(free);
        r := PopFirst();
        return;
      }
      r := FindRun(count);
      if r != 0 {
        TakeRun(r, count);
      }
    }

    /** Removes the run that was found. */
    method TakeRun(start: nat, count: nat)
      requires Listed() && start % PAGE_SIZE == 0 && RunFree(free, PageOf(start), count)
      modifies this`mem, this`freeList, this`freeCount, this`free
      ensures Listed() && free == Without(old(free), PageOf(start), count)
      ensures mem.Keys == old(mem).Keys && PagesKept(old(mem), mem)
      ensures forall p :: p in mem && p !in old(free) ==> mem[p] == old(mem)[p]
    {
      hide Chain, RunFree, HeapPages, PagesKept;
      ghost var s := free;
      WithoutLength(s, PageOf(start), count);
      CountFindsRuns(s, PageOf(start), count);
      Unlink(start, count);
      HeapPagesKept(old(mem), mem, heapStart, heapEnd);
      freeCount := freeCount - count;
      forall i | 0 <= i < |free| ensures heapStart <= AddrOf(free[i]) < heapEnd {
        assert free[i] in s;
        var j :| 0 <= j < |s| && s[j] == free[i];
      }
    }
  }

  lemma ApplyFree(h: Heap, size: nat)
    ensures PageAllocator.Apply(h, Alloc(size)).free == Request(h.free, size).1
  {
    hide RunFree, Without, FirstRun;
    RequestSucceedsIff(h.free, size);
  }

  /** What a grant at `r` is to the client: its bytes lie in the heap, in pages that were free and that now
      belong to this request, and no other page does. */
  lemma GrantedBytes(h: Heap, h': Heap, size: nat, r: nat, heapStart: nat, heapEnd: nat)
    requires Partitioned(h) && SerialsBelow(h) && h' == Apply(h, Alloc(size))
    requires Request(h.free, size).0.Granted? && r == AddrOf(Request(h.free, size).0.page) && size > 0
    requires h.lo == PageOf(heapStart) && h.hi == PageOf(heapEnd) && heapStart % PAGE_SIZE == 0 == heapEnd % PAGE_SIZE
    ensures r % 4096 == 0 && heapStart <= r && r + size <= heapEnd
    ensures forall b: nat :: r <= b < r + size ==>
              PageOf(b) in h'.owner && PageOf(b) in h.free && h'.owner[PageOf(b)] == h.serial
    ensures forall p: nat {:trigger p in h'.owner} :: p in h'.owner && h'.owner[p] == h.serial ==>
              exists b: nat :: r <= b < r + size && PageOf(b) == p
  {
    hide Request, Apply;
    GrantHoldsBytes(h, size);
    forall b: nat | r <= b < r + size
      ensures PageOf(b) in h'.owner && PageOf(b) in h.free && h'.owner[PageOf(b)] == h.serial
    {
      ByteIsHeld(r, size, b);
      assert Touches(r, size, PageOf(b));
    }
    forall p: nat | p in h'.owner && h'.owner[p] == h.serial
      ensures exists b: nat :: r <= b < r + size && PageOf(b) == p
    {
      assert Touches(r, size, p);
      var b := if p * 4096 < r then r else p * 4096;
      assert r <= b < r + size && PageOf(b) == p;
    }
    assert PageOf(r) in h.free && PageOf(r + size - 1) in h.free;
    assert h.lo <= PageOf(r) && PageOf(r + size - 1) < h.hi;
  }

  /** What holds of every allocator that the code can bring about: the count is the length of the list,
      free and live pages partition the heap, and a request succeeds exactly when a page-aligned range of
      its size is free. */
  lemma EveryAllocator(a: Allocator, size: nat)
    requires a.Valid()
    ensures a.freeCount == |a.free| && Partitioned(a.State())
    ensures SerialsBelow(a.State())
    ensures Request(a.free, size).0.Granted? <==> size > 0 && exists p: nat :: FreeRange(a.free, p, size)
  {
    hide Run, Fresh, RunFree, FreeRange, Request;
    EveryRun(PageOf(a.heapStart), PageOf(a.heapEnd), a.trace, size);
  }
}

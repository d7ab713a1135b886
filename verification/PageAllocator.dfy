/**
 The physical page allocator. `free` is the list of free page numbers in list order. This module
 says what a request does to that list and what holds over every run of requests and frees;
 PageHeap shows that the pointer code does it.
 */
module PageAllocator {
  import opened Basics

  const PAGE_SIZE: nat := 4096

  function PagesFor(size: nat): nat {
    (size + PAGE_SIZE - 1) / PAGE_SIZE
  }

  /** Page `p` holds one of the `size` bytes from address `a` on. */
  predicate Touches(a: nat, size: nat, p: nat) {
    a < (p + 1) * 4096 && p * 4096 < a + size
  }

  /** The pages of a request are those that hold its bytes: as many as needed and no more. */
  lemma PagesHoldBytes(first: nat, size: nat, p: nat)
    requires size > 0
    ensures first <= p < first + PagesFor(size) <==> Touches(first * 4096, size, p)
  {
    var n := PagesFor(size);
    assert (n - 1) * 4096 < size <= n * 4096;
  }

  lemma ByteIsHeld(a: nat, size: nat, b: nat)
    requires a <= b < a + size
    ensures Touches(a, size, b / 4096)
  {
  }

  /** A page-aligned range of `size` bytes, all of them in free pages. */
  ghost predicate FreeRange(free: seq<nat>, a: nat, size: nat) {
    a % 4096 == 0 && forall p: nat {:trigger p in free} :: Touches(a, size, p) ==> p in free
  }

  /** All of the `n` pages from `p` on are free. */
  ghost predicate RunFree(free: seq<nat>, p: nat, n: nat) {
    forall x: nat {:trigger x in free} :: p <= x < p + n ==> x in free
  }

  /** The first list position from `i` on whose page starts a free run of `n` pages. */
  ghost function FirstRun(free: seq<nat>, n: nat, i: nat): (r: Option<nat>)
    requires i <= |free|
    ensures r.Some? ==> i <= r.value < |free| && RunFree(free, free[r.value], n)
    ensures forall j :: i <= j < (if r.Some? then r.value else |free|) ==> !RunFree(free, free[j], n)
    decreases |free| - i
  {
    if i == |free| then None
    else if RunFree(free, free[i], n) then Some(i)
    else FirstRun(free, n, i + 1)
  }

  /** The list without the pages `p .. p + n`, in the same order. */
  function Without(free: seq<nat>, p: nat, n: nat): (r: seq<nat>)
    ensures forall x :: x in r <==> x in free && !(p <= x < p + n)
  {
    if free == [] then []
    else if p <= free[0] < p + n then Without(free[1..], p, n)
    else [free[0]] + Without(free[1..], p, n)
  }

  datatype Outcome = Refused | Granted(page: nat)

  /** A request for `size` bytes: the granted page, if any, and the list afterwards. */
  ghost function Request(free: seq<nat>, size: nat): (Outcome, seq<nat>) {
    var n := PagesFor(size);
    if size == 0 then (Refused, free)
    else match FirstRun(free, n, 0)
      case None => (Refused, free)
      case Some(i) => (Granted(free[i]), Without(free, free[i], n))
  }

  /** A request succeeds exactly when it is not empty and a page-aligned range of that many bytes lies in
      free pages, that is, when enough consecutive pages are free; so success depends on the set of free
      pages and not on the order of the list. */
  lemma RequestSucceedsIff(free: seq<nat>, size: nat)
    ensures Request(free, size).0.Granted? <==> size > 0 && exists p: nat :: RunFree(free, p, PagesFor(size))
    ensures Request(free, size).0.Granted? <==> size > 0 && exists a: nat :: FreeRange(free, a, size)
  {
    RunSucceedsIff(free, size);
    if size > 0 {
      if p: nat :| RunFree(free, p, PagesFor(size)) {
        RunIsRange(free, p, size);
        assert FreeRange(free, p * 4096, size);
      }
      if a: nat :| FreeRange(free, a, size) {
        assert a == a / 4096 * 4096;
        RunIsRange(free, a / 4096, size);
        assert RunFree(free, a / 4096, PagesFor(size));
      }
    }
  }

  /** A run of free pages is a range of free bytes. */
  lemma RunIsRange(free: seq<nat>, p: nat, size: nat)
    requires size > 0
    ensures RunFree(free, p, PagesFor(size)) <==> FreeRange(free, p * 4096, size)
  {
    hide PagesFor, Touches;
    forall x: nat ensures p <= x < p + PagesFor(size) <==> Touches(p * 4096, size, x) {
      PagesHoldBytes(p, size, x);
    }
  }

  lemma RunSucceedsIff(free: seq<nat>, size: nat)
    ensures Request(free, size).0.Granted? <==> size > 0 && exists p: nat :: RunFree(free, p, PagesFor(size))
  {
    var n := PagesFor(size);
    if size > 0 && exists p: nat :: RunFree(free, p, n) {
      var p: nat :| RunFree(free, p, n);
      assert p in free;
      var j :| 0 <= j < |free| && free[j] == p;
      assert RunFree(free, free[j], n);
    }
  }

  lemma OrderDoesNotMatter(a: seq<nat>, b: seq<nat>, size: nat)
    requires forall x: nat :: x in a <==> x in b
    ensures Request(a, size).0.Granted? <==> Request(b, size).0.Granted?
  {
    RequestSucceedsIff(a, size);
    RequestSucceedsIff(b, size);
    var n := PagesFor(size);
    forall p: nat ensures RunFree(a, p, n) <==> RunFree(b, p, n) {
    }
  }

  lemma {:induction false} WithoutDistinct(free: seq<nat>, p: nat, n: nat)
    requires Distinct(free)
    ensures Distinct(Without(free, p, n))
  {
    if free != [] {
      WithoutDistinct(free[1..], p, n);
      assert free[0] !in free[1..];
    }
  }

  lemma {:induction false} WithoutAppend(a: seq<nat>, b: seq<nat>, p: nat, n: nat)
    ensures Without(a + b, p, n) == Without(a, p, n) + Without(b, p, n)
  {
    if a == [] {
      assert a + b == b;
    } else {
      assert (a + b)[1..] == a[1..] + b;
      WithoutAppend(a[1..], b, p, n);
    }
  }

  // ---------- counting a run ----------

  /** How many list entries lie in `p .. p + n`. */
  function CountIn(s: seq<nat>, p: nat, n: nat): (c: nat)
    ensures c <= |s|
  {
    if s == [] then 0
    else CountIn(s[..|s| - 1], p, n) + (if p <= s[|s| - 1] < p + n then 1 else 0)
  }

  ghost function In(s: seq<nat>, p: nat, n: nat): set<nat> {
    set x | x in s && p <= x < p + n
  }

  lemma {:induction false} CountIsSize(s: seq<nat>, p: nat, n: nat)
    requires Distinct(s)
    ensures CountIn(s, p, n) == |In(s, p, n)|
  {
    if s == [] {
      assert In(s, p, n) == {};
    } else {
      var t, x := s[..|s| - 1], s[|s| - 1];
      CountIsSize(t, p, n);
      InSnoc(t, x, p, n);
      assert s == t + [x];
    }
  }

  lemma InSnoc(t: seq<nat>, x: nat, p: nat, n: nat)
    requires Distinct(t + [x])
    ensures In(t + [x], p, n) == if p <= x < p + n then In(t, p, n) + {x} else In(t, p, n)
    ensures x !in In(t, p, n)
  {
    forall i | 0 <= i < |t| ensures t[i] != x {
      assert (t + [x])[i] == t[i] && (t + [x])[|t|] == x;
    }
  }

  /** Counting the entries in a range tells whether the whole range is free. */
  lemma CountFindsRuns(s: seq<nat>, p: nat, n: nat)
    requires Distinct(s)
    ensures CountIn(s, p, n) == n <==> RunFree(s, p, n)
  {
    hide Interval, CountIn;
    CountIsSize(s, p, n);
    IntervalSize(p, p + n);
    SubsetSize<int>(In(s, p, n), Interval(p, p + n));
    if RunFree(s, p, n) {
      assert In(s, p, n) == Interval(p, p + n);
    } else {
      var x: nat :| p <= x < p + n && x !in s;
      assert x in Interval(p, p + n) && x !in In(s, p, n);
    }
  }

  lemma {:induction false} WithoutLength(s: seq<nat>, p: nat, n: nat)
    ensures |Without(s, p, n)| == |s| - CountIn(s, p, n)
  {
    if s != [] {
      var t, x := s[..|s| - 1], s[|s| - 1];
      WithoutLength(t, p, n);
      assert s == t + [x];
      WithoutAppend(t, [x], p, n);
      assert Without([x], p, n) == if p <= x < p + n then [] else [x];
    }
  }

  // ---------- runs of requests and frees ----------

  /** `owner` gives, for each page in use, the number of the request that got it. */
  datatype Heap = Heap(lo: nat, hi: nat, free: seq<nat>, owner: map<nat, nat>, serial: nat)

  /** Clients free only pages they own. */
  datatype Event = Alloc(size: nat) | Free(page: nat)

  ghost function Block(p: nat, n: nat, id: nat): (m: map<nat, nat>)
    ensures forall x: nat :: x in m <==> p <= x < p + n
    ensures forall x: nat :: x in m ==> m[x] == id
    decreases n
  {
    if n == 0 then map[] else Block(p, n - 1, id)[p + n - 1 := id]
  }

  ghost function Apply(h: Heap, e: Event): Heap {
    match e
    case Alloc(size) =>
      var (r, rest) := Request(h.free, size);
      if r.Granted? then
        h.(free := rest, owner := h.owner + Block(r.page, PagesFor(size), h.serial), serial := h.serial + 1)
      else h
    case Free(p) =>
      if p in h.owner then h.(free := [p] + h.free, owner := h.owner - {p}) else h
  }

  ghost function Run(h: Heap, events: seq<Event>): Heap
    decreases |events|
  {
    if events == [] then h else Run(Apply(h, events[0]), events[1..])
  }

  /** Pages `lo .. hi` in ascending order. */
  ghost function Ascending(lo: nat, hi: nat): (s: seq<nat>)
    ensures |s| == if lo < hi then hi - lo else 0
    ensures forall i :: 0 <= i < |s| ==> s[i] == lo + i
    decreases hi - lo
  {
    if lo < hi then [lo] + Ascending(lo + 1, hi) else []
  }

  ghost function Fresh(lo: nat, hi: nat): Heap {
    Heap(lo, hi, Ascending(lo, hi), map[], 0)
  }

  /** Free and owned pages partition the heap and the list repeats nothing. */
  ghost predicate Partitioned(h: Heap) {
    && Distinct(h.free)
    && (forall x: nat {:trigger x in h.free} {:trigger x in h.owner} ::
          (x in h.free ==> x !in h.owner) && (x in h.free || x in h.owner <==> h.lo <= x < h.hi))
  }

  /** A request never takes a page that another live request owns. */
  lemma AllocTakesOnlyFree(h: Heap, size: nat)
    requires Partitioned(h)
    ensures Partitioned(Apply(h, Alloc(size)))
    ensures forall x :: x in h.owner ==>
              x in Apply(h, Alloc(size)).owner && Apply(h, Alloc(size)).owner[x] == h.owner[x]
  {
    var (r, rest) := Request(h.free, size);
    if r.Granted? {
      var n := PagesFor(size);
      WithoutDistinct(h.free, r.page, n);
      assert RunFree(h.free, r.page, n);
      assert forall x: nat :: r.page <= x < r.page + n ==> x in h.free;
    }
  }

  /** Request numbers are not used twice. */
  ghost predicate SerialsBelow(h: Heap) {
    forall x: nat {:trigger h.owner[x]} :: x in h.owner ==> h.owner[x] < h.serial
  }

  /** A grant owns exactly the pages that hold its bytes, and takes exactly them from the list. */
  lemma GrantHoldsBytes(h: Heap, size: nat)
    requires SerialsBelow(h) && Request(h.free, size).0.Granted?
    ensures var h', a := Apply(h, Alloc(size)), Request(h.free, size).0.page * 4096;
            && FreeRange(h.free, a, size)
            && (forall p: nat {:trigger p in h'.owner} ::
                 Touches(a, size, p) <==> p in h'.owner && h'.owner[p] == h.serial)
            && (forall p: nat {:trigger p in h'.free} :: p in h'.free <==> p in h.free && !Touches(a, size, p))
  {
    var h', page := Apply(h, Alloc(size)), Request(h.free, size).0.page;
    assert RunFree(h.free, page, PagesFor(size));
    RunIsRange(h.free, page, size);
    hide PagesFor, Touches, FreeRange, RunFree;
    forall p: nat ensures page <= p < page + PagesFor(size) <==> Touches(page * 4096, size, p) {
      PagesHoldBytes(page, size, p);
    }
  }

  lemma {:induction false} RunKeepsSerials(h: Heap, events: seq<Event>)
    requires SerialsBelow(h)
    ensures SerialsBelow(Run(h, events))
    decreases |events|
  {
    hide Request, PagesFor;
    if events != [] {
      RunKeepsSerials(Apply(h, events[0]), events[1..]);
    }
  }

  lemma StepKeepsPartition(h: Heap, e: Event)
    requires Partitioned(h)
    ensures Partitioned(Apply(h, e)) && Apply(h, e).lo == h.lo && Apply(h, e).hi == h.hi
  {
    match e
    case Alloc(size) => AllocTakesOnlyFree(h, size);
    case Free(p) =>
  }

  lemma {:induction false} RunKeepsPartition(h: Heap, events: seq<Event>)
    requires Partitioned(h)
    ensures Partitioned(Run(h, events)) && Run(h, events).lo == h.lo && Run(h, events).hi == h.hi
    decreases |events|
  {
    if events != [] {
      StepKeepsPartition(h, events[0]);
      RunKeepsPartition(Apply(h, events[0]), events[1..]);
    }
  }

  lemma {:induction false} RunAppend(h: Heap, a: seq<Event>, b: seq<Event>)
    ensures Run(h, a + b) == Run(Run(h, a), b)
    decreases |a|
  {
    if a == [] {
      assert a + b == b;
    } else {
      assert (a + b)[1..] == a[1..] + b;
      RunAppend(Apply(h, a[0]), a[1..], b);
    }
  }

  lemma RunSnoc(h: Heap, a: seq<Event>, e: Event)
    ensures Run(h, a + [e]) == Apply(Run(h, a), e)
  {
    hide Apply;
    RunAppend(h, a, [e]);
    assert [e][1..] == [];
    assert Run(Apply(Run(h, a), e), []) == Apply(Run(h, a), e);
  }

  /** `n` requests for one page each, as the page-table code makes them. */
  ghost function TableRequests(n: nat): (es: seq<Event>)
    ensures |es| == n
  {
    seq(n, _ => Alloc(PAGE_SIZE))
  }

  lemma OneMoreTable(h: Heap, n: nat)
    ensures Run(h, TableRequests(n + 1)) == Apply(Run(h, TableRequests(n)), Alloc(PAGE_SIZE))
    ensures Run(h, TableRequests(0)) == h
  {
    hide Apply;
    assert TableRequests(n + 1) == TableRequests(n) + [Alloc(PAGE_SIZE)];
    RunSnoc(h, TableRequests(n), Alloc(PAGE_SIZE));
  }

  /** In every reachable state free and live pages partition the heap, and a request succeeds
      exactly when a page-aligned range of its size is free. */
  lemma EveryRun(lo: nat, hi: nat, events: seq<Event>, size: nat)
    ensures var h := Run(Fresh(lo, hi), events);
            && Partitioned(h) && SerialsBelow(h) && h.lo == lo && h.hi == hi
            && (Request(h.free, size).0.Granted? <==> size > 0 && exists a: nat :: FreeRange(h.free, a, size))
  {
    var f := Fresh(lo, hi);
    forall x: nat ensures x in f.free <==> lo <= x < hi {
      if lo <= x < hi {
        assert f.free[x - lo] == x;
      }
    }
    RunKeepsPartition(f, events);
    RunKeepsSerials(f, events);
    RequestSucceedsIff(Run(f, events).free, size);
  }

  /** Live allocations never overlap: through any run, a page stays with the request that got it
      until it is freed. */
  lemma {:induction false} KeptUntilFreed(h: Heap, events: seq<Event>, x: nat)
    requires Partitioned(h) && x in h.owner && Free(x) !in events
    ensures x in Run(h, events).owner && Run(h, events).owner[x] == h.owner[x]
    decreases |events|
  {
    if events != [] {
      var e := events[0];
      StepKeepsPartition(h, e);
      if e.Alloc? {
        AllocTakesOnlyFree(h, e.size);
      }
      assert Free(x) !in events[1..];
      KeptUntilFreed(Apply(h, e), events[1..], x);
    }
  }

  /** Frees of the listed pages, one event each. */
  ghost function Frees(ps: seq<nat>): (es: seq<Event>)
    ensures |es| == |ps|
    ensures forall i :: 0 <= i < |ps| ==> es[i] == Free(ps[i])
  {
    seq(|ps|, i requires 0 <= i < |ps| => Free(ps[i]))
  }

  lemma {:induction false} FreesGiveBack(h: Heap, ps: seq<nat>, x: nat)
    requires x in h.free || (x in h.owner && x in ps)
    ensures x in Run(h, Frees(ps)).free
    decreases |ps|
  {
    if ps != [] {
      assert Frees(ps)[1..] == Frees(ps[1..]);
      FreesGiveBack(Apply(h, Free(ps[0])), ps[1..], x);
    }
  }

  /** However many requests and frees come in between, freeing the pages of a granted block, in
      whatever order, lets the same request succeed again. */
  lemma FreedBlockIsGrantedAgain(h: Heap, size: nat, between: seq<Event>, ps: seq<nat>)
    requires Partitioned(h) && Request(h.free, size).0.Granted?
    requires forall x: nat :: Touches(Request(h.free, size).0.page * 4096, size, x) ==> x in ps
    ensures Request(Run(Run(Apply(h, Alloc(size)), between), Frees(ps)).free, size).0.Granted?
  {
    hide Run;
    var h1 := Run(Apply(h, Alloc(size)), between);
    var h2 := Run(h1, Frees(ps));
    var p, n := Request(h.free, size).0.page, PagesFor(size);
    StepKeepsPartition(h, Alloc(size));
    RunKeepsPartition(Apply(h, Alloc(size)), between);
    assert RunFree(h.free, p, n);
    forall x: nat | p <= x < p + n ensures x in h2.free {
      PagesHoldBytes(p, size, x);
      assert x in h.free;
      FreesGiveBack(h1, ps, x);
    }
    assert RunFree(h2.free, p, n);
    RequestSucceedsIff(h2.free, size);
  }

  // ---------- until the first free ----------

  lemma {:induction false} WithoutPrefix(lo: nat, hi: nat, n: nat)
    requires lo + n <= hi
    ensures Without(Ascending(lo, hi), lo, n) == Ascending(lo + n, hi)
  {
    var a, b := Ascending(lo, hi)[..n], Ascending(lo, hi)[n..];
    assert Ascending(lo, hi) == a + b;
    assert b == Ascending(lo + n, hi);
    WithoutAppend(a, b, lo, n);
    AllGone(a, lo, n);
    AllStay(b, lo, n);
  }

  lemma {:induction false} AllGone(s: seq<nat>, p: nat, n: nat)
    requires forall i :: 0 <= i < |s| ==> p <= s[i] < p + n
    ensures Without(s, p, n) == []
  {
    if s != [] {
      AllGone(s[1..], p, n);
    }
  }

  lemma {:induction false} AllStay(s: seq<nat>, p: nat, n: nat)
    requires forall i :: 0 <= i < |s| ==> !(p <= s[i] < p + n)
    ensures Without(s, p, n) == s
  {
    if s != [] {
      AllStay(s[1..], p, n);
    }
  }

  /** On an ascending list the allocator is a bump pointer: a request that fits gets the lowest
      free page, and one that does not fit is refused. */
  lemma BumpStep(k: nat, hi: nat, size: nat)
    requires k <= hi && size > 0
    ensures Request(Ascending(k, hi), size) ==
            if k + PagesFor(size) <= hi then (Granted(k), Ascending(k + PagesFor(size), hi))
                else (Refused, Ascending(k, hi))
  {
    var n, free := PagesFor(size), Ascending(k, hi);
    if k + n <= hi {
      forall x: nat | k <= x < k + n ensures x in free {
        assert free[x - k] == x;
      }
      assert RunFree(free, free[0], n);
      WithoutPrefix(k, hi, n);
    } else {
      forall j | 0 <= j < |free| ensures !RunFree(free, free[j], n) {
        assert free[j] + n - 1 !in free;
      }
    }
  }

  /** The pages handed out by a run of requests on a bump pointer at `k`. */
  ghost function Bumped(k: nat, hi: nat, sizes: seq<nat>): nat
    decreases |sizes|
  {
    if sizes == [] then k
    else if sizes[0] > 0 && k + PagesFor(sizes[0]) <= hi then Bumped(k + PagesFor(sizes[0]), hi, sizes[1..])
    else Bumped(k, hi, sizes[1..])
  }

  ghost function Allocs(sizes: seq<nat>): (es: seq<Event>)
    ensures |es| == |sizes|
    ensures forall i :: 0 <= i < |sizes| ==> es[i] == Alloc(sizes[i])
  {
    seq(|sizes|, i requires 0 <= i < |sizes| => Alloc(sizes[i]))
  }

  /** Until the first free the list is an ascending interval that ends at the top of the heap. */
  lemma {:induction false} BumpRun(h: Heap, k: nat, sizes: seq<nat>)
    requires k <= h.hi && h.free == Ascending(k, h.hi)
    ensures Run(h, Allocs(sizes)).free == Ascending(Bumped(k, h.hi, sizes), h.hi)
    ensures k <= Bumped(k, h.hi, sizes) <= h.hi
    decreases |sizes|
  {
    if sizes != [] {
      assert Allocs(sizes)[1..] == Allocs(sizes[1..]);
      var h1 := Apply(h, Alloc(sizes[0]));
      if sizes[0] > 0 {
        BumpStep(k, h.hi, sizes[0]);
      }
      if sizes[0] > 0 && k + PagesFor(sizes[0]) <= h.hi {
        BumpRun(h1, k + PagesFor(sizes[0]), sizes[1..]);
      } else {
        BumpRun(h1, k, sizes[1..]);
      }
    }
  }
}

/**
 The receive queue: every descriptor starts published, the device fills buffers it holds, and
 the driver reads each completion and recycles its descriptor. Recycling advances two 16-bit
 indices one after the other; `Recycled` is the window between them.
 */
module RxQueue {
  import opened Basics
  import opened Virtqueue
  import TxQueue

  datatype Progress =
    | Waiting
    | Noticed
    | Holding(d: nat)
    | Slotted(d: nat)
    | Recycled

  /** A buffer and the length that the used element gives for it. */
  datatype Received = Received(bytes: seq<byte>, len: nat)

  /** `filled[j]` is the buffer as the device left it at the j-th completion, with the length it
      reported, and `frames[j]` what the driver read at its j-th reap. */
  datatype Rx = Rx(q: Queue, mem: seq<byte>, lastUsed: nat, at: Progress,
                   filled: seq<Received>, frames: seq<Received>)

  datatype Step =
    | Poll | ReadFrame | WriteSlot | BumpIndex | BumpLast
    | DevConsume | DevFill(k: nat, bytes: seq<byte>) | DevWriteUsed(k: nat, len: nat) | DevBumpUsed

  ghost predicate Shape(s: Rx) {
    && |s.q.ring.availRing| == QUEUE_SIZE == |s.q.ring.usedRing|
    && |s.mem| == QUEUE_SIZE * BUFFER_SIZE
    && (s.at.Holding? || s.at.Slotted? ==> s.at.d < QUEUE_SIZE)
  }

  ghost function Buffer(mem: seq<byte>, d: nat): seq<byte>
    requires |mem| == QUEUE_SIZE * BUFFER_SIZE && d < QUEUE_SIZE
  {
    mem[d * BUFFER_SIZE..(d + 1) * BUFFER_SIZE]
  }

  ghost predicate AllPublished(h: History) {
    && |h.pubs| == QUEUE_SIZE && h.consumed == 0 && h.comps == [] && h.reaps == []
    && (forall i :: 0 <= i < QUEUE_SIZE ==> h.pubs[i] == Publication(i, []))
    && h.live.Keys == Interval(0, QUEUE_SIZE)
    && (forall d :: d in h.live ==> h.live[d] == d)
  }

  /** After initialisation all descriptors are published, in order, and the index says so. */
  ghost predicate Initial(s: Rx) {
    && Shape(s)
    && s.q.ring.availIdx == QUEUE_SIZE && s.q.ring.usedIdx == 0
    && (forall i :: 0 <= i < QUEUE_SIZE ==> s.q.ring.availRing[i] == i)
    && s.q.dev == Device(0, map[], None)
    && AllPublished(s.q.hist)
    && s.lastUsed == 0 && s.at == Waiting && s.filled == [] && s.frames == []
  }

  ghost function Apply(s: Rx, step: Step): (r: Rx)
    requires Shape(s)
    ensures Shape(r)
  {
    match step
    case Poll =>
      if s.at.Waiting? && s.lastUsed != s.q.ring.usedIdx then s.(at := Noticed) else s
    case ReadFrame =>
      if s.at.Noticed? then
        var used := s.q.ring.usedRing[s.lastUsed % QUEUE_SIZE];
        if used.id < QUEUE_SIZE then s.(at := Holding(used.id),
            frames := s.frames + [Received(Buffer(s.mem, used.id), used.len)])
        else s.(at := Waiting)
      else s
    case WriteSlot =>
      if s.at.Holding? then s.(q := WriteAvailSlot(s.q, s.at.d), at := Slotted(s.at.d)) else s
    case BumpIndex =>
      if s.at.Slotted? then
        s.(q := BumpAvail(Reap(s.q, s.at.d), Publication(s.at.d, [])), at := Recycled)
      else s
    case BumpLast =>
      if s.at.Recycled? then s.(lastUsed := (s.lastUsed + 1) % INDEX_MOD, at := Waiting) else s
    case DevConsume => s.(q := Consume(s.q))
    case DevFill(k, bytes) =>
      if k in s.q.dev.held && s.q.dev.held[k] < QUEUE_SIZE && |bytes| <= BUFFER_SIZE then
        s.(mem := TxQueue.Splice(s.mem, s.q.dev.held[k] * BUFFER_SIZE, bytes))
      else s
    case DevWriteUsed(k, len) => s.(q := WriteUsed(s.q, k, len))
    case DevBumpUsed =>
      if s.q.dev.writing.Some? && s.q.dev.writing.value in s.q.dev.held
          && s.q.dev.held[s.q.dev.writing.value] < QUEUE_SIZE then
        s.(q := BumpUsed(s.q), filled := s.filled + [Received(Buffer(s.mem, s.q.dev.held[s.q.dev.writing.value]),
                                                          s.q.ring.usedRing[s.q.ring.usedIdx % QUEUE_SIZE].len)])
      else s
  }

  ghost function Run(s: Rx, steps: seq<Step>): (r: Rx)
    requires Shape(s)
    ensures Shape(r)
    decreases |steps|
  {
    if steps == [] then s else Run(Apply(s, steps[0]), steps[1..])
  }

  // ---------- the invariant ----------

  /** Every live publication is waiting, held or completed. */
  ghost predicate Placed(q: Queue) {
    && |q.hist.reaps| <= |q.hist.comps|
    && forall d {:trigger d in q.hist.live} :: d in q.hist.live ==>
         var k := q.hist.live[d];
         k >= q.hist.consumed || k in q.dev.held || k in q.hist.comps[|q.hist.reaps|..]
  }

  ghost predicate AllLive(q: Queue) {
    forall d: nat {:trigger d in q.hist.live} :: d < QUEUE_SIZE ==> d in q.hist.live
  }

  /** The buffer of every unread completion is as the device left it, and so is its length. */
  ghost predicate FramesKept(s: Rx)
    requires Shape(s)
  {
    var h := s.q.hist;
    && |s.filled| == |h.comps|
    && forall j {:trigger h.comps[j]} :: |h.reaps| <= j < |h.comps| ==>
         h.comps[j] < |h.pubs| && h.pubs[h.comps[j]].desc < QUEUE_SIZE
         && Received(Buffer(s.mem, h.pubs[h.comps[j]].desc), s.q.ring.usedRing[j % QUEUE_SIZE].len) == s.filled[j]
  }

  ghost predicate FramesRead(s: Rx) {
    && |s.frames| == |s.q.hist.reaps| + (if s.at.Holding? || s.at.Slotted? then 1 else 0) <= |s.filled|
    && s.frames <= s.filled
  }

  ghost predicate ProgressOk(s: Rx)
    requires Shape(s)
  {
    var h := s.q.hist;
    && s.lastUsed == (|h.reaps| - (if s.at.Recycled? then 1 else 0)) % INDEX_MOD
    && (s.at.Recycled? ==> |h.reaps| > 0)
    && (s.at.Noticed? || s.at.Holding? || s.at.Slotted? ==> |h.reaps| < |h.comps|)
    && (s.at.Holding? || s.at.Slotted? ==> s.at.d == s.q.ring.usedRing[|h.reaps| % QUEUE_SIZE].id)
    && (s.at.Slotted? ==> s.q.ring.availRing[|h.pubs| % QUEUE_SIZE] == s.at.d)
  }

  ghost predicate Inv(s: Rx) {
    && Shape(s) && RingInv(s.q) && Placed(s.q) && AllLive(s.q)
    && ProgressOk(s) && FramesKept(s) && FramesRead(s)
  }

  // ---------- every step keeps it ----------

  lemma InitialInv(s: Rx)
    requires Initial(s)
    ensures Inv(s)
  {
    hide Interval;
    InitialRing(s.q);
  }

  lemma InitialRing(q: Queue)
    requires AllPublished(q.hist) && q.dev == Device(0, map[], None)
    requires |q.ring.availRing| == QUEUE_SIZE == |q.ring.usedRing|
    requires q.ring.availIdx == QUEUE_SIZE && q.ring.usedIdx == 0
    requires forall i :: 0 <= i < QUEUE_SIZE ==> q.ring.availRing[i] == i
    ensures RingInv(q)
  {
    hide Interval;
    var h := q.hist;
    IntervalSize(0, QUEUE_SIZE);
    assert |h.live| == |h.live.Keys|;
    forall k: nat | k < |h.pubs| ensures Live(h, k) && AvailIntact(q, k) {
      assert h.pubs[k] == Publication(k, []);
    }
  }

  lemma PollKeepsInv(s: Rx)
    requires Inv(s)
    ensures Inv(Apply(s, Poll))
  {
    hide RingInv, Placed, AllLive;
    IndexTestsAreExact(s.q);
  }

  lemma ReadFrameKeepsInv(s: Rx)
    requires Inv(s) && s.at.Noticed?
    ensures Inv(Apply(s, ReadFrame))
    ensures Apply(s, ReadFrame).at.Holding?
  {
    hide RingInv, Placed, AllLive;
    SlotOfIndex(|s.q.hist.reaps|);
    NextCompletion(s.q);
    var j := |s.q.hist.reaps|;
    assert Buffer(s.mem, s.q.hist.pubs[s.q.hist.comps[j]].desc) == s.filled[j].bytes;
  }

  lemma WriteSlotKeepsInv(s: Rx)
    requires Inv(s) && s.at.Holding?
    ensures Inv(Apply(s, WriteSlot))
  {
    hide RingInv, Placed, AllLive;
    RoomToRecycle(s.q);
    WriteAvailSlotKeepsInv(s.q, s.at.d);
    PlacedCarries(s.q, WriteAvailSlot(s.q, s.at.d));
  }

  /** Recycling an unread completion finds its available slot already consumed. */
  lemma RoomToRecycle(q: Queue)
    requires RingInv(q) && |q.hist.reaps| < |q.hist.comps|
    ensures |q.hist.pubs| - q.hist.consumed < QUEUE_SIZE
  {
    IndexTestsAreExact(q);
  }

  lemma PlacedCarries(q: Queue, q': Queue)
    requires Placed(q) && AllLive(q) && q'.hist == q.hist && q'.dev.held == q.dev.held
    ensures Placed(q') && AllLive(q')
  {
  }

  lemma BumpIndexKeepsInv(s: Rx)
    requires Inv(s) && s.at.Slotted?
    ensures Inv(Apply(s, BumpIndex))
  {
    hide RingInv, Placed, AllLive, FramesKept;
    var q1 := Reap(s.q, s.at.d);
    NextCompletion(s.q);
    ReapKeepsInv(s.q, s.at.d);
    BumpAvailKeepsInv(q1, Publication(s.at.d, []));
    OwnedFromInv(s.q);
    RecyclePlaced(s.q, s.at.d);
    RecycleFrames(s);
  }

  lemma RecyclePlaced(q: Queue, d: nat)
    requires Placed(q) && AllLive(q) && d < QUEUE_SIZE
    requires |q.hist.reaps| < |q.hist.comps| && Live(q.hist, q.hist.comps[|q.hist.reaps|])
    requires q.hist.pubs[q.hist.comps[|q.hist.reaps|]].desc == d
    requires q.hist.consumed <= |q.hist.pubs|
    requires forall e :: e in q.hist.live ==> q.hist.live[e] < |q.hist.pubs| && q.hist.pubs[q.hist.live[e]].desc == e
    ensures var q' := BumpAvail(Reap(q, d), Publication(d, [])); Placed(q') && AllLive(q')
  {
    var q' := BumpAvail(Reap(q, d), Publication(d, []));
    var h, h' := q.hist, q'.hist;
    var r := |h.reaps|;
    forall e | e in h'.live
      ensures h'.live[e] >= h'.consumed || h'.live[e] in q'.dev.held || h'.live[e] in h'.comps[|h'.reaps|..]
    {
      if e != d {
        var k := h.live[e];
        assert e in h.live && h'.live[e] == k;
        assert h.comps[r..] == [h.comps[r]] + h.comps[r + 1..];
        assert k != h.comps[r];
      }
    }
  }

  lemma RecycleFrames(s: Rx)
    requires Shape(s) && s.at.Slotted? && FramesKept(s) && |s.q.hist.reaps| < |s.q.hist.comps|
    ensures FramesKept(Apply(s, BumpIndex))
  {
  }

  lemma BumpLastKeepsInv(s: Rx)
    requires Inv(s) && s.at.Recycled?
    ensures Inv(Apply(s, BumpLast))
  {
    hide RingInv, Placed, AllLive, FramesKept;
    SlotOfIndex(|s.q.hist.reaps| - 1);
    var s' := Apply(s, BumpLast);
    assert FramesKept(s') by { FramesCarry(s, s'); }
  }

  lemma FramesCarry(s: Rx, s': Rx)
    requires Shape(s) && Shape(s') && FramesKept(s)
    requires s'.mem == s.mem && s'.filled == s.filled
    requires s'.q.hist.pubs == s.q.hist.pubs && s'.q.hist.comps == s.q.hist.comps && s'.q.hist.reaps == s.q.hist.reaps
    requires forall j: nat :: |s.q.hist.reaps| <= j < |s.q.hist.comps| ==> SameUsed(s.q, s'.q, j)
    ensures FramesKept(s')
  {
    hide Buffer;
    forall j | |s.q.hist.reaps| <= j < |s.q.hist.comps|
      ensures s'.q.ring.usedRing[j % QUEUE_SIZE] == s.q.ring.usedRing[j % QUEUE_SIZE]
    {
      assert SameUsed(s.q, s'.q, j);
    }
  }

  /** The used element of completion `j` is the same in both rings. */
  ghost predicate SameUsed(q: Queue, q': Queue, j: nat) {
    && |q.ring.usedRing| == QUEUE_SIZE == |q'.ring.usedRing|
    && q'.ring.usedRing[j % QUEUE_SIZE] == q.ring.usedRing[j % QUEUE_SIZE]
  }

  lemma ConsumeKeeps(s: Rx)
    requires Inv(s)
    ensures Inv(Apply(s, DevConsume))
  {
    hide RingInv, FramesKept, Placed, AllLive;
    ConsumeKeepsInv(s.q);
    ConsumePlaced(s.q);
    FramesCarry(s, Apply(s, DevConsume));
  }

  lemma ConsumePlaced(q: Queue)
    requires Placed(q) && AllLive(q) && |q.ring.availRing| == QUEUE_SIZE
    ensures Placed(Consume(q)) && AllLive(Consume(q))
  {
  }

  lemma WriteUsedKeeps(s: Rx, k: nat, len: nat)
    requires Inv(s)
    ensures Inv(Apply(s, DevWriteUsed(k, len)))
  {
    hide RingInv, FramesKept, Placed, AllLive;
    var s' := Apply(s, DevWriteUsed(k, len));
    WriteUsedKeepsInv(s.q, k, len);
    PlacedCarries(s.q, s'.q);
    forall j: nat | |s.q.hist.reaps| <= j < |s.q.hist.comps| ensures SameUsed(s.q, s'.q, j) {
      UsedSlotStays(s.q, k, len, j);
    }
    FramesCarry(s, s');
    NextUsedStays(s.q, k, len);
  }

  /** A new used element never lands on one that is still unread. */
  lemma UsedSlotStays(q: Queue, k: nat, len: nat, j: nat)
    requires RingInv(q) && |q.ring.usedRing| == QUEUE_SIZE && |q.hist.reaps| <= j < |q.hist.comps|
    ensures SameUsed(q, WriteUsed(q, k, len), j)
  {
    hide Owned;
    if q.dev.writing.None? && k in q.dev.held {
      IndexTestsAreExact(q);
      SlotOfIndex(|q.hist.comps|);
      assert |q.dev.held| > 0;
      CloseResidues(j, |q.hist.comps|);
    }
  }

  /** In particular not on the one that the driver reads next. */
  lemma NextUsedStays(q: Queue, k: nat, len: nat)
    requires RingInv(q) && |q.ring.usedRing| == QUEUE_SIZE
    ensures |q.hist.reaps| < |q.hist.comps| ==> SameUsed(q, WriteUsed(q, k, len), |q.hist.reaps|)
  {
    hide RingInv;
    if |q.hist.reaps| < |q.hist.comps| {
      UsedSlotStays(q, k, len, |q.hist.reaps|);
    }
  }

  lemma BumpUsedKeeps(s: Rx)
    requires Inv(s)
    ensures Inv(Apply(s, DevBumpUsed))
  {
    hide RingInv, FramesKept, Placed, AllLive, Buffer;
    if s.q.dev.writing.Some? && s.q.dev.writing.value in s.q.dev.held
        && s.q.dev.held[s.q.dev.writing.value] < QUEUE_SIZE {
      HoldingsAreLive(s.q, s.q.dev.writing.value);
      BumpUsedKeepsInv(s.q);
      UsedIndexIs(s.q);
      BumpUsedPlaced(s.q);
      BumpUsedFrames(s);
    }
  }

  lemma UsedIndexIs(q: Queue)
    requires RingInv(q)
    ensures q.ring.usedIdx == |q.hist.comps| % INDEX_MOD
  {
  }

  lemma BumpUsedPlaced(q: Queue)
    requires Placed(q) && AllLive(q) && q.dev.writing.Some?
    ensures Placed(BumpUsed(q)) && AllLive(BumpUsed(q))
  {
    var q', k0 := BumpUsed(q), q.dev.writing.value;
    var h, h' := q.hist, q'.hist;
    assert h'.comps[|h'.reaps|..] == h.comps[|h.reaps|..] + [k0];
  }

  lemma BumpUsedFrames(s: Rx)
    requires Shape(s) && FramesKept(s) && |s.q.hist.reaps| <= |s.q.hist.comps|
             && s.q.ring.usedIdx == |s.q.hist.comps| % INDEX_MOD
    requires s.q.dev.writing.Some? && Held(s.q, s.q.dev.writing.value)
             && s.q.dev.held[s.q.dev.writing.value] < QUEUE_SIZE
    ensures FramesKept(Apply(s, DevBumpUsed))
  {
    var s' := Apply(s, DevBumpUsed);
    var h, h' := s.q.hist, s'.q.hist;
    forall j | |h'.reaps| <= j < |h'.comps|
      ensures h'.comps[j] < |h'.pubs| && h'.pubs[h'.comps[j]].desc < QUEUE_SIZE
      ensures Received(Buffer(s'.mem, h'.pubs[h'.comps[j]].desc), s'.q.ring.usedRing[j % QUEUE_SIZE].len) ==
              s'.filled[j]
    {
      SlotOfIndex(|h.comps|);
      assert j < |h.comps| ==> h'.comps[j] == h.comps[j];
    }
  }

  /** Filling one buffer leaves every other. */
  lemma FillLeavesOthers(mem: seq<byte>, d: nat, bytes: seq<byte>, e: nat)
    requires |mem| == QUEUE_SIZE * BUFFER_SIZE && d < QUEUE_SIZE && e < QUEUE_SIZE && d != e
    requires |bytes| <= BUFFER_SIZE
    ensures Buffer(TxQueue.Splice(mem, d * BUFFER_SIZE, bytes), e) == Buffer(mem, e)
  {
    var mem' := TxQueue.Splice(mem, d * BUFFER_SIZE, bytes);
    forall i | e * BUFFER_SIZE <= i < (e + 1) * BUFFER_SIZE ensures mem'[i] == mem[i] {
      assert i < d * BUFFER_SIZE || i >= d * BUFFER_SIZE + |bytes|;
    }
  }

  lemma FillKeeps(s: Rx, k: nat, bytes: seq<byte>)
    requires Inv(s)
    ensures Inv(Apply(s, DevFill(k, bytes)))
  {
    hide RingInv, FramesKept;
    var s' := Apply(s, DevFill(k, bytes));
    if k in s.q.dev.held && s.q.dev.held[k] < QUEUE_SIZE && |bytes| <= BUFFER_SIZE {
      HoldingsAreLive(s.q, k);
      OwnedFromInv(s.q);
      FillFrames(s, s', k, bytes);
    }
  }

  lemma OwnedFromInv(q: Queue)
    requires RingInv(q)
    ensures Owned(q) && q.hist.consumed <= |q.hist.pubs|
  {
  }

  lemma FillFrames(s: Rx, s': Rx, k: nat, bytes: seq<byte>)
    requires Shape(s) && Shape(s') && FramesKept(s) && Owned(s.q) && Held(s.q, k)
    requires s.q.dev.held[k] < QUEUE_SIZE && |bytes| <= BUFFER_SIZE
    requires s' == s.(mem := TxQueue.Splice(s.mem, s.q.dev.held[k] * BUFFER_SIZE, bytes))
    ensures FramesKept(s')
  {
    hide TxQueue.Splice, Buffer;
    var h := s.q.hist;
    forall j | |h.reaps| <= j < |h.comps|
      ensures Received(Buffer(s'.mem, h.pubs[h.comps[j]].desc), s'.q.ring.usedRing[j % QUEUE_SIZE].len) == s.filled[j]
    {
      assert Live(h, h.comps[j]) && h.comps[j] != k;
      FillLeavesOthers(s.mem, s.q.dev.held[k], bytes, h.pubs[h.comps[j]].desc);
    }
  }

  lemma StepKeepsInv(s: Rx, step: Step)
    requires Inv(s)
    ensures Inv(Apply(s, step))
  {
    hide RingInv, Placed, AllLive, ProgressOk, FramesKept, FramesRead;
    match step
    case Poll => PollKeepsInv(s);
    case ReadFrame => if s.at.Noticed? { ReadFrameKeepsInv(s); }
    case WriteSlot => if s.at.Holding? { WriteSlotKeepsInv(s); }
    case BumpIndex => if s.at.Slotted? { BumpIndexKeepsInv(s); }
    case BumpLast => if s.at.Recycled? { BumpLastKeepsInv(s); }
    case DevConsume => ConsumeKeeps(s);
    case DevFill(k, bytes) => FillKeeps(s, k, bytes);
    case DevWriteUsed(k, len) => WriteUsedKeeps(s, k, len);
    case DevBumpUsed => BumpUsedKeeps(s);
  }

  // ---------- what holds in every run ----------

  lemma {:induction false} RunKeepsInv(s: Rx, steps: seq<Step>)
    requires Inv(s)
    ensures Inv(Run(s, steps))
    decreases |steps|
  {
    if steps != [] {
      hide Inv, Apply;
      StepKeepsInv(s, steps[0]);
      RunKeepsInv(Apply(s, steps[0]), steps[1..]);
    }
  }

  /** Publication `k` is on exactly one of: the available ring, the device, the used ring. */
  ghost predicate InOnePlace(q: Queue, k: nat)
    requires |q.hist.reaps| <= |q.hist.comps|
  {
    var waiting, held, unread := q.hist.consumed <= k, k in q.dev.held, k in q.hist.comps[|q.hist.reaps|..];
    (waiting && !held && !unread) || (!waiting && held && !unread) || (!waiting && !held && unread)
  }

  /** Publication `k` is on at least one of them. */
  ghost predicate Somewhere(q: Queue, k: nat)
    requires |q.hist.reaps| <= |q.hist.comps|
  {
    q.hist.consumed <= k || k in q.dev.held || k in q.hist.comps[|q.hist.reaps|..]
  }

  /** At every moment of every run, also between the two index increments, the 256 descriptors are
      split, each exactly once, between published-unconsumed, device-held and completed-unreaped. */
  lemma RxConservation(s: Rx, steps: seq<Step>)
    requires Initial(s)
    ensures var q := Run(s, steps).q;
            var h := q.hist;
            && |h.reaps| <= |h.comps| && h.consumed <= |h.pubs|
            && (|h.pubs| - h.consumed) + |q.dev.held| + (|h.comps| - |h.reaps|) == QUEUE_SIZE
            && (forall d: nat :: d < QUEUE_SIZE ==>
                  d in h.live && h.live[d] < |h.pubs| && h.pubs[h.live[d]].desc == d && InOnePlace(q, h.live[d]))
            && (forall k: nat :: k < |h.pubs| && Somewhere(q, k) ==>
                  h.pubs[k].desc < QUEUE_SIZE && h.live[h.pubs[k].desc] == k)
  {
    InitialInv(s);
    RunKeepsInv(s, steps);
    SplitFromInv(Run(s, steps).q);
  }

  lemma SplitFromInv(q: Queue)
    requires RingInv(q) && Placed(q) && AllLive(q)
    ensures var h := q.hist;
            && (|h.pubs| - h.consumed) + |q.dev.held| + (|h.comps| - |h.reaps|) == QUEUE_SIZE
            && (forall d: nat :: d < QUEUE_SIZE ==>
                  d in h.live && h.live[d] < |h.pubs| && h.pubs[h.live[d]].desc == d && InOnePlace(q, h.live[d]))
            && (forall k: nat :: k < |h.pubs| && Somewhere(q, k) ==>
                  h.pubs[k].desc < QUEUE_SIZE && h.live[h.pubs[k].desc] == k)
  {
    hide RingInv, InOnePlace;
    var h := q.hist;
    AllInFlight(q);
    OwnedFromInv(q);
    forall d: nat | d < QUEUE_SIZE
      ensures d in h.live && h.live[d] < |h.pubs| && h.pubs[h.live[d]].desc == d && InOnePlace(q, h.live[d])
    {
      assert d in h.live;
      OnePlace(q, h.live[d]);
    }
    forall k: nat | k < |h.pubs| && Somewhere(q, k)
      ensures h.pubs[k].desc < QUEUE_SIZE && h.live[h.pubs[k].desc] == k
    {
      OnePlace(q, k);
    }
  }

  lemma AllInFlight(q: Queue)
    requires RingInv(q) && AllLive(q)
    ensures (|q.hist.pubs| - q.hist.consumed) + |q.dev.held| + (|q.hist.comps| - |q.hist.reaps|) == QUEUE_SIZE
  {
    hide Interval, Intact;
    IntervalSize(0, QUEUE_SIZE);
    assert q.hist.live.Keys == Interval(0, QUEUE_SIZE);
    assert |q.hist.live| == |q.hist.live.Keys|;
  }

  lemma OnePlace(q: Queue, k: nat)
    requires RingInv(q) && k < |q.hist.pubs| && Somewhere(q, k)
    ensures Live(q.hist, k) && InOnePlace(q, k)
  {
    hide Intact;
    var h := q.hist;
    var tail := h.comps[|h.reaps|..];
    if k in q.dev.held {
      assert Held(q, k);
    }
    if k in tail {
      var j :| 0 <= j < |tail| && tail[j] == k;
      assert h.comps[|h.reaps| + j] == k;
    }
    assert h.consumed <= k ==> Live(h, k);
  }

  /** What the driver reads at its j-th reap is the buffer as the device left it at the j-th
      completion with the length that the device reported, and a conforming device never drives the
      invalid-descriptor branch. */
  lemma DriverReadsWhatWasReceived(s: Rx, steps: seq<Step>)
    requires Initial(s)
    ensures var r := Run(s, steps);
            && r.frames <= r.filled && |r.filled| == |r.q.hist.comps|
            && (r.at.Waiting? || r.at.Recycled? ==> |r.frames| == |r.q.hist.reaps|)
            && (r.at.Noticed? ==> Apply(r, ReadFrame).at.Holding?)
  {
    InitialInv(s);
    RunKeepsInv(s, steps);
    var r := Run(s, steps);
    if r.at.Noticed? {
      ReadFrameKeepsInv(r);
    }
  }
}

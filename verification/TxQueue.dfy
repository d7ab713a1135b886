/**
 The transmit queue of the network driver as an interleaving of driver and device micro-steps.
 The driver's send is cut where the device could observe it: choose a descriptor, copy the
 packet, fill the descriptor, write the available slot, advance the index. A run is any sequence
 of steps; a step that is not enabled changes nothing.
 */
module TxQueue {
  import opened Basics
  import opened Virtqueue

  datatype Descriptor = Descriptor(addr: nat, len: nat, flags: nat)

  /** Where the driver is between its own micro-steps. */
  datatype Progress =
    | Idle
    | Found(d: nat, data: seq<byte>)
    | Copied(d: nat, data: seq<byte>)
    | Described(d: nat, data: seq<byte>)
    | Queued(d: nat, data: seq<byte>)
    | Completed

  /** The device read these bytes for publication `k`. */
  datatype Read = Read(k: nat, bytes: seq<byte>)

  /** `sent` are the packets of accepted send calls, in order. */
  datatype Tx = Tx(q: Queue, table: seq<Descriptor>, base: nat, mem: seq<byte>, inUse: seq<bool>,
                   nextDesc: nat, lastUsed: nat, at: Progress, sent: seq<seq<byte>>, seen: seq<Read>)

  datatype Step =
    | Send(data: seq<byte>) | CopyBuffer | WriteDescriptor | WriteSlot | BumpIndex
    | Poll | TakeUsed
    | DevConsume | DevRead(k: nat) | DevWriteUsed(k: nat, len: nat) | DevBumpUsed

  // ---------- the cyclic search ----------

  /** The search loop of the send routine with `n` probes left. */
  function Search(inUse: seq<bool>, d: nat, n: nat): (r: nat)
    requires |inUse| == QUEUE_SIZE && d < QUEUE_SIZE
    ensures r < QUEUE_SIZE
    decreases n
  {
    if n == 0 || !inUse[d] then d else Search(inUse, (d + 1) % QUEUE_SIZE, n - 1)
  }

  /** The descriptor `i` places after `d` in cyclic order. */
  function Ahead(d: nat, i: nat): nat {
    (d + i) % QUEUE_SIZE
  }

  /** `r` is the first free descriptor from `d` on, or `d` itself after `n` occupied ones. */
  ghost predicate FirstFree(inUse: seq<bool>, d: nat, n: nat, i: nat)
    requires |inUse| == QUEUE_SIZE
  {
    && i <= n
    && (forall j: nat {:trigger Ahead(d, j)} :: j < i ==> inUse[Ahead(d, j)])
    && (i < n ==> !inUse[Ahead(d, i)])
  }

  /** The search stops at the first free descriptor counted cyclically from its start. */
  lemma {:induction false} SearchFindsFirst(inUse: seq<bool>, d: nat, n: nat) returns (i: nat)
    requires |inUse| == QUEUE_SIZE && d < QUEUE_SIZE
    ensures FirstFree(inUse, d, n, i)
    ensures Search(inUse, d, n) == Ahead(d, i)
    decreases n
  {
    if n == 0 || !inUse[d] {
      i := 0;
    } else {
      var e := (d + 1) % QUEUE_SIZE;
      var i' := SearchFindsFirst(inUse, e, n - 1);
      i := i' + 1;
      AheadShifts(d, i');
      forall j: nat | j < i ensures inUse[Ahead(d, j)] {
        if j > 0 {
          AheadShifts(d, j - 1);
          assert inUse[Ahead(e, j - 1)];
        }
      }
    }
  }

  lemma AheadShifts(d: nat, i: nat)
    ensures Ahead((d + 1) % QUEUE_SIZE, i) == Ahead(d, i + 1)
  {
  }

  lemma PlacesAhead(d: nat, x: nat) returns (j: nat)
    requires d < QUEUE_SIZE && x < QUEUE_SIZE
    ensures j < QUEUE_SIZE && Ahead(d, j) == x
  {
    j := if d <= x then x - d else x + QUEUE_SIZE - d;
  }

  /** With one probe per descriptor, an occupied result means that every descriptor is in use. */
  lemma SearchFailsOnlyWhenFull(inUse: seq<bool>, d: nat)
    requires |inUse| == QUEUE_SIZE && d < QUEUE_SIZE
    ensures inUse[Search(inUse, d, QUEUE_SIZE)] <==> forall x :: 0 <= x < QUEUE_SIZE ==> inUse[x]
  {
    var i := SearchFindsFirst(inUse, d, QUEUE_SIZE);
    if inUse[Search(inUse, d, QUEUE_SIZE)] {
      forall x | 0 <= x < QUEUE_SIZE ensures inUse[x] {
        var j := PlacesAhead(d, x);
        assert inUse[Ahead(d, j)];
      }
    }
  }

  // ---------- states and steps ----------

  /** The address of buffer `i`, counted up from the first. */
  function BufferAddr(base: nat, i: nat): nat {
    if i == 0 then base else BufferAddr(base, i - 1) + BUFFER_SIZE
  }

  /** It is the address that the initialisation computes. */
  lemma {:induction false} BufferAddrIs(base: nat, i: nat)
    ensures BufferAddr(base, i) == base + i * BUFFER_SIZE
  {
    if i > 0 {
      BufferAddrIs(base, i - 1);
    }
  }

  ghost predicate Shape(s: Tx) {
    && |s.q.ring.availRing| == QUEUE_SIZE == |s.q.ring.usedRing|
    && |s.table| == QUEUE_SIZE == |s.inUse|
    && |s.mem| == QUEUE_SIZE * BUFFER_SIZE
    && s.nextDesc < QUEUE_SIZE
    && (forall i {:trigger s.table[i]} :: 0 <= i < QUEUE_SIZE ==>
          && s.table[i].addr == BufferAddr(s.base, i) && s.table[i].len <= BUFFER_SIZE
          && s.base <= s.table[i].addr && s.table[i].addr + BUFFER_SIZE <= s.base + |s.mem|)
    && (s.at.Idle? || s.at.Completed? || (s.at.d < QUEUE_SIZE && |s.at.data| <= BUFFER_SIZE))
  }

  /** The bytes the device sees through descriptor `d`. */
  ghost function Seen(s: Tx, d: nat): seq<byte>
    requires Shape(s) && d < QUEUE_SIZE
  {
    Range(s, d, s.table[d].len)
  }

  /** The first `n` bytes of the buffer of descriptor `d`. */
  ghost function Range(s: Tx, d: nat, n: nat): seq<byte>
    requires Shape(s) && d < QUEUE_SIZE && n <= BUFFER_SIZE
  {
    var from := s.table[d].addr - s.base;
    s.mem[from..from + n]
  }

  ghost function Splice(mem: seq<byte>, from: nat, data: seq<byte>): (r: seq<byte>)
    requires from + |data| <= |mem|
    ensures |r| == |mem|
    ensures r[from..from + |data|] == data
  {
    mem[..from] + data + mem[from + |data|..]
  }

  /** Memory after the queues are initialised: one buffer per descriptor, nothing published. */
  ghost predicate Initial(s: Tx) {
    && Shape(s)
    && s.q.ring.availIdx == 0 == s.q.ring.usedIdx
    && s.q.dev == Device(0, map[], None)
    && s.q.hist == History([], 0, [], [], map[])
    && (forall d :: 0 <= d < QUEUE_SIZE ==> !s.inUse[d])
    && s.nextDesc == 0 && s.lastUsed == 0 && s.at == Idle && s.sent == [] && s.seen == []
  }

  ghost function Apply(s: Tx, step: Step): (r: Tx)
    requires Shape(s)
    ensures Shape(r)
  {
    match step
    case Send(data) =>
      var d := Search(s.inUse, s.nextDesc, QUEUE_SIZE);
      if s.at.Idle? && |data| <= BUFFER_SIZE && !s.inUse[d] then
        s.(at := Found(d, data), sent := s.sent + [data])
      else s
    case CopyBuffer =>
      if s.at.Found? then
        s.(mem := Splice(s.mem, s.table[s.at.d].addr - s.base, s.at.data), at := Copied(s.at.d, s.at.data))
      else s
    case WriteDescriptor =>
      if s.at.Copied? then
        s.(table := s.table[s.at.d := Descriptor(s.table[s.at.d].addr, |s.at.data|, 0)],
           at := Described(s.at.d, s.at.data))
      else s
    case WriteSlot =>
      if s.at.Described? then
        s.(q := WriteAvailSlot(s.q, s.at.d), inUse := s.inUse[s.at.d := true],
           nextDesc := (s.at.d + 1) % QUEUE_SIZE, at := Queued(s.at.d, s.at.data))
      else s
    case BumpIndex =>
      if s.at.Queued? then
        s.(q := BumpAvail(s.q, Publication(s.at.d, s.at.data)), at := Idle)
      else s
    case Poll =>
      if s.at.Idle? && s.lastUsed != s.q.ring.usedIdx then s.(at := Completed) else s
    case TakeUsed =>
      if s.at.Completed? then
        var id := s.q.ring.usedRing[s.lastUsed % QUEUE_SIZE].id;
        s.(q := Virtqueue.Reap(s.q, id),
           inUse := if id < QUEUE_SIZE then s.inUse[id := false] else s.inUse,
           lastUsed := (s.lastUsed + 1) % INDEX_MOD, at := Idle)
      else s
    case DevConsume => s.(q := Consume(s.q))
    case DevRead(k) =>
      if k in s.q.dev.held && s.q.dev.held[k] < QUEUE_SIZE then
        s.(seen := s.seen + [Read(k, Seen(s, s.q.dev.held[k]))])
      else s
    case DevWriteUsed(k, len) => s.(q := WriteUsed(s.q, k, len))
    case DevBumpUsed => s.(q := BumpUsed(s.q))
  }

  ghost function Run(s: Tx, steps: seq<Step>): (r: Tx)
    requires Shape(s)
    ensures Shape(r)
    decreases |steps|
  {
    if steps == [] then s else Run(Apply(s, steps[0]), steps[1..])
  }

  lemma {:induction false} RunAppend(s: Tx, a: seq<Step>, b: seq<Step>)
    requires Shape(s)
    ensures Run(s, a + b) == Run(Run(s, a), b)
    decreases |a|
  {
    if a == [] {
      assert a + b == b;
    } else {
      assert (a + b)[1..] == a[1..] + b;
      RunAppend(Apply(s, a[0]), a[1..], b);
    }
  }

  lemma RunSnoc(s: Tx, a: seq<Step>, step: Step)
    requires Shape(s)
    ensures Run(s, a + [step]) == Apply(Run(s, a), step)
  {
    RunAppend(s, a, [step]);
    var r := Run(s, a);
    assert [step][1..] == [];
    assert Run(Apply(r, step), []) == Apply(r, step);
  }

  // ---------- the invariant ----------

  /** Descriptor `d` shows the device exactly `data`. */
  ghost predicate Shows(s: Tx, d: nat, data: seq<byte>)
    requires Shape(s)
  {
    d < QUEUE_SIZE && s.table[d].flags == 0 && Seen(s, d) == data
  }

  ghost predicate BuffersKept(s: Tx)
    requires Shape(s)
  {
    forall d {:trigger d in s.q.hist.live} :: d in s.q.hist.live ==>
      s.q.hist.live[d] < |s.q.hist.pubs| && Shows(s, d, s.q.hist.pubs[s.q.hist.live[d]].data)
  }

  ghost predicate MarksExact(s: Tx)
    requires Shape(s)
  {
    forall d {:trigger s.inUse[d]} :: 0 <= d < QUEUE_SIZE ==>
      (s.inUse[d] <==> d in s.q.hist.live || (s.at.Queued? && s.at.d == d))
  }

  ghost predicate ProgressOk(s: Tx)
    requires Shape(s)
  {
    match s.at
    case Idle => true
    case Found(d, data) => d !in s.q.hist.live
    case Copied(d, data) => d !in s.q.hist.live && Range(s, d, |data|) == data
    case Described(d, data) => d !in s.q.hist.live && Shows(s, d, data)
    case Queued(d, data) =>
      && d !in s.q.hist.live && Shows(s, d, data)
      && s.q.ring.availRing[|s.q.hist.pubs| % QUEUE_SIZE] == d
    case Completed => |s.q.hist.reaps| < |s.q.hist.comps|
  }

  /** Publication `k` carries the packet of send number `k`. */
  ghost predicate Carries(sent: seq<seq<byte>>, pubs: seq<Publication>, k: nat) {
    k < |pubs| && k < |sent| && pubs[k].data == sent[k]
  }

  /** Device read number `i` got the packet of the send that made the publication. */
  ghost predicate ReadRight(sent: seq<seq<byte>>, pubs: seq<Publication>, seen: seq<Read>, i: nat) {
    i < |seen| && seen[i].k < |pubs| && seen[i].k < |sent| && seen[i].bytes == sent[seen[i].k]
  }

  ghost predicate Matches(sent: seq<seq<byte>>, pubs: seq<Publication>, seen: seq<Read>) {
    && (forall k: nat {:trigger Carries(sent, pubs, k)} :: k < |pubs| ==> Carries(sent, pubs, k))
    && (forall i: nat {:trigger ReadRight(sent, pubs, seen, i)} :: i < |seen| ==> ReadRight(sent, pubs, seen, i))
  }

  ghost predicate SendsMatch(s: Tx) {
    && |s.sent| == |s.q.hist.pubs| + (if s.at.Idle? || s.at.Completed? then 0 else 1)
    && (s.at.Idle? || s.at.Completed? || s.sent[|s.sent| - 1] == s.at.data)
    && Matches(s.sent, s.q.hist.pubs, s.seen)
  }

  ghost predicate Inv(s: Tx) {
    && Shape(s) && RingInv(s.q)
    && s.lastUsed == |s.q.hist.reaps| % INDEX_MOD
    && BuffersKept(s) && MarksExact(s) && ProgressOk(s) && SendsMatch(s)
  }

  // ---------- every step keeps it ----------

  /** A free descriptor leaves room in the available ring. */
  lemma RoomToPublish(q: Queue, d: nat)
    requires RingInv(q) && d < QUEUE_SIZE && d !in q.hist.live
    ensures |q.hist.pubs| - q.hist.consumed < QUEUE_SIZE
  {
    BoundedSetSize(q.hist.live.Keys, QUEUE_SIZE);
  }

  /** Copying a packet into one buffer leaves what every other descriptor shows. */
  lemma CopyLeavesOthers(s: Tx, e: nat)
    requires Shape(s) && s.at.Found? && e < QUEUE_SIZE && e != s.at.d
    ensures Seen(Apply(s, CopyBuffer), e) == Seen(s, e)
  {
    var d, s' := s.at.d, Apply(s, CopyBuffer);
    var from, to := s.table[e].addr - s.base, s.table[e].addr - s.base + s.table[e].len;
    BufferAddrIs(s.base, d);
    BufferAddrIs(s.base, e);
    assert s.table[d].addr - s.base == d * BUFFER_SIZE && from == e * BUFFER_SIZE;
    forall i | from <= i < to ensures s'.mem[i] == s.mem[i] {
      assert i < d * BUFFER_SIZE || i >= d * BUFFER_SIZE + |s.at.data|;
    }
  }

  lemma ShowsSame(s: Tx, s': Tx, e: nat, data: seq<byte>)
    requires Shape(s) && Shape(s') && Shows(s, e, data)
    requires s'.mem == s.mem && s'.table == s.table && s'.base == s.base
    ensures Shows(s', e, data)
  {
  }

  /** Descriptors that showed their packets still do when memory and table stay. */
  lemma SameBuffers(s: Tx, s': Tx)
    requires Shape(s) && Shape(s') && BuffersKept(s)
    requires s'.mem == s.mem && s'.table == s.table && s'.base == s.base
    requires s'.q.hist.pubs == s.q.hist.pubs
    requires forall e :: e in s'.q.hist.live ==> e in s.q.hist.live && s'.q.hist.live[e] == s.q.hist.live[e]
    ensures BuffersKept(s')
  {
    hide Shows;
    forall e | e in s'.q.hist.live ensures Shows(s', e, s'.q.hist.pubs[s'.q.hist.live[e]].data) {
      ShowsSame(s, s', e, s.q.hist.pubs[s.q.hist.live[e]].data);
    }
  }

  lemma MatchesSend(sent: seq<seq<byte>>, pubs: seq<Publication>, seen: seq<Read>, data: seq<byte>)
    requires Matches(sent, pubs, seen)
    ensures Matches(sent + [data], pubs, seen)
  {
    forall k: nat | k < |pubs| ensures Carries(sent + [data], pubs, k) {
      assert Carries(sent, pubs, k);
    }
    forall i: nat | i < |seen| ensures ReadRight(sent + [data], pubs, seen, i) {
      assert ReadRight(sent, pubs, seen, i);
    }
  }

  lemma MatchesPublish(sent: seq<seq<byte>>, pubs: seq<Publication>, seen: seq<Read>, p: Publication)
    requires Matches(sent, pubs, seen) && |sent| == |pubs| + 1 && sent[|pubs|] == p.data
    ensures Matches(sent, pubs + [p], seen)
  {
    forall k: nat | k < |pubs + [p]| ensures Carries(sent, pubs + [p], k) {
      assert k < |pubs| ==> Carries(sent, pubs, k);
    }
    forall i: nat | i < |seen| ensures ReadRight(sent, pubs + [p], seen, i) {
      assert ReadRight(sent, pubs, seen, i);
    }
  }

  lemma MatchesRead(sent: seq<seq<byte>>, pubs: seq<Publication>, seen: seq<Read>, k: nat, bytes: seq<byte>)
    requires Matches(sent, pubs, seen) && k < |pubs| && bytes == pubs[k].data
    ensures Matches(sent, pubs, seen + [Read(k, bytes)])
  {
    var seen' := seen + [Read(k, bytes)];
    assert Carries(sent, pubs, k);
    forall i: nat | i < |seen'| ensures ReadRight(sent, pubs, seen', i) {
      assert i < |seen| ==> ReadRight(sent, pubs, seen, i);
    }
  }

  lemma SendKeepsInv(s: Tx, data: seq<byte>)
    requires Inv(s)
    ensures Inv(Apply(s, Send(data)))
  {
    hide RingInv, Matches;
    MatchesSend(s.sent, s.q.hist.pubs, s.seen, data);
    SameBuffers(s, Apply(s, Send(data)));
  }

  lemma CopyKeepsInv(s: Tx)
    requires Inv(s) && s.at.Found?
    ensures Inv(Apply(s, CopyBuffer))
  {
    hide RingInv;
    var s' := Apply(s, CopyBuffer);
    forall e | e in s.q.hist.live ensures Shows(s', e, s.q.hist.pubs[s.q.hist.live[e]].data) {
      assert Shows(s, e, s.q.hist.pubs[s.q.hist.live[e]].data);
      CopyLeavesOthers(s, e);
    }
  }

  lemma DescribeKeepsInv(s: Tx)
    requires Inv(s) && s.at.Copied?
    ensures Inv(Apply(s, WriteDescriptor))
  {
    hide RingInv;
    var s' := Apply(s, WriteDescriptor);
    forall e | e in s.q.hist.live ensures Shows(s', e, s.q.hist.pubs[s.q.hist.live[e]].data) {
      assert Shows(s, e, s.q.hist.pubs[s.q.hist.live[e]].data);
    }
  }

  lemma WriteSlotKeepsInv(s: Tx)
    requires Inv(s) && s.at.Described?
    ensures Inv(Apply(s, WriteSlot))
  {
    hide RingInv;
    RoomToPublish(s.q, s.at.d);
    WriteAvailSlotKeepsInv(s.q, s.at.d);
    SameBuffers(s, Apply(s, WriteSlot));
  }

  lemma BumpIndexKeepsInv(s: Tx)
    requires Inv(s) && s.at.Queued?
    ensures Inv(Apply(s, BumpIndex))
  {
    hide RingInv, BuffersKept, MarksExact, Matches;
    BumpAvailKeepsInv(s.q, Publication(s.at.d, s.at.data));
    MatchesPublish(s.sent, s.q.hist.pubs, s.seen, Publication(s.at.d, s.at.data));
    PublishedBuffers(s, Apply(s, BumpIndex), Publication(s.at.d, s.at.data));
    BumpIndexMarks(s);
  }

  lemma PublishedBuffers(s: Tx, s': Tx, p: Publication)
    requires Shape(s) && Shape(s') && BuffersKept(s) && Shows(s, p.desc, p.data)
    requires s'.mem == s.mem && s'.table == s.table && s'.base == s.base
    requires s'.q.hist.pubs == s.q.hist.pubs + [p] && s'.q.hist.live == s.q.hist.live[p.desc := |s.q.hist.pubs|]
    ensures BuffersKept(s')
  {
    hide Shows;
    forall e | e in s'.q.hist.live
      ensures s'.q.hist.live[e] < |s'.q.hist.pubs| && Shows(s', e, s'.q.hist.pubs[s'.q.hist.live[e]].data)
    {
      ShowsSame(s, s', e, if e == p.desc then p.data else s.q.hist.pubs[s.q.hist.live[e]].data);
    }
  }

  lemma BumpIndexMarks(s: Tx)
    requires Shape(s) && s.at.Queued? && MarksExact(s)
    ensures MarksExact(Apply(s, BumpIndex))
  {
  }

  lemma PollKeepsInv(s: Tx)
    requires Inv(s)
    ensures Inv(Apply(s, Poll))
  {
    hide RingInv;
    IndexTestsAreExact(s.q);
    SameBuffers(s, Apply(s, Poll));
  }

  lemma TakeUsedKeepsInv(s: Tx)
    requires Inv(s) && s.at.Completed?
    ensures Inv(Apply(s, TakeUsed))
  {
    hide RingInv, BuffersKept, MarksExact;
    SlotOfIndex(|s.q.hist.reaps|);
    NextCompletion(s.q);
    ReapKeepsInv(s.q, s.q.ring.usedRing[s.lastUsed % QUEUE_SIZE].id);
    SameBuffers(s, Apply(s, TakeUsed));
    TakeUsedMarks(s);
  }

  lemma TakeUsedMarks(s: Tx)
    requires Shape(s) && s.at.Completed? && MarksExact(s)
    requires s.q.ring.usedRing[s.lastUsed % QUEUE_SIZE].id < QUEUE_SIZE
    ensures MarksExact(Apply(s, TakeUsed))
  {
  }

  /** A device step that leaves what is published and reaped leaves the driver's facts too. */
  lemma DeviceStepKeepsRest(s: Tx, q': Queue)
    requires Inv(s) && RingInv(q') && Shape(s.(q := q'))
    requires q'.ring.availRing == s.q.ring.availRing
    requires q'.hist.pubs == s.q.hist.pubs && q'.hist.live == s.q.hist.live && q'.hist.reaps == s.q.hist.reaps
    requires |q'.hist.comps| >= |s.q.hist.comps|
    ensures Inv(s.(q := q'))
  {
    hide RingInv;
    SameBuffers(s, s.(q := q'));
  }

  lemma SameProgress(s: Tx, s': Tx)
    requires Shape(s) && MarksExact(s) && ProgressOk(s)
    requires s' == s.(seen := s'.seen)
    ensures MarksExact(s') && ProgressOk(s')
  {
  }

  lemma DevReadKeepsInv(s: Tx, k: nat)
    requires Inv(s) && k in s.q.dev.held
    ensures Inv(Apply(s, DevRead(k)))
  {
    hide RingInv, MarksExact, ProgressOk, Matches;
    HoldingsAreLive(s.q, k);
    assert Shows(s, s.q.dev.held[k], s.q.hist.pubs[k].data);
    MatchesRead(s.sent, s.q.hist.pubs, s.seen, k, s.q.hist.pubs[k].data);
    var s' := Apply(s, DevRead(k));
    SameBuffers(s, s');
    assert MarksExact(s') && ProgressOk(s') by { SameProgress(s, s'); }
  }

  lemma StepKeepsInv(s: Tx, step: Step)
    requires Inv(s)
    ensures Inv(Apply(s, step))
  {
    hide RingInv, BuffersKept, MarksExact, SendsMatch, ProgressOk;
    match step
    case Send(data) => SendKeepsInv(s, data);
    case CopyBuffer => if s.at.Found? { CopyKeepsInv(s); }
    case WriteDescriptor => if s.at.Copied? { DescribeKeepsInv(s); }
    case WriteSlot => if s.at.Described? { WriteSlotKeepsInv(s); }
    case BumpIndex => if s.at.Queued? { BumpIndexKeepsInv(s); }
    case Poll => PollKeepsInv(s);
    case TakeUsed => if s.at.Completed? { TakeUsedKeepsInv(s); }
    case DevConsume => ConsumeKeepsInv(s.q); DeviceStepKeepsRest(s, Consume(s.q));
    case DevRead(k) => if k in s.q.dev.held { DevReadKeepsInv(s, k); }
    case DevWriteUsed(k, len) => WriteUsedKeepsInv(s.q, k, len); DeviceStepKeepsRest(s, WriteUsed(s.q, k, len));
    case DevBumpUsed => BumpUsedKeepsInv(s.q); DeviceStepKeepsRest(s, BumpUsed(s.q));
  }

  // ---------- what holds in every run ----------

  lemma {:induction false} RunKeepsInv(s: Tx, steps: seq<Step>)
    requires Inv(s)
    ensures Inv(Run(s, steps))
    decreases |steps|
  {
    if steps != [] {
      StepKeepsInv(s, steps[0]);
      RunKeepsInv(Apply(s, steps[0]), steps[1..]);
    }
  }

  lemma InitialInv(s: Tx)
    requires Initial(s)
    ensures Inv(s)
  {
  }

  // ---------- the descriptor that a send takes ----------

  /** Counted cyclically from `from`, descriptor `d` is the first that is not live. */
  ghost predicate FirstFrom(live: set<nat>, from: nat, d: nat) {
    && d < QUEUE_SIZE && d !in live
    && forall e: nat {:trigger e in live} :: e < QUEUE_SIZE && e !in live ==>
         (d - from) % QUEUE_SIZE <= (e - from) % QUEUE_SIZE
  }

  /** One past the descriptor of the last publication; 0 before the first. */
  function OnePast(pubs: seq<Publication>): nat {
    if pubs == [] then 0 else (pubs[|pubs| - 1].desc + 1) % QUEUE_SIZE
  }

  /** The search position follows the last descriptor queued. */
  ghost predicate Follows(s: Tx) {
    s.nextDesc == if s.at.Queued? then (s.at.d + 1) % QUEUE_SIZE else OnePast(s.q.hist.pubs)
  }

  lemma StepKeepsFollows(s: Tx, step: Step)
    requires Shape(s) && Follows(s)
    ensures Follows(Apply(s, step))
  {
    hide Search, Splice, Seen, BufferAddr, Shape;
  }

  lemma {:induction false} RunFollows(s: Tx, steps: seq<Step>)
    requires Shape(s) && Follows(s)
    ensures Follows(Run(s, steps))
    decreases |steps|
  {
    hide Follows, Shape, Apply;
    if steps != [] {
      StepKeepsFollows(s, steps[0]);
      RunFollows(Apply(s, steps[0]), steps[1..]);
    }
  }

  /** Before a send, the search finds the first descriptor that is not live. */
  lemma SearchIsFirstFrom(inUse: seq<bool>, live: set<nat>, from: nat)
    requires |inUse| == QUEUE_SIZE && from < QUEUE_SIZE
    requires forall d: nat {:trigger d in live} :: d < QUEUE_SIZE ==> (inUse[d] <==> d in live)
    requires !inUse[Search(inUse, from, QUEUE_SIZE)]
    ensures FirstFrom(live, from, Search(inUse, from, QUEUE_SIZE))
  {
    hide Search;
    var i := SearchFindsFirst(inUse, from, QUEUE_SIZE);
    var d := Search(inUse, from, QUEUE_SIZE);
    forall e: nat | e < QUEUE_SIZE && e !in live ensures (d - from) % QUEUE_SIZE <= (e - from) % QUEUE_SIZE {
      var j := PlacesAhead(from, e);
      assert j >= i;
      PlaceOf(from, j);
      PlaceOf(from, i);
    }
  }

  lemma PlaceOf(from: nat, j: nat)
    requires from < QUEUE_SIZE
    ensures (Ahead(from, j) - from) % QUEUE_SIZE == j % QUEUE_SIZE
  {
  }

  /** The state `t` before a send, and the descriptor that the send then takes. */
  ghost predicate Chosen(t: Tx, d: nat) {
    t.at.Idle? && FirstFrom(t.q.hist.live.Keys, OnePast(t.q.hist.pubs), d)
  }

  lemma ChosenAtSend(s: Tx, steps: seq<Step>, data: seq<byte>)
    requires Initial(s)
    requires Run(s, steps).at.Idle? && Apply(Run(s, steps), Send(data)).at.Found?
    ensures Chosen(Run(s, steps), Apply(Run(s, steps), Send(data)).at.d)
  {
    hide Run, Search, FirstFrom, RingInv, BuffersKept, ProgressOk, SendsMatch;
    InitialInv(s);
    RunKeepsInv(s, steps);
    RunFollows(s, steps);
    var t := Run(s, steps);
    SearchIsFirstFrom(t.inUse, t.q.hist.live.Keys, t.nextDesc);
  }

  /** One step from the middle of a send, or into it. */
  lemma StepOfSend(s: Tx, step: Step)
    requires Shape(s) && !Apply(s, step).at.Idle? && !Apply(s, step).at.Completed?
    ensures Apply(s, step).q.hist.pubs == s.q.hist.pubs
    ensures s.at.Idle? || !s.at.Completed?
    ensures if s.at.Idle? then step == Send(Apply(s, step).at.data) && Apply(s, step).at.Found?
            else Apply(s, step).at.d == s.at.d && Apply(s, step).at.data == s.at.data
  {
    hide Search, Splice, Seen, BufferAddr, Shape;
  }

  /** A send under way has chosen its descriptor in some state of the run before. */
  lemma {:induction false} SendBehind(s: Tx, steps: seq<Step>) returns (i: nat)
    requires Initial(s) && !Run(s, steps).at.Idle? && !Run(s, steps).at.Completed?
    ensures i < |steps| && steps[i] == Send(Run(s, steps).at.data)
    ensures Run(s, steps[..i]).q.hist.pubs == Run(s, steps).q.hist.pubs
    ensures Chosen(Run(s, steps[..i]), Run(s, steps).at.d)
    decreases |steps|
  {
    hide Apply, Chosen, Run, Shape;
    BeginsIdle(s, steps);
    var n := |steps| - 1;
    var pre, last := steps[..n], steps[n];
    assert steps == pre + [last];
    RunSnoc(s, pre, last);
    StepOfSend(Run(s, pre), last);
    if Run(s, pre).at.Idle? {
      i := n;
      ChosenAtSend(s, pre, last.data);
    } else {
      i := SendBehind(s, pre);
      assert steps[..i] == pre[..i];
    }
  }

  lemma BeginsIdle(s: Tx, steps: seq<Step>)
    requires Initial(s) && !Run(s, steps).at.Idle?
    ensures steps != []
  {
  }

  lemma StepPublishes(s: Tx, step: Step)
    requires Shape(s)
    ensures Apply(s, step).q.hist.pubs == s.q.hist.pubs
            || (s.at.Queued? && Apply(s, step).q.hist.pubs == s.q.hist.pubs + [Publication(s.at.d, s.at.data)])
  {
    hide Search, Splice, Seen, BufferAddr, Shape;
  }

  lemma {:induction false} ChoiceOf(s: Tx, steps: seq<Step>, k: nat) returns (i: nat)
    requires Initial(s) && k < |Run(s, steps).q.hist.pubs|
    ensures var p := Run(s, steps).q.hist.pubs;
            && i < |steps| && steps[i] == Send(p[k].data)
            && Run(s, steps[..i]).q.hist.pubs == p[..k] && Chosen(Run(s, steps[..i]), p[k].desc)
    decreases |steps|
  {
    hide Apply, Chosen, Run, Shape;
    BeginsUnpublished(s, steps);
    var n := |steps| - 1;
    var pre, last := steps[..n], steps[n];
    assert steps == pre + [last];
    RunSnoc(s, pre, last);
    StepPublishes(Run(s, pre), last);
    if k < |Run(s, pre).q.hist.pubs| {
      i := ChoiceOf(s, pre, k);
      assert steps[..i] == pre[..i];
    } else {
      i := SendBehind(s, pre);
      assert steps[..i] == pre[..i];
    }
  }

  lemma BeginsUnpublished(s: Tx, steps: seq<Step>)
    requires Initial(s) && Run(s, steps).q.hist.pubs != []
    ensures steps != []
  {
  }

  /** In every interleaving, publication `k` belongs to an accepted send, made when `k` publications were
      out. Its descriptor is the first one, counted cyclically from one past that of the publication
      before, or from 0 for the first, that was not published and unreaped when the send chose it. */
  lemma SendsTakeTheNextFree(s: Tx, steps: seq<Step>, k: nat) returns (i: nat)
    requires Initial(s) && k < |Run(s, steps).q.hist.pubs|
    ensures var p := Run(s, steps).q.hist.pubs;
            && i < |steps| && steps[i] == Send(p[k].data)
            && Run(s, steps[..i]).at.Idle? && Run(s, steps[..i]).q.hist.pubs == p[..k]
            && FirstFrom(Run(s, steps[..i]).q.hist.live.Keys,
                         if k == 0 then 0 else (p[k - 1].desc + 1) % QUEUE_SIZE, p[k].desc)
  {
    hide Run, Shape, FirstFrom;
    i := ChoiceOf(s, steps, k);
  }

  /** In every interleaving, each time the device reads the buffer of a publication it gets exactly
      the packet of the send call that published it. */
  lemma DeviceReadsWhatWasSent(s: Tx, steps: seq<Step>, i: nat)
    requires Initial(s)
    requires i < |Run(s, steps).seen|
    ensures var r := Run(s, steps);
            r.seen[i].k < |r.sent| && r.seen[i].bytes == r.sent[r.seen[i].k]
  {
    hide Run;
    InitialInv(s);
    RunKeepsInv(s, steps);
    var r := Run(s, steps);
    assert ReadRight(r.sent, r.q.hist.pubs, r.seen, i);
  }

  /** As long as a descriptor is published and not reaped, its table entry and its buffer stand for its packet. */
  lemma PublishedStands(s: Tx, steps: seq<Step>, c: nat)
    requires Initial(s) && c in Run(s, steps).q.hist.live
    ensures var r := Run(s, steps);
            && c < QUEUE_SIZE && r.q.hist.live[c] < |r.q.hist.pubs| && r.q.hist.pubs[r.q.hist.live[c]].desc == c
            && var data := r.q.hist.pubs[r.q.hist.live[c]].data;
               && r.table[c] == Descriptor(r.base + c * BUFFER_SIZE, |data|, 0)
               && |data| <= BUFFER_SIZE && r.mem[c * BUFFER_SIZE..][..|data|] == data
  {
    hide Run, Initial;
    InitialInv(s);
    RunKeepsInv(s, steps);
    StandsFromInv(Run(s, steps), c);
  }

  lemma StandsFromInv(s: Tx, c: nat)
    requires Inv(s) && c in s.q.hist.live
    ensures c < QUEUE_SIZE && s.q.hist.live[c] < |s.q.hist.pubs| && s.q.hist.pubs[s.q.hist.live[c]].desc == c
    ensures var data := s.q.hist.pubs[s.q.hist.live[c]].data;
            && s.table[c] == Descriptor(s.base + c * BUFFER_SIZE, |data|, 0)
            && |data| <= BUFFER_SIZE && s.mem[c * BUFFER_SIZE..][..|data|] == data
  {
    hide MarksExact, ProgressOk, SendsMatch, Intact, Counted, ReapsMatch;
    BufferAddrIs(s.base, c);
    var data := s.q.hist.pubs[s.q.hist.live[c]].data;
    assert Shows(s, c, data);
    var from := c * BUFFER_SIZE;
    assert s.mem[from..][..|data|] == s.mem[from..from + |data|];
  }

  /** The marked descriptors of a table. */
  ghost function Marked(inUse: seq<bool>): set<nat> {
    set d: nat | d < |inUse| && inUse[d]
  }

  /** Between sends the in-use table marks exactly the published, unreaped descriptors; their
      number is the 16-bit difference of the two indices; and send finds no descriptor exactly
      when all of them are in flight. */
  lemma TxAccounting(s: Tx, steps: seq<Step>)
    requires Initial(s)
    ensures var r := Run(s, steps);
            r.at.Idle? ==>
              && Marked(r.inUse) == r.q.hist.live.Keys
              && |Marked(r.inUse)| == (r.q.ring.availIdx - r.lastUsed) % INDEX_MOD <= QUEUE_SIZE
              && (r.inUse[Search(r.inUse, r.nextDesc, QUEUE_SIZE)] <==> |Marked(r.inUse)| == QUEUE_SIZE)
  {
    hide RingInv, BuffersKept, ProgressOk, SendsMatch, MarksExact, Search, Run, Marked;
    InitialInv(s);
    RunKeepsInv(s, steps);
    var r := Run(s, steps);
    if r.at.Idle? {
      LiveCount(r.q);
      MarkedAreLive(r);
      FullTable(r.inUse, r.nextDesc);
    }
  }

  lemma MarkedAreLive(s: Tx)
    requires Shape(s) && MarksExact(s) && s.at.Idle?
    requires forall d :: d in s.q.hist.live ==> d < QUEUE_SIZE
    ensures Marked(s.inUse) == s.q.hist.live.Keys
  {
  }

  lemma LiveCount(q: Queue)
    requires RingInv(q)
    ensures |q.hist.live.Keys| == (q.ring.availIdx - |q.hist.reaps| % INDEX_MOD) % INDEX_MOD <= QUEUE_SIZE
    ensures forall d :: d in q.hist.live ==> d < QUEUE_SIZE
  {
    IndexTestsAreExact(q);
    IndexDifference(|q.hist.reaps|, |q.hist.pubs|);
    assert |q.hist.live.Keys| == |q.hist.live|;
  }

  lemma FullTable(inUse: seq<bool>, d: nat)
    requires |inUse| == QUEUE_SIZE && d < QUEUE_SIZE
    ensures inUse[Search(inUse, d, QUEUE_SIZE)] <==> |Marked(inUse)| == QUEUE_SIZE
  {
    hide Search, Interval;
    SearchFailsOnlyWhenFull(inUse, d);
    BoundedSetSize(Marked(inUse), QUEUE_SIZE);
    IntervalSize(0, QUEUE_SIZE);
    if forall x :: 0 <= x < QUEUE_SIZE ==> inUse[x] {
      assert Marked(inUse) == Interval(0, QUEUE_SIZE);
    } else {
      var x :| 0 <= x < QUEUE_SIZE && !inUse[x];
      assert x !in Marked(inUse);
    }
  }

  lemma IndexDifference(a: nat, b: nat)
    requires a <= b <= a + QUEUE_SIZE
    ensures (b % INDEX_MOD - a % INDEX_MOD) % INDEX_MOD == b - a
  {
  }

  /** For runs of any length, past index wrap-around: the driver's 16-bit test holds exactly when a
      completion is unreaped, and the j-th reap took the descriptor of the j-th completion. */
  lemma ReapsFollowCompletions(s: Tx, steps: seq<Step>)
    requires Initial(s)
    ensures var r := Run(s, steps);
            var h := r.q.hist;
            && (r.lastUsed != r.q.ring.usedIdx <==> |h.reaps| < |h.comps|)
            && |h.reaps| <= |h.comps|
            && (forall j :: 0 <= j < |h.reaps| ==>
                  h.comps[j] < |h.pubs| && h.reaps[j] == h.pubs[h.comps[j]].desc)
            && Distinct(h.comps)
  {
    InitialInv(s);
    RunKeepsInv(s, steps);
    IndexTestsAreExact(Run(s, steps).q);
  }
}

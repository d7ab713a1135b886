/**
 The transmit half of the driver as the code that runs: rings, in-use table and packet memory are
 arrays changed in place. Each routine takes the device moves that happen at each point where the
 driver can be observed, and is proved to be that run of the protocol in TxQueue.
 */
module TxDriver {
  import opened Basics
  import opened Virtqueue
  import opened TxQueue

  predicate IsDeviceStep(step: Step) {
    step.DevConsume? || step.DevRead? || step.DevWriteUsed? || step.DevBumpUsed?
  }

  ghost predicate DeviceMoves(moves: seq<Step>) {
    forall i :: 0 <= i < |moves| ==> IsDeviceStep(moves[i])
  }

  /** The steps of one accepted send with the device moving in each gap. */
  ghost function SendSchedule(data: seq<byte>, gaps: seq<seq<Step>>): seq<Step>
    requires |gaps| == 4
  {
    [Send(data)] + gaps[0] + [CopyBuffer] + gaps[1] + [WriteDescriptor] + gaps[2] + [WriteSlot] + gaps[3] + [BumpIndex]
  }

  /** The steps of one completed turn of the completion loop. */
  ghost function ReapSchedule(gap: seq<Step>): seq<Step> {
    [Step.Poll] + gap + [Step.TakeUsed]
  }

  /** What a device leaves of the account: publications and reaps, and the completions so far. */
  ghost predicate SameDriverSide(h: History, h': History) {
    h'.pubs == h.pubs && h'.reaps == h.reaps && h'.live == h.live && h.comps <= h'.comps
  }

  lemma DeviceLeaves(s: Tx, step: Step)
    requires Shape(s) && IsDeviceStep(step)
    ensures SameDriverSide(s.q.hist, Apply(s, step).q.hist)
  {
    hide Seen;
  }

  class Driver {
    const base: nat
    const table: array<Descriptor>
    const availRing: array<nat>
    const usedRing: array<UsedElem>
    const inUse: array<bool>
    const mem: array<byte>
    var availIdx: nat
    var usedIdx: nat
    var nextDesc: nat
    var lastUsed: nat
    // the environment: the device and the account of what has happened
    var dev: Device
    var hist: History
    ghost var at: Progress
    ghost var sent: seq<seq<byte>>
    ghost var seen: seq<Read>
    ghost var start: Tx             // the state after initialisation ...
    ghost var trace: seq<Step>      // ... and the steps of driver and device since

    ghost const Repr: set<object> := {this, table, availRing, usedRing, inUse, mem}

    ghost predicate Apart() {
      var t: object, a: object, u: object, i: object, m: object := table, availRing, usedRing, inUse, mem;
      t !in {a, u, i, m} && a !in {u, i, m} && u !in {i, m} && i != m
    }

    ghost function State(): Tx
      reads Repr
    {
      Tx(Queue(Ring(availIdx, availRing[..], usedIdx, usedRing[..]), dev, hist),
         table[..], base, mem[..], inUse[..], nextDesc, lastUsed, at, sent, seen)
    }

    /** Between two calls: the queue is where the recorded run of the protocol has brought it. */
    ghost predicate Valid()
      reads Repr
    {
      Apart() && at.Idle? && Initial(start) && State() == Run(start, trace)
    }

    /** A queue with its buffers, as the initialisation routine leaves it. */
    constructor (base: nat)
      ensures Valid() && fresh(Repr) && start == State() && trace == [] && this.base == base
    {
      this.base := base;
      table := new Descriptor[QUEUE_SIZE](_ => Descriptor(0, 0, 0));
      availRing := new nat[QUEUE_SIZE](_ => 0);
      usedRing := new UsedElem[QUEUE_SIZE](_ => UsedElem(0, 0));
      inUse := new bool[QUEUE_SIZE](_ => false);
      mem := new byte[QUEUE_SIZE * BUFFER_SIZE](_ => 0);
      availIdx, usedIdx, nextDesc, lastUsed := 0, 0, 0, 0;
      dev, hist := Device(0, map[], None), History([], 0, [], [], map[]);
      at, sent, seen := Idle, [], [];
      new;
      FillTable();
      start, trace := State(), [];
    }

    /** The descriptor loop: one buffer each. */
    method FillTable()
      requires table.Length == QUEUE_SIZE
      modifies table
      ensures forall i :: 0 <= i < QUEUE_SIZE ==> table[i] == Descriptor(BufferAddr(base, i), BUFFER_SIZE, 0)
      ensures forall i :: 0 <= i < QUEUE_SIZE ==> base <= table[i].addr <= base + (QUEUE_SIZE - 1) * BUFFER_SIZE
    {
      hide BufferAddr;
      for i := 0 to QUEUE_SIZE
        invariant forall j :: 0 <= j < i ==> table[j] == Descriptor(BufferAddr(base, j), BUFFER_SIZE, 0)
        invariant forall j :: 0 <= j < i ==> base <= table[j].addr <= base + (QUEUE_SIZE - 1) * BUFFER_SIZE
      {
        BufferAddrIs(base, i);
        table[i] := Descriptor(base + i * BUFFER_SIZE, BUFFER_SIZE, 0);
      }
    }

    /** One move of a conforming device. */
    method DeviceStep(step: Step)
      requires Apart() && Shape(State()) && IsDeviceStep(step)
      modifies usedRing, this`usedIdx, this`dev, this`hist, this`seen
      ensures State() == Apply(old(State()), step)
    {
      hide Search, Splice, BufferAddr, Range, Seen;
      match step
      case DevConsume =>
        if dev.lastAvail != availIdx {
          var d := availRing[dev.lastAvail % QUEUE_SIZE];
          dev := dev.(lastAvail := (dev.lastAvail + 1) % INDEX_MOD, held := dev.held[hist.consumed := d]);
          hist := hist.(consumed := hist.consumed + 1);
        }
      case DevRead(k) =>
        if k in dev.held && dev.held[k] < QUEUE_SIZE {
          seen := seen + [Read(k, Seen(State(), dev.held[k]))];
        }
      case DevWriteUsed(k, len) =>
        if dev.writing.None? && k in dev.held {
          usedRing[usedIdx % QUEUE_SIZE] := UsedElem(dev.held[k], len);
          dev := dev.(writing := Some(k));
        }
      case DevBumpUsed =>
        if dev.writing.Some? {
          var k := dev.writing.value;
          usedIdx := (usedIdx + 1) % INDEX_MOD;
          dev := dev.(held := dev.held - {k}, writing := None);
          hist := hist.(comps := hist.comps + [k]);
        }
    }

    method DeviceTurn(moves: seq<Step>)
      requires Apart() && Shape(State()) && DeviceMoves(moves)
      modifies usedRing, this`usedIdx, this`dev, this`hist, this`seen
      ensures State() == Run(old(State()), moves) && SameDriverSide(old(hist), hist)
    {
      hide Apply;
      assert moves[..0] == [];
      for i := 0 to |moves|
        invariant Shape(State()) && State() == Run(old(State()), moves[..i]) && SameDriverSide(old(hist), hist)
      {
        RunSnoc(old(State()), moves[..i], moves[i]);
        assert moves[..i + 1] == moves[..i] + [moves[i]];
        DeviceLeaves(State(), moves[i]);
        DeviceStep(moves[i]);
      }
      assert moves[..|moves|] == moves;
    }

    /** The search loop. */
    method FindFree() returns (d: nat)
      requires Shape(State())
      ensures d == Search(inUse[..], nextDesc, QUEUE_SIZE) && d < QUEUE_SIZE
    {
      d := nextDesc;
      var searched := 0;
      while searched < QUEUE_SIZE
        invariant searched <= QUEUE_SIZE && d < QUEUE_SIZE
        invariant Search(inUse[..], d, QUEUE_SIZE - searched) == Search(inUse[..], nextDesc, QUEUE_SIZE)
      {
        if !inUse[d] {
          break;
        }
        d := (d + 1) % QUEUE_SIZE;
        searched := searched + 1;
      }
    }

    /** `mem_copy` into the packet memory, one byte at a time. */
    method CopyIn(from: nat, data: seq<byte>)
      requires Apart() && from + |data| <= mem.Length
      modifies mem
      ensures mem[..] == Splice(old(mem[..]), from, data)
    {
      for i := 0 to |data|
        invariant mem[..] == Splice(old(mem[..]), from, data[..i])
      {
        mem[from + i] := data[i];
        assert data[..i + 1] == data[..i] + [data[i]];
      }
      assert data[..|data|] == data;
    }

    // The steps of a send.

    ghost method Choose(d: nat, data: seq<byte>)
      requires Shape(State()) && at.Idle? && |data| <= BUFFER_SIZE
      requires d == Search(inUse[..], nextDesc, QUEUE_SIZE) && !inUse[d]
      modifies this`at, this`sent
      ensures State() == Apply(old(State()), Step.Send(data)) && at == Found(d, data)
    {
      at, sent := Found(d, data), sent + [data];
    }

    method CopyPacket(d: nat, data: seq<byte>)
      requires Apart() && Shape(State()) && at == Found(d, data)
      modifies mem, this`at
      ensures State() == Apply(old(State()), Step.CopyBuffer) && at == Copied(d, data)
    {
      CopyIn(table[d].addr - base, data);
      at := Copied(d, data);
    }

    method FillDescriptor(d: nat, data: seq<byte>)
      requires Apart() && Shape(State()) && at == Copied(d, data)
      modifies table, this`at
      ensures State() == Apply(old(State()), Step.WriteDescriptor) && at == Described(d, data)
    {
      table[d] := Descriptor(table[d].addr, |data|, 0);
      at := Described(d, data);
    }

    method QueueSlot(d: nat, ghost data: seq<byte>)
      requires Apart() && Shape(State()) && at == Described(d, data)
      modifies availRing, inUse, this`nextDesc, this`at
      ensures State() == Apply(old(State()), Step.WriteSlot) && at == Queued(d, data)
    {
      availRing[availIdx % QUEUE_SIZE] := d;
      inUse[d] := true;
      nextDesc := (d + 1) % QUEUE_SIZE;
      at := Queued(d, data);
    }

    method Publish(d: nat, data: seq<byte>)
      requires Apart() && Shape(State()) && at == Queued(d, data)
      modifies this`availIdx, this`hist, this`at
      ensures State() == Apply(old(State()), Step.BumpIndex) && at == Idle
      ensures hist.pubs == old(hist).pubs + [Publication(d, data)]
    {
      availIdx := (availIdx + 1) % INDEX_MOD;
      hist := hist.(live := hist.live[d := |hist.pubs|], pubs := hist.pubs + [Publication(d, data)]);
      at := Idle;
    }

    lemma Standing()
      requires Valid()
      ensures Apart() && at.Idle? && Initial(start) && State() == Run(start, trace) && Inv(State()) && Shape(State())
    {
      hide Initial, Inv, Run;
      RunInv(start, trace);
      FactsFromInv(State());
    }

    /** The steps taken since state `s` go on record. */
    ghost method Record(s: Tx, steps: seq<Step>)
      requires Apart() && at.Idle? && Initial(start) && s == Run(start, trace) && Shape(s) && State() == Run(s, steps)
      modifies this`trace
      ensures Valid() && trace == old(trace) + steps && State() == old(State())
    {
      hide Run;
      RunAppend(start, trace, steps);
      trace := trace + steps;
    }

    /** The device moves while no call is under way. */
    method Meanwhile(moves: seq<Step>)
      requires Valid() && DeviceMoves(moves)
      modifies Repr
      ensures Valid() && start == old(start) && trace == old(trace) + moves
    {
      hide Driver.Valid, Initial, Inv, Run, Apply;
      Standing();
      ghost var s := State();
      DeviceTurn(moves);
      Record(s, moves);
    }

    /** The rest of a send, once descriptor `d` has been found. */
    method SendOn(d: nat, data: seq<byte>, gaps: seq<seq<Step>>)
      requires Apart() && Shape(State()) && at.Idle? && |data| <= BUFFER_SIZE
      requires d == Search(inUse[..], nextDesc, QUEUE_SIZE) && !inUse[d]
      requires |gaps| == 4 && forall i :: 0 <= i < 4 ==> DeviceMoves(gaps[i])
      modifies table, availRing, usedRing, inUse, mem
      modifies this`availIdx, this`usedIdx, this`nextDesc, this`dev, this`hist, this`at, this`sent, this`seen
      ensures State() == Run(old(State()), SendSchedule(data, gaps)) && at.Idle?
      ensures hist.pubs == old(hist).pubs + [Publication(d, data)]
    {
      hide Search, Splice, Run, Apply, SendSchedule;
      ghost var s := State();
      Choose(d, data);
      DeviceTurn(gaps[0]);
      CopyPacket(d, data);
      DeviceTurn(gaps[1]);
      FillDescriptor(d, data);
      DeviceTurn(gaps[2]);
      QueueSlot(d, data);
      DeviceTurn(gaps[3]);
      Publish(d, data);
      ScheduleUnfolds(s, data, gaps);
    }

    /** The search finds the descriptor that the protocol's send takes. */
    lemma SendChoice(data: seq<byte>)
      requires Valid() && |data| <= BUFFER_SIZE && !inUse[..][Search(inUse[..], nextDesc, QUEUE_SIZE)]
      ensures FirstFrom(hist.live.Keys, OnePast(hist.pubs), Search(inUse[..], nextDesc, QUEUE_SIZE))
    {
      hide Initial, Run, Search, FirstFrom, OnePast;
      ChosenAtSend(start, trace, data);
    }

    /** `virt_mmio_net_send`, with the device moving in every gap. It refuses exactly an oversized
        packet or a table with all descriptors in use, and then leaves everything as it was. An accepted
        packet is published in the first descriptor, counted from one past that of the publication before,
        that is not published and unreaped. */
    method NetSend(data: seq<byte>, gaps: seq<seq<Step>>) returns (ok: bool)
      requires Valid()
      requires |gaps| == 4 && forall i :: 0 <= i < 4 ==> DeviceMoves(gaps[i])
      modifies Repr
      ensures ok <==> |data| <= BUFFER_SIZE && exists d :: 0 <= d < QUEUE_SIZE && !old(inUse[..])[d]
      ensures State() == if ok then Run(old(State()), SendSchedule(data, gaps)) else old(State())
      ensures var p, n := old(hist).pubs, |old(hist).pubs|;
              ok ==>
                && |hist.pubs| == n + 1 && hist.pubs[..n] == p && hist.pubs[n].data == data
                && FirstFrom(old(hist).live.Keys, if n == 0 then 0 else (p[n - 1].desc + 1) % QUEUE_SIZE,
                             hist.pubs[n].desc)
      ensures Valid() && start == old(start)
              && trace == if ok then old(trace) + SendSchedule(data, gaps) else old(trace)
    {
      hide Driver.Valid, Initial, Inv, RingInv, Search, Splice, Run, Apply, SendSchedule, FirstFrom;
      Standing();
      ghost var s := State();
      FactsFromInv(s);
      if |data| > BUFFER_SIZE {
        return false;
      }
      var d := FindFree();
      SearchFailsOnlyWhenFull(inUse[..], nextDesc);
      if inUse[d] {
        return false;
      }
      SendChoice(data);
      ok := true;
      SendOn(d, data, gaps);
      Record(s, SendSchedule(data, gaps));
    }

    /** One turn of the completion loop of `virt_mmio_net_tx`, with the device moving between the
        test and the read of the used element. It takes a completion exactly when one is unreaped, and then
        the oldest one. */
    method ReapOne(gap: seq<Step>) returns (took: bool)
      requires Valid() && DeviceMoves(gap)
      modifies Repr
      ensures took <==> |old(hist).reaps| < |old(hist).comps|
      ensures State() == if took then Run(old(State()), ReapSchedule(gap)) else old(State())
      ensures var h := old(hist);
              took ==> hist.pubs == h.pubs && |hist.reaps| == |h.reaps| + 1 && hist.reaps[..|h.reaps|] == h.reaps
                       && h.comps[|h.reaps|] < |h.pubs| && hist.reaps[|h.reaps|] == h.pubs[h.comps[|h.reaps|]].desc
      ensures Valid() && start == old(start) && trace == if took then old(trace) + ReapSchedule(gap) else old(trace)
    {
      hide Driver.Valid, Initial, Inv, RingInv, Run, Apply, ReapSchedule;
      Standing();
      ghost var s := State();
      FactsFromInv(s);
      IndexTestsAreExact(s.q);
      if lastUsed == usedIdx {
        return false;
      }
      took := true;
      SeeCompletion();
      DeviceTurn(gap);
      TakeCompletion();
      PollUnfolds(s, gap);
      Record(s, ReapSchedule(gap));
      Standing();
      ReapsFollowCompletions(start, trace);
    }

    ghost method SeeCompletion()
      requires Shape(State()) && at.Idle? && lastUsed != usedIdx
      modifies this`at
      ensures State() == Apply(old(State()), Step.Poll) && at == Completed
    {
      at := Completed;
    }

    method TakeCompletion()
      requires Apart() && Shape(State()) && at.Completed?
      modifies inUse, this`lastUsed, this`hist, this`at
      ensures State() == Apply(old(State()), Step.TakeUsed) && at == Idle
      ensures hist.pubs == old(hist).pubs && hist.comps == old(hist).comps && |hist.reaps| == |old(hist).reaps| + 1
              && old(hist).reaps <= hist.reaps
    {
      var id := usedRing[lastUsed % QUEUE_SIZE].id;
      if id < QUEUE_SIZE {
        inUse[id] := false;
      }
      lastUsed := (lastUsed + 1) % INDEX_MOD;
      hist := hist.(reaps := hist.reaps + [id], live := hist.live - {id});
      at := Idle;
    }
  }

  lemma RunInv(s: Tx, steps: seq<Step>)
    requires Initial(s)
    ensures Inv(Run(s, steps))
  {
    hide Inv, Run, Initial;
    InitialInv(s);
    RunKeepsInv(s, steps);
  }

  /** What is proved of all runs holds of every driver object that the code brings about: each device read
      yields the bytes of the send that it belongs to, the in-use table and the indices count what is
      under way, and the reaps follow the completions. */
  lemma EveryDriver(d: Driver, i: nat)
    requires d.Valid()
    ensures i < |d.seen| ==> d.seen[i].k < |d.sent| && d.seen[i].bytes == d.sent[d.seen[i].k]
    ensures Marked(d.inUse[..]) == d.hist.live.Keys && d.nextDesc < QUEUE_SIZE == |d.inUse[..]|
    ensures |Marked(d.inUse[..])| == (d.availIdx - d.lastUsed) % INDEX_MOD <= QUEUE_SIZE
    ensures d.inUse[..][Search(d.inUse[..], d.nextDesc, QUEUE_SIZE)] <==> |Marked(d.inUse[..])| == QUEUE_SIZE
    ensures forall c: nat {:trigger d.hist.live[c]} :: c in d.hist.live ==>
              && c < QUEUE_SIZE && d.hist.live[c] < |d.hist.pubs| && d.hist.pubs[d.hist.live[c]].desc == c
              && d.table[c] == Descriptor(d.base + c * BUFFER_SIZE, |d.hist.pubs[d.hist.live[c]].data|, 0)
    ensures d.lastUsed != d.usedIdx <==> |d.hist.reaps| < |d.hist.comps|
    ensures |d.hist.reaps| <= |d.hist.comps| && Distinct(d.hist.comps)
  {
    hide Initial, Run, Search, Marked;
    TxAccounting(d.start, d.trace);
    ReapsFollowCompletions(d.start, d.trace);
    forall c: nat | c in d.hist.live
      ensures c < QUEUE_SIZE && d.hist.live[c] < |d.hist.pubs| && d.hist.pubs[d.hist.live[c]].desc == c
      ensures d.table[c] == Descriptor(d.base + c * BUFFER_SIZE, |d.hist.pubs[d.hist.live[c]].data|, 0)
    {
      PublishedStands(d.start, d.trace, c);
    }
    if i < |d.seen| {
      DeviceReadsWhatWasSent(d.start, d.trace, i);
    }
  }

  lemma FactsFromInv(s: Tx)
    requires Inv(s)
    ensures Shape(s) && RingInv(s.q) && s.lastUsed == |s.q.hist.reaps| % INDEX_MOD
  {
    hide Shape, RingInv, BuffersKept, MarksExact, ProgressOk, SendsMatch;
  }

  lemma PollUnfolds(s: Tx, gap: seq<Step>)
    requires Shape(s)
    ensures Run(s, ReapSchedule(gap)) == Apply(Run(Apply(s, Poll), gap), TakeUsed)
  {
    hide Apply;
    assert Run(s, [Step.Poll]) == Apply(s, Poll) by {
      RunSnoc(s, [], Poll);
      assert [] + [Step.Poll] == [Step.Poll];
    }
    hide Run;
    RunAppend(s, [Step.Poll], gap);
    RunSnoc(s, [Step.Poll] + gap, TakeUsed);
  }

  lemma ScheduleUnfolds(s: Tx, data: seq<byte>, gaps: seq<seq<Step>>)
    requires Shape(s) && |gaps| == 4
    ensures Run(s, SendSchedule(data, gaps)) ==
            Apply(Run(Apply(Run(Apply(Run(Apply(Run(Apply(s, Step.Send(data)), gaps[0]), CopyBuffer),
              gaps[1]), WriteDescriptor), gaps[2]), WriteSlot), gaps[3]), BumpIndex)
  {
    hide Apply;
    var a := [Step.Send(data)];
    assert Run(s, a) == Apply(s, Step.Send(data)) by {
      RunSnoc(s, [], Step.Send(data));
      assert [] + a == a;
    }
    hide Run;
    RunAppend(s, a, gaps[0]);
    var b := a + gaps[0];
    RunSnoc(s, b, CopyBuffer);
    RunAppend(s, b + [CopyBuffer], gaps[1]);
    var c := b + [CopyBuffer] + gaps[1];
    RunSnoc(s, c, WriteDescriptor);
    RunAppend(s, c + [WriteDescriptor], gaps[2]);
    var d := c + [WriteDescriptor] + gaps[2];
    RunSnoc(s, d, WriteSlot);
    RunAppend(s, d + [WriteSlot], gaps[3]);
    RunSnoc(s, d + [WriteSlot] + gaps[3], BumpIndex);
  }
}

/**
 The receive half of the driver on arrays changed in place, with the device moves at each
 observable point given as arguments; proved to be that run of the protocol in RxQueue.
 */
module RxDriver {
  import opened Basics
  import opened Virtqueue
  import opened RxQueue
  import TxQueue

  predicate IsDeviceStep(step: Step) {
    step.DevConsume? || step.DevFill? || step.DevWriteUsed? || step.DevBumpUsed?
  }

  ghost predicate DeviceMoves(moves: seq<Step>) {
    forall i :: 0 <= i < |moves| ==> IsDeviceStep(moves[i])
  }

  lemma {:induction false} RunAppend(s: Rx, a: seq<Step>, b: seq<Step>)
    requires Shape(s)
    ensures Run(s, a + b) == Run(Run(s, a), b)
    decreases |a|
  {
    if a == [] {
      assert a + b == b;
    } else {
      assert (a + b)[1..] == a[1..] + b;
      RunAppend(Apply(s, a[0]), a[1..], b);
    }
  }

  lemma RunSnoc(s: Rx, a: seq<Step>, step: Step)
    requires Shape(s)
    ensures Run(s, a + [step]) == Apply(Run(s, a), step)
  {
    RunAppend(s, a, [step]);
    assert [step][1..] == [];
    assert Run(Apply(Run(s, a), step), []) == Apply(Run(s, a), step);
  }

  /** The steps of one completed poll with the device moving in each gap. */
  ghost function PollSchedule(gaps: seq<seq<Step>>): seq<Step>
    requires |gaps| == 4
  {
    [Poll] + gaps[0] + [ReadFrame] + gaps[1] + [WriteSlot] + gaps[2] + [BumpIndex] + gaps[3] + [BumpLast]
  }

  /** The part of it that publishes the descriptor again. */
  ghost function RecycleRun(s: Rx, gaps: seq<seq<Step>>): Rx
    requires Shape(s) && |gaps| == 4
  {
    Apply(Run(Apply(Run(Apply(Run(s, gaps[1]), WriteSlot), gaps[2]), BumpIndex), gaps[3]), BumpLast)
  }

  lemma ScheduleUnfolds(s: Rx, gaps: seq<seq<Step>>)
    requires Shape(s) && |gaps| == 4
    ensures Run(s, PollSchedule(gaps)) ==
            RecycleRun(Apply(Run(Apply(s, Poll), gaps[0]), ReadFrame), gaps)
  {
    hide Apply;
    assert Run(s, [Poll]) == Apply(s, Poll) by {
      RunSnoc(s, [], Poll);
      assert [] + [Poll] == [Poll];
    }
    hide Run;
    RunAppend(s, [Poll], gaps[0]);
    var b := [Poll] + gaps[0];
    RunSnoc(s, b, ReadFrame);
    RunAppend(s, b + [ReadFrame], gaps[1]);
    var c := b + [ReadFrame] + gaps[1];
    RunSnoc(s, c, WriteSlot);
    RunAppend(s, c + [WriteSlot], gaps[2]);
    var d := c + [WriteSlot] + gaps[2];
    RunSnoc(s, d, BumpIndex);
    RunAppend(s, d + [BumpIndex], gaps[3]);
    RunSnoc(s, d + [BumpIndex] + gaps[3], BumpLast);
  }

  lemma RunInv(s: Rx, steps: seq<Step>)
    requires Initial(s)
    ensures Inv(Run(s, steps))
  {
    hide Inv, Run, Initial;
    InitialInv(s);
    RunKeepsInv(s, steps);
  }

  lemma FactsFromInv(s: Rx)
    requires Inv(s)
    ensures Shape(s)
    ensures s.at.Waiting? ==> (s.lastUsed != s.q.ring.usedIdx <==> |s.q.hist.reaps| < |s.q.hist.comps|)
    ensures s.at.Noticed? ==> s.q.ring.usedRing[s.lastUsed % QUEUE_SIZE].id < QUEUE_SIZE
  {
    hide RingInv;
    IndexTestsAreExact(s.q);
    if s.at.Noticed? {
      ReadFrameKeepsInv(s);
    }
  }

  const DESC_F_WRITE: nat := 2

  class Driver {
    const base: nat
    const table: array<TxQueue.Descriptor>
    const availRing: array<nat>
    const usedRing: array<UsedElem>
    const mem: array<byte>
    var availIdx: nat
    var usedIdx: nat
    var lastUsed: nat
    // the environment: the device and the account of what has happened
    var dev: Device
    var hist: History
    ghost var at: Progress
    ghost var filled: seq<Received>
    ghost var frames: seq<Received>
    ghost var start: Rx             // the state after initialisation ...
    ghost var trace: seq<Step>      // ... and the steps of driver and device since

    ghost const Repr: set<object> := {this, availRing, usedRing, mem}

    /** The arrays are different objects, and the descriptor table, which nothing changes after
        initialisation, gives every descriptor its own device-writable buffer. */
    ghost predicate Apart()
      reads table
    {
      var a: object, u: object, m: object, t: object := availRing, usedRing, mem, table;
      && a != u && a != m && u != m && t !in Repr
      && table.Length == QUEUE_SIZE
      && forall i :: 0 <= i < QUEUE_SIZE ==>
           table[i] == TxQueue.Descriptor(base + i * BUFFER_SIZE, BUFFER_SIZE, DESC_F_WRITE)
    }

    ghost function State(): Rx
      reads Repr
    {
      Rx(Queue(Ring(availIdx, availRing[..], usedIdx, usedRing[..]), dev, hist), mem[..], lastUsed, at, filled, frames)
    }

    /** Between two calls: the queue is where the recorded run of the protocol has brought it. */
    ghost predicate Valid()
      reads Repr, table
    {
      Apart() && at.Waiting? && Initial(start) && State() == Run(start, trace)
    }

    /** The queue as the initialisation routine leaves it: the descriptors, the fill loop and the index. */
    constructor (base: nat)
      ensures Valid() && fresh(Repr) && fresh(table) && start == State() && trace == [] && this.base == base
    {
      hide AllPublished, Interval;
      this.base := base;
      table := new TxQueue.Descriptor[QUEUE_SIZE](_ => TxQueue.Descriptor(0, 0, 0));
      availRing := new nat[QUEUE_SIZE](_ => 0);
      usedRing := new UsedElem[QUEUE_SIZE](_ => UsedElem(0, 0));
      mem := new byte[QUEUE_SIZE * BUFFER_SIZE](_ => 0);
      usedIdx, lastUsed := 0, 0;
      dev, hist := Device(0, map[], None), History([], 0, [], [], map[]);
      at, filled, frames := Waiting, [], [];
      new;
      FillTable();
      PublishAll();
      start, trace := State(), [];
    }

    /** The descriptor loop: one buffer each, written by the device. */
    method FillTable()
      requires table.Length == QUEUE_SIZE
      modifies table
      ensures forall i :: 0 <= i < QUEUE_SIZE ==>
                table[i] == TxQueue.Descriptor(base + i * BUFFER_SIZE, BUFFER_SIZE, DESC_F_WRITE)
    {
      for i := 0 to QUEUE_SIZE
        invariant forall j :: 0 <= j < i ==>
                    table[j] == TxQueue.Descriptor(base + j * BUFFER_SIZE, BUFFER_SIZE, DESC_F_WRITE)
      {
        table[i] := TxQueue.Descriptor(base + i * BUFFER_SIZE, BUFFER_SIZE, DESC_F_WRITE);
      }
    }

    /** The loop that publishes every descriptor, and the index. */
    method PublishAll()
      requires availRing.Length == QUEUE_SIZE && hist == History([], 0, [], [], map[])
      modifies availRing, this`hist, this`availIdx
      ensures AllPublished(hist) && availIdx == QUEUE_SIZE
      ensures forall i :: 0 <= i < QUEUE_SIZE ==> availRing[i] == i
    {
      for i := 0 to QUEUE_SIZE
        invariant forall j :: 0 <= j < i ==> availRing[j] == j
        invariant |hist.pubs| == i && hist.consumed == 0 && hist.comps == [] && hist.reaps == []
        invariant forall j :: 0 <= j < i ==> hist.pubs[j] == Publication(j, [])
        invariant forall d: nat :: d in hist.live <==> d < i
        invariant forall d :: d in hist.live ==> hist.live[d] == d
      {
        availRing[i] := i;
        hist := hist.(pubs := hist.pubs + [Publication(i, [])], live := hist.live[i := i]);
      }
      availIdx := QUEUE_SIZE;
    }

    method DeviceStep(step: Step)
      requires Apart() && Shape(State()) && IsDeviceStep(step)
      modifies usedRing, mem, this`usedIdx, this`dev, this`hist, this`filled
      ensures State() == Apply(old(State()), step)
      ensures old(filled) <= filled && hist.pubs == old(hist).pubs && hist.reaps == old(hist).reaps
    {
      hide Buffer, TxQueue.Splice;
      match step
      case DevConsume =>
        if dev.lastAvail != availIdx {
          var d := availRing[dev.lastAvail % QUEUE_SIZE];
          dev := dev.(lastAvail := (dev.lastAvail + 1) % INDEX_MOD, held := dev.held[hist.consumed := d]);
          hist := hist.(consumed := hist.consumed + 1);
        }
      case DevFill(k, bytes) =>
        if k in dev.held && dev.held[k] < QUEUE_SIZE && |bytes| <= BUFFER_SIZE {
          Fill(table[dev.held[k]].addr - base, bytes);
        }
      case DevWriteUsed(k, len) =>
        if dev.writing.None? && k in dev.held {
          usedRing[usedIdx % QUEUE_SIZE] := UsedElem(dev.held[k], len);
          dev := dev.(writing := Some(k));
        }
      case DevBumpUsed =>
        if dev.writing.Some? && dev.writing.value in dev.held && dev.held[dev.writing.value] < QUEUE_SIZE {
          var k := dev.writing.value;
          filled := filled + [Received(Buffer(mem[..], dev.held[k]), usedRing[usedIdx % QUEUE_SIZE].len)];
          usedIdx := (usedIdx + 1) % INDEX_MOD;
          dev := dev.(held := dev.held - {k}, writing := None);
          hist := hist.(comps := hist.comps + [k]);
        }
    }

    method Fill(from: nat, bytes: seq<byte>)
      requires from + |bytes| <= mem.Length
      modifies mem
      ensures mem[..] == TxQueue.Splice(old(mem[..]), from, bytes)
    {
      for i := 0 to |bytes|
        invariant mem[..] == TxQueue.Splice(old(mem[..]), from, bytes[..i])
      {
        mem[from + i] := bytes[i];
        assert bytes[..i + 1] == bytes[..i] + [bytes[i]];
      }
      assert bytes[..|bytes|] == bytes;
    }

    method DeviceTurn(moves: seq<Step>)
      requires Apart() && Shape(State()) && DeviceMoves(moves)
      modifies usedRing, mem, this`usedIdx, this`dev, this`hist, this`filled
      ensures State() == Run(old(State()), moves)
      ensures old(filled) <= filled && hist.pubs == old(hist).pubs && hist.reaps == old(hist).reaps
    {
      hide Apply;
      assert moves[..0] == [];
      for i := 0 to |moves|
        invariant Shape(State()) && State() == Run(old(State()), moves[..i])
        invariant old(filled) <= filled && hist.pubs == old(hist).pubs && hist.reaps == old(hist).reaps
      {
        RunSnoc(old(State()), moves[..i], moves[i]);
        assert moves[..i + 1] == moves[..i] + [moves[i]];
        DeviceStep(moves[i]);
      }
      assert moves[..|moves|] == moves;
    }

    ghost method Notice()
      requires Shape(State()) && at.Waiting? && lastUsed != usedIdx
      modifies this`at
      ensures State() == Apply(old(State()), Poll) && at == Noticed
    {
      at := Noticed;
    }

    /** Reads the used element and the frame; the length is cut to the caller's buffer. */
    method Take(length: nat) returns (d: nat, len: nat)
      requires Apart() && Shape(State()) && at.Noticed? && usedRing[lastUsed % QUEUE_SIZE].id < QUEUE_SIZE
      modifies this`at, this`frames
      ensures State() == Apply(old(State()), ReadFrame) && at == Holding(d)
      ensures |frames| == |old(frames)| + 1 && old(frames) <= frames
      ensures var reported := frames[|old(frames)|].len;
              len <= length && len <= reported && (len == length || len == reported)
    {
      var used := usedRing[lastUsed % QUEUE_SIZE];
      d, len := used.id, used.len;
      if len > length {
        len := length;
      }
      ghost var from := table[d].addr - base;
      at, frames := Holding(d), frames + [Received(mem[from..from + BUFFER_SIZE], used.len)];
    }

    method QueueSlot(d: nat)
      requires Apart() && Shape(State()) && at == Holding(d)
      modifies availRing, this`at
      ensures State() == Apply(old(State()), WriteSlot) && at == Slotted(d)
    {
      availRing[availIdx % QUEUE_SIZE] := d;
      at := Slotted(d);
    }

    method Republish(d: nat)
      requires Apart() && Shape(State()) && at == Slotted(d)
      modifies this`availIdx, this`hist, this`at
      ensures State() == Apply(old(State()), BumpIndex) && at == Recycled
      ensures hist.reaps == old(hist).reaps + [d] && hist.pubs == old(hist).pubs + [Publication(d, [])]
    {
      availIdx := (availIdx + 1) % INDEX_MOD;
      hist := hist.(reaps := hist.reaps + [d], live := (hist.live - {d})[d := |hist.pubs|],
                    pubs := hist.pubs + [Publication(d, [])]);
      at := Recycled;
    }

    method Advance()
      requires Shape(State()) && at.Recycled?
      modifies this`lastUsed, this`at
      ensures State() == Apply(old(State()), BumpLast) && at == Waiting
    {
      lastUsed := (lastUsed + 1) % INDEX_MOD;
      at := Waiting;
    }

    lemma Standing()
      requires Valid()
      ensures Apart() && at.Waiting? && Initial(start) && State() == Run(start, trace) && Inv(State()) && Shape(State())
    {
      hide Initial, Inv, Run;
      RunInv(start, trace);
      FactsFromInv(State());
    }

    /** The steps taken since state `s` go on record. */
    ghost method Record(s: Rx, steps: seq<Step>)
      requires Apart() && at.Waiting? && Initial(start) && s == Run(start, trace) && Shape(s)
               && State() == Run(s, steps)
      modifies this`trace
      ensures Valid() && trace == old(trace) + steps && State() == old(State())
    {
      hide Run;
      RunAppend(start, trace, steps);
      trace := trace + steps;
    }

    /** The device moves while no call is under way. */
    method Meanwhile(moves: seq<Step>)
      requires Valid() && DeviceMoves(moves)
      modifies Repr
      ensures Valid() && start == old(start) && trace == old(trace) + moves
    {
      hide Driver.Valid, Initial, Inv, Run, Apply;
      Standing();
      ghost var s := State();
      DeviceTurn(moves);
      Record(s, moves);
    }

    /** The rest of a turn, once frame and descriptor have been read: descriptor `d` is published again. */
    method Recycle(d: nat, gaps: seq<seq<Step>>)
      requires Apart() && Shape(State()) && at == Holding(d)
      requires |gaps| == 4 && forall i :: 0 <= i < 4 ==> DeviceMoves(gaps[i])
      modifies availRing, usedRing, mem
      modifies this`availIdx, this`usedIdx, this`lastUsed, this`dev, this`hist, this`at, this`filled
      ensures State() == RecycleRun(old(State()), gaps) && at.Waiting? && old(filled) <= filled
      ensures hist.reaps == old(hist).reaps + [d] && hist.pubs == old(hist).pubs + [Publication(d, [])]
    {
      hide Run, Apply;
      DeviceTurn(gaps[1]);
      QueueSlot(d);
      DeviceTurn(gaps[2]);
      Republish(d);
      DeviceTurn(gaps[3]);
      Advance();
    }

    /** The turn with a completion to take. */
    method TakeTurn(length: nat, gaps: seq<seq<Step>>) returns (d: nat, len: nat)
      requires Apart() && Inv(State()) && at.Waiting? && lastUsed != usedIdx
      requires |gaps| == 4 && forall i :: 0 <= i < 4 ==> DeviceMoves(gaps[i])
      modifies availRing, usedRing, mem
      modifies this`availIdx, this`usedIdx, this`lastUsed, this`dev, this`hist, this`at, this`filled, this`frames
      ensures State() == Run(old(State()), PollSchedule(gaps)) && at.Waiting? && old(filled) <= filled
      ensures hist.reaps == old(hist).reaps + [d] && hist.pubs == old(hist).pubs + [Publication(d, [])]
      ensures |frames| == |old(frames)| + 1 && old(frames) <= frames
      ensures var reported := frames[|old(frames)|].len;
              len <= length && len <= reported && (len == length || len == reported)
    {
      hide Inv, Run, Apply, PollSchedule;
      ghost var s := State();
      FactsFromInv(s);
      Notice();
      DeviceTurn(gaps[0]);
      StepKeepsInv(s, Poll);
      RunKeepsInv(Apply(s, Poll), gaps[0]);
      FactsFromInv(State());
      d, len := Take(length);
      Recycle(d, gaps);
      ScheduleUnfolds(s, gaps);
    }

    /** One turn of the loop of `virt_mmio_net_poll_rx`; the device may move at every point in between. It
        takes a completion exactly when one is unreaped: the frame is the next one received, its length
        is the one that the device reported, cut to the caller's, and its descriptor is published again. */
    method PollRx(length: nat, gaps: seq<seq<Step>>) returns (took: bool, len: nat)
      requires Valid()
      requires |gaps| == 4 && forall i :: 0 <= i < 4 ==> DeviceMoves(gaps[i])
      modifies Repr
      ensures took <==> |old(hist).reaps| < |old(hist).comps|
      ensures State() == if took then Run(old(State()), PollSchedule(gaps)) else old(State())
      ensures took ==> |old(frames)| < |old(filled)| && frames == old(frames) + [old(filled)[|old(frames)|]]
      ensures took ==>
                var reported := frames[|old(frames)|].len;
                len <= length && len <= reported && (len == length || len == reported)
      ensures took ==>
                |hist.reaps| == |old(hist).reaps| + 1 && hist.reaps[..|old(hist).reaps|] == old(hist).reaps
                && hist.pubs == old(hist).pubs + [Publication(hist.reaps[|old(hist).reaps|], [])]
      ensures Valid() && start == old(start) && trace == if took then old(trace) + PollSchedule(gaps) else old(trace)
    {
      hide Driver.Valid, Initial, Inv, Run, Apply, PollSchedule;
      Standing();
      ghost var s := State();
      FactsFromInv(s);
      if lastUsed == usedIdx {
        return false, 0;
      }
      took := true;
      DriverReadsWhatWasReceived(start, trace);
      ghost var before, j := filled, |frames|;
      ghost var d;
      d, len := TakeTurn(length, gaps);
      Record(s, PollSchedule(gaps));
      Standing();
      DriverReadsWhatWasReceived(start, trace);
      assert frames[j] == filled[j] == before[j];
    }
  }

  /** What is proved of all runs holds of every driver object that the code brings about: the frames read
      are those received, in order, and the descriptors are split between published, held and
      completed. */
  lemma EveryDriver(d: Driver)
    requires d.Valid()
    ensures d.frames <= d.filled && |d.frames| == |d.hist.reaps| && |d.filled| == |d.hist.comps|
    ensures d.lastUsed != d.usedIdx <==> |d.frames| < |d.filled|
    ensures |d.hist.reaps| <= |d.hist.comps| && d.hist.consumed <= |d.hist.pubs|
    ensures (|d.hist.pubs| - d.hist.consumed) + |d.dev.held| + (|d.hist.comps| - |d.hist.reaps|) == QUEUE_SIZE
    ensures forall c: nat :: c < QUEUE_SIZE ==>
              && c in d.hist.live && d.hist.live[c] < |d.hist.pubs| && d.hist.pubs[d.hist.live[c]].desc == c
              && InOnePlace(d.State().q, d.hist.live[c])
  {
    hide Initial, Run, InOnePlace;
    RxConservation(d.start, d.trace);
    DriverReadsWhatWasReceived(d.start, d.trace);
    IndexTest(d.start, d.trace);
  }

  lemma IndexTest(s: Rx, steps: seq<Step>)
    requires Initial(s) && Run(s, steps).at.Waiting?
    ensures var r := Run(s, steps); r.lastUsed != r.q.ring.usedIdx <==> |r.q.hist.reaps| < |r.q.hist.comps|
  {
    hide Inv, Run;
    RunInv(s, steps);
    FactsFromInv(Run(s, steps));
  }
}

/**
 The split virtqueue shared by the driver and a device that conforms to sections 2.7.6,
 2.7.8, 2.7.13 and 2.7.14 of VIRTIO 1.2.

 `Ring` is what both sides can see. `Device` is the device's private state: its own 16-bit
 position in the available ring and the chains it holds. `History` numbers publications and
 completions without bound; no step reads it to decide what to do. The invariant says that the
 16-bit fields are residues of the history and that the ring slots still to be read are intact.
 */
module Virtqueue {
  import opened Basics

  const QUEUE_SIZE: nat := 256
  const BUFFER_SIZE: nat := 2048
  const INDEX_MOD: nat := 0x1_0000

  datatype Publication = Publication(desc: nat, data: seq<byte>)
  datatype UsedElem = UsedElem(id: nat, len: nat)

  datatype Ring = Ring(availIdx: nat, availRing: seq<nat>, usedIdx: nat, usedRing: seq<UsedElem>)

  /** `held` maps the number of each consumed, uncompleted publication to the descriptor the
      device read for it; `writing` is the publication whose used element is written while the
      used index is not yet advanced. */
  datatype Device = Device(lastAvail: nat, held: map<nat, nat>, writing: Option<nat>)

  /** `pubs` are all publications in order, `comps` the publication numbers in completion order,
      `reaps` the descriptor the driver saw at each reap, and `live` the publication number of
      each descriptor that is published and not yet reaped. */
  datatype History = History(pubs: seq<Publication>, consumed: nat, comps: seq<nat>,
                             reaps: seq<nat>, live: map<nat, nat>)

  datatype Queue = Queue(ring: Ring, dev: Device, hist: History)

  // ---------- the invariant ----------

  /** Publication `k` is the one its descriptor stands for: published and not yet reaped. */
  ghost predicate Live(h: History, k: nat) {
    k < |h.pubs| && h.pubs[k].desc in h.live && h.live[h.pubs[k].desc] == k
  }

  ghost predicate Held(q: Queue, k: nat) {
    k in q.dev.held && k < q.hist.consumed && Live(q.hist, k) && q.dev.held[k] == q.hist.pubs[k].desc
  }

  /** The device will read publication `k` from its available slot. */
  ghost predicate AvailIntact(q: Queue, k: nat) {
    && k < |q.hist.pubs| && k % QUEUE_SIZE < |q.ring.availRing|
    && q.ring.availRing[k % QUEUE_SIZE] == q.hist.pubs[k].desc
  }

  /** The driver will read completion `j` from its used slot. */
  ghost predicate UsedIntact(q: Queue, j: nat) {
    && j < |q.hist.comps| && q.hist.comps[j] < |q.hist.pubs| && j % QUEUE_SIZE < |q.ring.usedRing|
    && q.ring.usedRing[j % QUEUE_SIZE].id == q.hist.pubs[q.hist.comps[j]].desc
  }

  ghost predicate Counted(q: Queue) {
    && |q.hist.reaps| <= |q.hist.comps|
    && |q.hist.comps| + |q.dev.held| == q.hist.consumed <= |q.hist.pubs|
    && |q.hist.live| == |q.hist.pubs| - |q.hist.reaps|
  }

  /** Every unreaped publication has its descriptor to itself, and the device's holdings and the
      completions are the consumed publications, each once. */
  ghost predicate Owned(q: Queue) {
    var h := q.hist;
    && (forall d {:trigger d in h.live} :: d in h.live ==>
          d < QUEUE_SIZE && h.live[d] < |h.pubs| && h.pubs[h.live[d]].desc == d)
    && (forall k {:trigger Live(h, k)} :: h.consumed <= k < |h.pubs| ==> Live(h, k))
    && (forall k {:trigger k in q.dev.held} :: k in q.dev.held ==> Held(q, k))
    && (forall j {:trigger h.comps[j]} :: |h.reaps| <= j < |h.comps| ==> Live(h, h.comps[j]))
    && (forall j {:trigger h.comps[j]} :: 0 <= j < |h.comps| ==> h.comps[j] < h.consumed && h.comps[j] !in q.dev.held)
    && Distinct(h.comps)
  }

  /** The 16-bit fields are residues of the history, and no slot still to be read has been lost. */
  ghost predicate Intact(q: Queue) {
    var h, r := q.hist, q.ring;
    && |r.availRing| == QUEUE_SIZE == |r.usedRing|
    && r.availIdx == |h.pubs| % INDEX_MOD
    && r.usedIdx == |h.comps| % INDEX_MOD
    && q.dev.lastAvail == h.consumed % INDEX_MOD
    && (forall k {:trigger AvailIntact(q, k)} :: h.consumed <= k < |h.pubs| ==> AvailIntact(q, k))
    && (forall j {:trigger UsedIntact(q, j)} :: |h.reaps| <= j < |h.comps| ==> UsedIntact(q, j))
    && (q.dev.writing.Some? ==>
          var k := q.dev.writing.value;
          k in q.dev.held && r.usedRing[|h.comps| % QUEUE_SIZE].id == q.dev.held[k])
  }

  /** The j-th reap handled the j-th completion. */
  ghost predicate ReapsMatch(h: History) {
    && |h.reaps| <= |h.comps|
    && forall j {:trigger h.reaps[j]} :: 0 <= j < |h.reaps| ==>
         h.comps[j] < |h.pubs| && h.reaps[j] == h.pubs[h.comps[j]].desc
  }

  ghost predicate RingInv(q: Queue) {
    Counted(q) && Owned(q) && Intact(q) && ReapsMatch(q.hist)
  }

  /** No more than QUEUE_SIZE publications are ever unreaped. */
  lemma InFlightBound(q: Queue)
    requires Counted(q) && Owned(q)
    ensures |q.hist.pubs| - |q.hist.reaps| <= QUEUE_SIZE
  {
    BoundedSetSize(q.hist.live.Keys, QUEUE_SIZE);
  }

  lemma CloseResidues(a: nat, b: nat)
    requires a <= b <= a + QUEUE_SIZE
    ensures a % INDEX_MOD != b % INDEX_MOD <==> a < b
    ensures a < b < a + QUEUE_SIZE ==> a % QUEUE_SIZE != b % QUEUE_SIZE
  {
  }

  lemma SlotOfIndex(a: nat)
    ensures (a % INDEX_MOD) % QUEUE_SIZE == a % QUEUE_SIZE
    ensures (a % INDEX_MOD + 1) % INDEX_MOD == (a + 1) % INDEX_MOD
  {
    var q, r := a / INDEX_MOD, a % INDEX_MOD;
    Div256(a, 256 * q + r / 256, r % 256);
    if r + 1 < INDEX_MOD {
      Div65536(a + 1, q, r + 1);
    } else {
      Div65536(a + 1, q + 1, 0);
    }
  }

  /** Both 16-bit tests are exact for runs of any length: the device's for new entries and the
      driver's for unreaped completions. */
  lemma IndexTestsAreExact(q: Queue)
    requires RingInv(q)
    ensures |q.hist.pubs| - |q.hist.reaps| <= QUEUE_SIZE
    ensures q.dev.lastAvail != q.ring.availIdx <==> q.hist.consumed < |q.hist.pubs|
    ensures |q.hist.reaps| % INDEX_MOD != q.ring.usedIdx <==> |q.hist.reaps| < |q.hist.comps|
  {
    InFlightBound(q);
    CloseResidues(q.hist.consumed, |q.hist.pubs|);
    CloseResidues(|q.hist.reaps|, |q.hist.comps|);
  }

  lemma HoldingsAreLive(q: Queue, k: nat)
    requires RingInv(q) && k in q.dev.held
    ensures Held(q, k)
  {
  }

  // ---------- driver steps on the ring ----------

  /** `avail.ring[avail.idx % size] = d` */
  function WriteAvailSlot(q: Queue, d: nat): Queue
    requires |q.ring.availRing| == QUEUE_SIZE
  {
    q.(ring := q.ring.(availRing := q.ring.availRing[q.ring.availIdx % QUEUE_SIZE := d]))
  }

  /** `avail.idx++` */
  function BumpAvail(q: Queue, p: Publication): Queue {
    q.(ring := q.ring.(availIdx := (q.ring.availIdx + 1) % INDEX_MOD),
       hist := q.hist.(pubs := q.hist.pubs + [p], live := q.hist.live[p.desc := |q.hist.pubs|]))
  }

  /** The driver takes the next completion, in which it read descriptor `d`. */
  function Reap(q: Queue, d: nat): Queue {
    q.(hist := q.hist.(reaps := q.hist.reaps + [d], live := q.hist.live - {d}))
  }

  /** Writing the next available slot overwrites no entry that the device still has to read. */
  lemma WriteAvailSlotKeepsInv(q: Queue, d: nat)
    requires RingInv(q)
    requires |q.hist.pubs| - q.hist.consumed < QUEUE_SIZE
    ensures RingInv(WriteAvailSlot(q, d))
    ensures WriteAvailSlot(q, d).ring.availRing[|q.hist.pubs| % QUEUE_SIZE] == d
  {
    var h, q' := q.hist, WriteAvailSlot(q, d);
    SlotOfIndex(|h.pubs|);
    forall k: nat | h.consumed <= k < |h.pubs| ensures AvailIntact(q', k) {
      assert AvailIntact(q, k);
      CloseResidues(k, |h.pubs|);
    }
    forall j: nat | |h.reaps| <= j < |h.comps| ensures UsedIntact(q', j) {
      assert UsedIntact(q, j);
    }
    assert Owned(q') by { HeldCarries(q, q'); }
  }

  /** What the device holds is untouched by a step that changes neither it nor the history. */
  lemma HeldCarries(q: Queue, q': Queue)
    requires Owned(q)
    requires q'.hist == q.hist && q'.dev.held == q.dev.held
    ensures Owned(q')
  {
    forall k | k in q'.dev.held ensures Held(q', k) {
      assert Held(q, k);
    }
  }

  lemma BumpAvailKeepsInv(q: Queue, p: Publication)
    requires RingInv(q)
    requires p.desc < QUEUE_SIZE && p.desc !in q.hist.live
    requires q.ring.availRing[|q.hist.pubs| % QUEUE_SIZE] == p.desc
    ensures RingInv(BumpAvail(q, p))
  {
    MapAddSize(q.hist.live, p.desc, |q.hist.pubs|);
    BumpAvailOwned(q, p);
    BumpAvailIntact(q, p);
  }

  lemma BumpAvailIntact(q: Queue, p: Publication)
    requires Intact(q) && q.hist.consumed <= |q.hist.pubs|
    requires q.ring.availRing[|q.hist.pubs| % QUEUE_SIZE] == p.desc
    ensures Intact(BumpAvail(q, p))
  {
    var h, q' := q.hist, BumpAvail(q, p);
    SlotOfIndex(|h.pubs|);
    forall k: nat | h.consumed <= k < |q'.hist.pubs| ensures AvailIntact(q', k) {
      assert k < |h.pubs| ==> AvailIntact(q, k);
    }
    forall j: nat | |h.reaps| <= j < |h.comps| ensures UsedIntact(q', j) {
      assert UsedIntact(q, j);
    }
  }

  lemma BumpAvailOwned(q: Queue, p: Publication)
    requires Counted(q) && Owned(q)
    requires p.desc < QUEUE_SIZE && p.desc !in q.hist.live
    ensures Owned(BumpAvail(q, p))
  {
    var h, q' := q.hist, BumpAvail(q, p);
    var h' := q'.hist;
    forall k: nat | Live(h, k) ensures Live(h', k) {
    }
    forall k: nat | h.consumed <= k < |h'.pubs| ensures Live(h', k) {
      assert k < |h.pubs| ==> Live(h, k);
    }
    forall k | k in q'.dev.held ensures Held(q', k) {
      assert Held(q, k);
    }
  }

  /** The used element at the driver's position names the oldest unreaped completion. */
  lemma NextCompletion(q: Queue)
    requires RingInv(q)
    requires |q.hist.reaps| < |q.hist.comps|
    ensures var k := q.hist.comps[|q.hist.reaps|];
            var d := q.ring.usedRing[|q.hist.reaps| % QUEUE_SIZE].id;
            Live(q.hist, k) && d == q.hist.pubs[k].desc && d < QUEUE_SIZE
  {
    assert UsedIntact(q, |q.hist.reaps|);
  }

  lemma ReapKeepsInv(q: Queue, d: nat)
    requires RingInv(q)
    requires |q.hist.reaps| < |q.hist.comps|
    requires d == q.ring.usedRing[|q.hist.reaps| % QUEUE_SIZE].id
    ensures RingInv(Reap(q, d))
  {
    var h, q' := q.hist, Reap(q, d);
    NextCompletion(q);
    MapRemoveSize(h.live, d);
    assert Owned(q') by { ReapOwned(q, d); }
    forall k: nat | h.consumed <= k < |h.pubs| ensures AvailIntact(q', k) {
      assert AvailIntact(q, k);
    }
    forall j: nat | |q'.hist.reaps| <= j < |h.comps| ensures UsedIntact(q', j) {
      assert UsedIntact(q, j);
    }
  }

  lemma ReapOwned(q: Queue, d: nat)
    requires Counted(q) && Owned(q)
    requires |q.hist.reaps| < |q.hist.comps|
    requires Live(q.hist, q.hist.comps[|q.hist.reaps|])
    requires d == q.hist.pubs[q.hist.comps[|q.hist.reaps|]].desc
    ensures Owned(Reap(q, d))
  {
    var h, q' := q.hist, Reap(q, d);
    var h', k0 := q'.hist, h.comps[|h.reaps|];
    forall k: nat | Live(h, k) && k != k0 ensures Live(h', k) {
    }
    forall k: nat | h.consumed <= k < |h'.pubs| ensures Live(h', k) {
      assert Live(h, k);
    }
    forall k | k in q'.dev.held ensures Held(q', k) {
      assert Held(q, k);
    }
    forall j | |h'.reaps| <= j < |h'.comps| ensures Live(h', h'.comps[j]) {
      assert Live(h, h.comps[j]);
    }
  }

  // ---------- device steps on the ring ----------

  /** The device sees a new entry and takes it. A disabled step changes nothing. */
  function Consume(q: Queue): Queue
    requires |q.ring.availRing| == QUEUE_SIZE
  {
    if q.dev.lastAvail != q.ring.availIdx then
      var d := q.ring.availRing[q.dev.lastAvail % QUEUE_SIZE];
      q.(dev := q.dev.(lastAvail := (q.dev.lastAvail + 1) % INDEX_MOD,
                       held := q.dev.held[q.hist.consumed := d]),
         hist := q.hist.(consumed := q.hist.consumed + 1))
    else q
  }

  /** The device returns any chain it holds, in any order: first the element ... */
  function WriteUsed(q: Queue, k: nat, len: nat): Queue
    requires |q.ring.usedRing| == QUEUE_SIZE
  {
    if q.dev.writing.None? && k in q.dev.held then
      q.(ring := q.ring.(usedRing := q.ring.usedRing[q.ring.usedIdx % QUEUE_SIZE := UsedElem(q.dev.held[k], len)]),
         dev := q.dev.(writing := Some(k)))
    else q
  }

  /** ... then the index. */
  function BumpUsed(q: Queue): Queue {
    if q.dev.writing.Some? then
      var k := q.dev.writing.value;
      q.(ring := q.ring.(usedIdx := (q.ring.usedIdx + 1) % INDEX_MOD),
         dev := q.dev.(held := q.dev.held - {k}, writing := None),
         hist := q.hist.(comps := q.hist.comps + [k]))
    else q
  }

  lemma ConsumeKeepsInv(q: Queue)
    requires RingInv(q)
    ensures RingInv(Consume(q))
  {
    IndexTestsAreExact(q);
    if q.dev.lastAvail != q.ring.availIdx {
      assert q.hist.consumed !in q.dev.held;
      ConsumeIntact(q);
      ConsumeOwned(q, Consume(q));
    }
  }

  /** A conforming device reads the descriptor that was published. */
  lemma ConsumeIntact(q: Queue)
    requires Intact(q)
    requires q.hist.consumed < |q.hist.pubs| && q.dev.lastAvail != q.ring.availIdx
    requires q.hist.consumed !in q.dev.held
    ensures Intact(Consume(q))
    ensures Consume(q).dev.held == q.dev.held[q.hist.consumed := q.hist.pubs[q.hist.consumed].desc]
  {
    var h, q' := q.hist, Consume(q);
    SlotOfIndex(h.consumed);
    assert AvailIntact(q, h.consumed);
    forall k: nat | q'.hist.consumed <= k < |h.pubs| ensures AvailIntact(q', k) {
      assert AvailIntact(q, k);
    }
    forall j: nat | |h.reaps| <= j < |h.comps| ensures UsedIntact(q', j) {
      assert UsedIntact(q, j);
    }
  }

  lemma ConsumeOwned(q: Queue, q': Queue)
    requires Counted(q) && Owned(q)
    requires q.hist.consumed < |q.hist.pubs|
    requires q'.hist == q.hist.(consumed := q.hist.consumed + 1)
    requires q'.dev.held == q.dev.held[q.hist.consumed := q.hist.pubs[q.hist.consumed].desc]
    ensures Counted(q') && Owned(q')
  {
    var h, h' := q.hist, q'.hist;
    assert h.consumed !in q.dev.held;
    MapAddSize(q.dev.held, h.consumed, h.pubs[h.consumed].desc);
    forall k: nat ensures Live(h', k) <==> Live(h, k) {
    }
    assert Live(h, h.consumed);
    forall k | k in q'.dev.held ensures Held(q', k) {
      assert k != h.consumed ==> Held(q, k);
    }
  }

  lemma WriteUsedKeepsInv(q: Queue, k: nat, len: nat)
    requires RingInv(q)
    ensures RingInv(WriteUsed(q, k, len))
  {
    if q.dev.writing.None? && k in q.dev.held {
      var h, q' := q.hist, WriteUsed(q, k, len);
      IndexTestsAreExact(q);
      SlotOfIndex(|h.comps|);
      assert |q.dev.held| > 0;
      assert Owned(q') by { HeldCarries(q, q'); }
      forall i: nat | h.consumed <= i < |h.pubs| ensures AvailIntact(q', i) {
        assert AvailIntact(q, i);
      }
      forall j: nat | |h.reaps| <= j < |h.comps| ensures UsedIntact(q', j) {
        assert UsedIntact(q, j);
        CloseResidues(j, |h.comps|);
      }
    }
  }

  lemma BumpUsedKeepsInv(q: Queue)
    requires RingInv(q)
    ensures RingInv(BumpUsed(q))
  {
    if q.dev.writing.Some? {
      assert Held(q, q.dev.writing.value);
      BumpUsedOwned(q, BumpUsed(q), q.dev.writing.value);
      BumpUsedIntact(q);
    }
  }

  lemma BumpUsedIntact(q: Queue)
    requires Intact(q) && q.dev.writing.Some? && Held(q, q.dev.writing.value)
    ensures Intact(BumpUsed(q))
  {
    var h, q' := q.hist, BumpUsed(q);
    SlotOfIndex(|h.comps|);
    forall i: nat | h.consumed <= i < |h.pubs| ensures AvailIntact(q', i) {
      assert AvailIntact(q, i);
    }
    forall j: nat | |h.reaps| <= j < |q'.hist.comps| ensures UsedIntact(q', j) {
      assert j < |h.comps| ==> UsedIntact(q, j);
    }
  }

  lemma BumpUsedOwned(q: Queue, q': Queue, k: nat)
    requires Counted(q) && Owned(q)
    requires k in q.dev.held
    requires q'.hist == q.hist.(comps := q.hist.comps + [k]) && q'.dev.held == q.dev.held - {k}
    ensures Counted(q') && Owned(q')
  {
    var h, h' := q.hist, q'.hist;
    MapRemoveSize(q.dev.held, k);
    assert Held(q, k);
    forall i: nat ensures Live(h', i) <==> Live(h, i) {
    }
    forall i | i in q'.dev.held ensures Held(q', i) {
      assert Held(q, i);
    }
    forall j | |h'.reaps| <= j < |h'.comps| ensures Live(h', h'.comps[j]) {
      assert j < |h.comps| ==> Live(h, h.comps[j]);
    }
  }
}

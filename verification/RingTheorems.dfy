/** One pusher and one popper on a command ring behave as a bounded FIFO queue. */
module RingTheorems {
  import opened Words
  import opened CommandRing

  datatype RingSys = RingSys(ring: Ring, push: PushPc, pop: PopPc)

  datatype RingEvent = ByPusher(p: PushEvent) | ByPopper(q: PopEvent)

  predicate Enabled(d: Dim, s: RingSys, e: RingEvent) {
    match e
    case ByPusher(p) => PushEnabled(d, s.ring, s.push, p)
    case ByPopper(q) => PopEnabled(d, s.ring, s.pop, q)
  }

  function Apply(d: Dim, s: RingSys, e: RingEvent): RingSys
    requires Enabled(d, s, e)
  {
    match e
    case ByPusher(p) => var (r, pc) := PushStep(d, s.ring, s.push, p); RingSys(r, pc, s.pop)
    case ByPopper(q) => var (r, pc) := PopStep(d, s.ring, s.pop, q); RingSys(r, s.push, pc)
  }

  ghost predicate Runs(d: Dim, s: RingSys, es: seq<RingEvent>, t: RingSys)
    decreases |es|
  {
    if es == [] then t == s
    else Enabled(d, s, es[0]) && Runs(d, Apply(d, s, es[0]), es[1..], t)
  }

  function EmptyRing(d: Dim): Ring {
    Ring(seq(d.slots, i => Cell(0, 0, 0, 0, 0, seq(d.maxBytes, j => 0))), 0, 0, [], [], [])
  }

  ghost predicate Reachable(d: Dim, t: RingSys) {
    exists es :: Runs(d, RingSys(EmptyRing(d), PushIdle, PopIdle), es, t)
  }

  ghost predicate Inv(d: Dim, s: RingSys) {
    Core(d, s.ring) && PushOk(d, s.ring, s.push) && PopOk(d, s.ring, s.pop)
  }

  lemma EmptyRingOk(d: Dim)
    requires DimOk(d)
    ensures Core(d, EmptyRing(d))
  {
  }

  lemma StepKeeps(d: Dim, s: RingSys, e: RingEvent)
    requires Inv(d, s) && Enabled(d, s, e)
    ensures Inv(d, Apply(d, s, e))
  {
    match e
    case ByPusher(p) => PushKeeps(d, s.ring, s.push, p, s.pop);
    case ByPopper(q) => PopKeeps(d, s.ring, s.push, s.pop, q);
  }

  lemma {:induction false} RunKeeps(d: Dim, s: RingSys, es: seq<RingEvent>, t: RingSys)
    requires Inv(d, s) && Runs(d, s, es, t)
    ensures Inv(d, t)
    decreases |es|
  {
    if es != [] {
      StepKeeps(d, s, es[0]);
      RunKeeps(d, Apply(d, s, es[0]), es[1..], t);
    }
  }

  lemma ReachableInv(d: Dim, t: RingSys)
    requires DimOk(d) && Reachable(d, t)
    ensures Inv(d, t)
  {
    var es :| Runs(d, RingSys(EmptyRing(d), PushIdle, PopIdle), es, t);
    EmptyRingOk(d);
    RunKeeps(d, RingSys(EmptyRing(d), PushIdle, PopIdle), es, t);
  }

  /** The abstract queue: pushed and not yet popped, oldest first. */
  function Queue(r: Ring): seq<Command>
    requires |r.popped| <= |r.pushed|
  {
    r.pushed[|r.popped|..]
  }

  /** One step of a bounded FIFO queue: q becomes q'. */
  ghost predicate FifoStep(d: Dim, s: RingSys, e: RingEvent, q: seq<Command>, q': seq<Command>) {
    match e
    case ByPusher(PushStoreHead) =>
      // the push succeeds: its command joins the back of a queue that had room
      && |q| < d.slots && |q'| == |q| + 1 && q' == q + [q'[|q|]]
      && s.push.Writing? && Delivers(s.push.args, q'[|q|])
    case ByPopper(PopStoreTail) =>
      // the pop succeeds: it hands out the front of the queue, and removes it
      q != [] && s.pop.Reading? && q == [s.pop.out] + q'
    case ByPusher(PushLoadTail) =>
      // the push is refused here exactly when the queue is full
      q' == q && (Enabled(d, s, e) && Apply(d, s, e).push.PushIdle? <==> |q| == d.slots)
    case ByPopper(PopLoadHead) =>
      // the pop is refused here exactly when the queue is empty
      q' == q && (Enabled(d, s, e) && Apply(d, s, e).pop.PopIdle? <==> q == [])
    case _ => q' == q
  }

  lemma PushJoinsQueue(d: Dim, s: RingSys)
    requires Inv(d, s) && PushEnabled(d, s.ring, s.push, PushStoreHead)
    ensures var cmd := Contents(s.ring.cells[Index(d, s.push.head)]);
            && Delivers(s.push.args, cmd) && |Queue(s.ring)| < d.slots
            && |s.ring.popped| <= |PushStep(d, s.ring, s.push, PushStoreHead).0.pushed|
            && Queue(PushStep(d, s.ring, s.push, PushStoreHead).0) == Queue(s.ring) + [cmd]
  {
    PushStoreKeeps(d, s.ring, s.push, s.pop);
  }

  lemma PopLeavesQueue(d: Dim, s: RingSys)
    requires Inv(d, s) && PopEnabled(d, s.ring, s.pop, PopStoreTail)
    ensures var r := PopStep(d, s.ring, s.pop, PopStoreTail).0;
            |r.popped| <= |r.pushed| && Queue(s.ring) == [s.pop.out] + Queue(r)
  {
    PopStoreKeeps(d, s.ring, s.push, s.pop);
  }

  /** Every interleaved step of a push and a pop is a step of the queue or leaves it alone. */
  lemma RingRefinesFifo(d: Dim, s: RingSys, e: RingEvent)
    requires Inv(d, s) && Enabled(d, s, e)
    ensures Inv(d, Apply(d, s, e))
    ensures FifoStep(d, s, e, Queue(s.ring), Queue(Apply(d, s, e).ring))
  {
    StepKeeps(d, s, e);
    var t := Apply(d, s, e);
    match e
    case ByPusher(PushStoreHead) => PushJoinsQueue(d, s);
    case ByPopper(PopStoreTail) => PopLeavesQueue(d, s);
    case ByPusher(PushLoadTail) => PushLoadKeeps(d, s.ring, s.push);
    case ByPopper(PopLoadHead) => PopLoadKeeps(d, s.ring, s.pop);
    case _ =>
  }

  /** The pending count, two wrapped counters apart and cut to 32 bits, is the queue's length. */
  lemma PendingIsLength(d: Dim, r: Ring)
    requires DimOk(d) && Counters(d, r)
    ensures Sub64(r.head, r.tail) % TWO32 == |Queue(r)| <= d.slots
  {
    SubAcrossWrap(|r.pushed|, |r.popped|);
  }

  lemma CellsApart(d: Dim, s: RingSys)
    requires Inv(d, s) && s.push.Writing? && s.pop.Reading?
    ensures Index(d, s.push.head) != Index(d, s.pop.tail)
  {
    MaskIsSlot(|s.ring.pushed|, d.slots);
    MaskIsSlot(|s.ring.popped|, d.slots);
    WritingCellIsFree(d, s.ring, |s.ring.popped|);
  }

  /** In every reachable state: what was popped is exactly the first pushes, each once, in order and
      intact; the queue never exceeds the ring; the pending count is its length; and a cell being read
      is not the one being written. */
  lemma RingIsFifo(d: Dim, s: RingSys)
    requires DimOk(d) && Reachable(d, s)
    ensures s.ring.popped <= s.ring.pushed && |s.ring.pushed| == |s.ring.accepted|
    ensures |Queue(s.ring)| <= d.slots
    ensures forall i | 0 <= i < |s.ring.popped| :: Delivers(s.ring.accepted[i], s.ring.popped[i])
    ensures Sub64(s.ring.head, s.ring.tail) % TWO32 == |Queue(s.ring)|
    ensures s.push.Writing? && s.pop.Reading? ==> Index(d, s.push.head) != Index(d, s.pop.tail)
  {
    ReachableInv(d, s);
    PendingIsLength(d, s.ring);
    forall i | 0 <= i < |s.ring.popped| ensures Delivers(s.ring.accepted[i], s.ring.popped[i]) {
      assert s.ring.popped[i] == s.ring.pushed[i];
    }
    if s.push.Writing? && s.pop.Reading? { CellsApart(d, s); }
  }

  /** Masking picks the ring place for every counter value exactly when the ring size is a power of
      two, which is what the configuration check tests. */
  lemma MaskingNeedsPowerOfTwo(slots: nat)
    requires slots >= 1
    ensures (forall x: nat :: And(x, slots - 1) == x % slots) <==> And(slots, slots - 1) == 0
  {
    if And(slots, slots - 1) == 0 {
      PowerOfTwoTest(slots);
      var k: nat :| slots == Pow2(k);
      forall x: nat ensures And(x, slots - 1) == x % slots { MaskIsMod(x, k); }
    } else {
      assert slots % slots == 0;
    }
  }
}

/** Every byte offset the readers, the pusher and the popper touch lies in the region meant for it,
    and therefore inside the mapping and apart from every other region. */
module Addresses {
  import opened Words
  import opened Layout
  import Frame = FrameModel
  import Readers = FrameReaders
  import Ring = CommandRing
  import Fifo = RingTheorems

  /** A load or store of `size` bytes, `at` bytes from the base of the mapping. */
  datatype Access = Access(at: nat, size: nat)

  predicate Within(c: Config, L: Layout, a: Access, r: Region) {
    && InConfig(c, r)
    && Start(L, r) <= a.at && a.at + a.size <= Start(L, r) + Length(c, MaxPayload(c), r)
  }

  /** The access stays in its region, and the region is aligned, in the segment and private. */
  ghost predicate Safe(c: Config, L: Layout, a: Access, r: Region) {
    Within(c, L, a, r) && SoundRegion(c, MaxPayload(c), L, r) && a.at + a.size <= L.totalSize
  }

  // ------------------------------------------------------------------------ read_latest

  const LATEST_AT: nat := 128
  const SHUTDOWN_AT: nat := 192

  /** The k-th field of a slot header that a reader loads, after its counter. */
  function SlotField(k: nat): Access {
    if k < 2 then Access(8 + 8 * k, 8) else Access(24 + 4 * (if k < 5 then k - 2 else 3), 4)
  }

  /** The next shared access of a reader inside a call, by the accessors' arithmetic. */
  function ReaderAccess(L: Layout, pc: Frame.ReaderPc): Access {
    match pc
    case Loading(_) => Access(LATEST_AT, 8)
    case ProbingShutdown => Access(SHUTDOWN_AT, 4)
    case Sampling(_, slot, _, _) => Access(L.slotsOffset + Times(slot, L.slotStride), 8)
    case Reading(t, k) => Access(L.slotsOffset + Times(t.slot, L.slotStride) + SlotField(k).at, SlotField(k).size)
    case Copying(t) => Access(L.slotsOffset + Times(t.slot, L.slotStride) + L.slotPayloadOff + |t.buf|, 1)
    case Checking(t, _) => Access(L.slotsOffset + Times(t.slot, L.slotStride), 8)
    case _ => Access(0, 0)
  }

  /** Where that access belongs. */
  function ReaderRegion(pc: Frame.ReaderPc): Region {
    match pc
    case Sampling(_, slot, _, _) => SlotHeader(slot)
    case Reading(t, _) => SlotHeader(t.slot)
    case Copying(t) => SlotPayload(t.slot)
    case Checking(t, _) => SlotHeader(t.slot)
    case _ => HeaderBlock
  }

  lemma ReaderWithin(c: Config, L: Layout, p: Frame.Params, w: Frame.World, r: Frame.Reader)
    requires p.n == c.slotCount && p.maxPayload == MaxPayload(c)
    requires Frame.Shaped(p, w) && Readers.PcInv(p, w, r)
    ensures Within(c, L, ReaderAccess(L, r.pc), ReaderRegion(r.pc))
    ensures r.pc.Copying? ==> |r.pc.t.buf| < r.capacity
  {
    if r.pc.Sampling? { SlotOfIsMod(p.n, r.pc.base); }
    if r.pc.Reading? || r.pc.Copying? || r.pc.Checking? { SlotOfIsMod(p.n, r.pc.t.base); }
  }

  lemma SafeIfWithin(c: Config, L: Layout, a: Access, r: Region)
    requires ConfigValid(c) && L == ComputeLayout(c) && Within(c, L, a, r)
    ensures Safe(c, L, a, r)
  {
    LayoutIsSound(c, r);
  }

  /** In every reachable state, torn or not, a reader's next access is safe, and the byte it is about
      to copy has room in the caller's buffer. */
  lemma ReadersStayInBounds(c: Config, L: Layout, cancels: bool, s: Frame.Sys, id: nat)
    requires ConfigValid(c) && L == ComputeLayout(c) && L.totalSize <= MAX_SEGMENT
    requires Frame.Reachable(Frame.ParamsOf(c, cancels), s) && id in s.readers
    ensures Safe(c, L, ReaderAccess(L, s.readers[id].pc), ReaderRegion(s.readers[id].pc))
    ensures s.readers[id].pc.Copying? ==> |s.readers[id].pc.t.buf| < s.readers[id].capacity
  {
    var p := Frame.ParamsOf(c, cancels);
    Frame.CreatedParamsOk(c, L, cancels);
    Readers.ReachableInv(p, s);
    assert Readers.RInv(p, s.world, s.readers[id]);
    ReaderWithin(c, L, p, s.world, s.readers[id]);
    SafeIfWithin(c, L, ReaderAccess(L, s.readers[id].pc), ReaderRegion(s.readers[id].pc));
  }

  // ----------------------------------------------------------------------- push and pop

  const HEAD_AT: nat := 0
  const TAIL_AT: nat := 64

  function DimOf(c: Config): Ring.Dim { Ring.Dim(c.commandSlots, c.maxCommandBytes) }

  /** The k-th store of a push, or load of a pop, within its cell. */
  function CellField(k: nat): Access {
    if k < 3 then Access(8 * k, 8)
    else if k < 5 then Access(24 + 4 * (k - 3), 4)
    else Access(CMD_HEADER_BYTES + (k - 5), 1)
  }

  function CellAccess(L: Layout, ring: Direction, cell: nat, k: nat): Access {
    Access(RingOffset(L, ring) + L.ringPayloadOff + Times(cell, L.cmdStride) + CellField(k).at, CellField(k).size)
  }

  function PushAccess(c: Config, L: Layout, ring: Direction, pc: Ring.PushPc): Access
    requires Ring.DimOk(DimOf(c))
  {
    match pc
    case HaveHead(_, _) => Access(RingOffset(L, ring) + TAIL_AT, 8)
    case Writing(a, head, k) =>
      if k < Ring.Stores(a) then CellAccess(L, ring, Ring.Index(DimOf(c), head), k)
      else Access(RingOffset(L, ring) + HEAD_AT, 8)
    case PushIdle => Access(RingOffset(L, ring) + HEAD_AT, 8)
  }

  function PushRegion(c: Config, ring: Direction, pc: Ring.PushPc): Region
    requires Ring.DimOk(DimOf(c))
  {
    if pc.Writing? && pc.k < Ring.Stores(pc.args) then CommandCell(ring, Ring.Index(DimOf(c), pc.head))
    else RingHeader(ring)
  }

  function PopAccess(c: Config, L: Layout, ring: Direction, pc: Ring.PopPc): Access
    requires Ring.DimOk(DimOf(c))
  {
    match pc
    case HaveTail(_) => Access(RingOffset(L, ring) + HEAD_AT, 8)
    case Reading(tail, k, n, _) =>
      if k < 5 + n then CellAccess(L, ring, Ring.Index(DimOf(c), tail), k)
      else Access(RingOffset(L, ring) + TAIL_AT, 8)
    case PopIdle => Access(RingOffset(L, ring) + TAIL_AT, 8)
  }

  function PopRegion(c: Config, ring: Direction, pc: Ring.PopPc): Region
    requires Ring.DimOk(DimOf(c))
  {
    if pc.Reading? && pc.k < 5 + pc.n then CommandCell(ring, Ring.Index(DimOf(c), pc.tail)) else RingHeader(ring)
  }

  lemma IndexInRing(d: Ring.Dim, count: nat)
    requires Ring.DimOk(d)
    ensures Ring.Index(d, count % TWO64) < d.slots
  {
    MaskIsSlot(count, d.slots);
    SlotOfIsMod(d.slots, count);
  }

  lemma PushWithin(c: Config, L: Layout, ring: Direction, r: Ring.Ring, pc: Ring.PushPc)
    requires Ring.DimOk(DimOf(c)) && L.ringPayloadOff == RING_HEADER_BYTES
    requires Ring.Shaped(DimOf(c), r) && Ring.Counters(DimOf(c), r) && Ring.PushOk(DimOf(c), r, pc)
    ensures Within(c, L, PushAccess(c, L, ring, pc), PushRegion(c, ring, pc))
  {
    IndexInRing(DimOf(c), |r.pushed|);
  }

  lemma PopWithin(c: Config, L: Layout, ring: Direction, r: Ring.Ring, pc: Ring.PopPc)
    requires Ring.DimOk(DimOf(c)) && L.ringPayloadOff == RING_HEADER_BYTES
    requires Ring.Shaped(DimOf(c), r) && Ring.Counters(DimOf(c), r) && Ring.PopOk(DimOf(c), r, pc)
    ensures Within(c, L, PopAccess(c, L, ring, pc), PopRegion(c, ring, pc))
  {
    IndexInRing(DimOf(c), |r.popped|);
  }

  /** In every reachable state of either ring the next access of its pusher and that of its popper are
      safe; and while one writes a cell and the other reads one, the two accesses share no byte. */
  lemma RingStaysInBounds(c: Config, L: Layout, ring: Direction, s: Fifo.RingSys)
    requires ConfigValid(c) && L == ComputeLayout(c) && Fifo.Reachable(DimOf(c), s)
    ensures Ring.DimOk(DimOf(c))
    ensures Safe(c, L, PushAccess(c, L, ring, s.push), PushRegion(c, ring, s.push))
    ensures Safe(c, L, PopAccess(c, L, ring, s.pop), PopRegion(c, ring, s.pop))
    ensures PushRegion(c, ring, s.push).CommandCell? && PopRegion(c, ring, s.pop).CommandCell? ==>
              Apart(PushAccess(c, L, ring, s.push), PopAccess(c, L, ring, s.pop))
  {
    Fifo.ReachableInv(DimOf(c), s);
    PushWithin(c, L, ring, s.ring, s.push);
    PopWithin(c, L, ring, s.ring, s.pop);
    SafeIfWithin(c, L, PushAccess(c, L, ring, s.push), PushRegion(c, ring, s.push));
    SafeIfWithin(c, L, PopAccess(c, L, ring, s.pop), PopRegion(c, ring, s.pop));
    if PushRegion(c, ring, s.push).CommandCell? && PopRegion(c, ring, s.pop).CommandCell? {
      Fifo.CellsApart(DimOf(c), s);
    }
  }

  predicate Apart(a: Access, b: Access) {
    a.at + a.size <= b.at || b.at + b.size <= a.at
  }
}

/** Segment layout: configuration checks, offset arithmetic, the address of every region,
    and header validation. */
module Layout {
  import opened Words

  const MAGIC: nat := 0x534D_4634
  const VERSION: nat := 5
  const LINE: nat := 64
  const MIN_SLOTS: nat := 3
  const MAX_SLOTS: nat := 4
  const MAX_SEGMENT: nat := 0x8000_0000
  const MAX_DIMENSION: nat := 32768

  // Sizes of the fixed structures, including their cache-line alignment.
  const HEADER_BYTES: nat := 448
  const SLOT_HEADER_BYTES: nat := 40
  const RING_HEADER_BYTES: nat := 128
  const CMD_HEADER_BYTES: nat := 32

  type U32 = n: nat | n < 0x1_0000_0000 witness 0

  datatype Config = Config(name: string, maxWidth: U32, maxHeight: U32, bytesPerPixel: U32,
                           slotCount: U32, commandSlots: U32, maxCommandBytes: U32,
                           staleProducerMs: U32)

  datatype Layout = Layout(headerSize: nat, slotsOffset: nat, slotStride: nat, slotPayloadOff: nat,
                           downstreamOffset: nat, upstreamOffset: nat, ringStride: nat,
                           ringPayloadOff: nat, cmdStride: nat, totalSize: nat)

  function MaxPayload(c: Config): nat {
    Times(c.maxWidth, Times(c.maxHeight, c.bytesPerPixel))
  }

  function AlignUp(v: nat, a: nat): nat
    requires a != 0
  {
    (v + a - 1) / a * a
  }

  predicate ConfigValid(c: Config) {
    && 0 < |c.name| <= 200
    && c.maxWidth != 0 && c.maxHeight != 0
    && c.maxWidth <= MAX_DIMENSION && c.maxHeight <= MAX_DIMENSION
    && 0 < c.bytesPerPixel <= 16
    && MIN_SLOTS <= c.slotCount <= MAX_SLOTS
    && c.commandSlots != 0
    && And(c.commandSlots, c.commandSlots - 1) == 0
    && 0 < c.maxCommandBytes <= 0x10_0000
  }

  /** The sizes the offsets are built from. */
  datatype Sizes = Sizes(slotStride: nat, cmdStride: nat, slots: nat, ringStride: nat)

  function SlotStride(payload: nat): nat {
    AlignUp(AlignUp(SLOT_HEADER_BYTES, LINE) + payload, LINE)
  }

  function CmdStride(maxBytes: nat): nat {
    AlignUp(CMD_HEADER_BYTES + maxBytes, LINE)
  }

  function RingStride(cells: nat): nat {
    AlignUp(AlignUp(RING_HEADER_BYTES, LINE) + cells, LINE)
  }

  function SizesOf(payload: nat, slotCount: nat, commandSlots: nat, maxBytes: nat): Sizes {
    Sizes(SlotStride(payload), CmdStride(maxBytes), Times(slotCount, SlotStride(payload)),
          RingStride(Times(commandSlots, CmdStride(maxBytes))))
  }

  function ComputeSizes(c: Config): Sizes {
    SizesOf(MaxPayload(c), c.slotCount, c.commandSlots, c.maxCommandBytes)
  }

  function Offsets(z: Sizes): Layout {
    var headerSize := AlignUp(HEADER_BYTES, LINE);
    var downstream := headerSize + z.slots;
    var upstream := downstream + z.ringStride;
    Layout(headerSize, headerSize, z.slotStride, AlignUp(SLOT_HEADER_BYTES, LINE), downstream, upstream,
           z.ringStride, AlignUp(RING_HEADER_BYTES, LINE), z.cmdStride, upstream + z.ringStride)
  }

  function ComputeLayout(c: Config): Layout { Offsets(ComputeSizes(c)) }

  // ------------------------------------------------------------ no 64-bit overflow

  function AlignUp64(v: nat, a: nat): nat
    requires a != 0
  {
    Sub64(Add64(v, a), 1) / a * a % TWO64
  }

  // The layout as the machine computes it: every operation reduced modulo 2^64.

  function SlotStride64(payload: nat): nat {
    AlignUp64(Add64(AlignUp64(SLOT_HEADER_BYTES, LINE), payload), LINE)
  }

  function CmdStride64(maxBytes: nat): nat {
    AlignUp64(Add64(CMD_HEADER_BYTES, maxBytes), LINE)
  }

  function RingStride64(cells: nat): nat {
    AlignUp64(Add64(AlignUp64(RING_HEADER_BYTES, LINE), cells), LINE)
  }

  function ComputeSizes64(c: Config): Sizes {
    var slotStride := SlotStride64(Mul64(Mul64(c.maxWidth, c.maxHeight), c.bytesPerPixel));
    var cmdStride := CmdStride64(c.maxCommandBytes);
    Sizes(slotStride, cmdStride, Mul64(c.slotCount, slotStride), RingStride64(Mul64(c.commandSlots, cmdStride)))
  }

  function Offsets64(z: Sizes): Layout {
    var headerSize := AlignUp64(HEADER_BYTES, LINE);
    var downstream := Add64(headerSize, z.slots);
    var upstream := Add64(downstream, z.ringStride);
    Layout(headerSize, headerSize, z.slotStride, AlignUp64(SLOT_HEADER_BYTES, LINE), downstream, upstream,
           z.ringStride, AlignUp64(RING_HEADER_BYTES, LINE), z.cmdStride, Add64(upstream, z.ringStride))
  }

  function ComputeLayout64(c: Config): Layout { Offsets64(ComputeSizes64(c)) }

  predicate SmallSizes(z: Sizes) {
    z.slots < 0x1000_0000_0000_0000 && z.ringStride < 0x1000_0000_0000_0000
  }

  lemma OffsetsExact(z: Sizes)
    requires SmallSizes(z)
    ensures Offsets64(z) == Offsets(z) && Offsets(z).totalSize < TWO64
  {
  }

  lemma AlignExact(v: nat)
    requires v < 0x2000_0000_0000_0000
    ensures AlignUp64(v, LINE) == AlignUp(v, LINE)
    ensures AlignUp(v, LINE) % LINE == 0 && v <= AlignUp(v, LINE) < v + LINE
  {
    var q := (v + 63) / 64;
    assert Sub64(Add64(v, LINE), 1) == v + 63;
    assert AlignUp(v, LINE) == q * 64;
  }

  lemma SlotStrideExact(v: nat)
    requires v < 0x1000_0000_0000_0000
    ensures SlotStride64(v) == SlotStride(v) && SlotStride(v) % LINE == 0 && v + 64 <= SlotStride(v) < v + 128
  {
    AlignExact(40);
    AlignExact(64 + v);
  }

  lemma CmdStrideExact(v: nat)
    requires v < 0x1000_0000_0000_0000
    ensures CmdStride64(v) == CmdStride(v) && CmdStride(v) % LINE == 0 && v + 32 <= CmdStride(v) < v + 96
  {
    AlignExact(32 + v);
  }

  lemma RingStrideExact(v: nat)
    requires v < 0x1000_0000_0000_0000
    ensures RingStride64(v) == RingStride(v) && RingStride(v) % LINE == 0 && v + 128 <= RingStride(v) < v + 192
  {
    AlignExact(128);
    AlignExact(128 + v);
  }

  lemma Mul64Exact(a: nat, b: nat)
    requires Times(a, b) < TWO64
    ensures Mul64(a, b) == Times(a, b)
  {
  }

  /** The largest payload a valid configuration admits. */
  lemma PayloadBound(c: Config)
    requires ConfigValid(c)
    ensures 1 <= MaxPayload(c) <= 0x4_0000_0000
    ensures Times(c.maxHeight, c.bytesPerPixel) <= 0x8_0000
  {
    var row := Times(c.maxHeight, c.bytesPerPixel);
    TimesBound(c.maxHeight, 32768, c.bytesPerPixel, 16);
    TimesIsProduct(32768, 16);
    TimesBound(c.maxWidth, 32768, row, 0x8_0000);
    TimesIsProduct(32768, 0x8_0000);
  }

  lemma RingBound(c: Config, cmdStride: nat)
    requires c.slotCount <= 4 && cmdStride <= 0x10_0060
    ensures Times(c.commandSlots, cmdStride) <= 0x10_0060_0000_0000
  {
    TimesBound(c.commandSlots, 0x1_0000_0000, cmdStride, 0x10_0060);
    TimesIsProduct(0x1_0000_0000, 0x10_0060);
  }

  lemma SlotsBound(c: Config, slotStride: nat)
    requires c.slotCount <= 4 && slotStride <= 0x4_0000_0080
    ensures Times(c.slotCount, slotStride) <= 0x10_0000_0200
  {
    TimesBound(c.slotCount, 4, slotStride, 0x4_0000_0080);
    TimesIsProduct(4, 0x4_0000_0080);
  }

  /** The 64-bit product w * h * bpp, taken left to right, is the exact payload size. */
  lemma PayloadExact(c: Config)
    requires ConfigValid(c)
    ensures Mul64(Mul64(c.maxWidth, c.maxHeight), c.bytesPerPixel) == MaxPayload(c)
  {
    PayloadBound(c);
    var area := Times(c.maxWidth, c.maxHeight);
    TimesBound(c.maxWidth, 32768, c.maxHeight, 32768);
    TimesIsProduct(32768, 32768);
    Mul64Exact(c.maxWidth, c.maxHeight);
    TimesAssoc(c.maxWidth, c.maxHeight, c.bytesPerPixel);
    Mul64Exact(area, c.bytesPerPixel);
  }

  lemma TimesAssoc(a: nat, b: nat, c: nat)
    ensures Times(Times(a, b), c) == Times(a, Times(b, c))
  {
    TimesIsProduct(a, b);
    TimesIsProduct(b, c);
    TimesIsProduct(Times(a, b), c);
    TimesIsProduct(a, Times(b, c));
    MulAssoc(a, b, c);
  }

  /** Each size computed in 64-bit arithmetic is exact, and small. */
  lemma SizesExact(c: Config)
    requires ConfigValid(c)
    ensures ComputeSizes64(c) == ComputeSizes(c) && SmallSizes(ComputeSizes(c))
  {
    PayloadBound(c);
    PayloadExact(c);
    SlotStrideExact(MaxPayload(c));
    CmdStrideExact(c.maxCommandBytes);
    var slotStride, cmdStride := SlotStride(MaxPayload(c)), CmdStride(c.maxCommandBytes);
    SlotsBound(c, slotStride);
    RingBound(c, cmdStride);
    Mul64Exact(c.slotCount, slotStride);
    Mul64Exact(c.commandSlots, cmdStride);
    RingStrideExact(Times(c.commandSlots, cmdStride));
  }

  /** For every valid configuration no step of the 64-bit computation wraps. */
  lemma LayoutNeverOverflows(c: Config)
    requires ConfigValid(c)
    ensures ComputeLayout64(c) == ComputeLayout(c)
    ensures ComputeLayout(c).totalSize < TWO64
  {
    SizesExact(c);
    OffsetsExact(ComputeSizes(c));
  }

  // --------------------------------------------------------------------- regions

  datatype Direction = Downstream | Upstream

  datatype Region =
    | HeaderBlock
    | SlotHeader(slot: nat)
    | SlotPayload(slot: nat)
    | RingHeader(ring: Direction)
    | CommandCell(ring: Direction, cell: nat)

  predicate InConfig(c: Config, r: Region) {
    match r
    case SlotHeader(j) => j < c.slotCount
    case SlotPayload(j) => j < c.slotCount
    case CommandCell(_, i) => i < c.commandSlots
    case _ => true
  }

  function RingOffset(L: Layout, d: Direction): nat {
    if d.Downstream? then L.downstreamOffset else L.upstreamOffset
  }

  /** Offset of a region from the base of the mapping: the slot, ring and command accessors. */
  function Start(L: Layout, r: Region): nat {
    match r
    case HeaderBlock => 0
    case SlotHeader(j) => L.slotsOffset + Times(j, L.slotStride)
    case SlotPayload(j) => L.slotsOffset + Times(j, L.slotStride) + L.slotPayloadOff
    case RingHeader(d) => RingOffset(L, d)
    case CommandCell(d, i) => RingOffset(L, d) + L.ringPayloadOff + Times(i, L.cmdStride)
  }

  /** Size of a region, for slots that hold `payload` bytes each. */
  function Length(c: Config, payload: nat, r: Region): nat {
    match r
    case HeaderBlock => HEADER_BYTES
    case SlotHeader(_) => SLOT_HEADER_BYTES
    case SlotPayload(_) => payload
    case RingHeader(_) => RING_HEADER_BYTES
    case CommandCell(_, _) => CMD_HEADER_BYTES + c.maxCommandBytes
  }

  predicate Disjoint(c: Config, payload: nat, L: Layout, a: Region, b: Region) {
    || Start(L, a) + Length(c, payload, a) <= Start(L, b)
    || Start(L, b) + Length(c, payload, b) <= Start(L, a)
  }

  /** What the region proofs use of a layout; `payload` stands for the slot payload size. */
  predicate Shape(c: Config, L: Layout, payload: nat) {
    && L.slotsOffset == HEADER_BYTES
    && L.slotPayloadOff == 64 && L.ringPayloadOff == RING_HEADER_BYTES
    && L.slotPayloadOff + payload <= L.slotStride
    && CMD_HEADER_BYTES + c.maxCommandBytes <= L.cmdStride
    && L.downstreamOffset == L.slotsOffset + Times(c.slotCount, L.slotStride)
    && L.ringPayloadOff + Times(c.commandSlots, L.cmdStride) <= L.ringStride
    && L.upstreamOffset == L.downstreamOffset + L.ringStride
    && L.totalSize == L.upstreamOffset + L.ringStride
    && L.slotStride % LINE == 0 && L.cmdStride % LINE == 0 && L.ringStride % LINE == 0
  }

  lemma LayoutShape(c: Config)
    requires ConfigValid(c)
    ensures Shape(c, ComputeLayout(c), MaxPayload(c))
  {
    PayloadBound(c);
    var cmdStride := CmdStride(c.maxCommandBytes);
    SlotStrideExact(MaxPayload(c));
    CmdStrideExact(c.maxCommandBytes);
    RingBound(c, cmdStride);
    RingStrideExact(Times(c.commandSlots, cmdStride));
  }

  /** Each region lies inside the block (header, slot array, ring) that holds it. */
  lemma InsideBlock(c: Config, L: Layout, payload: nat, r: Region)
    requires Shape(c, L, payload) && InConfig(c, r)
    ensures var end := Start(L, r) + Length(c, payload, r);
            && (r.HeaderBlock? ==> end <= L.slotsOffset)
            && (r.SlotHeader? || r.SlotPayload? ==> L.slotsOffset <= Start(L, r) && end <= L.downstreamOffset)
            && (r.RingHeader? || r.CommandCell? ==>
                  RingOffset(L, r.ring) <= Start(L, r) && end <= RingOffset(L, r.ring) + L.ringStride)
  {
    match r
    case SlotHeader(j) => TimesStep(j, c.slotCount, L.slotStride);
    case SlotPayload(j) => TimesStep(j, c.slotCount, L.slotStride);
    case CommandCell(d, i) => TimesStep(i, c.commandSlots, L.cmdStride);
    case _ =>
  }

  lemma DisjointInBlock(c: Config, L: Layout, payload: nat, a: Region, b: Region)
    requires Shape(c, L, payload)
    requires InConfig(c, a) && InConfig(c, b) && a != b
    ensures Disjoint(c, payload, L, a, b)
  {
    InsideBlock(c, L, payload, a);
    InsideBlock(c, L, payload, b);
    if (a.SlotHeader? || a.SlotPayload?) && (b.SlotHeader? || b.SlotPayload?) {
      if a.slot < b.slot {
        TimesStep(a.slot, b.slot, L.slotStride);
      } else if b.slot < a.slot {
        TimesStep(b.slot, a.slot, L.slotStride);
      }
    } else if a.CommandCell? && b.CommandCell? && a.ring == b.ring {
      if a.cell < b.cell {
        TimesStep(a.cell, b.cell, L.cmdStride);
      } else {
        TimesStep(b.cell, a.cell, L.cmdStride);
      }
    }
  }

  lemma AlignedSum(a: nat, b: nat)
    requires a % LINE == 0 && b % LINE == 0
    ensures (a + b) % LINE == 0
  {
  }

  lemma RingsAligned(c: Config, L: Layout, payload: nat, d: Direction)
    requires Shape(c, L, payload)
    ensures RingOffset(L, d) % LINE == 0
  {
    TimesAligned(c.slotCount, L.slotStride);
    AlignedSum(L.slotsOffset, Times(c.slotCount, L.slotStride));
    AlignedSum(L.downstreamOffset, L.ringStride);
  }

  /** Item i of an array that starts on a cache line and whose items are whole cache lines. */
  lemma ItemAligned(base: nat, i: nat, stride: nat)
    requires base % LINE == 0 && stride % LINE == 0
    ensures (base + Times(i, stride)) % LINE == 0
  {
    TimesAligned(i, stride);
    AlignedSum(base, Times(i, stride));
  }

  lemma AlignedInBlock(c: Config, L: Layout, payload: nat, r: Region)
    requires Shape(c, L, payload) && InConfig(c, r)
    ensures Start(L, r) % LINE == 0
  {
    match r
    case HeaderBlock =>
    case SlotHeader(j) => ItemAligned(L.slotsOffset, j, L.slotStride);
    case SlotPayload(j) =>
      ItemAligned(L.slotsOffset, j, L.slotStride);
      AlignedSum(L.slotsOffset + Times(j, L.slotStride), L.slotPayloadOff);
    case RingHeader(d) => RingsAligned(c, L, payload, d);
    case CommandCell(d, i) =>
      RingsAligned(c, L, payload, d);
      AlignedSum(RingOffset(L, d), L.ringPayloadOff);
      ItemAligned(RingOffset(L, d) + L.ringPayloadOff, i, L.cmdStride);
  }

  /** A region starts on a cache line, ends inside the segment, and shares no byte with another. */
  ghost predicate SoundRegion(c: Config, payload: nat, L: Layout, r: Region) {
    && Start(L, r) % LINE == 0
    && Start(L, r) + Length(c, payload, r) <= L.totalSize
    && forall other | InConfig(c, other) && other != r :: Disjoint(c, payload, L, r, other)
  }

  lemma SoundForShape(c: Config, L: Layout, payload: nat, r: Region)
    requires Shape(c, L, payload) && InConfig(c, r)
    ensures SoundRegion(c, payload, L, r)
  {
    AlignedInBlock(c, L, payload, r);
    InsideBlock(c, L, payload, r);
    forall other | InConfig(c, other) && other != r ensures Disjoint(c, payload, L, r, other) {
      DisjointInBlock(c, L, payload, r, other);
    }
  }

  /** Every region of every valid configuration is sound. */
  lemma LayoutIsSound(c: Config, r: Region)
    requires ConfigValid(c) && InConfig(c, r)
    ensures SoundRegion(c, MaxPayload(c), ComputeLayout(c), r)
  {
    LayoutShape(c);
    SoundForShape(c, ComputeLayout(c), MaxPayload(c), r);
  }

  // ---------------------------------------------------------------------- header

  datatype Header = Header(magic: nat, version: nat, session: nat, totalSize: nat,
                           maxWidth: U32, maxHeight: U32, bytesPerPixel: U32, slotCount: U32,
                           commandSlots: U32, maxCommandBytes: U32,
                           slotsOffset: nat, slotStride: nat, downstreamOffset: nat,
                           upstreamOffset: nat, ringStride: nat, cmdStride: nat)

  const BLANK: Header := Header(0, 0, 0, 0, 0, 0, 0, 0, 0, 0, 0, 0, 0, 0, 0, 0)

  /** The configuration echoed in a header, under the given name. */
  function Echo(h: Header, name: string): Config {
    Config(name, h.maxWidth, h.maxHeight, h.bytesPerPixel, h.slotCount,
           h.commandSlots, h.maxCommandBytes, 2000)
  }

  /** Re-derives the layout from a header's own configuration; None where the header is rejected. */
  function ValidateHeader(h: Header, size: nat): Option<Layout> {
    if size < HEADER_BYTES then None
    else if h.magic != MAGIC || h.version != VERSION then None
    else
      var c := Echo(h, "x");
      if !ConfigValid(c) then None
      else
        var L := ComputeLayout(c);
        if L.slotsOffset != h.slotsOffset || L.slotStride != h.slotStride ||
           L.downstreamOffset != h.downstreamOffset || L.upstreamOffset != h.upstreamOffset ||
           L.ringStride != h.ringStride || L.cmdStride != h.cmdStride || L.totalSize != h.totalSize
        then None
        else if size < L.totalSize then None
        else Some(L)
  }

  /** Number of stores `create` makes to the header, the magic being the last. */
  const INIT_STORES: nat := 16

  /** The k-th store of `create` (0-based) to a header h, for layout L. */
  function InitStore(c: Config, L: Layout, session: nat, k: nat, h: Header): Header
    requires k < INIT_STORES
  {
    if k == 0 then h.(version := VERSION)
    else if k == 1 then h.(session := session)
    else if k == 2 then h.(totalSize := L.totalSize)
    else if k == 3 then h.(maxWidth := c.maxWidth)
    else if k == 4 then h.(maxHeight := c.maxHeight)
    else if k == 5 then h.(bytesPerPixel := c.bytesPerPixel)
    else if k == 6 then h.(slotCount := c.slotCount)
    else if k == 7 then h.(commandSlots := c.commandSlots)
    else if k == 8 then h.(maxCommandBytes := c.maxCommandBytes)
    else if k == 9 then h.(slotsOffset := L.slotsOffset)
    else if k == 10 then h.(slotStride := L.slotStride)
    else if k == 11 then h.(downstreamOffset := L.downstreamOffset)
    else if k == 12 then h.(upstreamOffset := L.upstreamOffset)
    else if k == 13 then h.(ringStride := L.ringStride)
    else if k == 14 then h.(cmdStride := L.cmdStride)
    else h.(magic := MAGIC)
  }

  /** The header after the first k stores to a freshly zeroed one. */
  function HeaderAfter(c: Config, L: Layout, session: nat, k: nat): (h: Header)
    requires k <= INIT_STORES
    ensures k < INIT_STORES ==> h.magic == 0
  {
    if k == 0 then BLANK else InitStore(c, L, session, k - 1, HeaderAfter(c, L, session, k - 1))
  }

  function PublishedHeader(c: Config, session: nat): Header {
    HeaderAfter(c, ComputeLayout(c), session, INIT_STORES)
  }

  lemma FinishedHeader(c: Config, L: Layout, session: nat)
    ensures HeaderAfter(c, L, session, INIT_STORES) ==
            Header(MAGIC, VERSION, session, L.totalSize, c.maxWidth, c.maxHeight,
                   c.bytesPerPixel, c.slotCount, c.commandSlots, c.maxCommandBytes,
                   L.slotsOffset, L.slotStride, L.downstreamOffset, L.upstreamOffset,
                   L.ringStride, L.cmdStride)
  {
    var h := BLANK;
    var k := 0;
    while k < INIT_STORES
      invariant k <= INIT_STORES && h == HeaderAfter(c, L, session, k)
      invariant k > 0 ==> h.version == VERSION
      invariant k > 1 ==> h.session == session
      invariant k > 2 ==> h.totalSize == L.totalSize
      invariant k > 3 ==> h.maxWidth == c.maxWidth
      invariant k > 4 ==> h.maxHeight == c.maxHeight
      invariant k > 5 ==> h.bytesPerPixel == c.bytesPerPixel
      invariant k > 6 ==> h.slotCount == c.slotCount
      invariant k > 7 ==> h.commandSlots == c.commandSlots
      invariant k > 8 ==> h.maxCommandBytes == c.maxCommandBytes
      invariant k > 9 ==> h.slotsOffset == L.slotsOffset
      invariant k > 10 ==> h.slotStride == L.slotStride
      invariant k > 11 ==> h.downstreamOffset == L.downstreamOffset
      invariant k > 12 ==> h.upstreamOffset == L.upstreamOffset
      invariant k > 13 ==> h.ringStride == L.ringStride
      invariant k > 14 ==> h.cmdStride == L.cmdStride
      invariant k > 15 ==> h.magic == MAGIC
    {
      h := InitStore(c, L, session, k, h);
      k := k + 1;
    }
  }

  /** A header field that a peer saw, read at some prefix of `create` not before `first`. */
  ghost predicate SeenAt<T(!new)>(c: Config, session: nat, first: nat, field: Header -> T, value: T) {
    exists k: nat :: first <= k <= INIT_STORES && value == field(HeaderAfter(c, ComputeLayout(c), session, k))
  }

  /** A peer reads the header field by field while `create` is still storing into it: the magic at
      prefix `first`, each other field at its own prefix no earlier than that. */
  ghost predicate RacingRead(c: Config, session: nat, first: nat, seen: Header) {
    && first <= INIT_STORES
    && seen.magic == HeaderAfter(c, ComputeLayout(c), session, first).magic
    && SeenAt(c, session, first, (h: Header) => h.version, seen.version)
    && SeenAt(c, session, first, (h: Header) => h.session, seen.session)
    && SeenAt(c, session, first, (h: Header) => h.totalSize, seen.totalSize)
    && SeenAt(c, session, first, (h: Header) => h.maxWidth, seen.maxWidth)
    && SeenAt(c, session, first, (h: Header) => h.maxHeight, seen.maxHeight)
    && SeenAt(c, session, first, (h: Header) => h.bytesPerPixel, seen.bytesPerPixel)
    && SeenAt(c, session, first, (h: Header) => h.slotCount, seen.slotCount)
    && SeenAt(c, session, first, (h: Header) => h.commandSlots, seen.commandSlots)
    && SeenAt(c, session, first, (h: Header) => h.maxCommandBytes, seen.maxCommandBytes)
    && SeenAt(c, session, first, (h: Header) => h.slotsOffset, seen.slotsOffset)
    && SeenAt(c, session, first, (h: Header) => h.slotStride, seen.slotStride)
    && SeenAt(c, session, first, (h: Header) => h.downstreamOffset, seen.downstreamOffset)
    && SeenAt(c, session, first, (h: Header) => h.upstreamOffset, seen.upstreamOffset)
    && SeenAt(c, session, first, (h: Header) => h.ringStride, seen.ringStride)
    && SeenAt(c, session, first, (h: Header) => h.cmdStride, seen.cmdStride)
  }

  /** A peer that reads the whole header at one moment is a case of this. */
  lemma SnapshotIsRacingRead(c: Config, session: nat, first: nat)
    requires first <= INIT_STORES
    ensures RacingRead(c, session, first, HeaderAfter(c, ComputeLayout(c), session, first))
  {
  }

  /** The layout depends on the geometry only, not on the name or the stale window. */
  lemma EchoedLayout(c: Config, h: Header, name: string)
    requires && h.maxWidth == c.maxWidth && h.maxHeight == c.maxHeight && h.bytesPerPixel == c.bytesPerPixel
             && h.slotCount == c.slotCount && h.commandSlots == c.commandSlots
             && h.maxCommandBytes == c.maxCommandBytes
    ensures ComputeLayout(Echo(h, name)) == ComputeLayout(c)
  {
  }

  lemma PublishedHeaderValidates(c: Config, session: nat, size: nat)
    requires ConfigValid(c)
    ensures ValidateHeader(PublishedHeader(c, session), size)
            == if size < ComputeLayout(c).totalSize then None else Some(ComputeLayout(c))
  {
    var L := ComputeLayout(c);
    FinishedHeader(c, L, session);
    LayoutIsSound(c, HeaderBlock);
    EchoedLayout(c, PublishedHeader(c, session), "x");
  }

  /** An accepted header is the one `create` publishes for the configuration it echoes. */
  lemma AcceptedIsPublished(h: Header, size: nat)
    requires ValidateHeader(h, size).Some?
    ensures ConfigValid(Echo(h, "x")) && h == PublishedHeader(Echo(h, "x"), h.session)
    ensures size >= ComputeLayout(Echo(h, "x")).totalSize && ValidateHeader(h, size).value == ComputeLayout(Echo(h, "x"))
  {
    FinishedHeader(Echo(h, "x"), ComputeLayout(Echo(h, "x")), h.session);
  }

  /** Validation accepts exactly the headers some `create` could have published for a segment no larger than
      the mapping, whatever else the mapping holds, and returns that creator's layout. So a wrong magic or
      version, a configuration that is not valid, or a single offset that does not follow from it, is
      refused. */
  lemma AcceptsExactlyPublished(h: Header, size: nat)
    ensures ValidateHeader(h, size).Some? <==>
              exists c, session ::
                ConfigValid(c) && h == PublishedHeader(c, session) && ComputeLayout(c).totalSize <= size
    ensures forall c, session | ConfigValid(c) && h == PublishedHeader(c, session) && ValidateHeader(h, size).Some? ::
              ValidateHeader(h, size).value == ComputeLayout(c)
  {
    if ValidateHeader(h, size).Some? { AcceptedIsPublished(h, size); }
    forall c, session | ConfigValid(c) && h == PublishedHeader(c, session)
      ensures ValidateHeader(h, size) == if size < ComputeLayout(c).totalSize then None else Some(ComputeLayout(c))
    {
      PublishedHeaderValidates(c, session, size);
    }
  }

  /** What a published header says, field by field. */
  lemma PublishedFields(c: Config, session: nat)
    ensures PublishedHeader(c, session).magic == 0x534D_4634 && PublishedHeader(c, session).version == 5
    ensures PublishedHeader(c, session).session == session
    ensures Echo(PublishedHeader(c, session), c.name).(staleProducerMs := c.staleProducerMs) == c
  {
    FinishedHeader(c, ComputeLayout(c), session);
  }

  lemma CompleteRead(c: Config, session: nat, seen: Header)
    requires RacingRead(c, session, INIT_STORES, seen)
    ensures seen == PublishedHeader(c, session)
  {
  }

  /** Publication: whatever the interleaving of a validating peer with `create`, the peer is refused
      if it read the magic before `create` stored it, and otherwise obtains exactly the creator's
      layout, configuration and session (given a mapping of the full size). */
  lemma HeaderPublication(c: Config, session: nat, first: nat, seen: Header, size: nat)
    requires ConfigValid(c) && RacingRead(c, session, first, seen)
    ensures first < INIT_STORES ==> ValidateHeader(seen, size) == None
    ensures first == INIT_STORES ==>
              && seen == PublishedHeader(c, session)
              && Echo(seen, c.name).(staleProducerMs := c.staleProducerMs) == c
              && seen.session == session
              && ValidateHeader(seen, size) ==
                 if size < ComputeLayout(c).totalSize then None else Some(ComputeLayout(c))
  {
    if first == INIT_STORES {
      CompleteRead(c, session, seen);
      FinishedHeader(c, ComputeLayout(c), session);
      PublishedHeaderValidates(c, session, size);
    }
  }
}

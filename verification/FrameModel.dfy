/** The frame path as a transition system: one publisher writing a ring of slots guarded by
    sequence counters, and any number of readers, interleaved at every shared access and every
    payload byte. Fields marked "history" are not read by the protocol; they record what happened. */
module FrameModel {
  import opened Words
  import opened Layout

  /** What the frame path needs of a configuration. `cancels` says whether the application may
      abandon a write. */
  datatype Params = Params(n: nat, bpp: nat, maxPayload: nat, cancels: bool)

  predicate ParamsOk(p: Params) {
    && MIN_SLOTS <= p.n <= MAX_SLOTS
    && 1 <= p.bpp <= 16
    && p.bpp <= p.maxPayload < MAX_SEGMENT
  }

  function ParamsOf(c: Config, cancels: bool): Params {
    Params(c.slotCount, c.bytesPerPixel, MaxPayload(c), cancels)
  }

  lemma ShapeBoundsPayload(c: Config, L: Layout, payload: nat)
    requires Shape(c, L, payload) && c.slotCount >= 1 && L.totalSize <= MAX_SEGMENT
    ensures payload < MAX_SEGMENT
  {
    TimesStep(0, c.slotCount, L.slotStride);
  }

  lemma OnePixelFits(w: nat, h: nat, bpp: nat)
    requires w >= 1 && h >= 1
    ensures bpp <= Times(w, Times(h, bpp))
  {
    TimesBound(h, h, bpp, bpp);
    TimesBound(w, w, Times(h, bpp), Times(h, bpp));
  }

  lemma CreatedPayload(c: Config, L: Layout)
    requires ConfigValid(c) && L == ComputeLayout(c) && L.totalSize <= MAX_SEGMENT
    ensures MaxPayload(c) < MAX_SEGMENT
  {
    LayoutShape(c);
    ShapeBoundsPayload(c, L, MaxPayload(c));
  }

  /** Every configuration `create` accepts gives parameters in range. */
  lemma CreatedParamsOk(c: Config, L: Layout, cancels: bool)
    requires ConfigValid(c) && L == ComputeLayout(c) && L.totalSize <= MAX_SEGMENT
    ensures ParamsOk(ParamsOf(c, cancels))
  {
    OnePixelFits(c.maxWidth, c.maxHeight, c.bytesPerPixel);
    CreatedPayload(c, L);
  }

  datatype Info = Info(frameId: nat, timestamp: nat, width: nat, height: nat, stride: nat, payloadBytes: nat)

  datatype Slot = Slot(seqno: nat, info: Info, payload: seq<Byte>)

  /** The caller's buffer in `publish`; the stride is the one in effect (never the 0 shorthand). */
  datatype Source = Source(bytes: seq<Byte>, stride: nat)

  /** One finished write attempt: the slot as it was when its counter became even again. */
  datatype Record = Record(info: Info, data: seq<Byte>, stamp: nat, committed: bool, source: Option<Source>)

  /** The geometry begin_write is about to stamp. */
  datatype Plan = Plan(width: nat, height: nat, stride: nat, bytes: nat)

  datatype WriterPc =
    | Idle
    | Opening(plan: Plan, source: Option<Source>, s0: nat)
    | Stamping(plan: Plan, source: Option<Source>, k: nat)
    | Filling(source: Option<Source>, row: nat, col: nat)
    | Committing(source: Option<Source>, ts: nat, k: nat)
    | Sealing(source: Option<Source>, s0: nat)
    | Announcing
    | Cancelling(s0: nat)
    | Gone(midWrite: bool)

  /** The shared frame area plus the publisher's own variables.
      History: begun (successful begin_write calls), hist (finished attempts, attempt b at index b-1),
      latestAttempt (the attempt `latest` names, 0 for none). */
  datatype World = World(slots: seq<Slot>, latest: nat, shutdown: bool,
                         pc: WriterPc, writeSlot: nat, frameId: nat,
                         begun: nat, hist: seq<Record>, latestAttempt: nat)

  predicate Shaped(p: Params, s: World) {
    && ParamsOk(p)
    && |s.slots| == p.n
    && s.writeSlot < p.n
    && forall j | 0 <= j < p.n :: |s.slots[j].payload| == p.maxPayload
  }

  const NO_INFO: Info := Info(0, 0, 0, 0, 0, 0)

  function InitWorld(p: Params): World {
    World(seq(p.n, j => Slot(0, NO_INFO, seq(p.maxPayload, i => 0))), 0, false, Idle, 0, 0, 0, [], 0)
  }

  /** The byte count begin_write computes: uint64(width) * height * bytes_per_pixel. */
  function FrameBytes(p: Params, width: nat, height: nat): nat {
    Mul64(Mul64(width, height), p.bpp)
  }

  /** What begin_write stamps; stride and byte count are stored in 32-bit fields. */
  function PlanFor(p: Params, width: nat, height: nat): Plan {
    Plan(width, height, Times(width, p.bpp) % TWO32, FrameBytes(p, width, height) % TWO32)
  }

  /** The geometry check of begin_write. */
  predicate GeometryAccepted(p: Params, width: nat, height: nat) {
    width != 0 && height != 0 && FrameBytes(p, width, height) <= p.maxPayload
  }

  /** The 64-bit product does not wrap: assumed of the arguments of begin_write. */
  predicate ProductFits(p: Params, width: nat, height: nat) {
    width < TWO32 && height < TWO32 && Times(Times(width, height), p.bpp) < TWO64
  }

  // -------------------------------------------------------------------- publisher

  datatype WEvent =
    | Begin(width: nat, height: nat, source: Option<Source>)
    | MarkOdd
    | Stamp
    | Poke(i: nat, v: Byte)
    | CopyByte
    | StartCommit(ts: nat)
    | CommitStep
    | StoreEven
    | StoreLatest
    | StartCancel
    | StoreCancel
    | Shutdown

  predicate CopyDone(s: World)
    requires s.writeSlot < |s.slots|
  {
    s.pc.Filling? && (s.pc.source.None? || s.pc.row >= s.slots[s.writeSlot].info.height)
  }

  predicate WEnabled(p: Params, s: World, e: WEvent) {
    Shaped(p, s) &&
    match e
    case Begin(w, h, src) => s.pc.Idle? && GeometryAccepted(p, w, h) && ProductFits(p, w, h)
    case MarkOdd => s.pc.Opening?
    case Stamp => s.pc.Stamping? && s.pc.k < 4
    // The application renders straight into the slot, inside the frame it asked for.
    case Poke(i, v) =>
      && s.pc.Filling? && s.pc.source.None?
      && i < s.slots[s.writeSlot].info.payloadBytes && i < p.maxPayload
    // publish() copies its source row by row; the caller supplies every byte it names.
    case CopyByte =>
      && s.pc.Filling? && s.pc.source.Some? && !CopyDone(s)
      && s.pc.col < s.slots[s.writeSlot].info.stride
      && Times(s.pc.row, s.slots[s.writeSlot].info.stride) + s.pc.col < p.maxPayload
      && Times(s.pc.row, s.pc.source.value.stride) + s.pc.col < |s.pc.source.value.bytes|
    case StartCommit(ts) => s.pc.Filling? && CopyDone(s)
    case CommitStep => s.pc.Committing? && s.pc.k < 2
    case StoreEven => s.pc.Sealing?
    case StoreLatest => s.pc.Announcing?
    case StartCancel => p.cancels && s.pc.Filling? && s.pc.source.None?
    case StoreCancel => s.pc.Cancelling?
    case Shutdown => s.pc.Idle? || s.pc.Filling?
  }

  /** Replace the slot being written. */
  function Put(p: Params, s: World, sl: Slot): World
    requires Shaped(p, s)
  {
    s.(slots := s.slots[s.writeSlot := sl])
  }

  function Snapshot(sl: Slot, stamp: nat, committed: bool, source: Option<Source>): Record
  {
    Record(sl.info, if sl.info.payloadBytes <= |sl.payload| then sl.payload[..sl.info.payloadBytes] else [],
           stamp, committed, source)
  }

  /** Store the next even counter, ending the attempt. */
  function Seal(p: Params, s: World, s0: nat, committed: bool, source: Option<Source>): World
    requires Shaped(p, s)
  {
    var sl := s.slots[s.writeSlot];
    Put(p, s, sl.(seqno := s0 + 1)).(hist := s.hist + [Snapshot(sl, s0 + 1, committed, source)])
  }

  function StampField(info: Info, plan: Plan, k: nat): Info {
    if k == 0 then info.(width := plan.width)
    else if k == 1 then info.(height := plan.height)
    else if k == 2 then info.(stride := plan.stride)
    else info.(payloadBytes := plan.bytes)
  }

  function WApply(p: Params, s: World, e: WEvent): World
    requires WEnabled(p, s, e)
  {
    var sl := s.slots[s.writeSlot];
    match e
    case Begin(w, h, src) =>
      var ws := SlotOf(p.n, s.writeSlot + 1);
      s.(writeSlot := ws, begun := s.begun + 1, pc := Opening(PlanFor(p, w, h), src, s.slots[ws].seqno))
    case MarkOdd =>
      Put(p, s, sl.(seqno := s.pc.s0 + 1)).(pc := Stamping(s.pc.plan, s.pc.source, 0))
    case Stamp =>
      Put(p, s, sl.(info := StampField(sl.info, s.pc.plan, s.pc.k)))
      .(pc := if s.pc.k < 3 then Stamping(s.pc.plan, s.pc.source, s.pc.k + 1) else Filling(s.pc.source, 0, 0))
    case Poke(i, v) =>
      Put(p, s, sl.(payload := sl.payload[i := v]))
    case CopyByte =>
      var v := s.pc.source.value.bytes[Times(s.pc.row, s.pc.source.value.stride) + s.pc.col];
      Put(p, s, sl.(payload := sl.payload[Times(s.pc.row, sl.info.stride) + s.pc.col := v]))
      .(pc := if s.pc.col + 1 < sl.info.stride then s.pc.(col := s.pc.col + 1)
              else s.pc.(row := s.pc.row + 1, col := 0))
    case StartCommit(ts) =>
      s.(pc := Committing(s.pc.source, ts, 0))
    case CommitStep =>
      if s.pc.k == 0 then
        Put(p, s, sl.(info := sl.info.(frameId := s.frameId + 1)))
        .(frameId := s.frameId + 1, pc := Committing(s.pc.source, s.pc.ts, 1))
      else
        Put(p, s, sl.(info := sl.info.(timestamp := s.pc.ts))).(pc := Sealing(s.pc.source, sl.seqno))
    case StoreEven =>
      Seal(p, s, s.pc.s0, true, s.pc.source).(pc := Announcing)
    case StoreLatest =>
      s.(latest := 4 * s.frameId + s.writeSlot, latestAttempt := s.begun, pc := Idle)
    case StartCancel =>
      s.(pc := Cancelling(sl.seqno))
    case StoreCancel =>
      Seal(p, s, s.pc.s0, false, None).(pc := Idle)
    case Shutdown =>
      s.(shutdown := true, pc := Gone(s.pc.Filling?))
  }

  // ----------------------------------------------------------------------- reader

  datatype ReadResult =
    | Ok
    | NoNewFrame
    | Contended
    | BufferTooSmall(info: Info, attempt: nat)
    | Disconnected

  /** One pass of the retry loop. History: base, the attempt whose announcement was loaded;
      at, the attempt whose content the slot held when its counter was first sampled. */
  datatype Try = Try(attempt: nat, slot: nat, loaded: nat, base: nat, at: nat, before: nat, fi: Info, buf: seq<Byte>)

  datatype Verdict = Malformed | TooSmall | Complete

  datatype ReaderPc =
    | Ready
    | Loading(attempt: nat)
    | ProbingShutdown
    | Sampling(attempt: nat, slot: nat, loaded: nat, base: nat)
    | Reading(t: Try, k: nat)
    | Copying(t: Try)
    | Checking(t: Try, verdict: Verdict)
    | Done(result: ReadResult)

  /** History: what one successful read returned, and how it came about. */
  datatype Accept = Accept(info: Info, data: seq<Byte>, attempt: nat, base: nat, loaded: nat)

  /** The session's counters. History: accepted, every successful read. */
  datatype Log = Log(lastFrame: nat, received: nat, dropped: nat, accepted: seq<Accept>)

  /** History: start and late, latestAttempt and shutdown when the call began. */
  datatype Reader = Reader(pc: ReaderPc, capacity: nat, log: Log, start: nat, late: bool)

  const NEW_READER: Reader := Reader(Ready, 0, Log(0, 0, 0, []), 0, false)
  const ATTEMPTS: nat := 4

  /** The reader as it enters read_latest. */
  function Calling(s: World, r: Reader, capacity: nat): Reader {
    r.(pc := Loading(0), capacity := capacity, start := s.latestAttempt, late := s.shutdown)
  }

  /** The last attempt not after h in the same slot as attempt b. */
  function LastInSlot(p: Params, b: nat, h: nat): (r: nat)
    requires ParamsOk(p)
    ensures b <= r
    ensures b <= h ==> r <= h < r + p.n
    decreases h - b
  {
    if b + p.n <= h then LastInSlot(p, b + p.n, h) else b
  }

  lemma {:induction false} LastInSlotSameSlot(p: Params, b: nat, h: nat)
    requires ParamsOk(p)
    ensures SlotOf(p.n, LastInSlot(p, b, h)) == SlotOf(p.n, b)
    decreases h - b
  {
    if b + p.n <= h { LastInSlotSameSlot(p, b + p.n, h); }
  }

  function NextAttempt(attempt: nat): ReaderPc {
    if attempt + 1 < ATTEMPTS then Loading(attempt + 1) else Done(Contended)
  }

  function ReadField(fi: Info, from: Info, k: nat): Info {
    if k == 0 then fi.(frameId := from.frameId)
    else if k == 1 then fi.(timestamp := from.timestamp)
    else if k == 2 then fi.(width := from.width)
    else if k == 3 then fi.(height := from.height)
    else if k == 4 then fi.(stride := from.stride)
    else fi.(payloadBytes := from.payloadBytes)
  }

  /** What follows the six field reads: reject, report, or start copying. */
  function Decide(p: Params, r: Reader, t: Try): ReaderPc {
    if t.fi.payloadBytes == 0 || t.fi.payloadBytes > p.maxPayload then Checking(t, Malformed)
    else if t.fi.payloadBytes > r.capacity then Checking(t, TooSmall)
    else Copying(t)
  }

  predicate REnabled(p: Params, s: World, r: Reader) {
    && Shaped(p, s)
    && match r.pc
       case Reading(t, k) => t.slot < p.n && k < 6
       case Copying(t) => t.slot < p.n && |t.buf| < p.maxPayload && t.fi.payloadBytes > 0
       case Checking(t, _) => t.slot < p.n
       case Sampling(_, slot, _, _) => slot < p.n
       case Ready => false
       case Done(_) => false
       case _ => true
  }

  /** The accepting tail of read_latest. */
  function AcceptFrame(log: Log, t: Try): Log {
    Log(t.fi.frameId,
        log.received + 1,
        if log.lastFrame != 0 && t.fi.frameId > log.lastFrame
        then log.dropped + (t.fi.frameId - log.lastFrame - 1) else log.dropped,
        log.accepted + [Accept(t.fi, t.buf, t.at, t.base, t.loaded)])
  }

  /** One shared access of read_latest, with the local computation that follows it. */
  function RApply(p: Params, s: World, r: Reader): Reader
    requires REnabled(p, s, r)
  {
    match r.pc
    case Loading(a) =>
      if s.latest == 0 || s.latest / 4 == r.log.lastFrame then r.(pc := ProbingShutdown)
      else if s.latest % 4 >= p.n then r.(pc := Done(Contended))
      else r.(pc := Sampling(a, s.latest % 4, s.latest / 4, s.latestAttempt))
    case ProbingShutdown =>
      r.(pc := Done(if s.shutdown then Disconnected else NoNewFrame))
    case Sampling(a, slot, loaded, base) =>
      var before := s.slots[slot].seqno;
      if before % 2 == 1 then r.(pc := NextAttempt(a))
      else r.(pc := Reading(Try(a, slot, loaded, base, LastInSlot(p, base, |s.hist|), before, NO_INFO, []), 0))
    case Reading(t, k) =>
      var t' := t.(fi := ReadField(t.fi, s.slots[t.slot].info, k));
      r.(pc := if k < 5 then Reading(t', k + 1) else Decide(p, r, t'))
    case Copying(t) =>
      var t' := t.(buf := t.buf + [s.slots[t.slot].payload[|t.buf|]]);
      r.(pc := if |t'.buf| < t.fi.payloadBytes then Copying(t') else Checking(t', Complete))
    case Checking(t, verdict) =>
      if s.slots[t.slot].seqno != t.before then r.(pc := NextAttempt(t.attempt))
      else (match verdict
            case Malformed => r.(pc := Done(Contended))
            case TooSmall => r.(pc := Done(BufferTooSmall(t.fi, t.at)))
            case Complete => r.(pc := Done(Ok), log := AcceptFrame(r.log, t)))
    case Ready => r
    case Done(_) => r
  }

  // ----------------------------------------------------------------------- system

  datatype Sys = Sys(world: World, readers: map<nat, Reader>)

  datatype Event =
    | Write(w: WEvent)
    | Join(id: nat)
    | Call(id: nat, capacity: nat)
    | Read(id: nat)

  predicate Enabled(p: Params, s: Sys, e: Event) {
    match e
    case Write(w) => WEnabled(p, s.world, w)
    case Join(id) => id !in s.readers
    case Call(id, capacity) => id in s.readers && (s.readers[id].pc.Ready? || s.readers[id].pc.Done?)
    case Read(id) => id in s.readers && REnabled(p, s.world, s.readers[id])
  }

  function Apply(p: Params, s: Sys, e: Event): Sys
    requires Enabled(p, s, e)
  {
    match e
    case Write(w) => s.(world := WApply(p, s.world, w))
    case Join(id) => s.(readers := s.readers[id := NEW_READER])
    case Call(id, capacity) =>
      s.(readers := s.readers[id := Calling(s.world, s.readers[id], capacity)])
    case Read(id) => s.(readers := s.readers[id := RApply(p, s.world, s.readers[id])])
  }

  /** `es` is an interleaving that leads from s to t. */
  ghost predicate Runs(p: Params, s: Sys, es: seq<Event>, t: Sys)
    decreases |es|
  {
    if es == [] then t == s
    else Enabled(p, s, es[0]) && Runs(p, Apply(p, s, es[0]), es[1..], t)
  }

  function Init(p: Params): Sys { Sys(InitWorld(p), map[]) }

  /** States some run reaches. */
  ghost predicate Reachable(p: Params, t: Sys) {
    exists es :: Runs(p, Init(p), es, t)
  }
}

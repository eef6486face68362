/** The inductive invariant of the frame path, and its preservation by every publisher step. */
module FrameInvariant {
  import opened Words
  import opened Layout
  import opened FrameModel

  // ------------------------------------------------------------ finished attempts

  predicate GeometryOk(p: Params, info: Info) {
    && info.width >= 1 && info.height >= 1
    && info.stride == Times(info.width, p.bpp)
    && info.payloadBytes == Times(info.height, info.stride)
    && 1 <= info.payloadBytes <= p.maxPayload
  }

  /** Byte x of row y of the frame is byte x of row y of the source. */
  predicate PixelOk(data: seq<Byte>, src: Source, stride: nat, y: nat, x: nat) {
    && Times(y, stride) + x < |data|
    && Times(y, src.stride) + x < |src.bytes|
    && data[Times(y, stride) + x] == src.bytes[Times(y, src.stride) + x]
  }

  ghost predicate ImageOk(data: seq<Byte>, src: Source, info: Info) {
    forall y, x | 0 <= y < info.height && 0 <= x < info.stride :: PixelOk(data, src, info.stride, y, x)
  }

  ghost predicate RecordOk(p: Params, rec: Record) {
    && GeometryOk(p, rec.info)
    && |rec.data| == rec.info.payloadBytes
    && rec.stamp % 2 == 0
    && (rec.committed ==> rec.info.frameId >= 1)
    && (rec.source.Some? ==> ImageOk(rec.data, rec.source.value, rec.info))
  }

  /** The slot shows exactly the outcome of a finished attempt. */
  predicate Holds(sl: Slot, rec: Record) {
    && sl.seqno == rec.stamp
    && sl.info == rec.info
    && rec.info.payloadBytes <= |sl.payload|
    && sl.payload[..rec.info.payloadBytes] == rec.data
  }

  /** Attempt b is finished and no later attempt has marked its slot. */
  predicate Live(p: Params, s: World, b: nat) {
    && 1 <= b <= |s.hist|
    && (b + p.n > s.begun || (b + p.n == s.begun && s.pc.Opening?))
  }

  // -------------------------------------------------------------------- invariant

  /** The publisher is inside a slot whose counter is odd. */
  predicate InSlot(pc: WriterPc) {
    pc.Stamping? || pc.Filling? || pc.Committing? || pc.Sealing? || pc.Cancelling? || pc == Gone(true)
  }

  predicate Counts(p: Params, s: World)
    requires Shaped(p, s)
  {
    && s.begun == |s.hist| + (if s.pc.Opening? || InSlot(s.pc) then 1 else 0)
    && s.writeSlot == SlotOf(p.n, s.begun)
    && forall j | 0 <= j < p.n :: s.slots[j].seqno % 2 == if InSlot(s.pc) && j == s.writeSlot then 1 else 0
  }

  ghost predicate RecordsOk(p: Params, hist: seq<Record>) {
    forall i | 0 <= i < |hist| :: RecordOk(p, hist[i])
  }

  ghost predicate LiveOk(p: Params, s: World)
    requires Shaped(p, s)
  {
    forall b: nat | Live(p, s, b) :: Holds(s.slots[SlotOf(p.n, b)], s.hist[b - 1])
  }

  ghost predicate History(p: Params, s: World)
    requires Shaped(p, s)
  {
    RecordsOk(p, s.hist) && LiveOk(p, s)
  }

  predicate LatestOk(p: Params, s: World)
    requires Shaped(p, s)
  {
    && s.latestAttempt <= |s.hist|
    && (s.latestAttempt == 0 <==> s.latest == 0)
    && (s.latestAttempt > 0 ==>
          && s.hist[s.latestAttempt - 1].committed
          && s.latest == 4 * s.hist[s.latestAttempt - 1].info.frameId + SlotOf(p.n, s.latestAttempt))
  }

  ghost predicate CopiedSoFar(payload: seq<Byte>, src: Source, stride: nat, row: nat, col: nat) {
    && (forall y, x | 0 <= y < row && 0 <= x < stride :: PixelOk(payload, src, stride, y, x))
    && (forall x | 0 <= x < col :: PixelOk(payload, src, stride, row, x))
  }

  predicate PlanOk(p: Params, plan: Plan) {
    && plan.width >= 1 && plan.height >= 1
    && plan.stride == Times(plan.width, p.bpp)
    && plan.bytes == Times(plan.height, plan.stride)
    && 1 <= plan.bytes <= p.maxPayload
  }

  ghost predicate PcOk(p: Params, s: World)
    requires Shaped(p, s)
  {
    var sl := s.slots[s.writeSlot];
    match s.pc
    case Opening(plan, src, s0) => s0 == sl.seqno && PlanOk(p, plan)
    case Stamping(plan, src, k) =>
      && k < 4 && PlanOk(p, plan)
      && (k >= 1 ==> sl.info.width == plan.width)
      && (k >= 2 ==> sl.info.height == plan.height)
      && (k >= 3 ==> sl.info.stride == plan.stride)
    case Filling(src, row, col) =>
      && GeometryOk(p, sl.info)
      && (src.Some? ==>
            && row <= sl.info.height && col < sl.info.stride
            && (row == sl.info.height ==> col == 0)
            && CopiedSoFar(sl.payload, src.value, sl.info.stride, row, col))
    case Committing(src, ts, k) =>
      && k < 2 && GeometryOk(p, sl.info)
      && (src.Some? ==> ImageOk(sl.payload, src.value, sl.info))
      && (k == 1 ==> sl.info.frameId == s.frameId >= 1)
    case Sealing(src, s0) =>
      && s0 == sl.seqno && GeometryOk(p, sl.info)
      && (src.Some? ==> ImageOk(sl.payload, src.value, sl.info))
      && sl.info.frameId == s.frameId >= 1
    case Announcing =>
      |s.hist| >= 1 && s.hist[|s.hist| - 1].committed && s.hist[|s.hist| - 1].info.frameId == s.frameId >= 1
    case Cancelling(s0) => s0 == sl.seqno && GeometryOk(p, sl.info)
    case _ => true
  }

  /** Without cancels, frame ids number the attempts. */
  predicate Numbered(p: Params, hist: seq<Record>) {
    !p.cancels ==> forall i | 0 <= i < |hist| :: hist[i].committed && hist[i].info.frameId == i + 1
  }

  /** Without cancels, `latest` trails the finished attempts by at most one. */
  predicate Trailing(p: Params, s: World) {
    !p.cancels ==>
      && !s.pc.Cancelling?
      && s.frameId == |s.hist| + (if (s.pc.Committing? && s.pc.k == 1) || s.pc.Sealing? then 1 else 0)
      && s.latestAttempt == |s.hist| - (if s.pc.Announcing? then 1 else 0)
  }

  predicate CancelFree(p: Params, s: World) {
    Numbered(p, s.hist) && Trailing(p, s)
  }

  ghost predicate WInv(p: Params, s: World) {
    && Shaped(p, s)
    && Counts(p, s) && History(p, s) && LatestOk(p, s) && PcOk(p, s) && CancelFree(p, s)
  }

  lemma InitHolds(p: Params)
    requires ParamsOk(p)
    ensures WInv(p, InitWorld(p))
  {
  }

  // ----------------------------------------------------------------- preservation

  /** Multiplying by at least one does not shrink. */
  lemma TimesAtLeast(a: nat, b: nat)
    requires b >= 1
    ensures a <= Times(a, b)
  {
    TimesBound(a, a, 1, b);
    TimesIsProduct(a, 1);
  }

  /** width * height * bpp is height rows of width * bpp bytes. */
  lemma RowsOfBytes(w: nat, h: nat, bpp: nat)
    ensures Times(Times(w, h), bpp) == Times(h, Times(w, bpp))
  {
    TimesCommutes(w, h);
    TimesAssoc(h, w, bpp);
  }

  lemma FrameBytesExact(p: Params, w: nat, h: nat)
    requires ProductFits(p, w, h) && p.bpp >= 1
    ensures FrameBytes(p, w, h) == Times(Times(w, h), p.bpp)
  {
    TimesAtLeast(Times(w, h), p.bpp);
    assert Mul64(w, h) == Times(w, h);
  }

  /** An accepted frame occupies at least one byte and at most the slot; its stride is exact. */
  lemma PlanScalars(p: Params, w: nat, h: nat, stride: nat, bytes: nat)
    requires ParamsOk(p) && w >= 1 && h >= 1 && stride == Times(w, p.bpp) && bytes == Times(h, stride)
    requires bytes <= p.maxPayload
    ensures 1 <= bytes && stride < TWO32
  {
    TimesAtLeast(w, p.bpp);
    TimesAtLeast(h, stride);
    TimesCommutes(h, stride);
    TimesAtLeast(stride, h);
  }

  /** Accepted geometries have an exact 32-bit stride and byte count, inside the slot. */
  lemma AcceptedGeometry(p: Params, w: nat, h: nat)
    requires ParamsOk(p) && GeometryAccepted(p, w, h) && ProductFits(p, w, h)
    ensures PlanOk(p, PlanFor(p, w, h))
  {
    FrameBytesExact(p, w, h);
    RowsOfBytes(w, h, p.bpp);
    PlanScalars(p, w, h, Times(w, p.bpp), Times(h, Times(w, p.bpp)));
  }

  lemma TimesCommutes(a: nat, b: nat)
    ensures Times(a, b) == Times(b, a)
  {
    TimesIsProduct(a, b);
    TimesIsProduct(b, a);
  }

  /** A slot the publisher is inside holds no live attempt. */
  lemma InSlotNotLive(p: Params, s: World, b: nat)
    requires Shaped(p, s) && Counts(p, s) && InSlot(s.pc) && Live(p, s, b)
    ensures SlotOf(p.n, b) != s.writeSlot
  {
    SlotsDiffer(p.n, b, s.begun);
  }

  /** A step inside the slot being written: t is s with that slot and local variables changed. */
  predicate InsideStep(p: Params, s: World, t: World)
    requires Shaped(p, s)
  {
    && InSlot(s.pc) && InSlot(t.pc)
    && |t.slots| == p.n
    && t == Put(p, s, t.slots[s.writeSlot]).(pc := t.pc, frameId := t.frameId)
    && t.slots[s.writeSlot].seqno == s.slots[s.writeSlot].seqno
    && |t.slots[s.writeSlot].payload| == p.maxPayload
  }

  /** Such a step keeps everything about the other slots and the history. */
  lemma InsideStepKeeps(p: Params, s: World, t: World)
    requires Shaped(p, s) && Counts(p, s) && LiveOk(p, s) && LatestOk(p, s) && InsideStep(p, s, t)
    ensures Shaped(p, t) && Counts(p, t) && LiveOk(p, t) && LatestOk(p, t)
  {
    forall b: nat | Live(p, t, b) ensures Holds(t.slots[SlotOf(p.n, b)], t.hist[b - 1]) {
      assert Live(p, s, b);
      InSlotNotLive(p, s, b);
    }
  }

  lemma OpenLive(p: Params, s: World, t: World)
    requires Shaped(p, s) && Shaped(p, t) && LiveOk(p, s) && s.pc.Idle? && t.pc.Opening?
    requires t.slots == s.slots && t.hist == s.hist && t.begun == s.begun + 1
    ensures LiveOk(p, t)
  {
    forall b: nat | Live(p, t, b) ensures Holds(t.slots[SlotOf(p.n, b)], t.hist[b - 1]) {
      assert Live(p, s, b);
    }
  }

  lemma OpenKeeps(p: Params, s: World, plan: Plan, source: Option<Source>, t: World)
    requires WInv(p, s) && s.pc.Idle? && PlanOk(p, plan)
    requires var ws := SlotOf(p.n, s.writeSlot + 1);
             t == s.(writeSlot := ws, begun := s.begun + 1, pc := Opening(plan, source, s.slots[ws].seqno))
    ensures WInv(p, t)
  {
    NextSlot(p.n, s.begun);
    OpenLive(p, s, t);
  }

  lemma BeginKeeps(p: Params, s: World, e: WEvent)
    requires WInv(p, s) && WEnabled(p, s, e) && e.Begin?
    ensures WInv(p, WApply(p, s, e))
  {
    AcceptedGeometry(p, e.width, e.height);
    OpenKeeps(p, s, PlanFor(p, e.width, e.height), e.source, WApply(p, s, e));
  }

  lemma MarkCounts(p: Params, s: World)
    requires WEnabled(p, s, MarkOdd) && Counts(p, s) && PcOk(p, s)
    ensures Shaped(p, WApply(p, s, MarkOdd)) && Counts(p, WApply(p, s, MarkOdd))
  {
  }

  lemma MarkLive(p: Params, s: World)
    requires WEnabled(p, s, MarkOdd) && Counts(p, s) && LiveOk(p, s) && Shaped(p, WApply(p, s, MarkOdd))
    ensures LiveOk(p, WApply(p, s, MarkOdd))
  {
    var t := WApply(p, s, MarkOdd);
    forall b: nat | Live(p, t, b) ensures Holds(t.slots[SlotOf(p.n, b)], t.hist[b - 1]) {
      assert Live(p, s, b);
      SlotsDiffer(p.n, b, s.begun);
    }
  }

  lemma MarkKeeps(p: Params, s: World)
    requires WInv(p, s) && WEnabled(p, s, MarkOdd)
    ensures WInv(p, WApply(p, s, MarkOdd))
  {
    MarkCounts(p, s);
    MarkLive(p, s);
  }

  lemma StampPc(p: Params, s: World)
    requires WEnabled(p, s, Stamp) && PcOk(p, s) && Shaped(p, WApply(p, s, Stamp))
    ensures PcOk(p, WApply(p, s, Stamp))
  {
  }

  lemma StampKeeps(p: Params, s: World)
    requires WInv(p, s) && WEnabled(p, s, Stamp)
    ensures WInv(p, WApply(p, s, Stamp))
  {
    InsideStepKeeps(p, s, WApply(p, s, Stamp));
    StampPc(p, s);
  }

  lemma PokeKeeps(p: Params, s: World, i: nat, v: Byte)
    requires WInv(p, s) && WEnabled(p, s, Poke(i, v))
    ensures WInv(p, WApply(p, s, Poke(i, v)))
  {
    InsideStepKeeps(p, s, WApply(p, s, Poke(i, v)));
  }

  /** The byte written by a copy step extends the copied region and disturbs none of it. */
  lemma CopyExtends(payload: seq<Byte>, src: Source, stride: nat, row: nat, col: nat, v: Byte)
    requires CopiedSoFar(payload, src, stride, row, col) && col < stride
    requires Times(row, stride) + col < |payload|
    requires Times(row, src.stride) + col < |src.bytes|
    requires v == src.bytes[Times(row, src.stride) + col]
    ensures var after := payload[Times(row, stride) + col := v];
            && CopiedSoFar(after, src, stride, row, col + 1)
            && (col + 1 == stride ==> CopiedSoFar(after, src, stride, row + 1, 0))
  {
    var k := Times(row, stride) + col;
    var after := payload[k := v];
    forall y, x | 0 <= y < row && 0 <= x < stride ensures PixelOk(after, src, stride, y, x) {
      assert PixelOk(payload, src, stride, y, x);
      TimesStep(y, row, stride);
    }
    forall x | 0 <= x < col ensures PixelOk(after, src, stride, row, x) {
      assert PixelOk(payload, src, stride, row, x);
    }
    assert PixelOk(after, src, stride, row, col);
  }

  lemma CopyPc(p: Params, s: World)
    requires WEnabled(p, s, CopyByte) && PcOk(p, s) && Shaped(p, WApply(p, s, CopyByte))
    ensures PcOk(p, WApply(p, s, CopyByte))
  {
    var sl := s.slots[s.writeSlot];
    var src := s.pc.source.value;
    CopyExtends(sl.payload, src, sl.info.stride, s.pc.row, s.pc.col,
                src.bytes[Times(s.pc.row, src.stride) + s.pc.col]);
  }

  lemma CopyKeeps(p: Params, s: World)
    requires WInv(p, s) && WEnabled(p, s, CopyByte)
    ensures WInv(p, WApply(p, s, CopyByte))
  {
    InsideStepKeeps(p, s, WApply(p, s, CopyByte));
    CopyPc(p, s);
  }

  lemma StartCommitKeeps(p: Params, s: World, ts: nat)
    requires WInv(p, s) && WEnabled(p, s, StartCommit(ts))
    ensures WInv(p, WApply(p, s, StartCommit(ts)))
  {
    assert s.slots[s.writeSlot := s.slots[s.writeSlot]] == s.slots;
    InsideStepKeeps(p, s, WApply(p, s, StartCommit(ts)));
  }

  lemma CommitStepPc(p: Params, s: World)
    requires WEnabled(p, s, CommitStep) && PcOk(p, s) && Shaped(p, WApply(p, s, CommitStep))
    ensures PcOk(p, WApply(p, s, CommitStep))
  {
  }

  lemma CommitStepKeeps(p: Params, s: World)
    requires WInv(p, s) && WEnabled(p, s, CommitStep)
    ensures WInv(p, WApply(p, s, CommitStep))
  {
    InsideStepKeeps(p, s, WApply(p, s, CommitStep));
    CommitStepPc(p, s);
  }

  /** What a finished write leaves in the history is well formed and is what the slot shows. */
  lemma SnapshotOk(p: Params, sl: Slot, committed: bool, source: Option<Source>)
    requires |sl.payload| == p.maxPayload && GeometryOk(p, sl.info) && sl.seqno % 2 == 1
    requires committed ==> sl.info.frameId >= 1
    requires source.Some? ==> ImageOk(sl.payload, source.value, sl.info)
    ensures RecordOk(p, Snapshot(sl, sl.seqno + 1, committed, source))
    ensures Holds(sl.(seqno := sl.seqno + 1), Snapshot(sl, sl.seqno + 1, committed, source))
  {
    var rec := Snapshot(sl, sl.seqno + 1, committed, source);
    if source.Some? {
      forall y, x | 0 <= y < rec.info.height && 0 <= x < rec.info.stride
        ensures PixelOk(rec.data, source.value, rec.info.stride, y, x)
      {
        assert PixelOk(sl.payload, source.value, sl.info.stride, y, x);
        TimesStep(y, rec.info.height, rec.info.stride);
      }
    }
  }

  /** Making the counter even appends one attempt and makes it live. */
  lemma SealHistory(p: Params, s: World, t: World, committed: bool, source: Option<Source>)
    requires Shaped(p, s) && Counts(p, s) && History(p, s) && InSlot(s.pc) && (t.pc.Announcing? || t.pc.Idle?)
    requires GeometryOk(p, s.slots[s.writeSlot].info)
    requires committed ==> s.slots[s.writeSlot].info.frameId >= 1
    requires source.Some? ==> ImageOk(s.slots[s.writeSlot].payload, source.value, s.slots[s.writeSlot].info)
    requires t == Seal(p, s, s.slots[s.writeSlot].seqno, committed, source).(pc := t.pc)
    ensures Shaped(p, t) && History(p, t)
  {
    SnapshotOk(p, s.slots[s.writeSlot], committed, source);
    forall b: nat | Live(p, t, b) ensures Holds(t.slots[SlotOf(p.n, b)], t.hist[b - 1]) {
      if b <= |s.hist| {
        assert Live(p, s, b);
        InSlotNotLive(p, s, b);
        assert t.hist[b - 1] == s.hist[b - 1];
      }
    }
  }

  lemma SealCounts(p: Params, s: World, t: World, committed: bool, source: Option<Source>)
    requires Shaped(p, s) && Counts(p, s) && LatestOk(p, s) && InSlot(s.pc) && (t.pc.Announcing? || t.pc.Idle?)
    requires t == Seal(p, s, s.slots[s.writeSlot].seqno, committed, source).(pc := t.pc)
    ensures Shaped(p, t) && Counts(p, t) && LatestOk(p, t)
  {
  }

  lemma SealNumbers(p: Params, s: World)
    requires WEnabled(p, s, StoreEven) && PcOk(p, s) && CancelFree(p, s)
    ensures CancelFree(p, WApply(p, s, StoreEven))
  {
  }

  lemma StoreEvenKeeps(p: Params, s: World)
    requires WInv(p, s) && WEnabled(p, s, StoreEven)
    ensures WInv(p, WApply(p, s, StoreEven))
  {
    var t := WApply(p, s, StoreEven);
    SealHistory(p, s, t, true, s.pc.source);
    SealCounts(p, s, t, true, s.pc.source);
    SealNumbers(p, s);
  }

  lemma StoreCancelKeeps(p: Params, s: World)
    requires WInv(p, s) && WEnabled(p, s, StoreCancel)
    ensures WInv(p, WApply(p, s, StoreCancel))
  {
    var t := WApply(p, s, StoreCancel);
    SealHistory(p, s, t, false, None);
    SealCounts(p, s, t, false, None);
  }

  /** A step that leaves the slots and the history alone. */
  lemma QuietLive(p: Params, s: World, t: World)
    requires Shaped(p, s) && Shaped(p, t) && LiveOk(p, s)
    requires t.slots == s.slots && t.hist == s.hist && t.begun == s.begun && (t.pc.Opening? ==> s.pc.Opening?)
    ensures LiveOk(p, t)
  {
    forall b: nat | Live(p, t, b) ensures Holds(t.slots[SlotOf(p.n, b)], t.hist[b - 1]) {
      assert Live(p, s, b);
    }
  }

  lemma StoreLatestKeeps(p: Params, s: World)
    requires WInv(p, s) && WEnabled(p, s, StoreLatest)
    ensures WInv(p, WApply(p, s, StoreLatest))
  {
    QuietLive(p, s, WApply(p, s, StoreLatest));
  }

  lemma StartCancelKeeps(p: Params, s: World)
    requires WInv(p, s) && WEnabled(p, s, StartCancel)
    ensures WInv(p, WApply(p, s, StartCancel))
  {
    QuietLive(p, s, WApply(p, s, StartCancel));
  }

  lemma ShutdownKeeps(p: Params, s: World)
    requires WInv(p, s) && WEnabled(p, s, Shutdown)
    ensures WInv(p, WApply(p, s, Shutdown))
  {
    QuietLive(p, s, WApply(p, s, Shutdown));
  }

  /** Every publisher step preserves the invariant. */
  lemma WriterKeeps(p: Params, s: World, e: WEvent)
    requires WInv(p, s) && WEnabled(p, s, e)
    ensures WInv(p, WApply(p, s, e))
  {
    match e
    case Begin(w, h, src) => BeginKeeps(p, s, e);
    case MarkOdd => MarkKeeps(p, s);
    case Stamp => StampKeeps(p, s);
    case Poke(i, v) => PokeKeeps(p, s, i, v);
    case CopyByte => CopyKeeps(p, s);
    case StartCommit(ts) => StartCommitKeeps(p, s, ts);
    case CommitStep => CommitStepKeeps(p, s);
    case StoreEven => StoreEvenKeeps(p, s);
    case StoreLatest => StoreLatestKeeps(p, s);
    case StartCancel => StartCancelKeeps(p, s);
    case StoreCancel => StoreCancelKeeps(p, s);
    case Shutdown => ShutdownKeeps(p, s);
  }
}

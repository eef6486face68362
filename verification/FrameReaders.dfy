/** What every reader knows at every point of read_latest, whatever the publisher does meanwhile. */
module FrameReaders {
  import opened Words
  import opened Layout
  import opened FrameModel
  import opened FrameInvariant

  /** The first k fields read agree with the record. */
  predicate FieldsAgree(fi: Info, info: Info, k: nat) {
    && (k >= 1 ==> fi.frameId == info.frameId)
    && (k >= 2 ==> fi.timestamp == info.timestamp)
    && (k >= 3 ==> fi.width == info.width)
    && (k >= 4 ==> fi.height == info.height)
    && (k >= 5 ==> fi.stride == info.stride)
    && (k >= 6 ==> fi.payloadBytes == info.payloadBytes)
  }

  /** The record a pass is copying, as far as it has got. */
  predicate Agrees(t: Try, rec: Record, k: nat) {
    FieldsAgree(t.fi, rec.info, k) && |t.buf| <= |rec.data| && t.buf == rec.data[..|t.buf|]
  }

  /** The announcement a pass of the retry loop started from. */
  ghost predicate BaseOk(p: Params, s: World, log: Log, start: nat, attempt: nat, slot: nat, loaded: nat, base: nat)
    requires Shaped(p, s)
  {
    && attempt < ATTEMPTS
    && start <= base && 1 <= base <= s.latestAttempt <= |s.hist|
    && slot == SlotOf(p.n, base)
    && s.hist[base - 1].committed && loaded == s.hist[base - 1].info.frameId
    && loaded != log.lastFrame
    && (!p.cancels ==> log.lastFrame <= base + 1 && start + Times(attempt, p.n - 1) <= base)
    && (!p.cancels && AllExact(log.accepted) ==> log.lastFrame < base)
  }

  /** While the sampled content is live the slot's counter is unchanged; afterwards it is larger. */
  ghost predicate SampleOk(p: Params, s: World, t: Try, k: nat)
    requires Shaped(p, s)
  {
    && 1 <= t.at <= |s.hist| && SlotOf(p.n, t.at) == t.slot
    && (if Live(p, s, t.at) then s.slots[t.slot].seqno == t.before && Agrees(t, s.hist[t.at - 1], k)
        else s.slots[t.slot].seqno > t.before)
  }

  ghost predicate TryOk(p: Params, s: World, log: Log, start: nat, t: Try, k: nat)
    requires Shaped(p, s)
  {
    && BaseOk(p, s, log, start, t.attempt, t.slot, t.loaded, t.base)
    && t.base <= t.at
    && SampleOk(p, s, t, k)
  }

  /** A successful read returned exactly one finished attempt, not older than the one announced. */
  predicate AcceptOk(p: Params, hist: seq<Record>, a: Accept)
    requires ParamsOk(p)
  {
    && 1 <= a.base <= a.attempt <= |hist|
    && SlotOf(p.n, a.base) == SlotOf(p.n, a.attempt)
    && a.info == hist[a.attempt - 1].info
    && a.data == hist[a.attempt - 1].data
    && hist[a.base - 1].committed && a.loaded == hist[a.base - 1].info.frameId
  }

  /** Every accepted id is the one its call loaded from `latest`. */
  predicate AllExact(xs: seq<Accept>) {
    forall i | 0 <= i < |xs| :: xs[i].info.frameId == xs[i].loaded
  }

  /** How an accepted read stands to the id accepted before it: never equal, at most one behind, and
      behind exactly when the id loaded from `latest` was behind and the slot had not moved on. */
  predicate Follows(prev: nat, a: Accept) {
    && a.info.frameId != prev && a.info.frameId + 1 >= prev
    && (a.info.frameId < prev <==> a.loaded < prev && a.info.frameId == a.loaded)
  }

  predicate FollowsAt(xs: seq<Accept>, i: nat) {
    1 <= i < |xs| ==> Follows(xs[i - 1].info.frameId, xs[i])
  }

  ghost predicate Ordered(xs: seq<Accept>) {
    forall i: nat :: FollowsAt(xs, i)
  }

  /** How often the accepted ids step back. */
  function Backs(xs: seq<Accept>): nat {
    if |xs| < 2 then 0
    else
      var n := |xs| - 1;
      Backs(xs[..n]) + (if xs[n].info.frameId < xs[n - 1].info.frameId then 1 else 0)
  }

  /** received + dropped counts the ids from the first to the last, and each step back twice. */
  predicate Tally(log: Log) {
    log.accepted != [] ==>
      log.received + log.dropped == log.lastFrame - log.accepted[0].info.frameId + 1 + 2 * Backs(log.accepted)
  }

  predicate Counters(log: Log) {
    && log.received == |log.accepted|
    && log.lastFrame == (if log.accepted == [] then 0 else log.accepted[|log.accepted| - 1].info.frameId)
    && (log.accepted == [] ==> log.dropped == 0)
  }

  /** What holds of a session's log without cancels. */
  ghost predicate InOrder(finished: nat, latestAttempt: nat, log: Log) {
    && log.lastFrame <= finished && (log.accepted != [] ==> log.lastFrame >= 1)
    && Ordered(log.accepted) && Tally(log)
    && (AllExact(log.accepted) ==> Backs(log.accepted) == 0 && log.lastFrame <= latestAttempt)
  }

  predicate AllAcceptOk(p: Params, hist: seq<Record>, xs: seq<Accept>)
    requires ParamsOk(p)
  {
    forall i | 0 <= i < |xs| :: AcceptOk(p, hist, xs[i])
  }

  ghost predicate LogOk(p: Params, hist: seq<Record>, latestAttempt: nat, log: Log)
    requires ParamsOk(p)
  {
    && AllAcceptOk(p, hist, log.accepted) && Counters(log)
    && (!p.cancels ==> InOrder(|hist|, latestAttempt, log))
  }

  /** Attempt b was announced as frame `id`; 0 stands for nothing announced yet. */
  predicate AnnouncedAs(hist: seq<Record>, b: nat, id: nat) {
    b == 0 || (b <= |hist| && hist[b - 1].committed && hist[b - 1].info.frameId == id)
  }

  /** At some moment of the call the announced frame was the one accepted last, or there was none. */
  ghost predicate NothingNewer(s: World, r: Reader) {
    exists b: nat :: r.start <= b <= s.latestAttempt && AnnouncedAs(s.hist, b, r.log.lastFrame)
  }

  ghost predicate PcInv(p: Params, s: World, r: Reader)
    requires Shaped(p, s)
  {
    match r.pc
    case Loading(a) =>
      a < ATTEMPTS && r.start <= s.latestAttempt && (!p.cancels ==> r.start + Times(a, p.n - 1) <= s.latestAttempt)
    case Sampling(a, slot, loaded, base) => BaseOk(p, s, r.log, r.start, a, slot, loaded, base)
    case Reading(t, k) => k < 6 && t.buf == [] && TryOk(p, s, r.log, r.start, t, k)
    case Copying(t) =>
      && |t.buf| < t.fi.payloadBytes <= p.maxPayload && t.fi.payloadBytes <= r.capacity
      && TryOk(p, s, r.log, r.start, t, 6)
    case Checking(t, v) =>
      && TryOk(p, s, r.log, r.start, t, 6)
      && (v.Complete? ==> |t.buf| == t.fi.payloadBytes <= r.capacity)
      && (v.TooSmall? ==> t.fi.payloadBytes > r.capacity)
      && (v.Malformed? ==> t.fi.payloadBytes == 0 || t.fi.payloadBytes > p.maxPayload)
    case ProbingShutdown => NothingNewer(s, r)
    case Done(Ok) =>
      && r.log.accepted != []
      && var a := r.log.accepted[|r.log.accepted| - 1]; r.start <= a.base && |a.data| <= r.capacity
    case Done(Contended) =>
      && r.start + p.n <= s.begun
      && (!p.cancels ==> r.start + Times(ATTEMPTS, p.n - 1) <= s.latestAttempt)
    case Done(BufferTooSmall(info, at)) =>
      1 <= at <= |s.hist| && r.start <= at && info == s.hist[at - 1].info && info.payloadBytes > r.capacity
    case Done(NoNewFrame) => NothingNewer(s, r) && !r.late
    case Done(Disconnected) => NothingNewer(s, r) && s.shutdown
    case Ready => true
  }

  ghost predicate RInv(p: Params, s: World, r: Reader)
    requires Shaped(p, s)
  {
    LogOk(p, s.hist, s.latestAttempt, r.log) && PcInv(p, s, r) && (r.late ==> s.shutdown)
  }

  // ------------------------------------------------------ steps of the publisher

  /** What any publisher step does, as far as readers can tell. */
  ghost predicate Advance(p: Params, s: World, t: World)
    requires Shaped(p, s) && Shaped(p, t)
  {
    && s.hist <= t.hist && s.latestAttempt <= t.latestAttempt && s.begun <= t.begun
    && (s.shutdown ==> t.shutdown)
    && (forall j | 0 <= j < p.n :: s.slots[j].seqno <= t.slots[j].seqno)
    && (forall b: nat | b <= |s.hist| && Live(p, t, b) :: Live(p, s, b))
    && (forall b: nat | Live(p, s, b) && !Live(p, t, b) ::
          s.slots[SlotOf(p.n, b)].seqno < t.slots[SlotOf(p.n, b)].seqno)
  }

  lemma WriterAdvances(p: Params, s: World, e: WEvent)
    requires WInv(p, s) && WEnabled(p, s, e)
    ensures WInv(p, WApply(p, s, e)) && Advance(p, s, WApply(p, s, e))
  {
    WriterKeeps(p, s, e);
    SeqnoGrows(p, s, e);
    LiveShrinks(p, s, e);
  }

  lemma SeqnoGrows(p: Params, s: World, e: WEvent)
    requires WEnabled(p, s, e) && Counts(p, s) && LatestOk(p, s) && PcOk(p, s)
    ensures Shaped(p, WApply(p, s, e))
    ensures var t := WApply(p, s, e);
            && s.hist <= t.hist && s.latestAttempt <= t.latestAttempt && s.begun <= t.begun
            && (s.shutdown ==> t.shutdown)
            && forall j | 0 <= j < p.n :: s.slots[j].seqno <= t.slots[j].seqno
  {
    match e
    case Begin(_, _, _) =>
    case MarkOdd =>
    case Stamp =>
    case CommitStep =>
    case StoreEven =>
    case StoreCancel =>
    case StoreLatest =>
    case _ =>
  }

  /** Marking the slot odd ends the life of the attempt it held, and raises its counter. */
  lemma MarkShrinks(p: Params, s: World)
    requires WEnabled(p, s, MarkOdd) && Counts(p, s) && PcOk(p, s) && Shaped(p, WApply(p, s, MarkOdd))
    ensures var t := WApply(p, s, MarkOdd);
            && (forall b: nat | b <= |s.hist| && Live(p, t, b) :: Live(p, s, b))
            && (forall b: nat | Live(p, s, b) && !Live(p, t, b) ::
                  s.slots[SlotOf(p.n, b)].seqno < t.slots[SlotOf(p.n, b)].seqno)
  {
    var t := WApply(p, s, MarkOdd);
    forall b: nat | Live(p, s, b) && !Live(p, t, b)
      ensures s.slots[SlotOf(p.n, b)].seqno < t.slots[SlotOf(p.n, b)].seqno
    {
      SlotsDiffer(p.n, b, b + p.n);
    }
  }

  /** No other step ends the life of an attempt. */
  lemma OtherKeepsLive(p: Params, s: World, e: WEvent, b: nat)
    requires WEnabled(p, s, e) && !e.MarkOdd? && Shaped(p, WApply(p, s, e)) && b <= |s.hist|
    ensures Live(p, WApply(p, s, e), b) <==> Live(p, s, b)
  {
    var t := WApply(p, s, e);
    assert t.begun == s.begun + (if e.Begin? then 1 else 0);
    assert (e.Begin? <==> t.pc.Opening?) && |s.hist| <= |t.hist|;
  }

  lemma LiveShrinks(p: Params, s: World, e: WEvent)
    requires WEnabled(p, s, e) && Counts(p, s) && PcOk(p, s) && Shaped(p, WApply(p, s, e))
    ensures var t := WApply(p, s, e);
            && (forall b: nat | b <= |s.hist| && Live(p, t, b) :: Live(p, s, b))
            && (forall b: nat | Live(p, s, b) && !Live(p, t, b) ::
                  s.slots[SlotOf(p.n, b)].seqno < t.slots[SlotOf(p.n, b)].seqno)
  {
    if e.MarkOdd? {
      MarkShrinks(p, s);
    } else {
      forall b: nat | b <= |s.hist| ensures Live(p, WApply(p, s, e), b) <==> Live(p, s, b) {
        OtherKeepsLive(p, s, e, b);
      }
    }
  }

  lemma SampleStable(p: Params, s: World, t: World, y: Try, k: nat)
    requires Shaped(p, s) && Shaped(p, t) && History(p, s) && History(p, t) && Advance(p, s, t)
    requires SampleOk(p, s, y, k)
    ensures SampleOk(p, t, y, k)
  {
    assert Live(p, t, y.at) ==> Holds(t.slots[SlotOf(p.n, y.at)], t.hist[y.at - 1]);
    assert Live(p, s, y.at) ==> Holds(s.slots[SlotOf(p.n, y.at)], s.hist[y.at - 1]);
  }

  lemma LogStable(p: Params, hist: seq<Record>, hist': seq<Record>, latest: nat, latest': nat, log: Log)
    requires ParamsOk(p) && LogOk(p, hist, latest, log) && hist <= hist' && latest <= latest'
    ensures LogOk(p, hist', latest', log)
  {
    assert forall i | 0 <= i < |log.accepted| :: AcceptOk(p, hist, log.accepted[i]);
  }

  lemma BaseStable(p: Params, s: World, t: World, r: Reader, attempt: nat, slot: nat, loaded: nat, base: nat)
    requires Shaped(p, s) && Shaped(p, t) && s.hist <= t.hist && s.latestAttempt <= t.latestAttempt <= |t.hist|
    requires BaseOk(p, s, r.log, r.start, attempt, slot, loaded, base)
    ensures BaseOk(p, t, r.log, r.start, attempt, slot, loaded, base)
  {
  }

  lemma TryStable(p: Params, s: World, t: World, r: Reader, y: Try, k: nat)
    requires Shaped(p, s) && Shaped(p, t) && History(p, s) && History(p, t) && Advance(p, s, t)
    requires t.latestAttempt <= |t.hist| && TryOk(p, s, r.log, r.start, y, k)
    ensures TryOk(p, t, r.log, r.start, y, k)
  {
    SampleStable(p, s, t, y, k);
    BaseStable(p, s, t, r, y.attempt, y.slot, y.loaded, y.base);
  }

  /** What was announced stays announced. */
  lemma NothingNewerStable(s: World, t: World, r: Reader)
    requires NothingNewer(s, r) && s.hist <= t.hist && s.latestAttempt <= t.latestAttempt
    ensures NothingNewer(t, r)
  {
    var b: nat :| r.start <= b <= s.latestAttempt && AnnouncedAs(s.hist, b, r.log.lastFrame);
    assert AnnouncedAs(t.hist, b, r.log.lastFrame);
  }

  lemma PcStable(p: Params, s: World, t: World, r: Reader)
    requires Shaped(p, s) && Shaped(p, t) && History(p, s) && History(p, t) && Advance(p, s, t)
    requires t.latestAttempt <= |t.hist| && PcInv(p, s, r)
    ensures PcInv(p, t, r)
  {
    match r.pc
    case ProbingShutdown => NothingNewerStable(s, t, r);
    case Done(NoNewFrame) => NothingNewerStable(s, t, r);
    case Done(Disconnected) => NothingNewerStable(s, t, r);
    case Sampling(a, slot, loaded, base) => BaseStable(p, s, t, r, a, slot, loaded, base);
    case Reading(y, k) => TryStable(p, s, t, r, y, k);
    case Copying(y) => TryStable(p, s, t, r, y, 6);
    case Checking(y, v) => TryStable(p, s, t, r, y, 6);
    case _ =>
  }

  /** A publisher step never breaks what a reader knows. */
  lemma ReaderStable(p: Params, s: World, t: World, r: Reader)
    requires Shaped(p, s) && Shaped(p, t) && History(p, s) && History(p, t) && Advance(p, s, t)
    requires t.latestAttempt <= |t.hist| && RInv(p, s, r)
    ensures RInv(p, t, r)
  {
    LogStable(p, s.hist, t.hist, s.latestAttempt, t.latestAttempt, r.log);
    PcStable(p, s, t, r);
  }

  // ------------------------------------------------------------ steps of a reader

  /** A finished attempt that is no longer live has been overtaken by a full turn of the ring:
      that many writes have begun since, and without cancels all but one of them are announced. */
  lemma OvertakenMeansLapped(p: Params, s: World, b: nat)
    requires WInv(p, s) && 1 <= b <= |s.hist| && !Live(p, s, b)
    ensures s.begun >= b + p.n
    ensures !p.cancels ==> s.latestAttempt >= b + p.n - 1
  {
  }

  /** The publisher is inside the slot an announcement named: again a full turn. */
  lemma OddMeansLapped(p: Params, s: World, b: nat)
    requires WInv(p, s) && 1 <= b <= |s.hist| && s.slots[SlotOf(p.n, b)].seqno % 2 == 1
    ensures s.begun >= b + p.n
    ensures !p.cancels ==> s.latestAttempt >= b + p.n - 1
  {
    SlotsDiffer(p.n, b, s.begun);
  }

  /** A slot with an even counter shows the last finished attempt that used it. */
  lemma EvenMeansLive(p: Params, s: World, b: nat)
    requires WInv(p, s) && 1 <= b <= |s.hist| && s.slots[SlotOf(p.n, b)].seqno % 2 == 0
    ensures var at := LastInSlot(p, b, |s.hist|);
            Live(p, s, at) && b <= at <= |s.hist| && SlotOf(p.n, at) == SlotOf(p.n, b)
  {
    var at := LastInSlot(p, b, |s.hist|);
    LastInSlotSameSlot(p, b, |s.hist|);
    SlotsDiffer(p.n, at, at + p.n);
  }

  /** Unpacking `latest`. */
  lemma Unpacked(n: nat, latest: nat, id: nat, b: nat)
    requires MIN_SLOTS <= n <= MAX_SLOTS && latest == 4 * id + SlotOf(n, b)
    ensures latest % 4 == SlotOf(n, b) < n && latest / 4 == id
  {
    SlotOfIsMod(n, b);
  }

  /** A pass that goes ahead starts from the frame announced at the moment of its load. */
  lemma LoadedBase(p: Params, s: World, r: Reader, a: nat)
    requires Shaped(p, s) && LatestOk(p, s) && CancelFree(p, s) && s.latest != 0 && a < ATTEMPTS
    requires s.latest / 4 != r.log.lastFrame
    requires !p.cancels ==> InOrder(|s.hist|, s.latestAttempt, r.log)
    requires r.start <= s.latestAttempt && (!p.cancels ==> r.start + Times(a, p.n - 1) <= s.latestAttempt)
    ensures s.latest % 4 < p.n
    ensures BaseOk(p, s, r.log, r.start, a, s.latest % 4, s.latest / 4, s.latestAttempt)
  {
    Unpacked(p.n, s.latest, s.hist[s.latestAttempt - 1].info.frameId, s.latestAttempt);
  }

  /** A pass that stops at its load has found the announcement it accepted before, or none. */
  lemma LoadedNothingNewer(p: Params, s: World, r: Reader)
    requires Shaped(p, s) && LatestOk(p, s) && r.start <= s.latestAttempt
    requires s.latest == 0 || s.latest / 4 == r.log.lastFrame
    ensures NothingNewer(s, r)
  {
    var b := s.latestAttempt;
    if b > 0 { Unpacked(p.n, s.latest, s.hist[b - 1].info.frameId, b); }
    assert AnnouncedAs(s.hist, b, r.log.lastFrame);
  }

  lemma LoadingKeeps(p: Params, s: World, r: Reader)
    requires REnabled(p, s, r) && LatestOk(p, s) && CancelFree(p, s) && RInv(p, s, r) && r.pc.Loading?
    ensures PcInv(p, s, RApply(p, s, r))
  {
    if s.latest != 0 && s.latest / 4 != r.log.lastFrame {
      LoadedBase(p, s, r, r.pc.attempt);
    } else {
      LoadedNothingNewer(p, s, r);
    }
  }

  /** Only the shutdown word decides between the two answers. */
  lemma ProbingKeeps(p: Params, s: World, r: Reader)
    requires REnabled(p, s, r) && PcInv(p, s, r) && r.pc.ProbingShutdown? && (r.late ==> s.shutdown)
    ensures PcInv(p, s, RApply(p, s, r))
  {
    var b: nat :| r.start <= b <= s.latestAttempt && AnnouncedAs(s.hist, b, r.log.lastFrame);
    assert AnnouncedAs(s.hist, b, RApply(p, s, r).log.lastFrame);
  }

  /** Giving up a pass is only possible after a full turn of the ring. */
  lemma RetryKeeps(p: Params, s: World, r: Reader, attempt: nat, base: nat)
    requires Shaped(p, s) && attempt < ATTEMPTS && r.start <= s.latestAttempt && r.start + p.n <= s.begun
    requires !p.cancels ==> r.start + Times(attempt, p.n - 1) <= base && s.latestAttempt >= base + p.n - 1
    ensures PcInv(p, s, r.(pc := NextAttempt(attempt)))
  {
  }

  lemma SamplingKeeps(p: Params, s: World, r: Reader)
    requires WInv(p, s) && PcInv(p, s, r) && REnabled(p, s, r) && r.pc.Sampling?
    ensures PcInv(p, s, RApply(p, s, r))
  {
    var base := r.pc.base;
    if s.slots[r.pc.slot].seqno % 2 == 1 {
      OddMeansLapped(p, s, base);
      RetryKeeps(p, s, r, r.pc.attempt, base);
    } else {
      EvenMeansLive(p, s, base);
    }
  }

  lemma FieldStep(fi: Info, info: Info, k: nat)
    requires k < 6 && FieldsAgree(fi, info, k)
    ensures FieldsAgree(ReadField(fi, info, k), info, k + 1)
  {
  }

  lemma ReadingKeeps(p: Params, s: World, r: Reader)
    requires REnabled(p, s, r) && History(p, s) && PcInv(p, s, r) && r.pc.Reading?
    ensures PcInv(p, s, RApply(p, s, r))
  {
    var t, k := r.pc.t, r.pc.k;
    var info := s.slots[t.slot].info;
    var t' := t.(fi := ReadField(t.fi, info, k));
    if Live(p, s, t.at) {
      assert Holds(s.slots[SlotOf(p.n, t.at)], s.hist[t.at - 1]);
      FieldStep(t.fi, info, k);
    }
    assert SampleOk(p, s, t', k + 1);
  }

  lemma CopyingKeeps(p: Params, s: World, r: Reader)
    requires REnabled(p, s, r) && History(p, s) && PcInv(p, s, r) && r.pc.Copying?
    ensures PcInv(p, s, RApply(p, s, r))
  {
    var t := r.pc.t;
    var t' := t.(buf := t.buf + [s.slots[t.slot].payload[|t.buf|]]);
    if Live(p, s, t.at) {
      var sl, rec := s.slots[t.slot], s.hist[t.at - 1];
      assert Holds(sl, rec) && RecordOk(p, rec);
      CopyOne(sl.payload, rec, t.buf);
    }
    assert SampleOk(p, s, t', 6);
  }

  lemma CopyOne(payload: seq<Byte>, rec: Record, buf: seq<Byte>)
    requires |rec.data| == rec.info.payloadBytes <= |payload| && payload[..rec.info.payloadBytes] == rec.data
    requires |buf| < |rec.data| && buf == rec.data[..|buf|]
    ensures buf + [payload[|buf|]] == rec.data[..|buf| + 1]
  {
    assert payload[|buf|] == payload[..rec.info.payloadBytes][|buf|];
  }

  /** The seqlock argument: an unchanged even counter means the copy is one finished attempt. */
  lemma UnchangedMeansWhole(p: Params, s: World, r: Reader)
    requires Shaped(p, s) && History(p, s) && PcInv(p, s, r) && r.pc.Checking?
    requires s.slots[r.pc.t.slot].seqno == r.pc.t.before
    ensures var t := r.pc.t;
            && Live(p, s, t.at)
            && t.fi == s.hist[t.at - 1].info
            && (r.pc.verdict.Complete? ==> t.buf == s.hist[t.at - 1].data)
            && !r.pc.verdict.Malformed?
  {
    var t := r.pc.t;
    assert RecordOk(p, s.hist[t.at - 1]);
  }

  /** The accepted id against the previously accepted one. */
  lemma AcceptedOrder(p: Params, s: World, log: Log, start: nat, t: Try)
    requires Shaped(p, s) && CancelFree(p, s) && !p.cancels && TryOk(p, s, log, start, t, 6)
    requires t.fi == s.hist[t.at - 1].info
    ensures t.fi.frameId == t.at && t.loaded == t.base
    ensures Follows(log.lastFrame, Accept(t.fi, t.buf, t.at, t.base, t.loaded))
  {
    if t.base < t.at <= t.base + 1 { SlotsDiffer(p.n, t.base, t.at); }
    if t.at == log.lastFrame { SlotsDiffer(p.n, t.base, t.at); }
  }

  lemma OrderedSnoc(xs: seq<Accept>, a: Accept)
    requires Ordered(xs) && (xs != [] ==> Follows(xs[|xs| - 1].info.frameId, a))
    ensures Ordered(xs + [a])
  {
    var ys := xs + [a];
    forall i: nat ensures FollowsAt(ys, i) { assert FollowsAt(xs, i); }
  }

  lemma BacksSnoc(xs: seq<Accept>, a: Accept)
    ensures Backs(xs + [a]) ==
            Backs(xs) + (if xs != [] && a.info.frameId < xs[|xs| - 1].info.frameId then 1 else 0)
  {
    assert (xs + [a])[..|xs|] == xs;
  }

  lemma AllExactInit(xs: seq<Accept>, a: Accept)
    requires AllExact(xs + [a])
    ensures AllExact(xs) && a.info.frameId == a.loaded
  {
    var ys := xs + [a];
    assert ys[|xs|] == a;
    forall i | 0 <= i < |xs| ensures xs[i].info.frameId == xs[i].loaded { assert ys[i] == xs[i]; }
  }

  lemma InOrderExtends(finished: nat, latest: nat, log: Log, t: Try)
    requires Counters(log) && InOrder(finished, latest, log)
    requires t.fi.frameId == t.at && t.loaded == t.base && 1 <= t.base <= t.at <= finished && t.base <= latest
    requires Follows(log.lastFrame, Accept(t.fi, t.buf, t.at, t.base, t.loaded))
    requires AllExact(log.accepted) ==> log.lastFrame < t.base
    ensures InOrder(finished, latest, AcceptFrame(log, t))
  {
    var a := Accept(t.fi, t.buf, t.at, t.base, t.loaded);
    OrderedSnoc(log.accepted, a);
    BacksSnoc(log.accepted, a);
    if AllExact(log.accepted + [a]) { AllExactInit(log.accepted, a); }
    assert AcceptFrame(log, t).accepted[0] == if log.accepted == [] then a else log.accepted[0];
  }

  /** Appending one accepted read keeps the session log in order and in balance. */
  lemma LogExtends(p: Params, hist: seq<Record>, latest: nat, log: Log, t: Try)
    requires ParamsOk(p) && LogOk(p, hist, latest, log)
    requires AcceptOk(p, hist, Accept(t.fi, t.buf, t.at, t.base, t.loaded))
    requires !p.cancels ==>
               && t.fi.frameId == t.at && t.loaded == t.base && t.base <= latest
               && Follows(log.lastFrame, Accept(t.fi, t.buf, t.at, t.base, t.loaded))
               && (AllExact(log.accepted) ==> log.lastFrame < t.base)
    ensures LogOk(p, hist, latest, AcceptFrame(log, t))
  {
    if !p.cancels { InOrderExtends(|hist|, latest, log, t); }
  }

  lemma AcceptedEntry(p: Params, s: World, log: Log, start: nat, t: Try)
    requires Shaped(p, s) && BaseOk(p, s, log, start, t.attempt, t.slot, t.loaded, t.base)
    requires t.base <= t.at <= |s.hist| && SlotOf(p.n, t.at) == t.slot
    requires t.fi == s.hist[t.at - 1].info && t.buf == s.hist[t.at - 1].data
    ensures AcceptOk(p, s.hist, Accept(t.fi, t.buf, t.at, t.base, t.loaded))
  {
  }

  lemma AcceptKeeps(p: Params, s: World, log: Log, start: nat, t: Try)
    requires Shaped(p, s) && CancelFree(p, s) && LogOk(p, s.hist, s.latestAttempt, log)
    requires TryOk(p, s, log, start, t, 6)
    requires t.fi == s.hist[t.at - 1].info && t.buf == s.hist[t.at - 1].data
    ensures LogOk(p, s.hist, s.latestAttempt, AcceptFrame(log, t))
  {
    AcceptedEntry(p, s, log, start, t);
    if !p.cancels { AcceptedOrder(p, s, log, start, t); }
    LogExtends(p, s.hist, s.latestAttempt, log, t);
  }

  lemma CheckFailsKeeps(p: Params, s: World, r: Reader)
    requires WInv(p, s) && PcInv(p, s, r) && r.pc.Checking? && s.slots[r.pc.t.slot].seqno != r.pc.t.before
    ensures PcInv(p, s, r.(pc := NextAttempt(r.pc.t.attempt)))
  {
    OvertakenMeansLapped(p, s, r.pc.t.at);
    RetryKeeps(p, s, r, r.pc.t.attempt, r.pc.t.base);
  }

  lemma CheckPassesKeeps(p: Params, s: World, r: Reader)
    requires REnabled(p, s, r) && History(p, s) && PcInv(p, s, r)
    requires r.pc.Checking? && s.slots[r.pc.t.slot].seqno == r.pc.t.before
    ensures PcInv(p, s, RApply(p, s, r))
  {
    UnchangedMeansWhole(p, s, r);
  }

  lemma CheckingKeeps(p: Params, s: World, r: Reader)
    requires WInv(p, s) && PcInv(p, s, r) && REnabled(p, s, r) && r.pc.Checking?
    ensures PcInv(p, s, RApply(p, s, r))
  {
    if s.slots[r.pc.t.slot].seqno != r.pc.t.before {
      CheckFailsKeeps(p, s, r);
    } else {
      CheckPassesKeeps(p, s, r);
    }
  }

  predicate Accepting(s: World, pc: ReaderPc) {
    pc.Checking? && pc.verdict.Complete? && pc.t.slot < |s.slots| && s.slots[pc.t.slot].seqno == pc.t.before
  }

  /** Only an accepting check changes the session log. */
  lemma LogChange(p: Params, s: World, r: Reader)
    requires REnabled(p, s, r)
    ensures RApply(p, s, r).log == if Accepting(s, r.pc) then AcceptFrame(r.log, r.pc.t) else r.log
  {
  }

  /** An accepting check has one finished attempt in hand. */
  predicate Whole(s: World, t: Try) {
    1 <= t.at <= |s.hist| && t.fi == s.hist[t.at - 1].info && t.buf == s.hist[t.at - 1].data
  }

  lemma LogKeeps(p: Params, s: World, r: Reader)
    requires REnabled(p, s, r) && CancelFree(p, s) && RInv(p, s, r)
    requires Accepting(s, r.pc) ==> Whole(s, r.pc.t)
    ensures LogOk(p, s.hist, s.latestAttempt, RApply(p, s, r).log)
  {
    LogChange(p, s, r);
    if Accepting(s, r.pc) { AcceptKeeps(p, s, r.log, r.start, r.pc.t); }
  }

  lemma PcKeeps(p: Params, s: World, r: Reader)
    requires WInv(p, s) && RInv(p, s, r) && REnabled(p, s, r)
    ensures PcInv(p, s, RApply(p, s, r))
  {
    match r.pc
    case Loading(_) => LoadingKeeps(p, s, r);
    case ProbingShutdown => ProbingKeeps(p, s, r);
    case Sampling(_, _, _, _) => SamplingKeeps(p, s, r);
    case Reading(_, _) => ReadingKeeps(p, s, r);
    case Copying(_) => CopyingKeeps(p, s, r);
    case Checking(_, _) => CheckingKeeps(p, s, r);
    case _ =>
  }

  lemma LateKept(p: Params, s: World, r: Reader)
    requires REnabled(p, s, r)
    ensures RApply(p, s, r).late == r.late
  {
  }

  lemma AcceptingIsWhole(p: Params, s: World, r: Reader)
    requires Shaped(p, s) && History(p, s) && PcInv(p, s, r) && Accepting(s, r.pc)
    ensures Whole(s, r.pc.t)
  {
    UnchangedMeansWhole(p, s, r);
  }

  /** Every step of a reader preserves what it knows. */
  lemma ReaderKeeps(p: Params, s: World, r: Reader)
    requires WInv(p, s) && RInv(p, s, r) && REnabled(p, s, r)
    ensures RInv(p, s, RApply(p, s, r))
  {
    LateKept(p, s, r);
    PcKeeps(p, s, r);
    if Accepting(s, r.pc) { AcceptingIsWhole(p, s, r); }
    LogKeeps(p, s, r);
  }

  // ------------------------------------------------------------------ whole system

  ghost predicate Inv(p: Params, s: Sys) {
    && WInv(p, s.world)
    && forall id | id in s.readers :: RInv(p, s.world, s.readers[id])
  }

  lemma WriteKeeps(p: Params, s: Sys, w: WEvent)
    requires Inv(p, s) && Enabled(p, s, Write(w))
    ensures Inv(p, Apply(p, s, Write(w)))
  {
    WriterAdvances(p, s.world, w);
    var t := WApply(p, s.world, w);
    forall id | id in s.readers ensures RInv(p, t, s.readers[id]) {
      ReaderStable(p, s.world, t, s.readers[id]);
    }
  }

  /** Replacing one reader, in an unchanged world. */
  lemma ReplaceKeeps(p: Params, s: Sys, id: nat, r: Reader)
    requires Inv(p, s) && RInv(p, s.world, r)
    ensures Inv(p, s.(readers := s.readers[id := r]))
  {
  }

  lemma CallKeeps(p: Params, s: World, r: Reader, capacity: nat)
    requires Shaped(p, s) && LogOk(p, s.hist, s.latestAttempt, r.log)
    ensures RInv(p, s, Calling(s, r, capacity))
  {
  }

  /** Every step of every participant preserves the joint invariant. */
  lemma StepKeeps(p: Params, s: Sys, e: Event)
    requires Inv(p, s) && Enabled(p, s, e)
    ensures Inv(p, Apply(p, s, e))
  {
    match e
    case Write(w) => WriteKeeps(p, s, w);
    case Read(id) =>
      ReaderKeeps(p, s.world, s.readers[id]);
      ReplaceKeeps(p, s, id, RApply(p, s.world, s.readers[id]));
    case Join(id) =>
      ReplaceKeeps(p, s, id, NEW_READER);
    case Call(id, capacity) =>
      CallKeeps(p, s.world, s.readers[id], capacity);
      ReplaceKeeps(p, s, id, Apply(p, s, e).readers[id]);
  }

  lemma {:induction false} RunKeeps(p: Params, s: Sys, es: seq<Event>, t: Sys)
    requires Inv(p, s) && Runs(p, s, es, t)
    ensures Inv(p, t)
    decreases |es|
  {
    if es != [] {
      StepKeeps(p, s, es[0]);
      RunKeeps(p, Apply(p, s, es[0]), es[1..], t);
    }
  }

  /** The invariant holds in every reachable state. */
  lemma ReachableInv(p: Params, t: Sys)
    requires ParamsOk(p) && Reachable(p, t)
    ensures Inv(p, t)
  {
    var es :| Runs(p, Init(p), es, t);
    InitHolds(p);
    RunKeeps(p, Init(p), es, t);
  }
}

/** What the frame path guarantees in every reachable state. */
module FrameTheorems {
  import opened Words
  import opened Layout
  import opened FrameModel
  import opened FrameInvariant
  import opened FrameReaders

  /** The bytes and all six fields of an accepted read are those of one committed frame. */
  ghost predicate OneCommittedFrame(s: World, a: Accept) {
    exists b :: 0 <= b < |s.hist| && s.hist[b].committed && a.info == s.hist[b].info && a.data == s.hist[b].data
  }

  ghost predicate NoTornFrames(s: Sys) {
    forall id, i | id in s.readers && 0 <= i < |s.readers[id].log.accepted| ::
      OneCommittedFrame(s.world, s.readers[id].log.accepted[i])
  }

  /** In every interleaving of a publisher that never cancels with any number of readers, each
      successful read is one committed frame, however often the writer laps the reader. */
  lemma NoTornFramesWithoutCancels(p: Params, s: Sys)
    requires ParamsOk(p) && !p.cancels && Reachable(p, s)
    ensures NoTornFrames(s)
  {
    ReachableInv(p, s);
    forall id, i | id in s.readers && 0 <= i < |s.readers[id].log.accepted|
      ensures OneCommittedFrame(s.world, s.readers[id].log.accepted[i])
    {
      var a := s.readers[id].log.accepted[i];
      assert RInv(p, s.world, s.readers[id]) && AcceptOk(p, s.world.hist, a);
      assert s.world.hist[a.attempt - 1].committed;
    }
  }

  /** What one accepted read is, cancels or not: exactly one finished attempt, in the announced slot.
      Either it is the announced attempt itself, hence committed and with the loaded id, or the reader
      was lapped and it is at least a full turn of the ring newer. */
  ghost predicate OneAttempt(p: Params, s: World, a: Accept)
    requires ParamsOk(p)
  {
    && 1 <= a.base <= a.attempt <= |s.hist| && SlotOf(p.n, a.base) == SlotOf(p.n, a.attempt)
    && a.info == s.hist[a.attempt - 1].info && a.data == s.hist[a.attempt - 1].data
    && (a.attempt == a.base ==> s.hist[a.attempt - 1].committed && a.info.frameId == a.loaded)
    && (a.attempt != a.base ==> a.attempt >= a.base + p.n)
  }

  lemma AcceptIsOneAttempt(p: Params, s: World, a: Accept)
    requires ParamsOk(p) && AcceptOk(p, s.hist, a)
    ensures OneAttempt(p, s, a)
  {
    if a.base < a.attempt < a.base + p.n { SlotsDiffer(p.n, a.base, a.attempt); }
  }

  /** Every successful read is one finished attempt; it is a committed frame unless that attempt was
      cancelled, which only a lapped reader can meet. A BufferTooSmall report likewise describes one
      finished attempt. */
  lemma ReadsAreOneAttempt(p: Params, s: Sys, id: nat)
    requires ParamsOk(p) && Reachable(p, s) && id in s.readers
    ensures forall i | 0 <= i < |s.readers[id].log.accepted| ::
              var a := s.readers[id].log.accepted[i];
              && OneAttempt(p, s.world, a)
              && (!OneCommittedFrame(s.world, a) ==>
                    a.attempt >= a.base + p.n && !s.world.hist[a.attempt - 1].committed)
    ensures match s.readers[id].pc
            case Done(BufferTooSmall(info, at)) => 1 <= at <= |s.world.hist| && info == s.world.hist[at - 1].info
            case _ => true
  {
    ReachableInv(p, s);
    var r := s.readers[id];
    assert RInv(p, s.world, r);
    forall i | 0 <= i < |r.log.accepted|
      ensures OneAttempt(p, s.world, r.log.accepted[i])
    {
      AcceptIsOneAttempt(p, s.world, r.log.accepted[i]);
    }
  }

  /** Latest wins, cancels or not: a read that succeeded returned the frame announced when the call began,
      or a later attempt, even if it had to retry. Without cancels its id is at least the one `latest`
      showed at that moment. */
  lemma LatestWins(p: Params, s: Sys, id: nat)
    requires ParamsOk(p) && Reachable(p, s) && id in s.readers && s.readers[id].pc == Done(Ok)
    ensures var r := s.readers[id]; var xs := r.log.accepted;
            && xs != [] && r.start <= xs[|xs| - 1].base <= xs[|xs| - 1].attempt <= |s.world.hist|
            && (!p.cancels ==> xs[|xs| - 1].info.frameId >= r.start)
  {
    ReachableInv(p, s);
    var r := s.readers[id];
    assert RInv(p, s.world, r) && AcceptOk(p, s.world.hist, r.log.accepted[|r.log.accepted| - 1]);
  }

  /** Why a call that has returned says what it says. In every case but Contended, the frame announced
      when the call began has been dealt with: accepted, reported as too large, or accepted before. */
  ghost predicate Justified(p: Params, s: World, r: Reader, result: ReadResult) {
    match result
    case Ok =>
      && r.log.accepted != []
      && var a := r.log.accepted[|r.log.accepted| - 1]; r.start <= a.base && |a.data| <= r.capacity
    case NoNewFrame => NothingNewer(s, r) && !r.late && (!p.cancels ==> r.start <= r.log.lastFrame)
    case Disconnected => NothingNewer(s, r) && s.shutdown && (!p.cancels ==> r.start <= r.log.lastFrame)
    case BufferTooSmall(info, at) =>
      1 <= at <= |s.hist| && r.start <= at && info == s.hist[at - 1].info && info.payloadBytes > r.capacity
    case Contended =>
      r.start + p.n <= s.begun && (!p.cancels ==> s.latestAttempt - r.start >= 4 * (p.n - 1))
  }

  /** Ids being attempts, the frame accepted last is not older than the one announced at the start. */
  lemma NothingWithheld(p: Params, s: World, r: Reader)
    requires !p.cancels && Numbered(p, s.hist) && NothingNewer(s, r)
    ensures r.start <= r.log.lastFrame
  {
    var b: nat :| r.start <= b <= s.latestAttempt && AnnouncedAs(s.hist, b, r.log.lastFrame);
  }

  lemma AnswerJustified(p: Params, s: World, r: Reader)
    requires Shaped(p, s) && Numbered(p, s.hist) && PcInv(p, s, r) && r.pc.Done?
    ensures Justified(p, s, r, r.pc.result)
  {
    match r.pc.result
    case NoNewFrame => if !p.cancels { NothingWithheld(p, s, r); }
    case Disconnected => if !p.cancels { NothingWithheld(p, s, r); }
    case Contended => TimesIsProduct(4, p.n - 1);
    case Ok =>
    case BufferTooSmall(info, at) =>
  }

  /** Every answer of read_latest has its reason. NoNewFrame and Disconnected mean that the announced frame
      was the one accepted last, or that there was none; Disconnected comes only after a shutdown, and a
      call that began after one never ends in NoNewFrame; BufferTooSmall means that a whole frame, not
      older than the announced one, exceeds the buffer; Contended, that the reader was lapped. */
  lemma EveryAnswerHasItsReason(p: Params, s: Sys, id: nat)
    requires ParamsOk(p) && Reachable(p, s) && id in s.readers && s.readers[id].pc.Done?
    ensures Justified(p, s.world, s.readers[id], s.readers[id].pc.result)
  {
    ReachableInv(p, s);
    assert RInv(p, s.world, s.readers[id]);
    AnswerJustified(p, s.world, s.readers[id]);
  }

  lemma ReportFitsSlot(p: Params, s: World, info: Info, at: nat)
    requires RecordsOk(p, s.hist) && 1 <= at <= |s.hist| && info == s.hist[at - 1].info
    ensures info.payloadBytes <= p.maxPayload
  {
    assert RecordOk(p, s.hist[at - 1]);
  }

  /** So a call with room for a frame, during which no full turn of writes was begun, either delivers a
      frame not older than the announced one or has found nothing it did not have. */
  lemma NewsIsDelivered(p: Params, s: Sys, id: nat)
    requires ParamsOk(p) && Reachable(p, s) && id in s.readers && s.readers[id].pc.Done?
    requires s.readers[id].capacity >= p.maxPayload && s.world.begun < s.readers[id].start + p.n
    ensures var r := s.readers[id]; var xs := r.log.accepted;
            if r.pc == Done(Ok) then xs != [] && r.start <= xs[|xs| - 1].base
            else r.pc == Done(if s.world.shutdown && r.pc.result.Disconnected? then Disconnected else NoNewFrame)
                 && NothingNewer(s.world, r)
  {
    EveryAnswerHasItsReason(p, s, id);
    ReachableInv(p, s);
    var result := s.readers[id].pc.result;
    if result.BufferTooSmall? { ReportFitsSlot(p, s.world, result.info, result.attempt); }
  }

  predicate RisesAt(xs: seq<Accept>, i: nat) {
    1 <= i < |xs| ==> xs[i - 1].info.frameId < xs[i].info.frameId
  }

  /** Accepted ids strictly increase. */
  ghost predicate Increasing(xs: seq<Accept>) {
    forall i: nat :: RisesAt(xs, i)
  }

  /** Read i loaded an announcement behind the last accepted id, and found its slot not yet reused. */
  predicate LooksBack(xs: seq<Accept>, i: nat) {
    1 <= i < |xs| && xs[i].loaded < xs[i - 1].info.frameId && xs[i].info.frameId == xs[i].loaded
  }

  predicate FreshAt(xs: seq<Accept>, i: nat) {
    1 <= i < |xs| ==> xs[i - 1].info.frameId < xs[i].loaded
  }

  /** Every load was above the id accepted before it. */
  ghost predicate FreshLoads(xs: seq<Accept>) {
    forall i: nat :: FreshAt(xs, i)
  }

  lemma IncreasingSnoc(xs: seq<Accept>, n: nat)
    requires n + 1 == |xs|
    ensures Increasing(xs) <==> Increasing(xs[..n]) && RisesAt(xs, n)
  {
    var init := xs[..n];
    forall i: nat | i != n ensures RisesAt(xs, i) <==> RisesAt(init, i) {}
    if Increasing(xs) {
      forall i: nat ensures RisesAt(init, i) { assert RisesAt(xs, i); }
    }
    if Increasing(init) && RisesAt(xs, n) {
      forall i: nat ensures RisesAt(xs, i) { assert RisesAt(init, i); }
    }
  }

  /** Strictly increasing is never stepping back. */
  lemma {:induction false} BacksZero(xs: seq<Accept>)
    requires Ordered(xs)
    ensures Backs(xs) == 0 <==> Increasing(xs)
    decreases |xs|
  {
    if |xs| >= 2 {
      var n := |xs| - 1;
      forall i: nat ensures FollowsAt(xs[..n], i) { assert FollowsAt(xs, i); }
      BacksZero(xs[..n]);
      IncreasingSnoc(xs, n);
      assert FollowsAt(xs, n);
    }
  }

  lemma IncreasingExactly(xs: seq<Accept>)
    requires Ordered(xs)
    ensures Increasing(xs) <==> forall i: nat :: !LooksBack(xs, i)
    ensures FreshLoads(xs) ==> Increasing(xs)
  {
    forall i: nat ensures RisesAt(xs, i) <==> !LooksBack(xs, i) { assert FollowsAt(xs, i); }
    forall i: nat ensures FreshAt(xs, i) ==> RisesAt(xs, i) { assert FollowsAt(xs, i); }
  }

  lemma SessionInOrder(p: Params, s: Sys, id: nat)
    requires ParamsOk(p) && !p.cancels && Reachable(p, s) && id in s.readers
    ensures var log := s.readers[id].log;
            && Counters(log) && InOrder(|s.world.hist|, s.world.latestAttempt, log)
            && forall i | 0 <= i < |log.accepted| :: log.accepted[i].loaded <= log.accepted[i].info.frameId
  {
    ReachableInv(p, s);
    var log := s.readers[id].log;
    assert RInv(p, s.world, s.readers[id]);
    forall i | 0 <= i < |log.accepted| ensures log.accepted[i].loaded <= log.accepted[i].info.frameId {
      assert AcceptOk(p, s.world.hist, log.accepted[i]);
    }
  }

  /** Order within a session, without cancels: an accepted id is at least the one loaded, differs from
      the one accepted before it, is at most one behind it, and is behind exactly when the load was
      behind and the slot had not been reused. */
  lemma AcceptedIdOrder(p: Params, s: Sys, id: nat)
    requires ParamsOk(p) && !p.cancels && Reachable(p, s) && id in s.readers
    ensures var xs := s.readers[id].log.accepted;
            && (forall i | 0 <= i < |xs| :: xs[i].loaded <= xs[i].info.frameId)
            && Ordered(xs)
  {
    SessionInOrder(p, s, id);
  }

  /** The ids from the first accepted to the last. */
  function Span(xs: seq<Accept>): int
    requires xs != []
  {
    xs[|xs| - 1].info.frameId - xs[0].info.frameId + 1
  }

  lemma StrictOrderOfLog(finished: nat, latest: nat, log: Log)
    requires Counters(log) && InOrder(finished, latest, log)
    ensures Increasing(log.accepted) <==> forall i: nat :: !LooksBack(log.accepted, i)
    ensures FreshLoads(log.accepted) || AllExact(log.accepted) ==> Increasing(log.accepted)
    ensures log.accepted != [] ==>
              && log.received + log.dropped == Span(log.accepted) + 2 * Backs(log.accepted)
              && (Increasing(log.accepted) <==> log.received + log.dropped == Span(log.accepted))
  {
    IncreasingExactly(log.accepted);
    BacksZero(log.accepted);
  }

  /** When accepted ids strictly increase, without cancels: exactly when no load looks back, and exactly
      when received + dropped is the number of ids from the first to the last; each step back adds two to
      that sum. It is enough that every load is above the last accepted id, or that every accepted id is
      the loaded one. */
  lemma StrictOrderExactly(p: Params, s: Sys, id: nat)
    requires ParamsOk(p) && !p.cancels && Reachable(p, s) && id in s.readers
    ensures var log := s.readers[id].log; var xs := log.accepted;
            && (Increasing(xs) <==> forall i: nat :: !LooksBack(xs, i))
            && (FreshLoads(xs) || AllExact(xs) ==> Increasing(xs))
            && (xs != [] ==>
                  && log.received + log.dropped == Span(xs) + 2 * Backs(xs)
                  && (Increasing(xs) <==> log.received + log.dropped == Span(xs)))
  {
    SessionInOrder(p, s, id);
    StrictOrderOfLog(|s.world.hist|, s.world.latestAttempt, s.readers[id].log);
  }

  function BaseOf(pc: ReaderPc): nat
    requires pc.Sampling? || pc.Checking?
  {
    if pc.Sampling? then pc.base else pc.t.base
  }

  /** A pass is abandoned only after a full turn of the ring since the frame it went for: n writes
      have begun, and without cancels `latest` has advanced by at least n - 1. */
  lemma RetryMeansLapped(p: Params, s: Sys, id: nat)
    requires ParamsOk(p) && Reachable(p, s) && Enabled(p, s, Read(id))
    requires s.readers[id].pc.Sampling? || s.readers[id].pc.Checking?
    requires var pc := RApply(p, s.world, s.readers[id]).pc; pc.Loading? || pc == Done(Contended)
    ensures s.world.begun >= BaseOf(s.readers[id].pc) + p.n
    ensures !p.cancels ==> s.world.latestAttempt >= BaseOf(s.readers[id].pc) + (p.n - 1)
  {
    ReachableInv(p, s);
    var r := s.readers[id];
    if r.pc.Sampling? {
      OddMeansLapped(p, s.world, r.pc.base);
    } else {
      CheckRetries(p, s.world, r);
      OvertakenMeansLapped(p, s.world, r.pc.t.at);
    }
  }

  lemma CheckRetries(p: Params, s: World, r: Reader)
    requires REnabled(p, s, r) && History(p, s) && PcInv(p, s, r) && r.pc.Checking?
    requires var pc := RApply(p, s, r).pc; pc.Loading? || pc == Done(Contended)
    ensures !Live(p, s, r.pc.t.at) && 1 <= r.pc.t.base <= r.pc.t.at <= |s.hist|
  {
    if s.slots[r.pc.t.slot].seqno == r.pc.t.before { UnchangedMeansWhole(p, s, r); }
  }

  lemma FourLaps(p: Params, s: World, r: Reader)
    requires Shaped(p, s) && !p.cancels && PcInv(p, s, r) && r.pc == Done(Contended)
    ensures s.latestAttempt - r.start >= 4 * (p.n - 1)
  {
    TimesIsProduct(4, p.n - 1);
  }

  /** Without cancels, Contended means the publisher announced at least 4 * (n - 1) frames during
      that one call. */
  lemma ContendedMeansFourLaps(p: Params, s: Sys, id: nat)
    requires ParamsOk(p) && !p.cancels && Reachable(p, s) && id in s.readers
    requires s.readers[id].pc == Done(Contended)
    ensures s.world.latestAttempt - s.readers[id].start >= 4 * (p.n - 1)
  {
    ReachableInv(p, s);
    FourLaps(p, s.world, s.readers[id]);
  }

  lemma LoadingNeverContended(p: Params, s: World, r: Reader)
    requires REnabled(p, s, r) && LatestOk(p, s) && r.pc.Loading?
    ensures RApply(p, s, r).pc != Done(Contended)
  {
  }

  /** The other two ways out as Contended are never taken: `latest` always names an existing slot, and
      an unchanged slot never shows an impossible byte count. */
  lemma OtherContendedExitsUnreachable(p: Params, s: Sys, id: nat)
    requires ParamsOk(p) && Reachable(p, s) && Enabled(p, s, Read(id))
    ensures s.readers[id].pc.Loading? ==> RApply(p, s.world, s.readers[id]).pc != Done(Contended)
    ensures s.readers[id].pc.Checking? && s.readers[id].pc.verdict.Malformed? ==>
              s.world.slots[s.readers[id].pc.t.slot].seqno != s.readers[id].pc.t.before
  {
    ReachableInv(p, s);
    var r := s.readers[id];
    if r.pc.Loading? {
      LoadingNeverContended(p, s.world, r);
    } else if r.pc.Checking? && s.world.slots[r.pc.t.slot].seqno == r.pc.t.before {
      UnchangedMeansWhole(p, s.world, r);
    }
  }

  /** The slot the publisher announced last, and how many writes have begun since. */
  ghost predicate LatestProtected(p: Params, w: World) {
    var L, k := w.latest % 4, w.begun - w.latestAttempt;
    && L < p.n == |w.slots| && k >= 0 && 1 <= w.latestAttempt <= |w.hist|
    && w.writeSlot == (L + k) % p.n
    && (k < p.n ==> Holds(w.slots[L], w.hist[w.latestAttempt - 1]) && w.slots[L].seqno % 2 == 0)
    && (k == p.n && InSlot(w.pc) ==> w.slots[L].seqno % 2 == 1)
    && (!p.cancels ==> k < p.n)
  }

  lemma {:induction false} SlotOfSum(n: nat, a: nat, k: nat)
    requires n >= 1
    ensures SlotOf(n, SlotOf(n, a) + k) == SlotOf(n, a + k)
    decreases a
  {
    if a >= n { SlotOfSum(n, a - n, k); }
  }

  lemma SlotAfter(n: nat, a: nat, k: nat)
    requires n >= 1
    ensures SlotOf(n, a + k) == (SlotOf(n, a) + k) % n
  {
    SlotOfSum(n, a, k);
    SlotOfIsMod(n, SlotOf(n, a) + k);
  }

  /** Fewer than n writes since: the announced slot still shows its frame. */
  lemma StillShown(p: Params, w: World)
    requires Shaped(p, w) && History(p, w) && 1 <= w.latestAttempt <= |w.hist|
    ensures w.begun < w.latestAttempt + p.n ==>
              var sl := w.slots[SlotOf(p.n, w.latestAttempt)];
              Holds(sl, w.hist[w.latestAttempt - 1]) && sl.seqno % 2 == 0
  {
    if w.begun < w.latestAttempt + p.n {
      assert Live(p, w, w.latestAttempt);
      assert RecordOk(p, w.hist[w.latestAttempt - 1]);
    }
  }

  /** The n-th write since is the one that enters it. */
  lemma NthEnters(p: Params, w: World)
    requires Shaped(p, w) && Counts(p, w) && InSlot(w.pc) && w.begun == w.latestAttempt + p.n
    ensures w.slots[SlotOf(p.n, w.latestAttempt)].seqno % 2 == 1
  {
    SlotsDiffer(p.n, w.latestAttempt, w.begun);
  }

  /** The slot `latest` names, and the slot written k attempts later. */
  lemma LatestNames(p: Params, w: World)
    requires Shaped(p, w) && Counts(p, w) && LatestOk(p, w) && w.latest != 0
    ensures w.latest % 4 == SlotOf(p.n, w.latestAttempt) && w.begun >= w.latestAttempt
    ensures w.writeSlot == (w.latest % 4 + (w.begun - w.latestAttempt)) % p.n
  {
    Unpacked(p.n, w.latest, w.hist[w.latestAttempt - 1].info.frameId, w.latestAttempt);
    SlotAfter(p.n, w.latestAttempt, w.begun - w.latestAttempt);
  }

  lemma ProtectedHere(p: Params, w: World)
    requires Shaped(p, w) && Counts(p, w) && LatestOk(p, w) && Trailing(p, w) && w.latest != 0
    requires w.begun < w.latestAttempt + p.n ==>
               var sl := w.slots[SlotOf(p.n, w.latestAttempt)];
               Holds(sl, w.hist[w.latestAttempt - 1]) && sl.seqno % 2 == 0
    ensures LatestProtected(p, w)
  {
    LatestNames(p, w);
    if w.begun == w.latestAttempt + p.n && InSlot(w.pc) { NthEnters(p, w); }
  }

  /** The slot named by `latest`, cancels allowed: the k-th write begun since that commit targets
      slot (L + k) mod n, so while k < n the named slot is stable and shows exactly the announced
      frame; the n-th write is the first to enter it. Without cancels no write ever enters it. */
  lemma LatestSlotProtected(p: Params, s: Sys)
    requires ParamsOk(p) && Reachable(p, s) && s.world.latest != 0
    ensures LatestProtected(p, s.world)
  {
    ReachableInv(p, s);
    StillShown(p, s.world);
    ProtectedHere(p, s.world);
  }

  /** A frame produced by `publish`: whoever reads it gets the source image, row by row, with
      matching width, height, stride and byte count. */
  lemma PublishedImageArrives(p: Params, s: Sys, id: nat, i: nat)
    requires ParamsOk(p) && Reachable(p, s) && id in s.readers && i < |s.readers[id].log.accepted|
    ensures var a := s.readers[id].log.accepted[i];
            && 1 <= a.attempt <= |s.world.hist|
            && a.info.stride == a.info.width * p.bpp
            && a.info.payloadBytes == a.info.height * a.info.stride == |a.data|
    ensures var a := s.readers[id].log.accepted[i]; var source := s.world.hist[a.attempt - 1].source;
            source.Some? ==>
              forall y, x | 0 <= y < a.info.height && 0 <= x < a.info.stride ::
                PixelOk(a.data, source.value, a.info.stride, y, x)
  {
    ReachableInv(p, s);
    var a := s.readers[id].log.accepted[i];
    assert RInv(p, s.world, s.readers[id]) && AcceptOk(p, s.world.hist, a);
    assert RecordOk(p, s.world.hist[a.attempt - 1]);
    TimesIsProduct(a.info.width, p.bpp);
    TimesIsProduct(a.info.height, a.info.stride);
  }

  /** begin_write's size check is exact whenever the product of its arguments stays below 2^64. In
      general it lets through only what fits iff that product stays below 2^64 or wraps to more than
      the slot holds. */
  lemma GeometryCheckExact(p: Params, w: nat, h: nat)
    requires ParamsOk(p) && 1 <= w < TWO32 && 1 <= h < TWO32
    ensures var bytes := Times(Times(w, h), p.bpp);
            && (bytes < TWO64 ==> (GeometryAccepted(p, w, h) <==> bytes <= p.maxPayload))
            && ((GeometryAccepted(p, w, h) ==> bytes <= p.maxPayload) <==>
                  (bytes < TWO64 || bytes % TWO64 > p.maxPayload))
  {
    TimesBound(w, TWO32, h, TWO32 - 1);
    TimesIsProduct(TWO32, TWO32 - 1);
    Mul64Exact(w, h);
  }

  /** A call whose product wraps to zero passes the check at four bytes per pixel. */
  lemma WrappedProductIsAccepted(p: Params)
    requires ParamsOk(p) && p.bpp == 4
    ensures var side := 0x8000_0000;
            GeometryAccepted(p, side, side) && Times(Times(side, side), p.bpp) > p.maxPayload
  {
    var side := 0x8000_0000;
    TimesIsProduct(side, side);
    TimesIsProduct(side * side, 4);
  }

  // -------------------------------------------------------------------- wait-freedom

  /** Passes of the retry loop left after the given one, each of bounded length. */
  function PassesLeft(p: Params, attempt: nat): nat {
    Times(if attempt < 3 then 3 - attempt else 0, p.maxPayload + 11)
  }

  /** Steps a reader can still take, at most, before its call returns. */
  function Remaining(p: Params, pc: ReaderPc): nat {
    match pc
    case Loading(a) => PassesLeft(p, a) + p.maxPayload + 11
    case Sampling(a, _, _, _) => PassesLeft(p, a) + p.maxPayload + 10
    case Reading(t, k) => PassesLeft(p, t.attempt) + p.maxPayload + (if k < 6 then 9 - k else 3)
    case Copying(t) => PassesLeft(p, t.attempt) + (if |t.buf| < p.maxPayload then p.maxPayload - |t.buf| else 0) + 2
    case Checking(t, _) => PassesLeft(p, t.attempt) + 1
    case ProbingShutdown => 1
    case _ => 0
  }

  lemma RetryUsesBudget(p: Params, attempt: nat)
    requires attempt < ATTEMPTS
    ensures Remaining(p, NextAttempt(attempt)) <= PassesLeft(p, attempt)
  {
  }

  predicate PassCounted(pc: ReaderPc) {
    match pc
    case Sampling(a, _, _, _) => a < ATTEMPTS
    case Checking(t, _) => t.attempt < ATTEMPTS
    case _ => true
  }

  lemma InCallEnabled(p: Params, s: World, r: Reader)
    requires Shaped(p, s) && PcInv(p, s, r) && !r.pc.Ready? && !r.pc.Done?
    ensures REnabled(p, s, r) && PassCounted(r.pc)
  {
  }

  lemma EnabledUsesBudget(p: Params, s: World, r: Reader)
    requires REnabled(p, s, r) && PassCounted(r.pc)
    ensures Remaining(p, RApply(p, s, r).pc) < Remaining(p, r.pc)
  {
    match r.pc
    case Sampling(a, _, _, _) => RetryUsesBudget(p, a);
    case Checking(t, _) => RetryUsesBudget(p, t.attempt);
    case _ =>
  }

  lemma StepUsesBudget(p: Params, s: World, r: Reader)
    requires Shaped(p, s) && PcInv(p, s, r) && !r.pc.Ready? && !r.pc.Done?
    ensures REnabled(p, s, r)
    ensures Remaining(p, RApply(p, s, r).pc) < Remaining(p, r.pc)
  {
    InCallEnabled(p, s, r);
    EnabledUsesBudget(p, s, r);
  }

  /** Reads are wait-free: a reader inside a call can always take its next step, each step uses up
      some of a fixed budget, and no publisher step adds to it, wherever the publisher has stopped. */
  lemma ReadersNeverWait(p: Params, s: Sys, id: nat)
    requires ParamsOk(p) && Reachable(p, s) && id in s.readers
    requires !s.readers[id].pc.Ready? && !s.readers[id].pc.Done?
    ensures Enabled(p, s, Read(id))
    ensures Remaining(p, Apply(p, s, Read(id)).readers[id].pc) < Remaining(p, s.readers[id].pc)
    ensures forall w | Enabled(p, s, Write(w)) :: Apply(p, s, Write(w)).readers[id] == s.readers[id]
  {
    ReachableInv(p, s);
    StepUsesBudget(p, s.world, s.readers[id]);
  }
}

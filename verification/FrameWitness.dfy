/** Runs that show the frame-path guarantees cannot be stated more strongly. */
module FrameWitness {
  import opened Words
  import opened Layout
  import opened FrameModel
  import opened FrameInvariant
  import opened FrameReaders
  import opened FrameTheorems

  lemma {:induction false} RunsSnoc(p: Params, s: Sys, es: seq<Event>, t: Sys, e: Event)
    requires Runs(p, s, es, t) && Enabled(p, t, e)
    ensures Runs(p, s, es + [e], Apply(p, t, e))
    decreases |es|
  {
    if es == [] {
      assert Runs(p, Apply(p, s, e), [], Apply(p, t, e));
      assert (es + [e])[1..] == [];
    } else {
      RunsSnoc(p, Apply(p, s, es[0]), es[1..], t, e);
      assert (es + [e])[1..] == es[1..] + [e];
    }
  }

  /** One more step from a reachable state. */
  lemma Go(p: Params, s: Sys, e: Event) returns (t: Sys)
    requires ParamsOk(p) && Reachable(p, s) && Enabled(p, s, e)
    ensures t == Apply(p, s, e) && Reachable(p, t) && Shaped(p, t.world)
  {
    t := Apply(p, s, e);
    var es :| Runs(p, Init(p), es, s);
    RunsSnoc(p, Init(p), es, s, e);
    ReachableInv(p, t);
  }

  lemma OnePixel(p: Params)
    requires ParamsOk(p)
    ensures GeometryAccepted(p, 1, 1) && ProductFits(p, 1, 1)
    ensures PlanFor(p, 1, 1) == Plan(1, 1, p.bpp, p.bpp)
  {
    TimesIsProduct(1, p.bpp);
    TimesIsProduct(1, 1);
    assert Times(1, p.bpp) == p.bpp && Times(1, 1) == 1 && Times(Times(1, 1), p.bpp) == p.bpp;
  }

  lemma Open(p: Params, s: Sys) returns (t: Sys)
    requires ParamsOk(p) && Reachable(p, s) && Shaped(p, s.world) && s.world.pc.Idle?
    ensures Reachable(p, t) && Shaped(p, t.world) && t.readers == s.readers
    ensures t.world == s.world.(slots := t.world.slots, writeSlot := t.world.writeSlot, begun := s.world.begun + 1,
                                pc := Stamping(Plan(1, 1, p.bpp, p.bpp), None, 0))
  {
    OnePixel(p);
    t := Go(p, s, Write(Begin(1, 1, None)));
    t := Go(p, t, Write(MarkOdd));
  }

  /** A write of one pixel, up to the point where the application has rendered its first byte. */
  lemma Render(p: Params, s: Sys, v: Byte) returns (t: Sys)
    requires ParamsOk(p) && Reachable(p, s) && Shaped(p, s.world) && s.world.pc.Idle?
    ensures Reachable(p, t) && Shaped(p, t.world) && t.readers == s.readers
    ensures t.world == s.world.(slots := t.world.slots, writeSlot := t.world.writeSlot, begun := s.world.begun + 1,
                                pc := Filling(None, 0, 0))
    ensures var sl := t.world.slots[t.world.writeSlot]; sl.info.payloadBytes == p.bpp && sl.payload[0] == v
  {
    t := Open(p, s);
    t := Go(p, t, Write(Stamp));
    t := Go(p, t, Write(Stamp));
    t := Go(p, t, Write(Stamp));
    t := Go(p, t, Write(Stamp));
    t := Go(p, t, Write(Poke(0, v)));
  }

  /** t follows s by one finished attempt with the given first byte. */
  ghost predicate OneMore(p: Params, s: World, t: World, committed: bool, v: Byte) {
    && t.begun == s.begun + 1
    && |t.hist| == |s.hist| + 1 && s.hist <= t.hist
    && t.hist[|s.hist|].committed == committed
    && |t.hist[|s.hist|].data| == p.bpp >= 1 && t.hist[|s.hist|].data[0] == v
  }

  /** A whole write that the application abandons. */
  lemma CancelledWrite(p: Params, s: Sys, v: Byte) returns (t: Sys)
    requires ParamsOk(p) && p.cancels && Reachable(p, s) && Shaped(p, s.world) && s.world.pc.Idle?
    ensures Reachable(p, t) && Shaped(p, t.world) && t.readers == s.readers && t.world.pc.Idle?
    ensures OneMore(p, s.world, t.world, false, v) && t.world.latestAttempt == s.world.latestAttempt
  {
    t := Render(p, s, v);
    t := Go(p, t, Write(StartCancel));
    t := Go(p, t, Write(StoreCancel));
  }

  /** A whole write up to the even counter, not yet announced. */
  lemma SealedWrite(p: Params, s: Sys, v: Byte) returns (t: Sys)
    requires ParamsOk(p) && Reachable(p, s) && Shaped(p, s.world) && s.world.pc.Idle?
    ensures Reachable(p, t) && Shaped(p, t.world) && t.readers == s.readers && t.world.pc.Announcing?
    ensures OneMore(p, s.world, t.world, true, v) && t.world.shutdown == s.world.shutdown
    ensures t.world.latestAttempt == s.world.latestAttempt && t.world.frameId == s.world.frameId + 1
  {
    t := Render(p, s, v);
    t := Go(p, t, Write(StartCommit(1)));
    t := Go(p, t, Write(CommitStep));
    t := Go(p, t, Write(CommitStep));
    t := Go(p, t, Write(StoreEven));
  }

  lemma CommittedWrite(p: Params, s: Sys, v: Byte) returns (t: Sys)
    requires ParamsOk(p) && Reachable(p, s) && Shaped(p, s.world) && s.world.pc.Idle?
    ensures Reachable(p, t) && Shaped(p, t.world) && t.readers == s.readers && t.world.pc.Idle?
    ensures OneMore(p, s.world, t.world, true, v) && t.world.shutdown == s.world.shutdown
    ensures t.world.latestAttempt == t.world.begun && t.world.frameId == s.world.frameId + 1
    ensures t.world.latest == 4 * t.world.frameId + t.world.writeSlot
  {
    t := SealedWrite(p, s, v);
    t := Go(p, t, Write(StoreLatest));
  }

  /** What a reader that has sampled live content needs in order to finish undisturbed. */
  ghost predicate Undisturbed(p: Params, s: World, r: Reader, at: nat) {
    && Live(p, s, at) && r.capacity >= p.maxPayload
    && (r.pc.Reading? || r.pc.Copying? || (r.pc.Checking? && r.pc.verdict.Complete?))
    && r.pc.t.at == at
  }

  /** r' is r after accepting attempt `at`. */
  ghost predicate Accepted(r: Reader, r': Reader, at: nat) {
    && r'.pc == Done(Ok) && |r'.log.accepted| == |r.log.accepted| + 1
    && r.log.accepted <= r'.log.accepted && r'.log.accepted[|r.log.accepted|].attempt == at
  }

  lemma UndisturbedStep(p: Params, s: World, r: Reader, at: nat)
    requires Shaped(p, s) && History(p, s) && PcInv(p, s, r) && REnabled(p, s, r) && Undisturbed(p, s, r, at)
    ensures r.pc.Checking? ==> Accepted(r, RApply(p, s, r), at)
    ensures !r.pc.Checking? ==> Undisturbed(p, s, RApply(p, s, r), at) && RApply(p, s, r).log == r.log
  {
    assert Holds(s.slots[SlotOf(p.n, at)], s.hist[at - 1]) && RecordOk(p, s.hist[at - 1]);
  }

  lemma UndisturbedGo(p: Params, s: Sys, id: nat, at: nat) returns (t: Sys)
    requires ParamsOk(p) && Reachable(p, s) && id in s.readers && Undisturbed(p, s.world, s.readers[id], at)
    ensures Reachable(p, t) && Shaped(p, t.world) && t.world == s.world && id in t.readers
    ensures s.readers[id].pc.Checking? ==> Accepted(s.readers[id], t.readers[id], at)
    ensures !s.readers[id].pc.Checking? ==>
              && Undisturbed(p, t.world, t.readers[id], at) && t.readers[id].log == s.readers[id].log
              && Remaining(p, t.readers[id].pc) < Remaining(p, s.readers[id].pc)
  {
    ReachableInv(p, s);
    StepUsesBudget(p, s.world, s.readers[id]);
    UndisturbedStep(p, s.world, s.readers[id], at);
    t := Go(p, s, Read(id));
  }

  /** A reader that samples live content and is then left alone accepts it. */
  lemma {:induction false} FinishRead(p: Params, s: Sys, id: nat, at: nat) returns (t: Sys)
    requires ParamsOk(p) && Reachable(p, s) && id in s.readers && Undisturbed(p, s.world, s.readers[id], at)
    ensures Reachable(p, t) && Shaped(p, t.world) && t.world == s.world && id in t.readers
    ensures Accepted(s.readers[id], t.readers[id], at)
    decreases Remaining(p, s.readers[id].pc)
  {
    t := UndisturbedGo(p, s, id, at);
    if !s.readers[id].pc.Checking? { t := FinishRead(p, t, id, at); }
  }

  lemma SampleStep(p: Params, s: World, r: Reader, at: nat)
    requires Shaped(p, s) && History(p, s) && PcInv(p, s, r) && r.pc.Sampling? && r.capacity >= p.maxPayload
    requires Live(p, s, at) && at == LastInSlot(p, r.pc.base, |s.hist|)
    ensures REnabled(p, s, r) && Undisturbed(p, s, RApply(p, s, r), at) && RApply(p, s, r).log == r.log
  {
    LastInSlotSameSlot(p, r.pc.base, |s.hist|);
    assert Holds(s.slots[SlotOf(p.n, at)], s.hist[at - 1]) && RecordOk(p, s.hist[at - 1]);
  }

  /** A reader about to sample a slot that shows the live attempt `at` goes on to accept it, if the
      publisher holds still. */
  lemma SampleAndFinish(p: Params, s: Sys, id: nat, at: nat) returns (t: Sys)
    requires ParamsOk(p) && Reachable(p, s) && id in s.readers
    requires s.readers[id].pc.Sampling? && s.readers[id].capacity >= p.maxPayload
    requires Live(p, s.world, at) && at == LastInSlot(p, s.readers[id].pc.base, |s.world.hist|)
    ensures Reachable(p, t) && Shaped(p, t.world) && t.world == s.world && id in t.readers
    ensures Accepted(s.readers[id], t.readers[id], at)
  {
    ReachableInv(p, s);
    SampleStep(p, s.world, s.readers[id], at);
    t := Go(p, s, Read(id));
    t := FinishRead(p, t, id, at);
  }

  lemma SlotInStep(p: Params, s: Sys)
    requires ParamsOk(p) && Reachable(p, s)
    ensures s.world.writeSlot == SlotOf(p.n, s.world.begun) && Shaped(p, s.world)
  {
    ReachableInv(p, s);
  }

  /** One committed frame (first byte 0), and a reader that has not called yet. */
  lemma FirstFrame(p: Params) returns (s: Sys)
    requires ParamsOk(p)
    ensures Reachable(p, s) && Shaped(p, s.world) && s.world.pc.Idle?
    ensures s.world.begun == |s.world.hist| == s.world.latestAttempt == 1 && s.world.latest == 5
    ensures !s.world.shutdown
    ensures s.world.hist[0].committed && |s.world.hist[0].data| == p.bpp && s.world.hist[0].data[0] == 0
    ensures s.readers == map[0 := NEW_READER]
  {
    s := Init(p);
    assert Runs(p, s, [], s);
    s := Go(p, s, Join(0));
    s := CommittedWrite(p, s, 0);
    SlotInStep(p, s);
  }

  /** ... and then that reader with the announcement just loaded. */
  lemma StalledReader(p: Params) returns (s: Sys)
    requires ParamsOk(p)
    ensures Reachable(p, s) && Shaped(p, s.world) && s.world.pc.Idle?
    ensures s.world.begun == |s.world.hist| == s.world.latestAttempt == 1
    ensures s.world.hist[0].committed && |s.world.hist[0].data| == p.bpp && s.world.hist[0].data[0] == 0
    ensures 0 in s.readers
    ensures s.readers[0] == NEW_READER.(pc := Sampling(0, 1, 1, 1), capacity := p.maxPayload, start := 1)
  {
    s := FirstFrame(p);
    s := Go(p, s, Call(0, p.maxPayload));
    s := Go(p, s, Read(0));
  }

  /** Every attempt but the first was abandoned, and left first byte 1. */
  ghost predicate OnlyFirstCommitted(p: Params, hist: seq<Record>) {
    forall i | 1 <= i < |hist| :: !hist[i].committed && |hist[i].data| == p.bpp >= 1 && hist[i].data[0] == 1
  }

  /** k abandoned writes in a row, each with first byte 1. */
  lemma {:induction false} ManyCancelled(p: Params, s: Sys, k: nat) returns (t: Sys)
    requires ParamsOk(p) && p.cancels && Reachable(p, s) && Shaped(p, s.world) && s.world.pc.Idle?
    requires 1 <= |s.world.hist| && OnlyFirstCommitted(p, s.world.hist)
    ensures Reachable(p, t) && Shaped(p, t.world) && t.readers == s.readers && t.world.pc.Idle?
    ensures t.world.begun == s.world.begun + k && |t.world.hist| == |s.world.hist| + k
    ensures t.world.hist[0] == s.world.hist[0] && OnlyFirstCommitted(p, t.world.hist)
    ensures t.world.latestAttempt == s.world.latestAttempt
    decreases k
  {
    t := s;
    if k > 0 {
      t := CancelledWrite(p, s, 1);
      assert forall i | 0 <= i < |s.world.hist| :: t.world.hist[i] == s.world.hist[i];
      t := ManyCancelled(p, t, k - 1);
    }
  }

  lemma AcceptedRecord(p: Params, s: Sys, id: nat, i: nat)
    requires ParamsOk(p) && Reachable(p, s) && id in s.readers && i < |s.readers[id].log.accepted|
    ensures AcceptOk(p, s.world.hist, s.readers[id].log.accepted[i])
  {
    ReachableInv(p, s);
    assert RInv(p, s.world, s.readers[id]);
  }

  /** With cancels, a reader lapped by abandoned writes can accept one of them: the announcement of
      frame 1 is loaded, a full turn of writes is begun and abandoned, and the read that follows
      returns bytes no committed frame ever had. */
  lemma CancelledWriteCanBeRead(p: Params)
    requires ParamsOk(p) && p.cancels
    ensures exists s :: Reachable(p, s) && !NoTornFrames(s)
  {
    var s := StalledReader(p);
    s := ManyCancelled(p, s, p.n);
    assert LastInSlot(p, 1, p.n + 1) == p.n + 1;
    s := SampleAndFinish(p, s, 0, p.n + 1);
    AcceptedRecord(p, s, 0, 0);
    var a := s.readers[0].log.accepted[0];
    assert a.data[0] == 1;
    assert !OneCommittedFrame(s.world, a);
  }

  /** Exactly when reads are never torn: iff the publisher never cancels a write. */
  lemma NoTearingIffNoCancels(p: Params)
    requires ParamsOk(p)
    ensures (forall s :: Reachable(p, s) ==> NoTornFrames(s)) <==> !p.cancels
  {
    if p.cancels {
      CancelledWriteCanBeRead(p);
    } else {
      forall s | Reachable(p, s) ensures NoTornFrames(s) { NoTornFramesWithoutCancels(p, s); }
    }
  }

  /** The protection of the announced slot lasts no longer than claimed: wherever cancels are allowed,
      some run begins exactly n writes after a commit and finds the slot named by `latest` odd. */
  lemma ProtectionIsSharp(p: Params)
    requires ParamsOk(p) && p.cancels
    ensures exists s ::
              && Reachable(p, s) && s.world.latest != 0 && |s.world.slots| == p.n && s.world.latest % 4 < p.n
              && s.world.begun - s.world.latestAttempt == p.n
              && s.world.slots[s.world.latest % 4].seqno % 2 == 1
  {
    var s := StalledReader(p);
    s := ManyCancelled(p, s, p.n - 1);
    s := Open(p, s);
    ReachableInv(p, s);
    LatestSlotProtected(p, s);
  }

  lemma {:induction false} ManyCommitted(p: Params, s: Sys, k: nat) returns (t: Sys)
    requires ParamsOk(p) && Reachable(p, s) && Shaped(p, s.world) && s.world.pc.Idle?
    requires s.world.begun == |s.world.hist| == s.world.latestAttempt
    ensures Reachable(p, t) && Shaped(p, t.world) && t.readers == s.readers && t.world.pc.Idle?
    ensures t.world.begun == |t.world.hist| == t.world.latestAttempt == s.world.begun + k
    decreases k
  {
    t := s;
    if k > 0 {
      t := CommittedWrite(p, s, 0);
      t := ManyCommitted(p, t, k - 1);
    }
  }

  lemma IdsAreAttempts(p: Params, s: Sys, b: nat)
    requires ParamsOk(p) && !p.cancels && Reachable(p, s) && b < |s.world.hist|
    ensures s.world.hist[b].info.frameId == b + 1
  {
    ReachableInv(p, s);
  }

  /** A lapped reader accepts attempt n + 1, not announced yet, while attempt n is the announced one. */
  lemma FirstRead(p: Params) returns (s: Sys)
    requires ParamsOk(p) && !p.cancels
    ensures Reachable(p, s) && s.world.pc.Announcing?
    ensures s.world.begun == |s.world.hist| == p.n + 1 && s.world.latestAttempt == p.n
    ensures 0 in s.readers && s.readers[0].pc.Done?
    ensures |s.readers[0].log.accepted| == 1 && s.readers[0].log.accepted[0].attempt == p.n + 1
  {
    s := StalledReader(p);
    s := ManyCommitted(p, s, p.n - 1);
    s := SealedWrite(p, s, 0);
    assert LastInSlot(p, 1, p.n + 1) == p.n + 1;
    s := SampleAndFinish(p, s, 0, p.n + 1);
  }

  lemma AttemptIsId(p: Params, s: Sys, id: nat, i: nat)
    requires ParamsOk(p) && !p.cancels && Reachable(p, s) && id in s.readers && i < |s.readers[id].log.accepted|
    ensures s.readers[id].log.accepted[i].info.frameId == s.readers[id].log.accepted[i].attempt
  {
    AcceptedRecord(p, s, id, i);
    IdsAreAttempts(p, s, s.readers[id].log.accepted[i].attempt - 1);
  }

  /** The bound on the order of ids is reached: without any cancel, a lapped reader accepts frame
      n + 1 before it is announced, and its next call accepts frame n. */
  lemma IdsCanStepBack(p: Params)
    requires ParamsOk(p) && !p.cancels
    ensures exists s, id ::
              && Reachable(p, s) && id in s.readers && |s.readers[id].log.accepted| == 2
              && s.readers[id].log.accepted[1].info.frameId == s.readers[id].log.accepted[0].info.frameId - 1
  {
    var s := FirstRead(p);
    s := SecondRead(p, s);
    AttemptIsId(p, s, 0, 0);
    AttemptIsId(p, s, 0, 1);
  }

  /** The announced attempt is n; the last accepted id is n + 1. */
  lemma Announced(p: Params, s: Sys)
    requires ParamsOk(p) && !p.cancels && Reachable(p, s)
    requires |s.world.hist| == p.n + 1 && s.world.latestAttempt == p.n
    requires 0 in s.readers && |s.readers[0].log.accepted| == 1 && s.readers[0].log.accepted[0].attempt == p.n + 1
    ensures s.world.latest == 4 * p.n && s.readers[0].log.lastFrame == p.n + 1
  {
    ReachableInv(p, s);
    assert RInv(p, s.world, s.readers[0]);
    AcceptedRecord(p, s, 0, 0);
    assert SlotOf(p.n, p.n) == 0;
  }

  /** The call after that: frame n is announced, frame n + 1 was accepted last. */
  lemma SecondRead(p: Params, s: Sys) returns (t: Sys)
    requires ParamsOk(p) && !p.cancels && Reachable(p, s)
    requires s.world.pc.Announcing? && s.world.begun == |s.world.hist| == p.n + 1 && s.world.latestAttempt == p.n
    requires 0 in s.readers && s.readers[0].pc.Done? && |s.readers[0].log.accepted| == 1
    requires s.readers[0].log.accepted[0].attempt == p.n + 1
    ensures Reachable(p, t) && t.world == s.world && 0 in t.readers
    ensures var xs := t.readers[0].log.accepted;
            |xs| == 2 && xs[0] == s.readers[0].log.accepted[0] && xs[1].attempt == p.n
  {
    Announced(p, s);
    t := Go(p, s, Call(0, p.maxPayload));
    t := Go(p, t, Read(0));
    assert LastInSlot(p, p.n, p.n + 1) == p.n;
    t := SampleAndFinish(p, t, 0, p.n);
  }
}

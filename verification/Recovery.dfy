/** A producer restart as a whole: the host's publishers and one subscriber, run together. */
module Recovery {
  import opened Words
  import opened Layout
  import Life = Lifecycle
  import Sub = Reconnect

  datatype Joint = Joint(h: Life.Host, x: Sub.Session)

  datatype Step =
    | HostStep(e: Life.Event)
    | Poll(t: Sub.Times3)

  /** A poll reads the host it meets; time passes while it runs. */
  ghost predicate Enabled(j: Joint, s: Step) {
    match s
    case HostStep(e) => Life.Enabled(j.h, e) && Life.Timely(j.h, e) && Life.Apply(j.h, e).now < TWO64
    case Poll(t) => j.h.now <= t.t0 && Sub.Enabled(j.x, Sub.PollAt(j.h, t))
  }

  ghost function Apply(j: Joint, s: Step): Joint
    requires Enabled(j, s)
  {
    match s
    case HostStep(e) => Joint(Life.Apply(j.h, e), j.x)
    case Poll(t) => Joint(Life.Apply(j.h, Life.Tick(t.t2 - j.h.now)), Sub.Apply(j.x, Sub.PollAt(j.h, t)))
  }

  ghost predicate Runs(j: Joint, ss: seq<Step>, k: Joint)
    decreases |ss|
  {
    if ss == [] then k == j
    else Enabled(j, ss[0]) && Runs(Apply(j, ss[0]), ss[1..], k)
  }

  // ---------------------------------------------------------------------- succession

  /** Publisher q, on its own new segment, has taken the name over from a publisher on oldSeg, whose last
      heartbeat was oldBeat. */
  datatype Takeover = Takeover(c: Config, q: nat, seg: nat, session: nat, oldSeg: nat, oldBeat: nat)

  /** Publisher q is live on its segment, and nobody beats on the old one any more. */
  ghost predicate Succession(h: Life.Host, o: Takeover) {
    && Life.Inv(h) && h.now < TWO64 && ConfigValid(o.c)
    && o.q in h.pubs && h.pubs[o.q] == Life.Publisher(o.c, o.seg, true) && o.seg in h.segs
    && h.segs[o.seg].header == PublishedHeader(o.c, o.session)
    && h.segs[o.seg].size == ComputeLayout(o.c).totalSize
    && o.oldSeg in h.segs && h.segs[o.oldSeg].beat <= o.oldBeat
    && forall r | Life.Live(h, r) :: h.pubs[r].seg != o.oldSeg
  }

  /** What such a host shows to a subscriber that opens the name. */
  lemma SuccessorIsSeen(h: Life.Host, o: Takeover)
    requires Succession(h, o)
    ensures Sub.Replaced(h, o.c.name, o.seg, PublishedHeader(o.c, o.session), Some(o.oldSeg), o.oldBeat)
  {
    assert Life.Live(h, o.q);
    PublishedHeaderValidates(o.c, o.session, ComputeLayout(o.c).totalSize);
  }

  /** Nobody moves in on a segment that no live publisher has. */
  lemma DesertedStays(h: Life.Host, e: Life.Event, seg: nat)
    requires Life.Enabled(h, e) && seg in h.segs && forall r | Life.Live(h, r) :: h.pubs[r].seg != seg
    requires forall r | r in h.pubs :: h.pubs[r].seg in h.segs
    ensures forall r | Life.Live(Life.Apply(h, e), r) :: Life.Apply(h, e).pubs[r].seg != seg
    ensures Life.Apply(h, e).segs[seg].beat == h.segs[seg].beat
  {
    Life.SegmentKept(h, e, seg);
    forall r | Life.Live(Life.Apply(h, e), r) ensures Life.Apply(h, e).pubs[r].seg != seg {
      assert r in h.pubs ==> Life.Live(h, r);
    }
  }

  /** Who lives has not changed place. */
  lemma PublisherKept(h: Life.Host, e: Life.Event, q: nat)
    requires Life.Enabled(h, e) && Life.Live(h, q) && Life.Live(Life.Apply(h, e), q)
    ensures Life.Apply(h, e).pubs[q] == h.pubs[q]
  {
  }

  /** Every event of the host keeps it, as long as q lives. */
  lemma SuccessionKeeps(h: Life.Host, e: Life.Event, o: Takeover)
    requires Succession(h, o)
    requires Life.Enabled(h, e) && Life.Timely(h, e) && Life.Apply(h, e).now < TWO64
    requires Life.Live(Life.Apply(h, e), o.q)
    ensures Succession(Life.Apply(h, e), o)
  {
    Life.StepKeeps(h, e);
    Life.SegmentKept(h, e, o.seg);
    DesertedStays(h, e, o.oldSeg);
    PublisherKept(h, e, o.q);
  }

  /** The dead stay dead, so who lives at the end of a run lived all along. */
  lemma {:induction false} LivedAllAlong(j: Joint, ss: seq<Step>, k: Joint, q: nat)
    requires Runs(j, ss, k) && q in j.h.pubs && j.h.pubs[q].seg in j.h.segs && Life.Live(k.h, q)
    ensures Life.Live(j.h, q)
    decreases |ss|
  {
    if ss != [] { LivedAllAlong(Apply(j, ss[0]), ss[1..], k, q); }
  }

  lemma StepKeeps(j: Joint, s: Step, o: Takeover)
    requires Enabled(j, s) && Succession(j.h, o) && Life.Live(Apply(j, s).h, o.q)
    ensures Succession(Apply(j, s).h, o)
  {
    match s
    case HostStep(e) => SuccessionKeeps(j.h, e, o);
    case Poll(t) => SuccessionKeeps(j.h, Life.Tick(t.t2 - j.h.now), o);
  }

  // ------------------------------------------------------------------------- theorem

  /** The subscriber's part of a joint run. */
  ghost function Polls(j: Joint, ss: seq<Step>, k: Joint): seq<Sub.Event>
    requires Runs(j, ss, k)
    decreases |ss|
  {
    if ss == [] then []
    else
      var rest := Polls(Apply(j, ss[0]), ss[1..], k);
      if ss[0].Poll? then [Sub.PollAt(j.h, ss[0].t)] + rest else rest
  }

  lemma {:induction false} PollsAreItsRun(j: Joint, ss: seq<Step>, k: Joint)
    requires Runs(j, ss, k)
    ensures Sub.Runs(j.x, Polls(j, ss, k), k.x)
    decreases |ss|
  {
    if ss != [] {
      var j' := Apply(j, ss[0]);
      PollsAreItsRun(j', ss[1..], k);
      if ss[0].Poll? { assert Polls(j, ss, k)[1..] == Polls(j', ss[1..], k); }
    }
  }

  lemma {:induction false} LastPoll(j: Joint, ss: seq<Step>, k: Joint)
    requires Runs(j, ss, k) && ss != [] && ss[|ss| - 1].Poll?
    ensures var es := Polls(j, ss, k); es != [] && Sub.Start(es[|es| - 1]) == ss[|ss| - 1].t.t0
    decreases |ss|
  {
    if |ss| > 1 {
      assert ss[1..][|ss| - 2] == ss[|ss| - 1];
      LastPoll(Apply(j, ss[0]), ss[1..], k);
    }
  }

  lemma NextSuccession(j: Joint, ss: seq<Step>, k: Joint, o: Takeover)
    requires Runs(j, ss, k) && ss != [] && Succession(j.h, o) && Life.Live(k.h, o.q)
    ensures Succession(Apply(j, ss[0]).h, o)
  {
    Life.SegmentKept(j.h, if ss[0].HostStep? then ss[0].e else Life.Tick(ss[0].t.t2 - j.h.now), o.seg);
    LivedAllAlong(Apply(j, ss[0]), ss[1..], k, o.q);
    StepKeeps(j, ss[0], o);
  }

  /** Each poll meets a host where q has taken over. */
  lemma {:induction false} PollsSeeSuccessor(j: Joint, ss: seq<Step>, k: Joint, o: Takeover)
    requires Runs(j, ss, k) && Succession(j.h, o) && Life.Live(k.h, o.q)
    ensures Sub.PollsOnly(Polls(j, ss, k), o.c.name, o.seg, PublishedHeader(o.c, o.session), Some(o.oldSeg), o.oldBeat)
    decreases |ss|
  {
    if ss != [] {
      NextSuccession(j, ss, k, o);
      PollsSeeSuccessor(Apply(j, ss[0]), ss[1..], k, o);
      SuccessorIsSeen(j.h, o);
    }
  }

  /** The host after publisher p has crashed, d has passed, and q has created the name anew. */
  function TakenOver(h: Life.Host, p: nat, d: nat, q: nat, c: Config, seg: nat, session: nat): Life.Host
    requires Life.Live(h, p) && q !in h.pubs && seg !in h.segs
  {
    var later := Life.Apply(Life.Apply(h, Life.Crash(p)), Life.Tick(d));
    Life.Apply(later, Life.Create(q, c, seg, session, Life.Granted))
  }

  lemma TakeoverSucceeds(h: Life.Host, p: nat, d: nat, q: nat, c: Config, seg: nat, session: nat)
    requires Life.Reachable(true, h) && Life.Live(h, p) && c.name == h.pubs[p].cfg.name && Life.Creatable(c)
    requires d >= Life.StaleNs(c) && h.now + d < TWO64 && q !in h.pubs && seg !in h.segs
    ensures Succession(TakenOver(h, p, d, q, c, seg, session),
                       Takeover(c, q, seg, session, h.pubs[p].seg, h.segs[h.pubs[p].seg].beat))
  {
    Life.ReachableInv(h);
    Life.CrashedNameIsReclaimed(h, p, d, q, c, seg, session);
  }

  /** Crash, reclaim and re-attach: a producer crashes; once the creator's stale window has passed, another
      creates the name anew, under another session id; and whatever the host's other publishers do
      meanwhile, as long as the new producer lives, a subscriber that was attached to the old one and
      polls at or after max(last_progress, last old heartbeat) + stale_ns is attached to the new one,
      with its frame counter reset. */
  lemma CrashReclaimReattach(h: Life.Host, p: nat, d: nat, q: nat, c: Config, seg: nat, session: nat,
                             x: Sub.Session, ss: seq<Step>, k: Joint)
    requires Life.Reachable(true, h) && Life.Live(h, p) && c.name == h.pubs[p].cfg.name && Life.Creatable(c)
    requires d >= Life.StaleNs(c) && h.now + d < TWO64 && q !in h.pubs && seg !in h.segs
    requires Sub.SessionInv(x) && x.s.staleNs > 0 && x.s.retryNs == Sub.RetryFor(x.s.staleNs)
    requires x.s.name == c.name && x.s.mapped == Some(h.pubs[p].seg) && x.s.session != session
    requires Runs(Joint(TakenOver(h, p, d, q, c, seg, session), x), ss, k) && Life.Live(k.h, q)
    requires ss != [] && ss[|ss| - 1].Poll?
    requires ss[|ss| - 1].t.t0 >= Sub.Deadline(x.s, h.segs[h.pubs[p].seg].beat)
    ensures Sub.Adopted(k.x.s, seg, PublishedHeader(c, session))
    ensures c.name in k.h.names && k.h.names[c.name] == seg
  {
    var o := Takeover(c, q, seg, session, h.pubs[p].seg, h.segs[h.pubs[p].seg].beat);
    var j := Joint(TakenOver(h, p, d, q, c, seg, session), x);
    TakeoverSucceeds(h, p, d, q, c, seg, session);
    PollsAreItsRun(j, ss, k);
    LastPoll(j, ss, k);
    PollsSeeSuccessor(j, ss, k, o);
    SessionOfHeader(c, session);
    Sub.RestartRecovery(x, Polls(j, ss, k), k.x, seg, PublishedHeader(c, session), o.oldBeat);
    EndsInSuccession(j, ss, k, o);
  }

  lemma SessionOfHeader(c: Config, session: nat)
    ensures PublishedHeader(c, session).session == session
  {
    FinishedHeader(c, ComputeLayout(c), session);
  }

  lemma {:induction false} EndsInSuccession(j: Joint, ss: seq<Step>, k: Joint, o: Takeover)
    requires Runs(j, ss, k) && Succession(j.h, o) && Life.Live(k.h, o.q)
    ensures o.c.name in k.h.names && k.h.names[o.c.name] == o.seg
    decreases |ss|
  {
    assert Life.Live(j.h, o.q);
    if ss != [] {
      NextSuccession(j, ss, k, o);
      EndsInSuccession(Apply(j, ss[0]), ss[1..], k, o);
    }
  }
}

/** The command channel of one session: the ownership protocol composed with the two rings. The
    publisher pushes downstream and pops upstream; whichever subscriber is past still_owns_commands
    does the opposite. Subscribers come, crash, go and hand over at any point. */
module CommandChannel {
  import opened Words
  import opened CommandRing
  import R = RingTheorems
  import O = Ownership

  /** The publisher's command side. History: calls, the number of sends made. */
  datatype Endpoint = Endpoint(nextCmd: nat, sent: nat, dropped: nat, calls: nat, push: PushPc, pop: PopPc)

  datatype Chan = Chan(own: O.Own, down: Ring, up: Ring, pub: Endpoint,
                       push: map<nat, PushPc>, pop: map<nat, PopPc>)

  datatype Event =
    | Protocol(e: O.OwnEvent)
    | PubOversized(a: Args)
    | PubPush(p: PushEvent)
    | PubPop(q: PopEvent)
    | SubPush(i: nat, p: PushEvent)
    | SubPop(i: nat, q: PopEvent)

  /** A live subscriber inside send or receive, past still_owns_commands. */
  predicate Active(s: Chan, i: nat) {
    O.Alive(s.own, i) && s.own.subs[i].phase.Using? && i in s.push && i in s.pop
  }

  ghost predicate Enabled(m: O.Mode, d: Dim, s: Chan, e: Event) {
    match e
    case Protocol(o) =>
      && O.Allowed(m, s.own, o)
      && (o.Finish? ==> o.i in s.push && o.i in s.pop && s.push[o.i].PushIdle? && s.pop[o.i].PopIdle?)
    case PubOversized(a) => s.pub.push.PushIdle? && a.size > d.maxBytes
    case PubPush(p) =>
      && PushEnabled(d, s.down, s.pub.push, p) && !p.PushCrash?
      && (p.PushStart? ==> p.args.id == s.pub.nextCmd)
    case PubPop(q) => PopEnabled(d, s.up, s.pub.pop, q) && !q.PopCrash?
    case SubPush(i, p) => Active(s, i) && PushEnabled(d, s.up, s.push[i], p)
    case SubPop(i, q) => Active(s, i) && PopEnabled(d, s.down, s.pop[i], q)
  }

  /** send's counters after one step of its push, given where the push has got to. */
  function Counted(pub: Endpoint, p: PushEvent): Endpoint {
    if p.PushStart? then pub.(calls := pub.calls + 1)
    else if p.PushLoadTail? && pub.push.PushIdle? then pub.(dropped := pub.dropped + 1)
    else if p.PushStoreHead? then pub.(nextCmd := pub.nextCmd + 1, sent := pub.sent + 1)
    else pub
  }

  ghost function Apply(m: O.Mode, d: Dim, s: Chan, e: Event): Chan
    requires Enabled(m, d, s, e)
  {
    match e
    case Protocol(o) =>
      var s' := s.(own := O.Apply(s.own, o));
      if o.Attach? || o.Beat? then s'.(push := s.push[o.i := PushIdle], pop := s.pop[o.i := PopIdle]) else s'
    case PubOversized(a) => s.(pub := s.pub.(dropped := s.pub.dropped + 1, calls := s.pub.calls + 1))
    case PubPush(p) =>
      var (r, pc) := PushStep(d, s.down, s.pub.push, p);
      s.(down := r, pub := Counted(s.pub.(push := pc), p))
    case PubPop(q) => var (r, pc) := PopStep(d, s.up, s.pub.pop, q); s.(up := r, pub := s.pub.(pop := pc))
    case SubPush(i, p) => var (r, pc) := PushStep(d, s.up, s.push[i], p); s.(up := r, push := s.push[i := pc])
    case SubPop(i, q) => var (r, pc) := PopStep(d, s.down, s.pop[i], q); s.(down := r, pop := s.pop[i := pc])
  }

  ghost predicate Runs(m: O.Mode, d: Dim, s: Chan, es: seq<Event>, t: Chan)
    decreases |es|
  {
    if es == [] then t == s
    else Enabled(m, d, s, es[0]) && Runs(m, d, Apply(m, d, s, es[0]), es[1..], t)
  }

  function Init(d: Dim, now: nat): Chan {
    Chan(O.Init(now), R.EmptyRing(d), R.EmptyRing(d), Endpoint(1, 0, 0, 0, PushIdle, PopIdle), map[], map[])
  }

  ghost predicate Reachable(m: O.Mode, d: Dim, t: Chan) {
    exists now, es :: Runs(m, d, Init(d, now), es, t) && t.own.now < TWO64
  }

  // ---------------------------------------------------------------------- invariant

  ghost predicate OwnInv(s: Chan) {
    && O.Safe(s.own) && O.Unstolen(s.own) && O.Timely(s.own)
    && forall i | i in s.own.subs :: i in s.push && i in s.pop
  }

  ghost predicate DownInv(d: Dim, s: Chan) {
    && Core(d, s.down) && PushOk(d, s.down, s.pub.push)
    && forall i | Active(s, i) :: PopOk(d, s.down, s.pop[i])
  }

  ghost predicate UpInv(d: Dim, s: Chan) {
    && Core(d, s.up) && PopOk(d, s.up, s.pub.pop)
    && forall i | Active(s, i) :: PushOk(d, s.up, s.push[i])
  }

  predicate IdsInOrder(accepted: seq<Args>) {
    forall k | 0 <= k < |accepted| :: accepted[k].id == k + 1
  }

  /** The publisher's counters follow the downstream ring. */
  predicate Accounts(down: Ring, pub: Endpoint) {
    && pub.nextCmd == |down.accepted| + 1 && pub.sent == |down.accepted|
    && IdsInOrder(down.accepted)
    && (!pub.push.PushIdle? ==> pub.push.args.id == pub.nextCmd)
    && pub.calls == pub.sent + pub.dropped + (if pub.push.PushIdle? then 0 else 1)
  }

  ghost predicate Inv(d: Dim, s: Chan) {
    OwnInv(s) && DownInv(d, s) && UpInv(d, s) && Accounts(s.down, s.pub)
  }

  /** At most one live subscriber is inside a ring operation. */
  lemma OneActive(s: Chan, i: nat, j: nat)
    requires O.Safe(s.own) && O.Unstolen(s.own) && Active(s, i) && Active(s, j)
    ensures i == j
  {
    assert O.SubOk(s.own, s.own.subs[i]) && O.SubOk(s.own, s.own.subs[j]);
  }

  lemma ProtocolKeepsOwner(m: O.Mode, d: Dim, s: Chan, o: O.OwnEvent)
    requires m.serialised && m.timely && OwnInv(s) && s.own.now < TWO64 && Enabled(m, d, s, Protocol(o))
    ensures OwnInv(Apply(m, d, s, Protocol(o)))
  {
    O.SafeKeeps(s.own, o);
    O.UnstolenKeeps(s.own, o);
  }

  lemma ProtocolKeeps(m: O.Mode, d: Dim, s: Chan, o: O.OwnEvent)
    requires m.serialised && m.timely && Inv(d, s) && s.own.now < TWO64 && Enabled(m, d, s, Protocol(o))
    ensures Inv(d, Apply(m, d, s, Protocol(o)))
  {
    var t := Apply(m, d, s, Protocol(o));
    ProtocolKeepsOwner(m, d, s, o);
    forall i | Active(t, i) ensures PopOk(d, t.down, t.pop[i]) && PushOk(d, t.up, t.push[i]) {
      if !(o.Beat? && o.i == i) { assert Active(s, i); }
    }
  }

  lemma PubOversizedKeeps(m: O.Mode, d: Dim, s: Chan, a: Args)
    requires Inv(d, s) && Enabled(m, d, s, PubOversized(a))
    ensures Inv(d, Apply(m, d, s, PubOversized(a)))
  {
    var t := Apply(m, d, s, PubOversized(a));
    assert forall i | Active(t, i) :: Active(s, i);
  }

  lemma PubPushKeeps(m: O.Mode, d: Dim, s: Chan, p: PushEvent)
    requires Inv(d, s) && Enabled(m, d, s, PubPush(p))
    ensures Inv(d, Apply(m, d, s, PubPush(p)))
  {
    var t := Apply(m, d, s, PubPush(p));
    PushKeeps(d, s.down, s.pub.push, p, PopIdle);
    forall i | Active(t, i) ensures PopOk(d, t.down, t.pop[i]) {
      assert Active(s, i);
      PushKeeps(d, s.down, s.pub.push, p, s.pop[i]);
    }
    assert forall i | Active(t, i) :: Active(s, i);
  }

  lemma PubPopKeeps(m: O.Mode, d: Dim, s: Chan, q: PopEvent)
    requires Inv(d, s) && Enabled(m, d, s, PubPop(q))
    ensures Inv(d, Apply(m, d, s, PubPop(q)))
  {
    var t := Apply(m, d, s, PubPop(q));
    PopKeeps(d, s.up, PushIdle, s.pub.pop, q);
    forall i | Active(t, i) ensures PushOk(d, t.up, t.push[i]) {
      assert Active(s, i);
      PopKeeps(d, s.up, s.push[i], s.pub.pop, q);
    }
    assert forall i | Active(t, i) :: Active(s, i);
  }

  lemma SubPushKeeps(m: O.Mode, d: Dim, s: Chan, i: nat, p: PushEvent)
    requires Inv(d, s) && Enabled(m, d, s, SubPush(i, p))
    ensures Inv(d, Apply(m, d, s, SubPush(i, p)))
  {
    var t := Apply(m, d, s, SubPush(i, p));
    PushKeeps(d, s.up, s.push[i], p, s.pub.pop);
    forall j | Active(t, j) ensures PushOk(d, t.up, t.push[j]) && PopOk(d, t.down, t.pop[j]) {
      assert Active(s, j);
      OneActive(s, i, j);
    }
  }

  lemma SubPopKeeps(m: O.Mode, d: Dim, s: Chan, i: nat, q: PopEvent)
    requires Inv(d, s) && Enabled(m, d, s, SubPop(i, q))
    ensures Inv(d, Apply(m, d, s, SubPop(i, q)))
  {
    var t := Apply(m, d, s, SubPop(i, q));
    PopKeeps(d, s.down, s.pub.push, s.pop[i], q);
    forall j | Active(t, j) ensures PushOk(d, t.up, t.push[j]) && PopOk(d, t.down, t.pop[j]) {
      assert Active(s, j);
      OneActive(s, i, j);
    }
  }

  lemma StepKeeps(m: O.Mode, d: Dim, s: Chan, e: Event)
    requires m.serialised && m.timely && Inv(d, s) && s.own.now < TWO64 && Enabled(m, d, s, e)
    ensures Inv(d, Apply(m, d, s, e))
  {
    match e
    case Protocol(o) => ProtocolKeeps(m, d, s, o);
    case PubOversized(a) => PubOversizedKeeps(m, d, s, a);
    case PubPush(p) => PubPushKeeps(m, d, s, p);
    case PubPop(q) => PubPopKeeps(m, d, s, q);
    case SubPush(i, p) => SubPushKeeps(m, d, s, i, p);
    case SubPop(i, q) => SubPopKeeps(m, d, s, i, q);
  }

  lemma {:induction false} ClockBound(m: O.Mode, d: Dim, s: Chan, es: seq<Event>, t: Chan)
    requires Runs(m, d, s, es, t)
    ensures s.own.now <= t.own.now
    decreases |es|
  {
    if es != [] { ClockBound(m, d, Apply(m, d, s, es[0]), es[1..], t); }
  }

  lemma {:induction false} RunKeeps(m: O.Mode, d: Dim, s: Chan, es: seq<Event>, t: Chan)
    requires m.serialised && m.timely && Inv(d, s) && Runs(m, d, s, es, t) && t.own.now < TWO64
    ensures Inv(d, t)
    decreases |es|
  {
    if es != [] {
      ClockBound(m, d, s, es, t);
      StepKeeps(m, d, s, es[0]);
      RunKeeps(m, d, Apply(m, d, s, es[0]), es[1..], t);
    }
  }

  lemma ReachableInv(m: O.Mode, d: Dim, t: Chan)
    requires m.serialised && m.timely && DimOk(d) && Reachable(m, d, t)
    ensures Inv(d, t)
  {
    var now, es :| Runs(m, d, Init(d, now), es, t) && t.own.now < TWO64;
    R.EmptyRingOk(d);
    RunKeeps(m, d, Init(d, now), es, t);
  }

  // ----------------------------------------------------------------------- theorems

  /** The ownership protocol gives each ring a single pusher and a single popper: never are two live
      subscribers inside a ring operation, and while one is, no cell is both read and written. */
  lemma OnePusherOnePopper(m: O.Mode, d: Dim, s: Chan, i: nat, j: nat)
    requires m.serialised && m.timely && DimOk(d) && Reachable(m, d, s) && Active(s, i) && Active(s, j)
    ensures i == j
    ensures s.pub.push.Writing? && s.pop[i].Reading? ==> Index(d, s.pub.push.head) != Index(d, s.pop[i].tail)
    ensures s.push[i].Writing? && s.pub.pop.Reading? ==> Index(d, s.push[i].head) != Index(d, s.pub.pop.tail)
  {
    ReachableInv(m, d, s);
    OneActive(s, i, j);
    if s.pub.push.Writing? && s.pop[i].Reading? { R.CellsApart(d, R.RingSys(s.down, s.pub.push, s.pop[i])); }
    if s.push[i].Writing? && s.pub.pop.Reading? { R.CellsApart(d, R.RingSys(s.up, s.push[i], s.pub.pop)); }
  }

  /** Commands are lossless and ordered in both directions, across any number of hand-overs, crashes in
      mid-operation and counter wraps: what was popped is the first pushes, each once and intact. */
  lemma LosslessAndOrdered(m: O.Mode, d: Dim, s: Chan)
    requires m.serialised && m.timely && DimOk(d) && Reachable(m, d, s)
    ensures forall r | r == s.down || r == s.up ::
              && r.popped <= r.pushed && |r.pushed| <= |r.popped| + d.slots && |r.accepted| == |r.pushed|
              && forall k | 0 <= k < |r.popped| :: Delivers(r.accepted[k], r.popped[k])
  {
    ReachableInv(m, d, s);
    forall r | r == s.down || r == s.up
      ensures r.popped <= r.pushed && |r.pushed| <= |r.popped| + d.slots && |r.accepted| == |r.pushed|
              && forall k | 0 <= k < |r.popped| :: Delivers(r.accepted[k], r.popped[k])
    {
      forall k | 0 <= k < |r.popped| ensures Delivers(r.accepted[k], r.popped[k]) {
        assert r.popped[k] == r.pushed[k];
      }
    }
  }

  /** Publisher accounting over the session: `sent` is the downstream head (modulo 2^64), the k-th
      command received by any owner has id k, sent = popped + pending, and between calls every send is
      counted once, as sent or as dropped. */
  lemma PublisherAccounting(m: O.Mode, d: Dim, s: Chan)
    requires m.serialised && m.timely && DimOk(d) && Reachable(m, d, s)
    ensures s.pub.sent % TWO64 == s.down.head && s.pub.nextCmd == s.pub.sent + 1
    ensures forall k | 0 <= k < |s.down.popped| :: s.down.popped[k].id == k + 1
    ensures s.pub.sent == |s.down.popped| + Sub64(s.down.head, s.down.tail)
    ensures s.pub.push.PushIdle? ==> s.pub.calls == s.pub.sent + s.pub.dropped
  {
    ReachableInv(m, d, s);
    SubAcrossWrap(|s.down.pushed|, |s.down.popped|);
    forall k | 0 <= k < |s.down.popped| ensures s.down.popped[k].id == k + 1 {
      assert s.down.popped[k] == s.down.pushed[k];
      assert Delivers(s.down.accepted[k], s.down.pushed[k]);
    }
  }

  /** A refused send consumes no id. In every step the id counter, `sent` and the queue's history move
      together; `dropped` moves exactly when a send is refused, which happens exactly for an oversized
      command or a full ring, and then neither ring nor any id changes. */
  lemma RefusedSendKeepsId(m: O.Mode, d: Dim, s: Chan, e: Event)
    requires m.serialised && m.timely && DimOk(d) && Reachable(m, d, s) && Enabled(m, d, s, e)
    ensures var t := Apply(m, d, s, e);
            && t.pub.nextCmd - s.pub.nextCmd == t.pub.sent - s.pub.sent == |t.down.pushed| - |s.down.pushed|
            && (t.pub.dropped != s.pub.dropped <==>
                  e.PubOversized? || (e == PubPush(PushLoadTail) && |s.down.pushed| == |s.down.popped| + d.slots))
            && (t.pub.dropped != s.pub.dropped ==>
                  t == s.(pub := s.pub.(push := PushIdle, dropped := s.pub.dropped + 1, calls := t.pub.calls)))
  {
    ReachableInv(m, d, s);
    if e == PubPush(PushLoadTail) { PushLoadKeeps(d, s.down, s.pub.push); }
  }
}

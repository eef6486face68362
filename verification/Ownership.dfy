/** Ownership of the command channel within one session: claim by compare-and-exchange, heartbeat,
    steal from a silent owner, release. Any number of subscribers, interleaved at every access. */
module Ownership {
  import opened Words

  const STALE_NS: nat := 8_000_000_000

  /** Where a subscriber is: in try_connect's claim loop, between calls, or inside a call. */
  datatype Phase =
    | Fresh                                // about to load the current claim
    | Loaded(seen: nat)                    // about to judge it
    | MayClaim(seen: nat)                  // free, or judged stale: about to take a token
    | HasToken(seen: nat, claim: nat)      // about to compare-and-exchange
    | FirstBeat                            // claimed, first heartbeat not stored yet
    | Attached                             // between calls
    | Verifying                            // in still_owns_commands, about to load the claim
    | Beating                              // claim confirmed, about to store the heartbeat
    | Using                                // passed still_owns_commands, operating on a ring

  /** owns and token are owns_commands and owner_gen. A crashed, destroyed or departed subscriber stays
      in the table with alive = false and takes no more steps. */
  datatype Sub = Sub(alive: bool, phase: Phase, owns: bool, token: nat)

  /** gen and beat are the shared words. History: used, every token ever taken. */
  datatype Own = Own(gen: nat, beat: nat, now: nat, subs: map<nat, Sub>, used: set<nat>)

  /** Conditions on a run. serialised: nobody judges a claim whose live claimant has yet to store its
      first heartbeat, as when the application opens its subscribers one at a time. timely: no live
      owner ever lets its heartbeat grow STALE_NS old. */
  datatype Mode = Mode(serialised: bool, timely: bool)

  datatype OwnEvent =
    | Tick(d: nat)
    | Attach(i: nat)
    | LoadGen(i: nat)
    | Judge(i: nat)
    | TakeToken(i: nat, t: nat)
    | Claim(i: nat, spurious: bool)
    | StoreFirstBeat(i: nat)
    | CallIn(i: nat)
    | Verify(i: nat)
    | Beat(i: nat, use: bool)
    | Finish(i: nat)
    | Detach(i: nat)
    | Crash(i: nat)

  predicate Alive(s: Own, i: nat) { i in s.subs && s.subs[i].alive }

  predicate Enabled(s: Own, e: OwnEvent) {
    match e
    case Tick(d) => true
    case Attach(i) => i !in s.subs
    case LoadGen(i) => Alive(s, i) && s.subs[i].phase.Fresh?
    case Judge(i) => Alive(s, i) && s.subs[i].phase.Loaded?
    // Tokens are clock readings; they are assumed nonzero and distinct.
    case TakeToken(i, t) => Alive(s, i) && s.subs[i].phase.MayClaim? && t != 0 && t !in s.used
    case Claim(i, _) => Alive(s, i) && s.subs[i].phase.HasToken?
    case StoreFirstBeat(i) => Alive(s, i) && s.subs[i].phase.FirstBeat?
    case CallIn(i) => Alive(s, i) && s.subs[i].phase.Attached?
    case Verify(i) => Alive(s, i) && s.subs[i].phase.Verifying?
    case Beat(i, _) => Alive(s, i) && s.subs[i].phase.Beating?
    case Finish(i) => Alive(s, i) && s.subs[i].phase.Using?
    case Detach(i) => Alive(s, i) && s.subs[i].phase.Attached?
    case Crash(i) => Alive(s, i)
  }

  function Set(s: Own, i: nat, sub: Sub): Own { s.(subs := s.subs[i := sub]) }

  function Apply(s: Own, e: OwnEvent): Own
    requires Enabled(s, e)
  {
    match e
    case Tick(d) => s.(now := s.now + d)
    case Attach(i) => Set(s, i, Sub(true, Fresh, false, 0))
    case LoadGen(i) => Set(s, i, s.subs[i].(phase := Loaded(s.gen)))
    case Judge(i) =>
      var seen := s.subs[i].phase.seen;
      var held := seen != 0 && Sub64(s.now, s.beat) < STALE_NS;
      Set(s, i, s.subs[i].(phase := if held then Attached else MayClaim(seen)))
    case TakeToken(i, t) =>
      Set(s, i, s.subs[i].(phase := HasToken(s.subs[i].phase.seen, t))).(used := s.used + {t})
    case Claim(i, spurious) =>
      var p := s.subs[i].phase;
      if !spurious && s.gen == p.seen then
        Set(s, i, Sub(true, FirstBeat, true, p.claim)).(gen := p.claim)
      else Set(s, i, s.subs[i].(phase := Loaded(s.gen)))
    case StoreFirstBeat(i) => Set(s, i, s.subs[i].(phase := Attached)).(beat := s.now)
    case CallIn(i) => if s.subs[i].owns then Set(s, i, s.subs[i].(phase := Verifying)) else s
    case Verify(i) =>
      if s.gen != s.subs[i].token then Set(s, i, s.subs[i].(phase := Attached, owns := false))
      else Set(s, i, s.subs[i].(phase := Beating))
    case Beat(i, use) => Set(s, i, s.subs[i].(phase := if use then Using else Attached)).(beat := s.now)
    case Finish(i) => Set(s, i, s.subs[i].(phase := Attached))
    case Detach(i) =>
      var gone := Set(s, i, s.subs[i].(alive := false));
      if s.subs[i].owns && s.gen == s.subs[i].token then gone.(gen := 0) else gone
    case Crash(i) => Set(s, i, s.subs[i].(alive := false))
  }

  /** No live owner has been silent for STALE_NS (one that has just claimed has not beaten yet). */
  ghost predicate Timely(s: Own) {
    forall i | i in s.subs && s.subs[i].alive && s.subs[i].owns && s.subs[i].token == s.gen
               && !s.subs[i].phase.FirstBeat? ::
      s.now < s.beat + STALE_NS
  }

  /** Subscriber i is about to judge a claim whose live claimant has not stored its first heartbeat. */
  ghost predicate Premature(s: Own, i: nat) {
    exists j :: j in s.subs && s.subs[j].alive && s.subs[j].phase.FirstBeat?
                && i in s.subs && s.subs[i].phase == Loaded(s.subs[j].token)
  }

  ghost predicate Allowed(m: Mode, s: Own, e: OwnEvent) {
    && Enabled(s, e)
    && (m.serialised && e.Judge? ==> !Premature(s, e.i))
    && (m.timely ==> Timely(Apply(s, e)))
  }

  ghost predicate Runs(m: Mode, s: Own, es: seq<OwnEvent>, t: Own)
    decreases |es|
  {
    if es == [] then t == s
    else Allowed(m, s, es[0]) && Runs(m, Apply(s, es[0]), es[1..], t)
  }

  /** A new session: nothing claimed, heartbeat word zero, the clock at any value below 2^64. */
  function Init(now: nat): Own { Own(0, 0, now, map[], {}) }

  ghost predicate Reachable(m: Mode, t: Own) {
    exists now, es :: Runs(m, Init(now), es, t) && t.now < TWO64
  }

  // ---------------------------------------------------------- invariant without timing

  /** The subscriber has left the claim loop. */
  predicate Settled(p: Phase) {
    p.FirstBeat? || p.Attached? || p.Verifying? || p.Beating? || p.Using?
  }

  /** The token a subscriber holds or is about to claim with; 0 for none. */
  function Key(sub: Sub): nat { if sub.phase.HasToken? then sub.phase.claim else sub.token }

  predicate HasSeen(p: Phase) { p.Loaded? || p.MayClaim? || p.HasToken? }

  /** The subscriber's claim is the current one. */
  predicate Holds(s: Own, i: nat) {
    i in s.subs && s.subs[i].owns && s.subs[i].token == s.gen
  }

  predicate SubOk(s: Own, sub: Sub) {
    && (!Settled(sub.phase) ==> !sub.owns && sub.token == 0)
    && (sub.phase.FirstBeat? || sub.phase.Verifying? || sub.phase.Beating? || sub.phase.Using? ==> sub.owns)
    && (sub.owns ==> sub.token != 0)
    && (Key(sub) != 0 ==> Key(sub) in s.used)
    && (HasSeen(sub.phase) && sub.phase.seen != 0 ==> sub.phase.seen in s.used)
    && (sub.phase.HasToken? ==> sub.phase.claim != 0 && sub.phase.claim != s.gen)
  }

  /** No two subscribers hold or are about to use the same token. */
  ghost predicate KeysDistinct(subs: map<nat, Sub>) {
    forall i, j | i in subs && j in subs && i != j && Key(subs[i]) != 0 :: Key(subs[i]) != Key(subs[j])
  }

  /** Nobody has seen a token that is still to be claimed. */
  ghost predicate ClaimsUnseen(subs: map<nat, Sub>) {
    forall i, j | i in subs && j in subs && subs[i].phase.HasToken? && HasSeen(subs[j].phase) ::
      subs[i].phase.claim != subs[j].phase.seen
  }

  ghost predicate SubsOk(s: Own) {
    forall i | i in s.subs :: SubOk(s, s.subs[i])
  }

  ghost predicate Safe(s: Own) {
    && (s.gen != 0 ==> s.gen in s.used)
    && s.beat <= s.now
    && SubsOk(s) && KeysDistinct(s.subs) && ClaimsUnseen(s.subs)
  }

  lemma GenKeeps(s: Own, e: OwnEvent)
    requires Enabled(s, e) && SubsOk(s) && (s.gen != 0 ==> s.gen in s.used)
    ensures var t := Apply(s, e); (t.gen != 0 ==> t.gen in t.used) && s.used <= t.used
  {
  }

  lemma SubsKeepClaim(s: Own, e: OwnEvent)
    requires e.Claim? && Enabled(s, e) && SubsOk(s) && KeysDistinct(s.subs) && (s.gen != 0 ==> s.gen in s.used)
    ensures SubsOk(Apply(s, e))
  {
  }

  lemma SubsKeepOther(s: Own, e: OwnEvent)
    requires !e.Claim? && Enabled(s, e) && SubsOk(s) && (s.gen != 0 ==> s.gen in s.used)
    ensures SubsOk(Apply(s, e))
  {
  }

  lemma KeysKeep(s: Own, e: OwnEvent)
    requires Enabled(s, e) && SubsOk(s) && KeysDistinct(s.subs)
    ensures KeysDistinct(Apply(s, e).subs)
  {
  }

  lemma ClaimsKeep(s: Own, e: OwnEvent)
    requires Enabled(s, e) && SubsOk(s) && ClaimsUnseen(s.subs) && (s.gen != 0 ==> s.gen in s.used)
    ensures ClaimsUnseen(Apply(s, e).subs)
  {
  }

  lemma SafeKeeps(s: Own, e: OwnEvent)
    requires Safe(s) && Enabled(s, e)
    ensures Safe(Apply(s, e))
  {
    GenKeeps(s, e);
    if e.Claim? { SubsKeepClaim(s, e); } else { SubsKeepOther(s, e); }
    KeysKeep(s, e);
    ClaimsKeep(s, e);
  }

  // ------------------------------------------------------------- invariant with timing

  /** A live owner still holds the channel. */
  ghost predicate OwnersHold(s: Own) {
    forall i | i in s.subs && s.subs[i].alive && s.subs[i].owns :: s.subs[i].token == s.gen
  }

  /** Nobody is poised to take the channel from a live owner. */
  ghost predicate NoneThreatened(subs: map<nat, Sub>) {
    forall i, j | i in subs && j in subs && subs[j].alive && subs[j].owns
                  && (subs[i].phase.MayClaim? || subs[i].phase.HasToken?) ::
      subs[i].phase.seen != subs[j].token
  }

  ghost predicate Unstolen(s: Own) { OwnersHold(s) && NoneThreatened(s.subs) }

  /** A successful claim displaces no live owner. */
  lemma ClaimFromNoOne(s: Own, i: nat)
    requires Unstolen(s) && i in s.subs && s.subs[i].phase.HasToken? && s.gen == s.subs[i].phase.seen
    ensures forall j | j in s.subs && s.subs[j].alive :: !s.subs[j].owns
  {
  }

  lemma OwnersKeep(s: Own, e: OwnEvent)
    requires Unstolen(s) && KeysDistinct(s.subs) && SubsOk(s) && Enabled(s, e)
    ensures OwnersHold(Apply(s, e))
  {
    if e.Claim? && !e.spurious && s.gen == s.subs[e.i].phase.seen { ClaimFromNoOne(s, e.i); }
  }

  lemma ThreatsKeep(s: Own, e: OwnEvent)
    requires Unstolen(s) && SubsOk(s) && ClaimsUnseen(s.subs) && Enabled(s, e) && (e.Judge? ==> !Premature(s, e.i))
    requires Timely(s) && s.beat <= s.now < TWO64
    ensures NoneThreatened(Apply(s, e).subs)
  {
  }

  lemma UnstolenKeeps(s: Own, e: OwnEvent)
    requires Safe(s) && Unstolen(s) && Timely(s) && s.now < TWO64
    requires Enabled(s, e) && (e.Judge? ==> !Premature(s, e.i))
    ensures Unstolen(Apply(s, e))
  {
    OwnersKeep(s, e);
    ThreatsKeep(s, e);
  }

  lemma {:induction false} RunKeeps(m: Mode, s: Own, es: seq<OwnEvent>, t: Own)
    requires Safe(s) && (m.timely ==> Timely(s)) && (m.serialised && m.timely ==> Unstolen(s))
    requires Runs(m, s, es, t) && t.now < TWO64
    ensures Safe(t) && (m.timely ==> Timely(t)) && (m.serialised && m.timely ==> Unstolen(t)) && s.now <= t.now
    decreases |es|
  {
    if es != [] {
      var u := Apply(s, es[0]);
      ClockBound(m, u, es[1..], t);
      SafeKeeps(s, es[0]);
      if m.serialised && m.timely { UnstolenKeeps(s, es[0]); }
      RunKeeps(m, u, es[1..], t);
    }
  }

  lemma {:induction false} ClockBound(m: Mode, s: Own, es: seq<OwnEvent>, t: Own)
    requires Runs(m, s, es, t)
    ensures s.now <= t.now
    decreases |es|
  {
    if es != [] { ClockBound(m, Apply(s, es[0]), es[1..], t); }
  }

  lemma ReachableInv(m: Mode, t: Own)
    requires Reachable(m, t)
    ensures Safe(t) && (m.timely ==> Timely(t)) && (m.serialised && m.timely ==> Unstolen(t)) && t.now < TWO64
  {
    var now, es :| Runs(m, Init(now), es, t) && t.now < TWO64;
    RunKeeps(m, Init(now), es, t);
  }

  // --------------------------------------------------------------------------- theorems

  /** With distinct tokens alone: at most one subscriber's token is the current claim. */
  lemma AtMostOneHolder(m: Mode, s: Own, i: nat, j: nat)
    requires Reachable(m, s) && Holds(s, i) && Holds(s, j)
    ensures i == j
  {
    ReachableInv(m, s);
  }

  /** A destructor frees the channel exactly if it still holds it: whoever else holds it still does. */
  lemma DetachKeepsOthers(m: Mode, s: Own, i: nat, j: nat)
    requires Reachable(m, s) && Enabled(s, Detach(i))
    ensures Apply(s, Detach(i)).gen == if Holds(s, i) then 0 else s.gen
    ensures i != j && Holds(s, j) ==> Holds(Apply(s, Detach(i)), j)
  {
    ReachableInv(m, s);
  }

  lemma LossStep(s: Own, e: OwnEvent, i: nat)
    requires Safe(s) && Enabled(s, e) && i in s.subs && Settled(s.subs[i].phase) && !Holds(s, i)
    ensures var t := Apply(s, e); i in t.subs && Settled(t.subs[i].phase) && !Holds(t, i)
  {
  }

  /** A subscriber that was refused, or whose claim was taken, never holds the channel again in that
      session, whatever happens and whether or not it has noticed. */
  lemma {:induction false} LossIsForever(m: Mode, s: Own, es: seq<OwnEvent>, t: Own, i: nat)
    requires Safe(s) && Runs(m, s, es, t) && i in s.subs && Settled(s.subs[i].phase) && !Holds(s, i)
    ensures i in t.subs && !Holds(t, i)
    decreases |es|
  {
    if es != [] {
      SafeKeeps(s, es[0]);
      LossStep(s, es[0], i);
      LossIsForever(m, Apply(s, es[0]), es[1..], t, i);
    }
  }

  /** At most one live subscriber is past still_owns_commands. */
  ghost predicate Exclusive(s: Own) {
    forall i, j | i in s.subs && j in s.subs && s.subs[i].alive && s.subs[j].alive
                  && s.subs[i].phase.Using? && s.subs[j].phase.Using? :: i == j
  }

  /** With timely heartbeats and nobody judging a claim before its claimant's first heartbeat: no live
      owner is ever stolen from, and at most one live subscriber is past still_owns_commands. */
  lemma ExclusionWhenSerialised(m: Mode, s: Own)
    requires m.serialised && m.timely && Reachable(m, s)
    ensures Exclusive(s)
    ensures forall i | i in s.subs && s.subs[i].alive && s.subs[i].owns :: Holds(s, i)
  {
    ReachableInv(m, s);
  }

  // ------------------------------------------------------------- the channel can be had

  /** The channel is unclaimed, or its owner has been silent for the stale window. */
  predicate Free(s: Own) { s.gen == 0 || s.beat + STALE_NS <= s.now }

  predicate Newcomer(s: Own, i: nat, token: nat) { i !in s.subs && token != 0 && token !in s.used }

  /** What try_connect does to the channel when nobody interferes. */
  function Opened(s: Own, i: nat, token: nat): Own
    requires Newcomer(s, i, token)
  {
    var judged := Apply(Apply(Apply(s, Attach(i)), LoadGen(i)), Judge(i));
    if judged.subs[i].phase.Attached? then judged
    else Apply(Apply(judged, TakeToken(i, token)), Claim(i, false))
  }

  /** An undisturbed newcomer gets the channel exactly if it is free; otherwise it ends up attached without
      it, and the owner's claim and heartbeat are as before. */
  lemma ClaimsExactlyIfFree(m: Mode, s: Own, i: nat, token: nat)
    requires Reachable(m, s) && Newcomer(s, i, token)
    ensures var t := Opened(s, i, token);
            && (Holds(t, i) <==> Free(s))
            && (Free(s) ==> t.subs[i] == Sub(true, FirstBeat, true, token))
            && (!Free(s) ==> t == s.(subs := s.subs[i := Sub(true, Attached, false, 0)]))
  {
    ReachableInv(m, s);
  }

  /** No claim is waiting for its first heartbeat. */
  ghost predicate NoneClaiming(s: Own) {
    forall j | j in s.subs && s.subs[j].alive :: !s.subs[j].phase.FirstBeat?
  }

  lemma NewcomerIsTimely(s: Own, i: nat, phase: Phase)
    requires Timely(s) && i !in s.subs
    ensures Timely(s.(subs := s.subs[i := Sub(true, phase, false, 0)]))
  {
  }

  lemma LooksIn(m: Mode, s: Own, i: nat) returns (t: Own)
    requires Reachable(m, s) && i !in s.subs && s.now < TWO64 && (m.timely ==> Timely(s))
    ensures Reachable(m, t) && t == s.(subs := s.subs[i := Sub(true, Loaded(s.gen), false, 0)])
  {
    if m.timely {
      NewcomerIsTimely(s, i, Fresh);
      NewcomerIsTimely(s, i, Loaded(s.gen));
    }
    t := Go(m, s, Attach(i));
    t := Go(m, t, LoadGen(i));
  }

  /** The newcomer has found the channel free. */
  lemma FindsFree(m: Mode, s: Own, i: nat) returns (t: Own)
    requires Reachable(m, s) && i !in s.subs && Free(s) && (m.serialised ==> NoneClaiming(s))
    ensures Reachable(m, t) && t == s.(subs := s.subs[i := Sub(true, MayClaim(s.gen), false, 0)])
  {
    ReachableInv(m, s);
    t := LooksIn(m, s, i);
    if m.timely { NewcomerIsTimely(s, i, MayClaim(s.gen)); }
    t := Go(m, t, Judge(i));
  }

  /** Whatever is demanded of runs, a free channel can be had: from every reachable state a run takes any
      newcomer to the claim. */
  lemma FreeChannelCanBeHad(m: Mode, s: Own, i: nat, token: nat)
    requires Reachable(m, s) && Newcomer(s, i, token) && Free(s) && (m.serialised ==> NoneClaiming(s))
    ensures exists t :: Reachable(m, t) && t.now == s.now && Holds(t, i) && t.subs[i].alive && t.subs[i].token == token
  {
    ReachableInv(m, s);
    var t := FindsFree(m, s, i);
    t := Go(m, t, TakeToken(i, token));
    t := Go(m, t, Claim(i, false));
    assert Holds(t, i);
  }

  // ------------------------------------------------------------- the channel can be kept

  /** What still_owns_commands does when nobody interferes, on the way into an operation. */
  function Checked(s: Own, i: nat): Own
    requires Alive(s, i) && s.subs[i].phase.Attached?
  {
    if !s.subs[i].owns then Apply(s, CallIn(i))
    else
      var verified := Apply(Apply(s, CallIn(i)), Verify(i));
      if verified.subs[i].phase.Beating? then Apply(verified, Beat(i, true)) else verified
  }

  /** The check passes exactly for the current claimant, and refreshes its heartbeat; it tells anyone else
      that it has lost the channel, and leaves the heartbeat alone. */
  lemma PassesExactlyIfHolds(s: Own, i: nat)
    requires Alive(s, i) && s.subs[i].phase.Attached?
    ensures var t := Checked(s, i);
            && t.gen == s.gen && (t.subs[i].phase.Using? <==> Holds(s, i))
            && (Holds(s, i) ==> t.subs[i].owns && t.beat == t.now == s.now)
            && (!Holds(s, i) ==> t.subs[i].phase.Attached? && !t.subs[i].owns && t.beat == s.beat)
  {
  }

  /** Nobody is poised to take the channel from this claim. */
  ghost predicate Unthreatened(s: Own, token: nat) {
    forall j | j in s.subs && (s.subs[j].phase.MayClaim? || s.subs[j].phase.HasToken?) :: s.subs[j].phase.seen != token
  }

  /** The claim stands, with a heartbeat no older than b. */
  ghost predicate Stands(s: Own, i: nat, token: nat, b: nat) {
    Safe(s) && Holds(s, i) && s.gen == token && Unthreatened(s, token) && b <= s.beat
  }

  lemma StandsStep(s: Own, e: OwnEvent, i: nat, token: nat, b: nat)
    requires Stands(s, i, token, b) && Enabled(s, e) && e != Detach(i) && s.now < TWO64 && s.now < b + STALE_NS
    ensures Stands(Apply(s, e), i, token, b)
  {
    SafeKeeps(s, e);
  }

  lemma {:induction false} StandsOn(m: Mode, s: Own, es: seq<OwnEvent>, t: Own, i: nat, token: nat, b: nat)
    requires Stands(s, i, token, b) && Runs(m, s, es, t) && Detach(i) !in es
    requires t.now < TWO64 && t.now < b + STALE_NS
    ensures Stands(t, i, token, b)
    decreases |es|
  {
    if es != [] {
      ClockBound(m, s, es, t);
      StandsStep(s, es[0], i, token, b);
      StandsOn(m, Apply(s, es[0]), es[1..], t, i, token, b);
    }
  }

  /** A heartbeat is good for the stale window: a claimant that stores one, nobody being poised to take its
      claim, still holds the channel after every run shorter than STALE_NS in which it does not detach,
      whether or not others beat in time or wait their turn. */
  lemma HeartbeatHolds(m: Mode, s: Own, e: OwnEvent, es: seq<OwnEvent>, t: Own, i: nat)
    requires Reachable(m, s) && Allowed(m, s, e) && (e == StoreFirstBeat(i) || e == Beat(i, true) || e == Beat(i, false))
    requires Holds(s, i) && Unthreatened(s, s.gen)
    requires Runs(m, Apply(s, e), es, t) && Detach(i) !in es && t.now < s.now + STALE_NS && t.now < TWO64
    ensures Holds(t, i)
  {
    ReachableInv(m, s);
    SafeKeeps(s, e);
    StandsOn(m, Apply(s, e), es, t, i, s.gen, s.now);
  }

  // ----------------------------------------------- claims must be judged one at a time

  lemma {:induction false} RunsSnoc(m: Mode, s: Own, es: seq<OwnEvent>, t: Own, e: OwnEvent)
    requires Runs(m, s, es, t) && Allowed(m, t, e)
    ensures Runs(m, s, es + [e], Apply(t, e))
    decreases |es|
  {
    if es == [] {
      assert Runs(m, Apply(s, e), [], Apply(t, e));
      assert (es + [e])[1..] == [];
    } else {
      RunsSnoc(m, Apply(s, es[0]), es[1..], t, e);
      assert (es + [e])[1..] == es[1..] + [e];
    }
  }

  lemma Go(m: Mode, s: Own, e: OwnEvent) returns (t: Own)
    requires Reachable(m, s) && Allowed(m, s, e) && Apply(s, e).now < TWO64
    ensures t == Apply(s, e) && Reachable(m, t)
  {
    var now, es :| Runs(m, Init(now), es, s) && s.now < TWO64;
    RunsSnoc(m, Init(now), es, s, e);
    t := Apply(s, e);
    assert Runs(m, Init(now), es + [e], t);
  }

  /** Subscriber 0 finds the channel free ... */
  lemma FirstLooks(m: Mode) returns (s: Own)
    requires !m.serialised
    ensures Reachable(m, s)
    ensures s == Own(0, 0, STALE_NS, map[0 := Sub(true, MayClaim(0), false, 0)], {})
  {
    s := Init(STALE_NS);
    assert Runs(m, s, [], s);
    s := Go(m, s, Attach(0));
    s := Go(m, s, LoadGen(0));
    s := Go(m, s, Judge(0));
  }

  /** ... and claims it. */
  lemma FirstClaims(m: Mode) returns (s: Own)
    requires !m.serialised
    ensures Reachable(m, s)
    ensures s == Own(1, 0, STALE_NS, map[0 := Sub(true, FirstBeat, true, 1)], {1})
  {
    s := FirstLooks(m);
    s := Go(m, s, TakeToken(0, 1));
    s := Go(m, s, Claim(0, false));
  }

  /** The newcomer finds the claim just taken, no heartbeat yet, ... */
  lemma NewcomerLooks(m: Mode) returns (s: Own)
    requires !m.serialised
    ensures Reachable(m, s)
    ensures s == Own(1, 0, STALE_NS, map[0 := Sub(true, FirstBeat, true, 1), 1 := Sub(true, Loaded(1), false, 0)], {1})
  {
    s := FirstClaims(m);
    s := Go(m, s, Attach(1));
    s := Go(m, s, LoadGen(1));
  }

  /** ... and judges it stale. */
  lemma NewcomerJudgesStale(m: Mode) returns (s: Own)
    requires !m.serialised
    ensures Reachable(m, s)
    ensures s == Own(1, 0, STALE_NS,
                     map[0 := Sub(true, FirstBeat, true, 1), 1 := Sub(true, HasToken(1, 2), false, 0)], {1, 2})
  {
    s := NewcomerLooks(m);
    s := Go(m, s, Judge(1));
    s := Go(m, s, TakeToken(1, 2));
  }

  /** Subscriber 0 beats, verifies its claim and starts an operation. */
  lemma FirstUses(m: Mode) returns (s: Own)
    requires !m.serialised
    ensures Reachable(m, s)
    ensures s == Own(1, STALE_NS, STALE_NS,
                     map[0 := Sub(true, Using, true, 1), 1 := Sub(true, HasToken(1, 2), false, 0)], {1, 2})
  {
    s := NewcomerJudgesStale(m);
    s := Go(m, s, StoreFirstBeat(0));
    s := Go(m, s, CallIn(0));
    s := Go(m, s, Verify(0));
    s := Go(m, s, Beat(0, true));
  }

  /** Without that condition: subscriber 0 claims, subscriber 1 judges that claim stale before its
      first heartbeat, subscriber 0 beats, verifies and starts an operation, and only then does
      subscriber 1's exchange succeed. Both are past still_owns_commands, with every heartbeat fresh. */
  lemma TwoOwnersWithoutSerialisedOpen(m: Mode)
    requires !m.serialised
    ensures exists s :: Reachable(m, s) && !Exclusive(s)
  {
    var s := FirstUses(m);
    s := Go(m, s, Claim(1, false));
    s := Go(m, s, StoreFirstBeat(1));
    s := Go(m, s, CallIn(1));
    s := Go(m, s, Verify(1));
    s := Go(m, s, Beat(1, true));
    assert s.subs[0].phase.Using? && s.subs[1].phase.Using?;
  }

  // --------------------------------------------------------- heartbeats must be timely

  lemma FirstOwns(m: Mode) returns (s: Own)
    requires m == Mode(true, false)
    ensures Reachable(m, s)
    ensures s == Own(1, 0, 0, map[0 := Sub(true, FirstBeat, true, 1)], {1})
  {
    s := Init(0);
    assert Runs(m, s, [], s);
    s := Go(m, s, Attach(0));
    s := Go(m, s, LoadGen(0));
    s := Go(m, s, Judge(0));
    s := Go(m, s, TakeToken(0, 1));
    s := Go(m, s, Claim(0, false));
  }

  /** Subscriber 0 claims, and stalls inside an operation for the whole stale window. */
  lemma FirstStalls(m: Mode) returns (s: Own)
    requires m == Mode(true, false)
    ensures Reachable(m, s)
    ensures s == Own(1, 0, STALE_NS, map[0 := Sub(true, Using, true, 1)], {1})
  {
    s := FirstOwns(m);
    s := Go(m, s, StoreFirstBeat(0));
    s := Go(m, s, CallIn(0));
    s := Go(m, s, Verify(0));
    s := Go(m, s, Beat(0, true));
    s := Go(m, s, Tick(STALE_NS));
  }

  lemma NewcomerSteals(m: Mode) returns (s: Own)
    requires m == Mode(true, false)
    ensures Reachable(m, s)
    ensures s == Own(2, 0, STALE_NS, map[0 := Sub(true, Using, true, 1), 1 := Sub(true, FirstBeat, true, 2)], {1, 2})
  {
    s := FirstStalls(m);
    s := Go(m, s, Attach(1));
    s := Go(m, s, LoadGen(1));
    s := Go(m, s, Judge(1));
    s := Go(m, s, TakeToken(1, 2));
    s := Go(m, s, Claim(1, false));
  }

  /** Without timely heartbeats: an owner that stalls in mid-operation is stolen from, and the thief
      enters a ring operation of its own beside it. */
  lemma TwoOwnersWithoutTimelyBeats(m: Mode)
    requires m == Mode(true, false)
    ensures exists s :: Reachable(m, s) && !Exclusive(s)
  {
    var s := NewcomerSteals(m);
    s := Go(m, s, StoreFirstBeat(1));
    s := Go(m, s, CallIn(1));
    s := Go(m, s, Verify(1));
    s := Go(m, s, Beat(1, true));
    assert s.subs[0].phase.Using? && s.subs[1].phase.Using?;
  }

  /** Exclusion holds in every reachable state exactly when nobody judges a claim before its claimant's
      first heartbeat and live owners beat in time. */
  lemma ExclusionIffSerialisedAndTimely(m: Mode)
    ensures (forall s :: Reachable(m, s) ==> Exclusive(s)) <==> m.serialised && m.timely
  {
    if !m.serialised {
      TwoOwnersWithoutSerialisedOpen(m);
    } else if !m.timely {
      TwoOwnersWithoutTimelyBeats(m);
    } else {
      forall s | Reachable(m, s) ensures Exclusive(s) { ExclusionWhenSerialised(m, s); }
    }
  }
}

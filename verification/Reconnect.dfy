/** The subscriber's connection: attaching by name, noticing a silent producer, and re-attaching to its
    successor. The command claim made on attaching is the subject of module Ownership. */
module Reconnect {
  import opened Words
  import opened Layout
  import Life = Lifecycle
  import G = RateGate

  /** The subscriber's connection variables. mapped is the segment it has open, if any. */
  datatype State = State(name: string, mapped: Option<nat>, session: nat, sessions: nat, lastFrame: nat,
                         remote: Config, layout: Layout, txOffset: nat, rxOffset: nat,
                         staleNs: nat, retryNs: nat, lastProgress: nat, lastAttempt: nat)

  /** What opening the name and validating the header yields: segment id, header, layout. */
  function Candidate(h: Life.Host, name: string): Option<(nat, Header, Layout)> {
    if name !in h.names || h.names[name] !in h.segs then None
    else
      var g := h.segs[h.names[name]];
      match ValidateHeader(g.header, g.size)
      case None => None
      case Some(L) => Some((h.names[name], g.header, L))
  }

  /** State after try_connect, given what opening the name found. */
  function ConnectedTo(found: Option<(nat, Header, Layout)>, s: State): State {
    match found
    case None => s
    case Some((seg, header, L)) =>
      if s.mapped.Some? && header.session == s.session then s else Attached(s, seg, header, L)
  }

  /** Attached to a new session. */
  function Attached(s: State, seg: nat, header: Header, L: Layout): State {
    s.(mapped := Some(seg), session := header.session, sessions := s.sessions + 1, lastFrame := 0,
       remote := Echo(header, s.name), layout := L,
       txOffset := L.upstreamOffset, rxOffset := L.downstreamOffset)
  }

  function Connected(h: Life.Host, s: State): State { ConnectedTo(Candidate(h, s.name), s) }

  /** The mapped producer's heartbeat is younger than the stale window at time t. */
  predicate Responsive(h: Life.Host, s: State, t: nat) {
    s.mapped.Some? && s.mapped.value in h.segs && Sub64(t, h.segs[s.mapped.value].beat) < s.staleNs
  }

  /** The clock readings of one poll: at entry, and at each responsiveness check. */
  datatype Times3 = Times3(t0: nat, t1: nat, t2: nat)

  /** Whether this poll re-opens the name. */
  predicate Attempts(h: Life.Host, s: State, t: Times3) {
    && !(s.mapped.Some? && Sub64(t.t0, s.lastProgress) < s.staleNs)
    && !Responsive(h, s, t.t1)
    && Sub64(t.t0, s.lastAttempt) >= s.retryNs
  }

  /** State after poll. */
  function Polled(h: Life.Host, s: State, t: Times3): State {
    if Attempts(h, s, t) then Connected(h, s.(lastAttempt := t.t0)).(lastProgress := t.t0) else s
  }

  // What poll is meant to find out, in plain terms and at a given moment.

  /** Attached, with a frame or a command within the stale window. */
  predicate Productive(s: State, t: nat) { s.mapped.Some? && t < s.lastProgress + s.staleNs }

  /** Attached to a known segment whose producer beat within the stale window. */
  predicate Beating(h: Life.Host, s: State, t: nat) {
    s.mapped.Some? && s.mapped.value in h.segs && t < h.segs[s.mapped.value].beat + s.staleNs
  }

  /** No heartbeat lies in the future. */
  ghost predicate BeatsPast(h: Life.Host, t: nat) {
    forall seg | seg in h.segs :: h.segs[seg].beat <= t
  }

  /** The name is bound to a segment that validates. */
  predicate Offers(h: Life.Host, name: string) {
    name in h.names && h.names[name] in h.segs
    && ValidateHeader(h.segs[h.names[name]].header, h.segs[h.names[name]].size).Some?
  }

  /** The state after re-opening the name: the same if there is nothing valid, or nothing new, under it;
      otherwise attached to what is, from its first frame, everything taken from its header. */
  ghost predicate ReOpened(h: Life.Host, s: State, t: State) {
    if !Offers(h, s.name) then t == s
    else
      var seg := h.names[s.name];
      var header := h.segs[seg].header;
      if s.mapped.Some? && header.session == s.session then t == s
      else
        && t == s.(mapped := Some(seg), session := header.session, sessions := s.sessions + 1, lastFrame := 0,
                   remote := t.remote, layout := t.layout, txOffset := t.txOffset, rxOffset := t.rxOffset)
        && t.remote.name == s.name
        && t.remote.maxWidth == header.maxWidth && t.remote.maxHeight == header.maxHeight
        && t.remote.bytesPerPixel == header.bytesPerPixel && t.remote.slotCount == header.slotCount
        && t.remote.commandSlots == header.commandSlots && t.remote.maxCommandBytes == header.maxCommandBytes
        && t.layout == ComputeLayout(t.remote)
        && t.txOffset == t.layout.upstreamOffset && t.rxOffset == t.layout.downstreamOffset
  }

  lemma ConnectedReOpens(h: Life.Host, s: State)
    ensures ReOpened(h, s, Connected(h, s))
  {
    if Offers(h, s.name) { EchoNameIrrelevant(h.segs[h.names[s.name]].header, "x", s.name); }
  }

  class Subscriber {
    var name: string
    var mapped: Option<nat>
    var session: nat
    var sessions: nat
    var lastFrame: nat
    var remote: Config
    var layout: Layout
    var txOffset: nat
    var rxOffset: nat
    var staleNs: nat
    var retryNs: nat
    var lastProgress: nat
    var lastAttempt: nat
    /** The last clock reading, and when the name was re-opened since the retry interval was set. */
    ghost var clock: nat
    ghost var attempts: seq<nat>

    ghost function View(): State
      reads this
    {
      State(name, mapped, session, sessions, lastFrame, remote, layout, txOffset, rxOffset,
            staleNs, retryNs, lastProgress, lastAttempt)
    }

    ghost function Past(): Session
      reads this
    {
      Session(View(), clock, attempts)
    }

    /** While attached, the layout is the one computed from the remote configuration and the rings are
        crossed against the publisher's; the last attempt is not after the last progress; and re-open
        attempts are at least a retry interval apart. */
    ghost predicate Valid()
      reads this
    {
      SessionInv(Past())
    }

    constructor Open(name: string, h: Life.Host, now: nat)
      requires now < TWO64
      ensures Valid() && clock == now && attempts == []
      ensures View() == Connected(h, FreshState(name, now))
      ensures staleNs == 500_000_000 && retryNs == 250_000_000 && lastProgress == now && lastAttempt == 0
      ensures mapped.Some? <==> Offers(h, name)
    {
      this.name := name;
      mapped, session, sessions, lastFrame := None, 0, 0, 0;
      remote, layout := NO_CONFIG, NO_LAYOUT;
      txOffset, rxOffset := 0, 0;
      staleNs, retryNs := 500_000_000, 250_000_000;
      lastProgress, lastAttempt := now, 0;
      clock, attempts := now, [];
      new;
      TryConnect(h);
    }

    /** Takes on a valid segment of a new session. */
    method Adopt(seg: nat, header: Header, L: Layout)
      modifies this`mapped, this`remote, this`layout, this`session, this`sessions, this`lastFrame,
               this`txOffset, this`rxOffset
      ensures View() == Attached(old(View()), seg, header, L)
    {
      mapped := Some(seg);
      remote := Echo(header, name);
      layout := L;
      session := header.session;
      sessions := sessions + 1;
      lastFrame := 0;
      txOffset, rxOffset := L.upstreamOffset, L.downstreamOffset;
    }

    /** Adopts a valid candidate of a new session; keeps the current mapping for the same session. */
    method TryConnect(h: Life.Host)
      requires AttachedOk(View())
      modifies this`mapped, this`remote, this`layout, this`session, this`sessions, this`lastFrame,
               this`txOffset, this`rxOffset
      ensures AttachedOk(View()) && View() == Connected(h, old(View())) && ReOpened(h, old(View()), View())
    {
      AttachKeepsValid(h, View());
      ConnectedReOpens(h, View());
      match Candidate(h, name) {
        case None =>
        case Some((seg, header, L)) =>
          if !(mapped.Some? && header.session == session) { Adopt(seg, header, L); }
      }
    }

    /** Returns whether the producer is to be considered present. */
    method Poll(h: Life.Host, t: Times3) returns (present: bool)
      requires Valid() && Enabled(Past(), PollAt(h, t))
      modifies this
      ensures Valid() && Past() == Apply(old(Past()), PollAt(h, t))
      ensures Attempts(h, old(View()), t) ==> (present <==> Responsive(h, View(), t.t2))
      ensures !Attempts(h, old(View()), t) ==>
                (present <==> (mapped.Some? && Sub64(t.t0, lastProgress) < staleNs) || Responsive(h, View(), t.t1))
      ensures BeatsPast(h, t.t1) ==> Verdict(h, old(View()), t, View(), present)
      ensures attempts == old(attempts) || attempts == old(attempts) + [t.t0]
    {
      SessionKeeps(Past(), PollAt(h, t));
      PollVerdict(h, View(), t);
      present := PollBody(h, t);
    }

    method PollBody(h: Life.Host, t: Times3) returns (present: bool)
      requires AttachedOk(View())
      modifies this
      ensures Past() == Apply(old(Past()), PollAt(h, t))
      ensures Attempts(h, old(View()), t) ==> (present <==> Responsive(h, View(), t.t2))
      ensures !Attempts(h, old(View()), t) ==>
                (present <==> (mapped.Some? && Sub64(t.t0, lastProgress) < staleNs) || Responsive(h, View(), t.t1))
    {
      clock := t.t2;
      if mapped.Some? && Sub64(t.t0, lastProgress) < staleNs { return true; }
      if mapped.Some? && mapped.value in h.segs && Sub64(t.t1, h.segs[mapped.value].beat) < staleNs { return true; }
      if Sub64(t.t0, lastAttempt) < retryNs { return false; }
      Reopen(h, t.t0);
      present := mapped.Some? && mapped.value in h.segs && Sub64(t.t2, h.segs[mapped.value].beat) < staleNs;
    }

    /** One attempt to re-open the name; the clock is reset either way. */
    method Reopen(h: Life.Host, now: nat)
      requires AttachedOk(View())
      modifies this
      ensures View() == Connected(h, old(View()).(lastAttempt := now)).(lastProgress := now)
      ensures clock == old(clock) && attempts == old(attempts) + [now]
    {
      lastAttempt := now;
      attempts := attempts + [now];
      TryConnect(h);
      lastProgress := now;
    }

    /** An accepted frame or a received command counts as progress. */
    method Progress(frame: Option<nat>, now: nat)
      requires Valid() && Enabled(Past(), ProgressAt(frame, now))
      modifies this
      ensures Valid() && Past() == Apply(old(Past()), ProgressAt(frame, now))
      ensures lastProgress == now && lastFrame == (if frame.Some? then frame.value else old(lastFrame))
    {
      SessionKeeps(Past(), ProgressAt(frame, now));
      if frame.Some? { lastFrame := frame.value; }
      lastProgress := now;
      clock := now;
    }

    /** The retry interval is half the stale window, but never zero. The record of attempts starts anew. */
    method SetStaleTimeout(ms: nat)
      requires Valid()
      modifies this`staleNs, this`retryNs, this`attempts
      ensures Valid() && staleNs == ms * 1_000_000 && retryNs == RetryFor(staleNs)
      ensures retryNs == if ms == 0 then 1 else ms * 500_000
    {
      staleNs := ms * 1_000_000;
      retryNs := if staleNs / 2 != 0 then staleNs / 2 else 1;
      attempts := if attempts == [] then [] else [lastAttempt];
    }

    /** Re-open attempts in any window of length T, however often poll is called. */
    lemma AttemptsInWindow(lo: nat, T: nat)
      requires Valid() && retryNs > 0
      ensures lastAttempt <= lastProgress
      ensures G.CountIn(attempts, lo, lo + T) <= T / retryNs + 1
    {
      G.WindowBound(attempts, retryNs, lo, T);
    }
  }

  /** The outcome of one poll, s becoming s'. A productive or beating producer is present and nothing changes.
      A silent one is absent, and nothing changes, until a retry interval has passed since the last attempt;
      then the name is re-opened, both clocks are set, and the producer is present if what is mapped now
      beats. */
  ghost predicate Verdict(h: Life.Host, s: State, t: Times3, s': State, present: bool) {
    if Productive(s, t.t0) || Beating(h, s, t.t1) then present && s' == s
    else if t.t0 < s.lastAttempt + s.retryNs then !present && s' == s
    else
      && s'.lastAttempt == s'.lastProgress == t.t0
      && ReOpened(h, s.(lastAttempt := t.t0), s'.(lastProgress := s.lastProgress))
      && (present <==> Beating(h, s', t.t2))
  }

  /** Clock minus heartbeat does not wrap, so the tests poll makes are those of Verdict. */
  lemma PollVerdict(h: Life.Host, s: State, t: Times3)
    requires s.lastAttempt <= s.lastProgress <= t.t0 <= t.t1 <= t.t2 < TWO64
    ensures BeatsPast(h, t.t1) ==>
              && (Attempts(h, s, t) <==>
                    !Productive(s, t.t0) && !Beating(h, s, t.t1) && s.lastAttempt + s.retryNs <= t.t0)
              && Verdict(h, s, t, Polled(h, s, t),
                         if Attempts(h, s, t) then Responsive(h, Polled(h, s, t), t.t2)
                         else Productive(s, t.t0) || Beating(h, s, t.t1))
  {
    ConnectedReOpens(h, s.(lastAttempt := t.t0));
  }

  const NO_CONFIG: Config := Config("shmframe", 1920, 1080, 4, 3, 64, 512, 2000)
  const NO_LAYOUT: Layout := Layout(0, 0, 0, 0, 0, 0, 0, 0, 0, 0)

  function FreshState(name: string, now: nat): State {
    State(name, None, 0, 0, 0, NO_CONFIG, NO_LAYOUT, 0, 0, 500_000_000, 250_000_000, now, 0)
  }

  function RetryFor(staleNs: nat): nat { if staleNs / 2 != 0 then staleNs / 2 else 1 }

  ghost predicate AttachedOk(s: State) {
    s.mapped.Some? ==>
      && ConfigValid(s.remote.(name := "x"))
      && s.layout == ComputeLayout(s.remote)
      && s.txOffset == RingOffset(s.layout, Upstream)
      && s.rxOffset == RingOffset(s.layout, Downstream)
  }

  lemma AttachKeepsValid(h: Life.Host, s: State)
    requires AttachedOk(s)
    ensures AttachedOk(Connected(h, s))
  {
    match Candidate(h, s.name)
    case None =>
    case Some((seg, header, L)) => EchoNameIrrelevant(header, "x", s.name);
  }

  lemma EchoNameIrrelevant(header: Header, a: string, b: string)
    ensures ComputeLayout(Echo(header, a)) == ComputeLayout(Echo(header, b))
    ensures Echo(header, b).(name := a) == Echo(header, a)
  {
  }

  // ---------------------------------------------------------------------------- runs

  datatype Event =
    | PollAt(h: Life.Host, t: Times3)
    | ProgressAt(frame: Option<nat>, now: nat)

  function Start(e: Event): nat { if e.PollAt? then e.t.t0 else e.now }
  function Stop(e: Event): nat { if e.PollAt? then e.t.t2 else e.now }

  /** History: clock, the last reading taken; attempts, the times at which the name was re-opened. */
  datatype Session = Session(s: State, clock: nat, attempts: seq<nat>)

  predicate Enabled(x: Session, e: Event) {
    && x.clock <= Start(e) && Stop(e) < TWO64
    && (e.PollAt? ==> e.t.t0 <= e.t.t1 <= e.t.t2)
  }

  function Apply(x: Session, e: Event): Session {
    match e
    case PollAt(h, t) =>
      Session(Polled(h, x.s, t), t.t2, if Attempts(h, x.s, t) then x.attempts + [t.t0] else x.attempts)
    case ProgressAt(frame, now) =>
      var lastFrame := if frame.Some? then frame.value else x.s.lastFrame;
      Session(x.s.(lastProgress := now, lastFrame := lastFrame), now, x.attempts)
  }

  ghost predicate Runs(x: Session, es: seq<Event>, y: Session)
    decreases |es|
  {
    if es == [] then y == x
    else Enabled(x, es[0]) && Runs(Apply(x, es[0]), es[1..], y)
  }

  ghost predicate SessionInv(x: Session) {
    && AttachedOk(x.s)
    && x.s.lastAttempt <= x.s.lastProgress <= x.clock < TWO64
    && G.Spaced(x.attempts, x.s.retryNs)
    && (x.attempts != [] ==> x.attempts[|x.attempts| - 1] == x.s.lastAttempt)
  }

  lemma SessionKeeps(x: Session, e: Event)
    requires SessionInv(x) && Enabled(x, e)
    ensures SessionInv(Apply(x, e)) && Apply(x, e).s.retryNs == x.s.retryNs && x.attempts <= Apply(x, e).attempts
  {
    if e.PollAt? {
      AttachKeepsValid(e.h, x.s.(lastAttempt := e.t.t0));
      if Attempts(e.h, x.s, e.t) { G.SpacedExtends(x.attempts, x.s.retryNs, e.t.t0); }
    }
  }

  /** In every run of a subscriber: while attached, the layout is the one computed from the remote
      configuration and the rings are crossed; the last attempt is never after the last progress; and
      re-open attempts are at least retry_ns apart, however often poll is called. */
  lemma {:induction false} AttemptsAreRateLimited(x: Session, es: seq<Event>, y: Session)
    requires SessionInv(x) && Runs(x, es, y)
    ensures SessionInv(y) && y.s.retryNs == x.s.retryNs
    decreases |es|
  {
    if es != [] {
      SessionKeeps(x, es[0]);
      AttemptsAreRateLimited(Apply(x, es[0]), es[1..], y);
    }
  }

  /** A freshly opened subscriber starts in such a state. */
  lemma FreshSession(name: string, h: Life.Host, now: nat)
    requires now < TWO64
    ensures SessionInv(Session(Connected(h, FreshState(name, now)), now, []))
  {
    AttachKeepsValid(h, FreshState(name, now));
  }

  /** So every run of an opened subscriber keeps all this, from the moment it is opened. */
  lemma OpenedStaysInOrder(name: string, h: Life.Host, now: nat, es: seq<Event>, y: Session)
    requires now < TWO64 && Runs(Session(Connected(h, FreshState(name, now)), now, []), es, y)
    ensures AttachedOk(y.s) && y.s.lastAttempt <= y.s.lastProgress
    ensures G.Spaced(y.attempts, 250_000_000)
  {
    FreshSession(name, h, now);
    AttemptsAreRateLimited(Session(Connected(h, FreshState(name, now)), now, []), es, y);
  }

  // ------------------------------------------------------------------------ recovery

  /** The name is bound to a valid segment of another session, and the mapped segment, if any, has not
      beaten after `oldBeat`. */
  ghost predicate Replaced(h: Life.Host, name: string, seg: nat, header: Header, oldSeg: Option<nat>, oldBeat: nat) {
    && Candidate(h, name).Some? && Candidate(h, name).value.0 == seg && Candidate(h, name).value.1 == header
    && (oldSeg.Some? && oldSeg.value in h.segs ==> h.segs[oldSeg.value].beat <= oldBeat)
  }

  /** Only polls, all against hosts where the replacement stands. */
  ghost predicate PollsOnly(es: seq<Event>, name: string, seg: nat, header: Header, oldSeg: Option<nat>, oldBeat: nat) {
    forall k | 0 <= k < |es| :: es[k].PollAt? && Replaced(es[k].h, name, seg, header, oldSeg, oldBeat)
  }

  /** Attached to the replacement, and no frame of it read yet. */
  predicate Adopted(s: State, seg: nat, header: Header) {
    s.mapped == Some(seg) && s.session == header.session && s.lastFrame == 0
  }

  function Deadline(s: State, oldBeat: nat): nat {
    (if s.lastProgress >= oldBeat then s.lastProgress else oldBeat) + s.staleNs
  }

  /** One poll: it adopts the replacement, or it is before the deadline and changes nothing. */
  lemma PollAdoptsOrWaits(x: Session, e: Event, seg: nat, header: Header, oldBeat: nat)
    requires SessionInv(x) && Enabled(x, e) && e.PollAt? && x.s.staleNs > 0 && x.s.retryNs == RetryFor(x.s.staleNs)
    requires x.s.mapped.Some? ==> x.s.session != header.session
    requires Replaced(e.h, x.s.name, seg, header, x.s.mapped, oldBeat)
    ensures Adopted(Apply(x, e).s, seg, header) || (Apply(x, e).s == x.s && e.t.t0 < Deadline(x.s, oldBeat))
  {
  }

  lemma AdoptionStays(x: Session, e: Event, name: string, seg: nat, header: Header, oldSeg: Option<nat>, oldBeat: nat)
    requires Adopted(x.s, seg, header) && x.s.name == name
    requires e.PollAt? && Replaced(e.h, name, seg, header, oldSeg, oldBeat)
    ensures Adopted(Apply(x, e).s, seg, header) && Apply(x, e).s.name == name
  {
  }

  lemma {:induction false} AdoptionPersists(x: Session, es: seq<Event>, y: Session, name: string,
                                            seg: nat, header: Header, oldSeg: Option<nat>, oldBeat: nat)
    requires Adopted(x.s, seg, header) && x.s.name == name
    requires Runs(x, es, y) && PollsOnly(es, name, seg, header, oldSeg, oldBeat)
    ensures Adopted(y.s, seg, header)
    decreases |es|
  {
    if es != [] {
      AdoptionStays(x, es[0], name, seg, header, oldSeg, oldBeat);
      AdoptionPersists(Apply(x, es[0]), es[1..], y, name, seg, header, oldSeg, oldBeat);
    }
  }

  /** Restart recovery: once a new valid session is bound to the name and the old producer has gone
      quiet, any series of polls whose last one comes at or after
      max(last_progress, last old heartbeat) + stale_ns ends attached to the new session with the frame
      counter reset. */
  lemma {:induction false} RestartRecovery(x: Session, es: seq<Event>, y: Session,
                                           seg: nat, header: Header, oldBeat: nat)
    requires SessionInv(x) && x.s.staleNs > 0 && x.s.retryNs == RetryFor(x.s.staleNs)
    requires x.s.mapped.Some? ==> x.s.session != header.session
    requires es != [] && Runs(x, es, y) && PollsOnly(es, x.s.name, seg, header, x.s.mapped, oldBeat)
    requires Start(es[|es| - 1]) >= Deadline(x.s, oldBeat)
    ensures Adopted(y.s, seg, header)
    decreases |es|
  {
    var e := es[0];
    PollAdoptsOrWaits(x, e, seg, header, oldBeat);
    SessionKeeps(x, e);
    var x' := Apply(x, e);
    if Adopted(x'.s, seg, header) {
      NameKept(x, e);
      AdoptionPersists(x', es[1..], y, x.s.name, seg, header, x.s.mapped, oldBeat);
    } else {
      assert es[1..][|es| - 2] == es[|es| - 1];
      RestartRecovery(x', es[1..], y, seg, header, oldBeat);
    }
  }

  lemma NameKept(x: Session, e: Event)
    ensures Apply(x, e).s.name == x.s.name
  {
  }
}

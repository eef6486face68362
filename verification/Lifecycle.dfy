/** Publishers and names: create, heartbeat, reclaim of abandoned segments, clean shutdown and crash.
    Names follow POSIX: unlinking drops the name, existing mappings survive. */
module Lifecycle {
  import opened Words
  import opened Layout

  datatype Status = Created | InvalidConfig | AlreadyExists | MappingFailure

  datatype Segment = Segment(header: Header, size: nat, shutdown: bool, beat: nat)

  datatype Publisher = Publisher(cfg: Config, seg: nat, live: bool)

  datatype Host = Host(now: nat, names: map<string, nat>, segs: map<nat, Segment>, pubs: map<nat, Publisher>)

  function StaleNs(c: Config): nat { c.staleProducerMs * 1_000_000 }

  /** Whether create may take over the segment the name is bound to. */
  predicate Reclaimable(now: nat, c: Config, g: Segment) {
    ValidateHeader(g.header, g.size).Some? ==> g.shutdown || Sub64(now, g.beat) >= StaleNs(c)
  }

  /** What the system grants a creator: all it asks, no object under the name, or an object it can then
      not size or map, which stays behind. */
  datatype Grant = Granted | NoObject | NoMapping(size: nat)

  /** What create returns. */
  function CreateStatus(h: Host, c: Config, grant: Grant): Status {
    if !ConfigValid(c) || ComputeLayout(c).totalSize > MAX_SEGMENT then InvalidConfig
    else if c.name in h.names && h.names[c.name] in h.segs && !Reclaimable(h.now, c, h.segs[h.names[c.name]])
    then AlreadyExists
    else if !grant.Granted? then MappingFailure
    else Created
  }

  datatype Event =
    | Tick(d: nat)
    | Create(p: nat, c: Config, seg: nat, session: nat, grant: Grant)
    | Beat(p: nat)
    | Destroy(p: nat)
    | Crash(p: nat)
    | Foreign(name: string, seg: nat, g: Segment)

  predicate Live(h: Host, p: nat) { p in h.pubs && h.pubs[p].live && h.pubs[p].seg in h.segs }

  predicate Enabled(h: Host, e: Event) {
    match e
    case Tick(d) => true
    case Create(p, c, seg, session, grant) => p !in h.pubs && seg !in h.segs
    case Beat(p) => Live(h, p)
    case Destroy(p) => Live(h, p)
    case Crash(p) => Live(h, p)
    // Some other program puts arbitrary bytes under a free name.
    case Foreign(name, seg, g) => name !in h.names && seg !in h.segs
  }

  function Apply(h: Host, e: Event): Host
    requires Enabled(h, e)
  {
    match e
    case Tick(d) => h.(now := h.now + d)
    case Create(p, c, seg, session, grant) =>
      (match CreateStatus(h, c, grant)
       case Created =>
         h.(names := h.names[c.name := seg],
            segs := h.segs[seg := Segment(PublishedHeader(c, session), ComputeLayout(c).totalSize, false, h.now)],
            pubs := h.pubs[p := Publisher(c, seg, true)])
       case MappingFailure =>
         if grant.NoMapping?
         then h.(names := h.names[c.name := seg], segs := h.segs[seg := Segment(BLANK, grant.size, false, 0)])
         else h.(names := h.names - {c.name})
       case _ => h)
    case Beat(p) => h.(segs := h.segs[h.pubs[p].seg := h.segs[h.pubs[p].seg].(beat := h.now)])
    case Destroy(p) =>
      h.(segs := h.segs[h.pubs[p].seg := h.segs[h.pubs[p].seg].(shutdown := true)],
         names := h.names - {h.pubs[p].cfg.name},
         pubs := h.pubs[p := h.pubs[p].(live := false)])
    case Crash(p) => h.(pubs := h.pubs[p := h.pubs[p].(live := false)])
    case Foreign(name, seg, g) => h.(names := h.names[name := seg], segs := h.segs[seg := g])
  }

  /** Every live publisher of the creator's name has beaten within the creator's stale window. */
  ghost predicate Timely(h: Host, e: Event) {
    e.Create? ==> forall q | Live(h, q) && h.pubs[q].cfg.name == e.c.name ::
                    h.now < h.segs[h.pubs[q].seg].beat + StaleNs(e.c)
  }

  ghost predicate Runs(timely: bool, h: Host, es: seq<Event>, t: Host)
    decreases |es|
  {
    if es == [] then t == h
    else Enabled(h, es[0]) && (timely ==> Timely(h, es[0])) && Runs(timely, Apply(h, es[0]), es[1..], t)
  }

  const EMPTY_HOST: Host := Host(0, map[], map[], map[])

  ghost predicate Reachable(timely: bool, t: Host) {
    exists es :: Runs(timely, EMPTY_HOST, es, t) && t.now < TWO64
  }

  /** The name of every live publisher is bound to its own segment. */
  ghost predicate LiveKeepTheirNames(h: Host) {
    forall p | Live(h, p) :: h.pubs[p].cfg.name in h.names && h.names[h.pubs[p].cfg.name] == h.pubs[p].seg
  }

  // ----------------------------------------------------------------------- invariant

  ghost predicate SegmentOk(h: Host, p: nat)
    requires Live(h, p)
  {
    var g := h.segs[h.pubs[p].seg];
    ValidateHeader(g.header, g.size).Some? && !g.shutdown && g.beat <= h.now
  }

  ghost predicate SegmentsApart(pubs: map<nat, Publisher>) {
    forall p, q | p in pubs && q in pubs && p != q :: pubs[p].seg != pubs[q].seg
  }

  ghost predicate Inv(h: Host) {
    && LiveKeepTheirNames(h)
    && (forall p | Live(h, p) :: SegmentOk(h, p))
    && SegmentsApart(h.pubs)
    && (forall p | p in h.pubs :: h.pubs[p].seg in h.segs)
    && (forall name | name in h.names :: h.names[name] in h.segs)
  }

  /** A timely live publisher's segment is not reclaimable. */
  lemma LiveNotReclaimable(h: Host, e: Event, q: nat)
    requires Inv(h) && e.Create? && Timely(h, e) && h.now < TWO64 && Live(h, q) && h.pubs[q].cfg.name == e.c.name
    ensures !Reclaimable(h.now, e.c, h.segs[h.names[e.c.name]])
  {
    assert SegmentOk(h, q);
  }

  function Installed(h: Host, p: nat, c: Config, seg: nat, g: Segment): Host {
    h.(names := h.names[c.name := seg], segs := h.segs[seg := g], pubs := h.pubs[p := Publisher(c, seg, true)])
  }

  /** Binding a free or abandoned name to a new, valid segment. */
  lemma InstallKeeps(h: Host, p: nat, c: Config, seg: nat, g: Segment)
    requires Inv(h) && p !in h.pubs && seg !in h.segs
    requires forall q | Live(h, q) :: h.pubs[q].cfg.name != c.name
    requires ValidateHeader(g.header, g.size).Some? && !g.shutdown && g.beat <= h.now
    ensures Inv(Installed(h, p, c, seg, g))
  {
    var t := Installed(h, p, c, seg, g);
    forall q | Live(t, q) ensures SegmentOk(t, q) {
      if q != p { assert Live(h, q) && SegmentOk(h, q); }
    }
  }

  /** Where a create goes past the AlreadyExists check, no live publisher has the name. */
  lemma NameIsFree(h: Host, e: Event)
    requires Inv(h) && e.Create? && Timely(h, e) && h.now < TWO64
    requires CreateStatus(h, e.c, e.grant) in {Created, MappingFailure}
    ensures forall q | Live(h, q) :: h.pubs[q].cfg.name != e.c.name
  {
    forall q | Live(h, q) ensures h.pubs[q].cfg.name != e.c.name {
      if h.pubs[q].cfg.name == e.c.name { LiveNotReclaimable(h, e, q); }
    }
  }

  lemma CreatedKeeps(h: Host, e: Event, size: nat)
    requires Inv(h) && e.Create? && Enabled(h, e) && CreateStatus(h, e.c, e.grant) == Created
    requires size == ComputeLayout(e.c).totalSize
    requires forall q | Live(h, q) :: h.pubs[q].cfg.name != e.c.name
    ensures Inv(Apply(h, e))
  {
    var g := Segment(PublishedHeader(e.c, e.session), size, false, h.now);
    PublishedHeaderValidates(e.c, e.session, size);
    InstallKeeps(h, e.p, e.c, e.seg, g);
  }

  lemma UnlinkKeeps(h: Host, name: string)
    requires Inv(h) && forall q | Live(h, q) :: h.pubs[q].cfg.name != name
    ensures Inv(h.(names := h.names - {name}))
  {
    var t := h.(names := h.names - {name});
    forall q | Live(t, q) ensures SegmentOk(t, q) { assert Live(h, q) && SegmentOk(h, q); }
  }

  lemma LeftoverKeeps(h: Host, name: string, seg: nat, g: Segment)
    requires Inv(h) && seg !in h.segs && forall q | Live(h, q) :: h.pubs[q].cfg.name != name
    ensures Inv(h.(names := h.names[name := seg], segs := h.segs[seg := g]))
  {
    var t := h.(names := h.names[name := seg], segs := h.segs[seg := g]);
    forall q | Live(t, q) ensures SegmentOk(t, q) { assert Live(h, q) && SegmentOk(h, q); }
  }

  lemma CreateKeeps(h: Host, e: Event)
    requires Inv(h) && e.Create? && Enabled(h, e) && Timely(h, e) && h.now < TWO64
    ensures Inv(Apply(h, e))
  {
    match CreateStatus(h, e.c, e.grant)
    case Created =>
      NameIsFree(h, e);
      CreatedKeeps(h, e, ComputeLayout(e.c).totalSize);
    case MappingFailure =>
      NameIsFree(h, e);
      if e.grant.NoMapping? {
        LeftoverKeeps(h, e.c.name, e.seg, Segment(BLANK, e.grant.size, false, 0));
      } else {
        UnlinkKeeps(h, e.c.name);
      }
    case _ =>
  }

  lemma StepKeeps(h: Host, e: Event)
    requires Inv(h) && Enabled(h, e) && Timely(h, e) && h.now < TWO64
    ensures Inv(Apply(h, e))
  {
    var t := Apply(h, e);
    if e.Create? {
      CreateKeeps(h, e);
    } else {
      forall p | Live(t, p) ensures SegmentOk(t, p) { assert Live(h, p) && SegmentOk(h, p); }
      forall p | Live(t, p) ensures t.pubs[p].cfg.name in t.names && t.names[t.pubs[p].cfg.name] == t.pubs[p].seg {
        assert Live(h, p);
      }
    }
  }

  /** No event touches the header of an existing segment, and only a publisher's own heartbeat its beat. */
  lemma SegmentKept(h: Host, e: Event, seg: nat)
    requires Enabled(h, e) && seg in h.segs
    ensures var t := Apply(h, e);
            && seg in t.segs && t.segs[seg].header == h.segs[seg].header && t.segs[seg].size == h.segs[seg].size
            && (t.segs[seg].beat == h.segs[seg].beat || (e.Beat? && h.pubs[e.p].seg == seg))
  {
  }

  lemma {:induction false} ClockBound(timely: bool, h: Host, es: seq<Event>, t: Host)
    requires Runs(timely, h, es, t)
    ensures h.now <= t.now
    decreases |es|
  {
    if es != [] { ClockBound(timely, Apply(h, es[0]), es[1..], t); }
  }

  lemma {:induction false} RunKeeps(h: Host, es: seq<Event>, t: Host)
    requires Inv(h) && Runs(true, h, es, t) && t.now < TWO64
    ensures Inv(t)
    decreases |es|
  {
    if es != [] {
      ClockBound(true, h, es, t);
      StepKeeps(h, es[0]);
      RunKeeps(Apply(h, es[0]), es[1..], t);
    }
  }

  lemma ReachableInv(t: Host)
    requires Reachable(true, t)
    ensures Inv(t)
  {
    var es :| Runs(true, EMPTY_HOST, es, t) && t.now < TWO64;
    RunKeeps(EMPTY_HOST, es, t);
  }

  // ------------------------------------------------------------------------ theorems

  /** With timely heartbeats, over all runs of creates, crashes and shutdowns: at most one live
      publisher per name, whose name is bound to its segment; and any attempt to create a second one is
      refused with AlreadyExists (or for its own bad configuration) and changes nothing. */
  lemma OneLivePublisherPerName(h: Host, p: nat)
    requires Reachable(true, h) && Live(h, p)
    ensures LiveKeepTheirNames(h)
    ensures forall q | Live(h, q) && h.pubs[q].cfg.name == h.pubs[p].cfg.name :: q == p
    ensures forall e: Event | e.Create? && Enabled(h, e) && Timely(h, e) && e.c.name == h.pubs[p].cfg.name ::
              CreateStatus(h, e.c, e.grant) in {AlreadyExists, InvalidConfig} && Apply(h, e) == h
  {
    ReachableInv(h);
    forall e: Event | e.Create? && Enabled(h, e) && Timely(h, e) && e.c.name == h.pubs[p].cfg.name
      ensures CreateStatus(h, e.c, e.grant) in {AlreadyExists, InvalidConfig} && Apply(h, e) == h
    {
      LiveNotReclaimable(h, e, p);
    }
  }

  /** The binding of a live publisher changes only by its own destructor. */
  lemma BindingUntouched(h: Host, e: Event, p: nat)
    requires Reachable(true, h) && Live(h, p) && Enabled(h, e) && Timely(h, e) && e != Destroy(p)
    ensures var name := h.pubs[p].cfg.name; var t := Apply(h, e); name in t.names && t.names[name] == h.pubs[p].seg
  {
    ReachableInv(h);
    if e.Create? && e.c.name == h.pubs[p].cfg.name { LiveNotReclaimable(h, e, p); }
  }

  /** A crashed producer does not block its name: once the creator's stale window has passed, the next
      create succeeds and leaves the new publisher live and bound to the name. */
  lemma CrashedNameIsReclaimed(h: Host, p: nat, d: nat, q: nat, c: Config, seg: nat, session: nat)
    requires Reachable(true, h) && Live(h, p) && c.name == h.pubs[p].cfg.name
    requires Creatable(c)
    requires d >= StaleNs(c) && h.now + d < TWO64 && q !in h.pubs && seg !in h.segs
    ensures var later := Apply(Apply(h, Crash(p)), Tick(d));
            && CreateStatus(later, c, Granted) == Created
            && Timely(later, Create(q, c, seg, session, Granted))
            && var t := Apply(later, Create(q, c, seg, session, Granted));
               Live(t, q) && c.name in t.names && t.names[c.name] == seg && Inv(t)
  {
    ReachableInv(h);
    var crashed := Apply(h, Crash(p));
    var later := Apply(crashed, Tick(d));
    var e := Create(q, c, seg, session, Granted);
    assert SegmentOk(h, p);
    StepKeeps(h, Crash(p));
    StepKeeps(crashed, Tick(d));
    forall r | Live(later, r) ensures later.pubs[r].cfg.name != c.name {
      assert Live(h, r) && r != p;
    }
    StepKeeps(later, e);
  }

  lemma FreshBeatRefuses(h: Host, p: nat, d: nat, c: Config, grant: Grant)
    requires Live(h, p) && SegmentOk(h, p) && LiveKeepTheirNames(h) && h.segs[h.pubs[p].seg].beat == h.now
    requires Creatable(c) && c.name == h.pubs[p].cfg.name && d < StaleNs(c) && h.now + d < TWO64
    ensures CreateStatus(Apply(h, Tick(d)), c, grant) == AlreadyExists
  {
  }

  /** Both the heartbeat call and create store the clock into the publisher's own segment. */
  lemma StoresBeat(h: Host, e: Event, p: nat)
    requires Enabled(h, e)
    requires e == Beat(p) || (e.Create? && e.p == p && CreateStatus(h, e.c, e.grant) == Created)
    ensures var t := Apply(h, e); Live(t, p) && t.now == h.now && t.segs[t.pubs[p].seg].beat == h.now
  {
  }

  /** A heartbeat protects the name: after a live publisher's heartbeat, or the create it began with, and until
      the challenger's stale window has passed, no valid create of its name gets anywhere. */
  lemma HeartbeatProtects(h: Host, e: Event, p: nat, d: nat, c: Config, grant: Grant)
    requires Reachable(true, h) && Enabled(h, e) && Timely(h, e) && h.now + d < TWO64
    requires e == Beat(p) || (e.Create? && e.p == p && CreateStatus(h, e.c, e.grant) == Created)
    requires Creatable(c) && c.name == Apply(h, e).pubs[p].cfg.name && d < StaleNs(c)
    ensures Live(Apply(h, e), p) && CreateStatus(Apply(Apply(h, e), Tick(d)), c, grant) == AlreadyExists
  {
    ReachableInv(h);
    StepKeeps(h, e);
    StoresBeat(h, e, p);
    FreshBeatRefuses(Apply(h, e), p, d, c, grant);
  }

  /** Exactly when create refuses a configuration, and a name: the name is bound to a segment with a valid header that has not been shut
      down and has beaten within the creator's stale window. Anything else under the name, a foreign or
      corrupt header included, is taken over. */
  lemma RefusedExactly(h: Host, c: Config, grant: Grant)
    requires h.now < TWO64 && forall seg | seg in h.segs :: h.segs[seg].beat <= h.now
    ensures CreateStatus(h, c, grant) == InvalidConfig <==> !Creatable(c)
    ensures CreateStatus(h, c, grant) == AlreadyExists <==>
              && Creatable(c) && c.name in h.names && h.names[c.name] in h.segs
              && var g := h.segs[h.names[c.name]];
                 ValidateHeader(g.header, g.size).Some? && !g.shutdown && h.now < g.beat + StaleNs(c)
    ensures CreateStatus(h, c, grant) in {Created, MappingFailure} ==>
              (CreateStatus(h, c, grant) == Created <==> grant.Granted?)
  {
  }

  /** A clean shutdown frees the name at once: its segment says so, the name is unbound, and the next create
      succeeds whatever its stale window. */
  lemma ShutdownFreesName(h: Host, p: nat, c: Config)
    requires Reachable(true, h) && Live(h, p) && Creatable(c) && c.name == h.pubs[p].cfg.name
    ensures var t := Apply(h, Destroy(p));
            && c.name !in t.names && t.segs[h.pubs[p].seg].shutdown && !Live(t, p)
            && CreateStatus(t, c, Granted) == Created
  {
  }

  /** A create that failed on its mapping leaves the name unbound, or bound to the object it could not map;
      either way the name is not blocked. */
  lemma LeftoverIsReclaimed(h: Host, e: Event, c: Config)
    requires Enabled(h, e) && e.Create? && CreateStatus(h, e.c, e.grant) == MappingFailure
    requires Creatable(c) && c.name == e.c.name
    ensures var t := Apply(h, e);
            && t.pubs == h.pubs
            && (e.grant.NoObject? ==> c.name !in t.names && t.segs == h.segs)
            && (e.grant.NoMapping? ==> c.name in t.names && t.names[c.name] == e.seg && e.seg !in h.segs)
    ensures CreateStatus(Apply(h, e), c, Granted) == Created
  {
  }

  // ------------------------------------------------------- heartbeats must be timely

  lemma {:induction false} RunsSnoc(timely: bool, h: Host, es: seq<Event>, t: Host, e: Event)
    requires Runs(timely, h, es, t) && Enabled(t, e) && (timely ==> Timely(t, e))
    ensures Runs(timely, h, es + [e], Apply(t, e))
    decreases |es|
  {
    if es == [] {
      assert Runs(timely, Apply(h, e), [], Apply(t, e));
      assert (es + [e])[1..] == [];
    } else {
      RunsSnoc(timely, Apply(h, es[0]), es[1..], t, e);
      assert (es + [e])[1..] == es[1..] + [e];
    }
  }

  lemma Go(h: Host, e: Event) returns (t: Host)
    requires Reachable(false, h) && Enabled(h, e) && Apply(h, e).now < TWO64
    ensures t == Apply(h, e) && Reachable(false, t)
  {
    var es :| Runs(false, EMPTY_HOST, es, h) && h.now < TWO64;
    RunsSnoc(false, EMPTY_HOST, es, h, e);
    t := Apply(h, e);
    assert Runs(false, EMPTY_HOST, es + [e], t);
  }

  /** A configuration create accepts. */
  predicate Creatable(c: Config) {
    ConfigValid(c) && ComputeLayout(c).totalSize <= MAX_SEGMENT
  }

  lemma TinySizes()
    ensures SlotStride(1) == 128 && CmdStride(1) == 64 && RingStride(64) == 192
    ensures SizesOf(1, 3, 1, 1) == Sizes(128, 64, 384, 192)
  {
    TimesIsProduct(3, 128);
    TimesIsProduct(1, 64);
  }

  lemma TinyLayout(z: Sizes)
    requires z == Sizes(128, 64, 384, 192)
    ensures Offsets(z).totalSize == 1216
  {
  }

  lemma CreatableExists() returns (c: Config)
    ensures Creatable(c)
  {
    c := Config("a", 1, 1, 1, 3, 1, 1, 0);
    TimesIsProduct(1, 1);
    assert MaxPayload(c) == 1;
    TinySizes();
    TinyLayout(ComputeSizes(c));
  }

  /** Publisher 0 creates the name, and is silent for the stale window of whoever comes next. */
  lemma SilentPublisher(c: Config) returns (h: Host)
    requires Creatable(c)
    ensures Reachable(false, h) && h.now == StaleNs(c) < TWO64
    ensures h.names == map[c.name := 0] && h.pubs == map[0 := Publisher(c, 0, true)]
    ensures h.segs.Keys == {0} && h.segs[0].beat == 0
  {
    h := EMPTY_HOST;
    assert Runs(false, h, [], h);
    h := Go(h, Create(0, c, 0, 1, Granted));
    h := Go(h, Tick(StaleNs(c)));
  }

  /** Publisher 1 takes the name over from publisher 0, which is still alive. */
  lemma Displaced(c: Config) returns (h: Host)
    requires Creatable(c)
    ensures Reachable(false, h) && h.now < TWO64
    ensures h.names == map[c.name := 1] && h.segs.Keys == {0, 1}
    ensures h.pubs == map[0 := Publisher(c, 0, true), 1 := Publisher(c, 1, true)]
  {
    h := SilentPublisher(c);
    h := Go(h, Create(1, c, 1, 2, Granted));
  }

  /** Without timely heartbeats, and whatever the configuration, the destructor of a displaced publisher
      unlinks its successor's name: some run leaves a live publisher whose name is bound to nothing. */
  lemma DisplacedDestructorUnlinksSuccessor(c: Config)
    requires Creatable(c)
    ensures exists h, p :: Reachable(false, h) && Live(h, p) && h.pubs[p].cfg == c && c.name !in h.names
  {
    var h := Displaced(c);
    h := Go(h, Destroy(0));
    assert Live(h, 1) && h.pubs[1].cfg == c && c.name !in h.names;
  }

  /** Live publishers keep their names in every run exactly when heartbeats are timely. */
  lemma NamesKeptIffTimely(timely: bool)
    ensures (forall h :: Reachable(timely, h) ==> LiveKeepTheirNames(h)) <==> timely
  {
    if timely {
      forall h | Reachable(true, h) ensures LiveKeepTheirNames(h) { ReachableInv(h); }
    } else {
      var c := CreatableExists();
      DisplacedDestructorUnlinksSuccessor(c);
      var h, p :| Reachable(false, h) && Live(h, p) && h.pubs[p].cfg == c && c.name !in h.names;
      assert !LiveKeepTheirNames(h);
    }
  }
}

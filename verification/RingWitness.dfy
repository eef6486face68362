/** A run that shows what a push with a null pointer delivers: whatever its cell last held. */
module RingWitness {
  import opened Words
  import opened CommandRing
  import opened RingTheorems

  lemma {:induction false} RunsSnoc(d: Dim, s: RingSys, es: seq<RingEvent>, t: RingSys, e: RingEvent)
    requires Runs(d, s, es, t) && Enabled(d, t, e)
    ensures Runs(d, s, es + [e], Apply(d, t, e))
    decreases |es|
  {
    if es == [] {
      assert Runs(d, Apply(d, s, e), [], Apply(d, t, e));
      assert (es + [e])[1..] == [];
    } else {
      RunsSnoc(d, Apply(d, s, es[0]), es[1..], t, e);
      assert (es + [e])[1..] == es[1..] + [e];
    }
  }

  /** One more step from a reachable state. */
  lemma Go(d: Dim, s: RingSys, e: RingEvent) returns (t: RingSys)
    requires DimOk(d) && Reachable(d, s) && Enabled(d, s, e)
    ensures t == Apply(d, s, e) && Reachable(d, t) && Inv(d, t)
  {
    t := Apply(d, s, e);
    var es :| Runs(d, RingSys(EmptyRing(d), PushIdle, PopIdle), es, s);
    RunsSnoc(d, RingSys(EmptyRing(d), PushIdle, PopIdle), es, s, e);
    ReachableInv(d, t);
  }

  /** The cell the next push fills, and the one the next pop empties. */
  function Back(d: Dim, r: Ring): nat
    requires DimOk(d)
  {
    SlotOf(d.slots, |r.pushed|)
  }

  lemma BackIsIndex(d: Dim, r: Ring)
    requires DimOk(d) && Counters(d, r)
    ensures Index(d, r.head) == Back(d, r) < d.slots
  {
    MaskIsSlot(|r.pushed|, d.slots);
    SlotOfIsMod(d.slots, |r.pushed|);
  }

  lemma FrontIsIndex(d: Dim, r: Ring)
    requires DimOk(d) && Counters(d, r)
    ensures Index(d, r.tail) == SlotOf(d.slots, |r.popped|) < d.slots
  {
    MaskIsSlot(|r.popped|, d.slots);
    SlotOfIsMod(d.slots, |r.popped|);
  }

  /** Nothing in progress and nothing queued. */
  ghost predicate Quiet(d: Dim, s: RingSys) {
    Reachable(d, s) && Inv(d, s) && s.push == PushIdle && s.pop == PopIdle && s.ring.pushed == s.ring.popped
  }

  /** Cells other than the one being filled keep their bytes, and so does that one while no byte is stored. */
  predicate BytesKept(d: Dim, s: Ring, t: Ring, i: nat, a: Args) {
    && |s.cells| == |t.cells| == d.slots
    && forall j | 0 <= j < d.slots && (j != i || a.data.None?) :: t.cells[j].payload == s.cells[j].payload
  }

  lemma {:induction false} FillCell(d: Dim, s: RingSys, a: Args) returns (t: RingSys)
    requires DimOk(d) && Reachable(d, s) && Inv(d, s) && s.pop == PopIdle
    requires s.push.Writing? && s.push.args == a
    ensures Reachable(d, t) && Inv(d, t) && t.pop == PopIdle
    ensures t.push == Writing(a, s.push.head, Stores(a))
    ensures t.ring == s.ring.(cells := t.ring.cells) && BytesKept(d, s.ring, t.ring, Back(d, s.ring), a)
    decreases Stores(a) - s.push.k
  {
    if s.push.k == Stores(a) { return s; }
    BackIsIndex(d, s.ring);
    t := Go(d, s, ByPusher(PushWrite));
    t := FillCell(d, t, a);
  }

  /** A whole push into a ring with room. */
  lemma PushWhole(d: Dim, s: RingSys, a: Args) returns (t: RingSys)
    requires DimOk(d) && Quiet(d, s) && ArgsOk(d, a)
    ensures Reachable(d, t) && Inv(d, t) && t.push == PushIdle && t.pop == PopIdle
    ensures t.ring.accepted == s.ring.accepted + [a] && t.ring.popped == s.ring.popped
    ensures |t.ring.pushed| == |s.ring.pushed| + 1 && s.ring.pushed <= t.ring.pushed
    ensures t.ring.pushed[|s.ring.pushed|] == Contents(t.ring.cells[Back(d, s.ring)])
    ensures Delivers(a, t.ring.pushed[|s.ring.pushed|])
    ensures BytesKept(d, s.ring, t.ring, Back(d, s.ring), a)
  {
    t := Go(d, s, ByPusher(PushStart(a)));
    PushLoadKeeps(d, t.ring, t.push);
    t := Go(d, t, ByPusher(PushLoadTail));
    t := FillCell(d, t, a);
    BackIsIndex(d, s.ring);
    PushStoreKeeps(d, t.ring, t.push, t.pop);
    t := Go(d, t, ByPusher(PushStoreHead));
  }

  lemma {:induction false} ReadCell(d: Dim, s: RingSys) returns (t: RingSys)
    requires DimOk(d) && Reachable(d, s) && Inv(d, s) && s.push == PushIdle && s.pop.Reading?
    ensures Reachable(d, t) && Inv(d, t) && t.push == PushIdle && t.ring == s.ring
    ensures t.pop.Reading? && t.pop.k == 5 + t.pop.n
    decreases 5 + d.maxBytes - s.pop.k
  {
    if s.pop.k == 5 + s.pop.n { return s; }
    FrontIsIndex(d, s.ring);
    t := Go(d, s, ByPopper(PopRead));
    t := ReadCell(d, t);
  }

  /** A whole pop of the only queued command. */
  lemma PopWhole(d: Dim, s: RingSys) returns (t: RingSys)
    requires DimOk(d) && Reachable(d, s) && Inv(d, s) && s.push == PushIdle && s.pop == PopIdle
    requires |s.ring.pushed| == |s.ring.popped| + 1
    ensures Quiet(d, t) && t.ring.pushed == s.ring.pushed && t.ring.accepted == s.ring.accepted
    ensures t.ring.cells == s.ring.cells
  {
    t := Go(d, s, ByPopper(PopStart));
    PopLoadKeeps(d, t.ring, t.pop);
    t := Go(d, t, ByPopper(PopLoadHead));
    t := ReadCell(d, t);
    t := Go(d, t, ByPopper(PopStoreTail));
  }

  lemma PushAndPop(d: Dim, s: RingSys, a: Args) returns (t: RingSys)
    requires DimOk(d) && Quiet(d, s) && ArgsOk(d, a)
    ensures Quiet(d, t) && t.ring.accepted == s.ring.accepted + [a]
    ensures |t.ring.popped| == |s.ring.popped| + 1 && s.ring.popped <= t.ring.popped
    ensures t.ring.popped[|s.ring.popped|] == Contents(t.ring.cells[Back(d, s.ring)])
    ensures Delivers(a, t.ring.popped[|s.ring.popped|])
    ensures BytesKept(d, s.ring, t.ring, Back(d, s.ring), a)
  {
    t := PushWhole(d, s, a);
    t := PopWhole(d, t);
  }

  function OneByte(v: Byte): Args { Args(0, Some([v]), 1, 0, 0, 0) }

  const NULL_PUSH: Args := Args(0, None, 1, 0, 0, 0)

  /** The first k cells hold v in their first byte. */
  predicate Stained(d: Dim, r: Ring, k: nat, v: Byte) {
    |r.cells| == d.slots && forall i | 0 <= i < k <= d.slots :: |r.cells[i].payload| >= 1 && r.cells[i].payload[0] == v
  }

  /** k one-byte commands, each pushed and popped. */
  lemma {:induction false} Stain(d: Dim, k: nat, v: Byte) returns (s: RingSys)
    requires DimOk(d) && d.maxBytes >= 1 && k <= d.slots
    ensures Quiet(d, s) && |s.ring.popped| == k && s.ring.accepted == seq(k, i => OneByte(v))
    ensures Stained(d, s.ring, k, v)
  {
    if k == 0 {
      s := RingSys(EmptyRing(d), PushIdle, PopIdle);
      assert Runs(d, s, [], s);
      EmptyRingOk(d);
      return;
    }
    var s0 := Stain(d, k - 1, v);
    s := PushAndPop(d, s0, OneByte(v));
    assert Back(d, s0.ring) == k - 1;
    assert Contents(s.ring.cells[k - 1]).data == [v];
  }

  /** Whatever byte v an earlier command carried, a null push of the same size into its cell delivers v:
      the bytes of a null push are not determined by its arguments. */
  lemma NullPushDeliversOldBytes(d: Dim, v: Byte)
    requires DimOk(d) && d.maxBytes >= 1
    ensures exists s ::
              && Reachable(d, s) && |s.ring.popped| == |s.ring.accepted| == d.slots + 1
              && s.ring.accepted[0] == OneByte(v) && s.ring.accepted[d.slots] == NULL_PUSH
              && s.ring.popped[d.slots].data == [v]
  {
    var s0 := Stain(d, d.slots, v);
    var s := PushAndPop(d, s0, NULL_PUSH);
    SlotOfIsMod(d.slots, d.slots);
    assert Back(d, s0.ring) == 0;
    assert s.ring.cells[0].payload[0] == v;
    assert Contents(s.ring.cells[0]).data == [v];
  }
}

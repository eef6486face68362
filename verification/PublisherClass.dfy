/** The publisher's frame calls as the application makes them: begin_write, cancel_write, commit and
    publish, with the rate gate, each running its steps of the frame-path model in program order. */
module PublisherClass {
  import opened Words
  import opened Layout
  import opened FrameModel
  import opened FrameInvariant
  import G = RateGate
  import R = FrameReaders

  // ------------------------------------------------------------------- strided copy

  /** The stride publish reads with: 0 stands for tightly packed. */
  function EffectiveStride(srcStride: nat, dstStride: nat): nat {
    if srcStride == 0 then dstStride else srcStride
  }

  /** The caller supplies every byte of every row. */
  predicate Covers(src: seq<Byte>, height: nat, stride: nat, srcStride: nat) {
    height >= 1 ==> Times(height - 1, srcStride) + stride <= |src|
  }

  lemma RowInside(y: nat, height: nat, stride: nat, srcStride: nat, src: seq<Byte>)
    requires y < height && Covers(src, height, stride, srcStride)
    ensures Times(y, stride) + stride <= Times(height, stride)
    ensures Times(y, srcStride) + stride <= |src|
  {
    TimesStep(y, height, stride);
    if y < height - 1 { TimesStep(y, height - 1, srcStride); }
  }

  /** One row, byte by byte. */
  method CopyRow(dst: array<Byte>, src: seq<Byte>, to: nat, from: nat, n: nat)
    requires to + n <= dst.Length && from + n <= |src|
    modifies dst
    ensures dst[..] == old(dst[..])[..to] + src[from..from + n] + old(dst[..])[to + n..]
  {
    ghost var was := dst[..];
    var x := 0;
    while x < n
      invariant x <= n
      invariant dst[..] == was[..to] + src[from..from + x] + was[to + x..]
    {
      dst[to + x] := src[from + x];
      assert src[from..from + x + 1] == src[from..from + x] + [src[from + x]];
      x := x + 1;
    }
  }

  /** Writing row y leaves the pixels of earlier rows alone. */
  lemma EarlierRowKept(was: seq<Byte>, now: seq<Byte>, src: Source, stride: nat, y: nat, v: nat, x: nat)
    requires v < y && x < stride && Times(y, stride) <= |was| == |now|
    requires now[..Times(y, stride)] == was[..Times(y, stride)] && PixelOk(was, src, stride, v, x)
    ensures PixelOk(now, src, stride, v, x)
  {
    TimesStep(v, y, stride);
    var k := Times(v, stride) + x;
    assert now[..Times(y, stride)][k] == was[..Times(y, stride)][k];
  }

  lemma RowWritten(now: seq<Byte>, src: Source, stride: nat, y: nat, x: nat)
    requires x < stride && Times(y, stride) + stride <= |now| && Times(y, src.stride) + stride <= |src.bytes|
    requires now[Times(y, stride)..Times(y, stride) + stride] ==
             src.bytes[Times(y, src.stride)..Times(y, src.stride) + stride]
    ensures PixelOk(now, src, stride, y, x)
  {
    assert now[Times(y, stride)..Times(y, stride) + stride][x] == now[Times(y, stride) + x];
  }

  lemma RowCopied(was: seq<Byte>, now: seq<Byte>, src: Source, stride: nat, y: nat, to: nat, from: nat)
    requires to == Times(y, stride) && from == Times(y, src.stride)
    requires to + stride <= |was| && from + stride <= |src.bytes|
    requires now == was[..to] + src.bytes[from..from + stride] + was[to + stride..]
    requires forall v, x | 0 <= v < y && 0 <= x < stride :: PixelOk(was, src, stride, v, x)
    ensures forall v, x | 0 <= v < y + 1 && 0 <= x < stride :: PixelOk(now, src, stride, v, x)
  {
    assert now[..to] == was[..to] && now[to..to + stride] == src.bytes[from..from + stride];
    forall v, x | 0 <= v < y + 1 && 0 <= x < stride ensures PixelOk(now, src, stride, v, x) {
      if v < y {
        EarlierRowKept(was, now, src, stride, y, v, x);
      } else {
        RowWritten(now, src, stride, y, x);
      }
    }
  }

  /** The copy in publish: one block when the strides agree, row by row otherwise. Either way byte x of
      row y of the destination is byte x of row y of the source, and nothing past the image changes. */
  method CopyImage(dst: array<Byte>, src: seq<Byte>, height: nat, stride: nat, srcStride: nat)
    requires Times(height, stride) <= dst.Length && Covers(src, height, stride, srcStride)
    modifies dst
    ensures ShowsImage(dst[..], Source(src, srcStride), height, stride)
    ensures dst[Times(height, stride)..] == old(dst[Times(height, stride)..])
  {
    ghost var source := Source(src, srcStride);
    if srcStride == stride {
      if height >= 1 { TimesStep(height - 1, height, stride); }
      CopyRow(dst, src, 0, 0, Times(height, stride));
      forall y, x | 0 <= y < height && 0 <= x < stride ensures PixelOk(dst[..], source, stride, y, x) {
        RowInside(y, height, stride, srcStride, src);
      }
    } else {
      var y := 0;
      while y < height
        invariant y <= height
        invariant forall v, x | 0 <= v < y && 0 <= x < stride :: PixelOk(dst[..], source, stride, v, x)
        invariant dst[Times(height, stride)..] == old(dst[Times(height, stride)..])
      {
        RowInside(y, height, stride, srcStride, src);
        ghost var was := dst[..];
        CopyRow(dst, src, Times(y, stride), Times(y, srcStride), stride);
        RowCopied(was, dst[..], source, stride, y, Times(y, stride), Times(y, srcStride));
        assert dst[Times(height, stride)..] == was[Times(height, stride)..];
        y := y + 1;
      }
    }
  }

  /** Every byte of an image lies in one of its rows. */
  lemma {:induction false} RowOf(k: nat, height: nat, stride: nat) returns (y: nat, x: nat)
    requires k < Times(height, stride)
    ensures y < height && x < stride && k == Times(y, stride) + x
    decreases height
  {
    if k >= Times(height - 1, stride) {
      y, x := height - 1, k - Times(height - 1, stride);
    } else {
      y, x := RowOf(k, height - 1, stride);
    }
  }

  ghost predicate ShowsImage(payload: seq<Byte>, src: Source, height: nat, stride: nat) {
    forall y, x | 0 <= y < height && 0 <= x < stride :: PixelOk(payload, src, stride, y, x)
  }

  /** The image and what lies past it determine the payload. */
  lemma SamePayload(a: seq<Byte>, b: seq<Byte>, src: Source, height: nat, stride: nat)
    requires |a| == |b| && Times(height, stride) <= |a|
    requires ShowsImage(a, src, height, stride) && ShowsImage(b, src, height, stride)
    requires a[Times(height, stride)..] == b[Times(height, stride)..]
    ensures a == b
  {
    var n := Times(height, stride);
    forall k | 0 <= k < |a| ensures a[k] == b[k] {
      if k < n {
        var y, x := RowOf(k, height, stride);
        assert PixelOk(a, src, stride, y, x) && PixelOk(b, src, stride, y, x);
      } else {
        assert a[n..][k - n] == b[n..][k - n];
      }
    }
  }

  // ------------------------------------------------------------------ the frame calls

  /** The world once begin_write has returned a slot: the next slot in turn, its counter odd, stamped with
      the geometry, everything else as before. */
  function Opened(p: Params, s: World, plan: Plan, source: Option<Source>): World
    requires Shaped(p, s)
  {
    var ws := SlotOf(p.n, s.writeSlot + 1);
    var sl := s.slots[ws];
    var info := sl.info.(width := plan.width, height := plan.height, stride := plan.stride, payloadBytes := plan.bytes);
    s.(writeSlot := ws, begun := s.begun + 1, pc := Filling(source, 0, 0),
       slots := s.slots[ws := Slot(sl.seqno + 1, info, sl.payload)])
  }

  /** The world once commit has returned: the slot sealed with the next frame id, recorded and announced. */
  function Announced(p: Params, s: World, ts: nat): World
    requires Shaped(p, s) && s.pc.Filling?
  {
    var sl := s.slots[s.writeSlot];
    var done := sl.(info := sl.info.(frameId := s.frameId + 1, timestamp := ts));
    s.(slots := s.slots[s.writeSlot := done.(seqno := sl.seqno + 1)],
       frameId := s.frameId + 1, latest := 4 * (s.frameId + 1) + s.writeSlot, latestAttempt := s.begun,
       hist := s.hist + [Snapshot(done, sl.seqno + 1, true, s.pc.source)], pc := Idle)
  }

  /** The world once cancel_write has returned: the slot even again, nothing announced. */
  function Abandoned(p: Params, s: World): World
    requires Shaped(p, s) && s.pc.Filling?
  {
    var sl := s.slots[s.writeSlot];
    s.(slots := s.slots[s.writeSlot := sl.(seqno := sl.seqno + 1)],
       hist := s.hist + [Snapshot(sl, sl.seqno + 1, false, None)], pc := Idle)
  }

  /** es is a sequence of publisher steps leading from s to t. */
  ghost predicate Executes(p: Params, s: World, es: seq<WEvent>, t: World)
    decreases |es|
  {
    if es == [] then t == s
    else WEnabled(p, s, es[0]) && Executes(p, WApply(p, s, es[0]), es[1..], t)
  }

  lemma {:induction false} ProgramKeeps(p: Params, s: World, es: seq<WEvent>, t: World)
    requires WInv(p, s) && Executes(p, s, es, t)
    ensures WInv(p, t)
    decreases |es|
  {
    if es != [] {
      WriterKeeps(p, s, es[0]);
      ProgramKeeps(p, WApply(p, s, es[0]), es[1..], t);
    }
  }

  lemma Then(p: Params, s: World, e: WEvent, es: seq<WEvent>, t: World)
    requires WEnabled(p, s, e) && Executes(p, WApply(p, s, e), es, t)
    ensures Executes(p, s, [e] + es, t)
  {
    assert ([e] + es)[1..] == es;
  }

  /** The slot as stamped so far. */
  function Marked(p: Params, s: World, plan: Plan, source: Option<Source>, info: Info, k: nat): World
    requires Shaped(p, s)
  {
    var ws := SlotOf(p.n, s.writeSlot + 1);
    s.(writeSlot := ws, begun := s.begun + 1, pc := Stamping(plan, source, k),
       slots := s.slots[ws := Slot(s.slots[ws].seqno + 1, info, s.slots[ws].payload)])
  }

  lemma StampProgram(p: Params, s: World, plan: Plan, source: Option<Source>)
    requires Shaped(p, s)
    ensures Executes(p, Marked(p, s, plan, source, s.slots[SlotOf(p.n, s.writeSlot + 1)].info, 0),
                     [Stamp] + ([Stamp] + ([Stamp] + ([Stamp] + []))), Opened(p, s, plan, source))
  {
    var i0 := s.slots[SlotOf(p.n, s.writeSlot + 1)].info;
    var i1 := i0.(width := plan.width);
    var i2 := i1.(height := plan.height);
    var i3 := i2.(stride := plan.stride);
    var m0, m1 := Marked(p, s, plan, source, i0, 0), Marked(p, s, plan, source, i1, 1);
    var m2, m3 := Marked(p, s, plan, source, i2, 2), Marked(p, s, plan, source, i3, 3);
    var t := Opened(p, s, plan, source);
    assert WApply(p, m3, Stamp) == t;
    assert WApply(p, m2, Stamp) == m3;
    assert WApply(p, m1, Stamp) == m2;
    assert WApply(p, m0, Stamp) == m1;
    Then(p, m3, Stamp, [], t);
    Then(p, m2, Stamp, [Stamp] + [], t);
    Then(p, m1, Stamp, [Stamp] + ([Stamp] + []), t);
    Then(p, m0, Stamp, [Stamp] + ([Stamp] + ([Stamp] + [])), t);
  }

  /** begin_write, past its checks, is these six steps of the model. */
  lemma BeginProgram(p: Params, s: World, width: nat, height: nat, source: Option<Source>)
    requires WEnabled(p, s, Begin(width, height, source))
    ensures Executes(p, s,
                     [Begin(width, height, source)]
                     + ([MarkOdd] + ([Stamp] + ([Stamp] + ([Stamp] + ([Stamp] + []))))),
                     Opened(p, s, PlanFor(p, width, height), source))
  {
    var plan := PlanFor(p, width, height);
    var t := Opened(p, s, plan, source);
    var rest := [Stamp] + ([Stamp] + ([Stamp] + ([Stamp] + [])));
    var m0 := Marked(p, s, plan, source, s.slots[SlotOf(p.n, s.writeSlot + 1)].info, 0);
    StampProgram(p, s, plan, source);
    var open := WApply(p, s, Begin(width, height, source));
    assert WApply(p, open, MarkOdd) == m0;
    Then(p, open, MarkOdd, rest, t);
    Then(p, s, Begin(width, height, source), [MarkOdd] + rest, t);
  }

  /** commit is these five steps of the model. */
  lemma CommitProgram(p: Params, s: World, ts: nat)
    requires Shaped(p, s) && s.pc.Filling? && CopyDone(s)
    ensures Executes(p, s, [StartCommit(ts)] + ([CommitStep] + ([CommitStep] + ([StoreEven] + ([StoreLatest] + [])))),
                     Announced(p, s, ts))
  {
    var t := Announced(p, s, ts);
    var s1 := WApply(p, s, StartCommit(ts));
    var s2 := WApply(p, s1, CommitStep);
    var s3 := WApply(p, s2, CommitStep);
    var s4 := WApply(p, s3, StoreEven);
    assert WApply(p, s4, StoreLatest) == t;
    Then(p, s4, StoreLatest, [], t);
    Then(p, s3, StoreEven, [StoreLatest] + [], t);
    Then(p, s2, CommitStep, [StoreEven] + ([StoreLatest] + []), t);
    Then(p, s1, CommitStep, [CommitStep] + ([StoreEven] + ([StoreLatest] + [])), t);
    Then(p, s, StartCommit(ts), [CommitStep] + ([CommitStep] + ([StoreEven] + ([StoreLatest] + []))), t);
  }

  /** cancel_write is these two steps of the model. */
  lemma CancelProgram(p: Params, s: World)
    requires WEnabled(p, s, StartCancel)
    ensures Executes(p, s, [StartCancel] + ([StoreCancel] + []), Abandoned(p, s))
  {
    var s1 := WApply(p, s, StartCancel);
    assert WApply(p, s1, StoreCancel) == Abandoned(p, s);
    Then(p, s1, StoreCancel, [], Abandoned(p, s));
    Then(p, s, StartCancel, [StoreCancel] + [], Abandoned(p, s));
  }

  /** The world with the copy of publish done. */
  function Filled(p: Params, s: World, payload: seq<Byte>): World
    requires Shaped(p, s) && s.pc.Filling?
  {
    var sl := s.slots[s.writeSlot];
    Put(p, s, sl.(payload := payload)).(pc := Filling(s.pc.source, sl.info.height, 0))
  }

  /** The caller's buffer holds every byte the copy in progress will read. */
  predicate SourceCovers(s: World) {
    && s.writeSlot < |s.slots| && s.pc.Filling? && s.pc.source.Some?
    && var info := s.slots[s.writeSlot].info;
       Covers(s.pc.source.value.bytes, info.height, info.stride, s.pc.source.value.stride)
  }

  /** One copy step: the next byte of the image, and nothing past the image. */
  lemma CopyStep(p: Params, s: World)
    requires Shaped(p, s) && PcOk(p, s) && SourceCovers(s) && !CopyDone(s)
    ensures WEnabled(p, s, CopyByte)
    ensures var t := WApply(p, s, CopyByte); var info := s.slots[s.writeSlot].info;
            && SourceCovers(t) && t.slots[t.writeSlot].info == info
            && t.slots[t.writeSlot].payload[Times(info.height, info.stride)..] ==
               s.slots[s.writeSlot].payload[Times(info.height, info.stride)..]
  {
    var info, source := s.slots[s.writeSlot].info, s.pc.source.value;
    RowInside(s.pc.row, info.height, info.stride, source.stride, source.bytes);
  }

  /** Bytes still to be copied. */
  function CopyLeft(s: World): nat
    requires s.writeSlot < |s.slots| && s.pc.Filling?
  {
    var info := s.slots[s.writeSlot].info;
    var at, end := Times(s.pc.row, info.stride) + s.pc.col, Times(info.height, info.stride);
    if at < end then end - at else 0
  }

  lemma CopyProgress(p: Params, s: World, payload: seq<Byte>)
    requires WEnabled(p, s, CopyByte) && PcOk(p, s)
    ensures var t := WApply(p, s, CopyByte);
            && t.pc.Filling? && t.writeSlot == s.writeSlot && |t.slots| == p.n && Shaped(p, t)
            && CopyLeft(t) < CopyLeft(s) && Filled(p, t, payload) == Filled(p, s, payload)
  {
    TimesStep(s.pc.row, s.slots[s.writeSlot].info.height, s.slots[s.writeSlot].info.stride);
  }

  /** The copy, byte by byte, is a series of steps of the model; it changes the image and nothing else. */
  lemma {:induction false} CopyProgram(p: Params, s: World) returns (es: seq<WEvent>, t: World)
    requires WInv(p, s) && SourceCovers(s)
    ensures Executes(p, s, es, t) && WInv(p, t)
    ensures t == Filled(p, s, t.slots[s.writeSlot].payload)
    ensures var info := s.slots[s.writeSlot].info;
            t.slots[s.writeSlot].payload[Times(info.height, info.stride)..] ==
            s.slots[s.writeSlot].payload[Times(info.height, info.stride)..]
    decreases CopyLeft(s)
  {
    if CopyDone(s) {
      es, t := [], s;
      assert s.slots[s.writeSlot := s.slots[s.writeSlot]] == s.slots;
    } else {
      CopyStep(p, s);
      var s1 := WApply(p, s, CopyByte);
      WriterKeeps(p, s, CopyByte);
      CopyProgress(p, s, []);
      es, t := CopyProgram(p, s1);
      CopyProgress(p, s, t.slots[s.writeSlot].payload);
      Then(p, s, CopyByte, es, t);
      es := [CopyByte] + es;
    }
  }

  /** Whatever copies the image and leaves the rest alone does what the model's steps do. */
  lemma CopyIsProgram(p: Params, s: World, payload: seq<Byte>) returns (es: seq<WEvent>)
    requires WInv(p, s) && SourceCovers(s) && |payload| == p.maxPayload
    requires var info := s.slots[s.writeSlot].info;
             && ShowsImage(payload, s.pc.source.value, info.height, info.stride)
             && payload[Times(info.height, info.stride)..] ==
                s.slots[s.writeSlot].payload[Times(info.height, info.stride)..]
    ensures Executes(p, s, es, Filled(p, s, payload)) && WInv(p, Filled(p, s, payload))
  {
    var t;
    es, t := CopyProgram(p, s);
    var info := s.slots[s.writeSlot].info;
    SamePayload(t.slots[s.writeSlot].payload, payload, s.pc.source.value, info.height, info.stride);
  }

  /** Each call, as a whole, preserves the invariant of the frame path. */
  lemma OpenedKeeps(p: Params, s: World, width: nat, height: nat, source: Option<Source>)
    requires WInv(p, s) && WEnabled(p, s, Begin(width, height, source))
    ensures WInv(p, Opened(p, s, PlanFor(p, width, height), source))
  {
    BeginProgram(p, s, width, height, source);
    ProgramKeeps(p, s,
                 [Begin(width, height, source)] + ([MarkOdd] + ([Stamp] + ([Stamp] + ([Stamp] + ([Stamp] + []))))),
                 Opened(p, s, PlanFor(p, width, height), source));
  }

  lemma AnnouncedKeeps(p: Params, s: World, ts: nat)
    requires WInv(p, s) && s.pc.Filling? && CopyDone(s)
    ensures WInv(p, Announced(p, s, ts))
  {
    CommitProgram(p, s, ts);
    ProgramKeeps(p, s, [StartCommit(ts)] + ([CommitStep] + ([CommitStep] + ([StoreEven] + ([StoreLatest] + [])))),
                 Announced(p, s, ts));
  }

  lemma AbandonedKeeps(p: Params, s: World)
    requires WInv(p, s) && WEnabled(p, s, StartCancel)
    ensures WInv(p, Abandoned(p, s))
  {
    CancelProgram(p, s);
    ProgramKeeps(p, s, [StartCancel] + ([StoreCancel] + []), Abandoned(p, s));
  }

  /** What publish asks of a caller whose frame passes the size check: the size did not wrap, and the
      buffer holds every row. */
  predicate Supplies(p: Params, src: seq<Byte>, width: nat, height: nat, srcStride: nat) {
    GeometryAccepted(p, width, height) ==>
      && ProductFits(p, width, height)
      && var stride := Times(width, p.bpp); Covers(src, height, stride, EffectiveStride(srcStride, stride))
  }

  /** The payload with the given bytes in place of those from offset on. */
  function Overwritten(payload: seq<Byte>, offset: nat, bytes: seq<Byte>): seq<Byte>
    requires offset + |bytes| <= |payload|
  {
    payload[..offset] + bytes + payload[offset + |bytes|..]
  }

  /** The world with the payload of the slot being written replaced. */
  function Rendered(p: Params, s: World, payload: seq<Byte>): World
    requires Shaped(p, s)
  {
    Put(p, s, s.slots[s.writeSlot].(payload := payload))
  }

  lemma OverwriteOne(was: seq<Byte>, offset: nat, bytes: seq<Byte>)
    requires offset + |bytes| <= |was| && bytes != []
    ensures Overwritten(was[offset := bytes[0]], offset + 1, bytes[1..]) == Overwritten(was, offset, bytes)
  {
  }

  /** Bytes may be rendered at this place of the slot being written. */
  predicate CanRender(p: Params, s: World, offset: nat, count: nat) {
    && Shaped(p, s) && s.pc.Filling? && s.pc.source.None?
    && offset + count <= s.slots[s.writeSlot].info.payloadBytes <= p.maxPayload
  }

  lemma FirstPoke(p: Params, s: World, offset: nat, bytes: seq<Byte>)
    requires bytes != [] && CanRender(p, s, offset, |bytes|)
    ensures WEnabled(p, s, Poke(offset, bytes[0]))
    ensures var t := WApply(p, s, Poke(offset, bytes[0])); var was := s.slots[s.writeSlot].payload;
            && CanRender(p, t, offset + 1, |bytes| - 1)
            && Rendered(p, t, Overwritten(t.slots[t.writeSlot].payload, offset + 1, bytes[1..])) ==
               Rendered(p, s, Overwritten(was, offset, bytes))
  {
    OverwriteOne(s.slots[s.writeSlot].payload, offset, bytes);
  }

  /** Rendering is a series of steps of the model, a byte each. */
  lemma {:induction false} RenderProgram(p: Params, s: World, offset: nat, bytes: seq<Byte>)
      returns (es: seq<WEvent>)
    requires WInv(p, s) && CanRender(p, s, offset, |bytes|)
    ensures var t := Rendered(p, s, Overwritten(s.slots[s.writeSlot].payload, offset, bytes));
            Executes(p, s, es, t) && WInv(p, t)
    decreases |bytes|
  {
    var t := Rendered(p, s, Overwritten(s.slots[s.writeSlot].payload, offset, bytes));
    if bytes == [] {
      es := [];
      assert Overwritten(s.slots[s.writeSlot].payload, offset, bytes) == s.slots[s.writeSlot].payload;
      assert s.slots[s.writeSlot := s.slots[s.writeSlot]] == s.slots;
    } else {
      FirstPoke(p, s, offset, bytes);
      WriterKeeps(p, s, Poke(offset, bytes[0]));
      es := RenderProgram(p, WApply(p, s, Poke(offset, bytes[0])), offset + 1, bytes[1..]);
      Then(p, s, Poke(offset, bytes[0]), es, t);
      es := [Poke(offset, bytes[0])] + es;
    }
  }

  /** The slot being written is odd and carries this geometry. */
  predicate Stamped(s: World, width: nat, height: nat, stride: nat, bytes: nat) {
    && s.writeSlot < |s.slots|
    && var sl := s.slots[s.writeSlot];
       && sl.seqno % 2 == 1 && sl.info.width == width && sl.info.height == height
       && sl.info.stride == stride && sl.info.payloadBytes == bytes
  }

  lemma OpenedGeometry(p: Params, s: World, plan: Plan, source: Option<Source>)
    requires Shaped(p, s) && Counts(p, s) && s.pc.Idle?
    ensures Stamped(Opened(p, s, plan, source), plan.width, plan.height, plan.stride, plan.bytes)
  {
  }

  lemma PlanPlainly(p: Params, width: nat, height: nat)
    requires ParamsOk(p) && GeometryAccepted(p, width, height) && ProductFits(p, width, height)
    ensures PlanFor(p, width, height) == Plan(width, height, Times(width, p.bpp), Times(Times(width, height), p.bpp))
  {
    AcceptedGeometry(p, width, height);
    RowsOfBytes(width, height, p.bpp);
  }

  /** What a granted call leaves, where the size did not wrap. */
  lemma OpenedFits(p: Params, s: World, width: nat, height: nat, source: Option<Source>)
    requires WInv(p, s) && WEnabled(p, s, Begin(width, height, source))
    ensures var t := Opened(p, s, PlanFor(p, width, height), source);
            && WInv(p, t) && t.begun == s.begun + 1 && t.writeSlot == (s.writeSlot + 1) % p.n
            && Stamped(t, width, height, Times(width, p.bpp), Times(Times(width, height), p.bpp))
  {
    OpenedKeeps(p, s, width, height, source);
    OpenedGeometry(p, s, PlanFor(p, width, height), source);
    PlanPlainly(p, width, height);
    SlotOfIsMod(p.n, s.writeSlot + 1);
  }

  /** The last finished attempt is the committed frame s.frameId, stamped ts and with the bytes `was` showed;
      it is what `latest` announces and what its slot, even again, shows. */
  predicate NewFrame(s: World, was: Slot, ts: nat) {
    && s.hist != [] && s.writeSlot < |s.slots| && was.info.payloadBytes <= |was.payload|
    && var rec := s.hist[|s.hist| - 1];
       && rec.committed && rec.info == was.info.(frameId := s.frameId, timestamp := ts)
       && rec.data == was.payload[..was.info.payloadBytes]
       && s.slots[s.writeSlot].seqno % 2 == 0 && Holds(s.slots[s.writeSlot], rec)
       && s.latest / 4 == s.frameId && s.latest % 4 == s.writeSlot
  }

  lemma AnnouncedIsNew(p: Params, s: World, ts: nat)
    requires Shaped(p, s) && Counts(p, s) && s.pc.Filling?
    requires s.slots[s.writeSlot].info.payloadBytes <= p.maxPayload
    ensures NewFrame(Announced(p, s, ts), s.slots[s.writeSlot], ts)
    ensures var t := Announced(p, s, ts); t.frameId == s.frameId + 1 && t.latestAttempt == |t.hist|
  {
  }

  class Publisher {
    const p: Params
    var world: World
    var minInterval: nat
    var lastPublish: nat
    var throttled: nat
    /** When the write in progress was begun, and when each commit was made. */
    ghost var begunAt: nat
    ghost var commits: seq<nat>

    ghost predicate Valid(now: nat)
      reads this
    {
      && WInv(p, world) && (world.pc.Idle? || world.pc.Filling?)
      && GateOk(now)
    }

    ghost predicate GateOk(now: nat)
      reads this
    {
      && lastPublish <= now && begunAt <= now < TWO64
      && G.Spaced(commits, minInterval)
      && (lastPublish == 0 <==> commits == [])
      && (commits != [] ==> commits[|commits| - 1] == lastPublish)
      && (world.pc.Filling? && commits != [] ==> lastPublish + minInterval <= begunAt)
    }

    constructor (p: Params, minInterval: nat)
      requires ParamsOk(p)
      ensures Valid(0) && this.p == p && this.minInterval == minInterval && world == InitWorld(p) && commits == []
    {
      this.p := p;
      this.minInterval := minInterval;
      world := InitWorld(p);
      lastPublish, throttled := 0, 0;
      begunAt, commits := 0, [];
      new;
      InitHolds(p);
    }

    /** The part of begin_write after its checks, store by store. */
    method OpenSlot(plan: Plan, source: Option<Source>)
      requires Shaped(p, world)
      modifies this`world
      ensures world == Opened(p, old(world), plan, source)
    {
      var ws := SlotOf(p.n, world.writeSlot + 1);
      var sl := world.slots[ws];
      sl := sl.(seqno := sl.seqno + 1);
      sl := sl.(info := sl.info.(width := plan.width));
      sl := sl.(info := sl.info.(height := plan.height));
      sl := sl.(info := sl.info.(stride := plan.stride));
      sl := sl.(info := sl.info.(payloadBytes := plan.bytes));
      world := world.(writeSlot := ws, begun := world.begun + 1, slots := world.slots[ws := sl],
                      pc := Filling(source, 0, 0));
    }

    /** Whether begin_write would get past its checks. */
    predicate Grants(width: nat, height: nat, now: nat)
      reads this
    {
      && world.pc.Idle? && width != 0 && height != 0
      && G.GateOpen(minInterval, lastPublish, now)
      && FrameBytes(p, width, height) <= p.maxPayload
    }

    /** The grant condition in plain arithmetic; the product is taken in 64 bits. */
    lemma GrantsPlainly(width: nat, height: nat, now: nat)
      requires lastPublish <= now < TWO64
      ensures Grants(width, height, now) <==>
                && world.pc.Idle? && width >= 1 && height >= 1
                && (minInterval == 0 || lastPublish == 0 || now >= lastPublish + minInterval)
                && Times(Times(width, height) % TWO64, p.bpp) % TWO64 <= p.maxPayload
    {
    }

    /** For all 32-bit arguments the call opens a slot exactly when granted; the frame path's invariant
        needs that a size which passes the check did not wrap. */
    method BeginWrite(width: nat, height: nat, source: Option<Source>, now: nat) returns (granted: bool)
      requires 0 < now < TWO64 && Valid(now) && width < TWO32 && height < TWO32
      modifies this
      ensures GateOk(now) && (!granted || ProductFits(p, width, height) ==> Valid(now))
      ensures minInterval == old(minInterval) && lastPublish == old(lastPublish) && commits == old(commits)
      ensures granted <==> old(Grants(width, height, now))
      ensures granted <==>
                && old(world.pc.Idle?) && width >= 1 && height >= 1
                && (minInterval == 0 || lastPublish == 0 || now >= lastPublish + minInterval)
                && Times(Times(width, height) % TWO64, p.bpp) % TWO64 <= p.maxPayload
      ensures granted && ProductFits(p, width, height) ==>
                && world.begun == old(world.begun) + 1 && world.writeSlot == (old(world.writeSlot) + 1) % p.n
                && Stamped(world, width, height, Times(width, p.bpp), Times(Times(width, height), p.bpp))
      ensures granted ==> world == Opened(p, old(world), PlanFor(p, width, height), source) && begunAt == now
      ensures !granted ==> world == old(world)
      ensures throttled == old(throttled) + (if old(world).pc.Idle? && width != 0 && height != 0
                                               && !G.GateOpen(minInterval, lastPublish, now) then 1 else 0)
    {
      GrantsPlainly(width, height, now);
      if !world.pc.Idle? || width == 0 || height == 0 { return false; }
      if !G.GateOpen(minInterval, lastPublish, now) {
        throttled := throttled + 1;
        return false;
      }
      if FrameBytes(p, width, height) > p.maxPayload { return false; }
      Enter(width, height, source, now);
      granted := true;
    }

    /** The rest of begin_write, past its checks. */
    method Enter(width: nat, height: nat, source: Option<Source>, now: nat)
      requires 0 < now < TWO64 && Valid(now) && Grants(width, height, now)
      modifies this`world, this`begunAt
      ensures GateOk(now) && (ProductFits(p, width, height) ==> Valid(now))
      ensures world == Opened(p, old(world), PlanFor(p, width, height), source) && begunAt == now
      ensures ProductFits(p, width, height) ==>
                && world.begun == old(world.begun) + 1 && world.writeSlot == (old(world.writeSlot) + 1) % p.n
                && Stamped(world, width, height, Times(width, p.bpp), Times(Times(width, height), p.bpp))
    {
      if ProductFits(p, width, height) { OpenedFits(p, world, width, height, source); }
      OpenSlot(PlanFor(p, width, height), source);
      begunAt := now;
    }

    /** The application renders straight into the slot it was granted, before it commits: the bytes land
        where it put them and nothing else changes, and the model does the same byte by byte. */
    method Render(offset: nat, bytes: seq<Byte>, now: nat)
      requires Valid(now) && CanRender(p, world, offset, |bytes|)
      modifies this`world
      ensures Valid(now)
      ensures world == Rendered(p, old(world), Overwritten(old(world.slots[world.writeSlot].payload), offset, bytes))
      ensures exists es :: Executes(p, old(world), es, world)
    {
      ghost var es := RenderProgram(p, world, offset, bytes);
      var sl := world.slots[world.writeSlot];
      var payload := Fill(sl.payload, offset, bytes);
      world := world.(slots := world.slots[world.writeSlot := sl.(payload := payload)]);
    }

    /** The stores of a renderer, byte by byte. */
    method Fill(was: seq<Byte>, offset: nat, bytes: seq<Byte>) returns (payload: seq<Byte>)
      requires offset + |bytes| <= |was|
      ensures payload == Overwritten(was, offset, bytes)
    {
      payload := was;
      var k := 0;
      while k < |bytes|
        invariant k <= |bytes| && payload == Overwritten(was, offset, bytes[..k])
      {
        payload := payload[offset + k := bytes[k]];
        k := k + 1;
      }
      assert bytes[..k] == bytes;
    }

    method CancelWrite(now: nat)
      requires Valid(now) && p.cancels && (world.pc.Filling? ==> world.pc.source.None?)
      modifies this`world
      ensures Valid(now)
      ensures world == if old(world.pc.Filling?) then Abandoned(p, old(world)) else old(world)
      ensures world.latest == old(world.latest) && world.frameId == old(world.frameId) && world.pc.Idle?
      ensures old(world.pc.Filling?) ==>
                && |world.hist| == |old(world.hist)| + 1 && !world.hist[|world.hist| - 1].committed
                && world.slots[world.writeSlot].seqno % 2 == 0
    {
      if world.pc.Filling? {
        AbandonedKeeps(p, world);
        var sl := world.slots[world.writeSlot];
        var rec := Snapshot(sl, sl.seqno + 1, false, None);
        world := world.(slots := world.slots[world.writeSlot := sl.(seqno := sl.seqno + 1)],
                        hist := world.hist + [rec], pc := Idle);
      }
    }

    /** The shared stores of commit, one by one. */
    method SealSlot(ts: nat)
      requires Shaped(p, world) && world.pc.Filling?
      modifies this`world
      ensures world == Announced(p, old(world), ts)
    {
      var id, sl := world.frameId + 1, world.slots[world.writeSlot];
      sl := sl.(info := sl.info.(frameId := id));
      sl := sl.(info := sl.info.(timestamp := ts));
      var rec := Snapshot(sl, sl.seqno + 1, true, world.pc.source);
      sl := sl.(seqno := sl.seqno + 1);
      world := world.(slots := world.slots[world.writeSlot := sl], frameId := id, hist := world.hist + [rec],
                      latest := 4 * id + world.writeSlot, latestAttempt := world.begun, pc := Idle);
    }

    /** Timestamp 0 means now. Without a write in progress nothing happens. */
    method Commit(timestamp: nat, now: nat)
      requires 0 < now && Valid(now) && (world.pc.Filling? ==> CopyDone(world))
      modifies this
      ensures Valid(now) && minInterval == old(minInterval)
      ensures old(world.pc.Idle?) ==> world == old(world) && commits == old(commits)
      ensures old(world.pc.Filling?) ==>
                && world == Announced(p, old(world), if timestamp != 0 then timestamp else now)
                && commits == old(commits) + [now] && lastPublish == now
      ensures old(world.pc.Filling?) ==>
                && world.frameId == old(world.frameId) + 1 && world.latestAttempt == |world.hist|
                && NewFrame(world, old(world.slots[world.writeSlot]), if timestamp != 0 then timestamp else now)
    {
      if world.pc.Idle? { return; }
      G.SpacedExtends(commits, minInterval, now);
      ghost var ts := if timestamp != 0 then timestamp else now;
      AnnouncedKeeps(p, world, ts);
      AnnouncedIsNew(p, world, ts);
      SealSlot(if timestamp != 0 then timestamp else now);
      lastPublish := now;
      commits := commits + [now];
    }

    /** The copy of publish, into the slot. */
    method CopySource()
      requires WInv(p, world) && SourceCovers(world)
      modifies this`world
      ensures WInv(p, world) && CopyDone(world)
      ensures |world.slots| == p.n && world == Filled(p, old(world), world.slots[world.writeSlot].payload)
      ensures exists es :: Executes(p, old(world), es, world)
    {
      var sl, source := world.slots[world.writeSlot], world.pc.source.value;
      var payload := sl.payload;
      var slot := new Byte[|payload|](i requires 0 <= i < |payload| => payload[i]);
      assert slot[..] == payload;
      CopyImage(slot, source.bytes, sl.info.height, sl.info.stride, source.stride);
      ghost var es := CopyIsProgram(p, world, slot[..]);
      world := Filled(p, world, slot[..]);
    }

    /** Copies a caller's buffer (None for a null pointer) into the next slot and commits it. On success the
        new frame is announced and holds exactly the source image. */
    method Publish(src: Option<seq<Byte>>, width: nat, height: nat, srcStride: nat, now: nat) returns (ok: bool)
      requires 0 < now < TWO64 && Valid(now) && width < TWO32 && height < TWO32
      requires src.Some? ==> Supplies(p, src.value, width, height, srcStride)
      modifies this
      ensures Valid(now) && minInterval == old(minInterval)
      ensures ok <==> src.Some? && old(Grants(width, height, now))
      ensures !ok ==> world == old(world) && commits == old(commits)
      ensures ok ==> && world.pc.Idle? && |world.hist| == |old(world).hist| + 1 && commits == old(commits) + [now]
                     && world.latestAttempt == |world.hist|
                     && PublishedImage(p, world.hist[|world.hist| - 1], src.value, width, height, srcStride)
    {
      if src.None? { return false; }
      var stride := Times(width, p.bpp);
      ok := BeginWrite(width, height, Some(Source(src.value, EffectiveStride(srcStride, stride))), now);
      if !ok { return; }
      AcceptedGeometry(p, width, height);
      CopyAndCommit(src.value, width, height, srcStride, now);
    }

    /** The rest of publish, once begin_write has granted a slot. */
    method CopyAndCommit(src: seq<Byte>, width: nat, height: nat, srcStride: nat, now: nat)
      requires 0 < now && Valid(now) && Publishing(p, world, src, width, height, srcStride)
      modifies this
      ensures Valid(now) && minInterval == old(minInterval) && commits == old(commits) + [now]
      ensures world.pc.Idle? && |world.hist| == |old(world).hist| + 1 == world.latestAttempt
      ensures PublishedImage(p, world.hist[|world.hist| - 1], src, width, height, srcStride)
    {
      ghost var granted := world;
      CopySource();
      ghost var filled := world;
      CopyKeepsPublishing(p, granted, filled, src, width, height, srcStride);
      Commit(0, now);
      SealedImage(p, filled, world, src, width, height, srcStride, now);
    }

    /** Commits in any window of length T, whatever mix of cancelled, throttled and oversized calls. */
    lemma CommitsInWindow(now: nat, lo: nat, T: nat)
      requires Valid(now) && minInterval > 0
      ensures G.CountIn(commits, lo, lo + T) <= T / minInterval + 1
    {
      G.WindowBound(commits, minInterval, lo, T);
    }
  }

  /** A committed record that shows the given image. */
  ghost predicate PublishedImage(p: Params, rec: Record, src: seq<Byte>, width: nat, height: nat, srcStride: nat) {
    && rec.committed && rec.info.width == width && rec.info.height == height
    && rec.info.stride == Times(width, p.bpp) && rec.info.payloadBytes == Times(height, rec.info.stride) == |rec.data|
    && ImageOk(rec.data, Source(src, EffectiveStride(srcStride, rec.info.stride)), rec.info)
  }

  /** Byte x of row y, in plain arithmetic: the destination rows are packed, the source rows lie srcStride
      apart, or packed too where srcStride is 0. */
  lemma PublishedBytes(p: Params, rec: Record, src: seq<Byte>, width: nat, height: nat, srcStride: nat, y: nat, x: nat)
    requires PublishedImage(p, rec, src, width, height, srcStride)
    requires y < height && x < width * p.bpp
    ensures var row := width * p.bpp; var pitch := if srcStride == 0 then row else srcStride;
            && y * row + x < |rec.data| == height * row
            && y * pitch + x < |src|
            && rec.data[y * row + x] == src[y * pitch + x]
  {
    var row := width * p.bpp;
    TimesIsProduct(width, p.bpp);
    TimesIsProduct(height, row);
    TimesIsProduct(y, row);
    TimesIsProduct(y, if srcStride == 0 then row else srcStride);
    assert PixelOk(rec.data, Source(src, EffectiveStride(srcStride, row)), row, y, x);
  }

  lemma AcceptedIsRecord(p: Params, s: Sys, id: nat, i: nat)
    requires ParamsOk(p) && Reachable(p, s) && id in s.readers && i < |s.readers[id].log.accepted|
    ensures var a := s.readers[id].log.accepted[i];
            1 <= a.attempt <= |s.world.hist| && a.info == s.world.hist[a.attempt - 1].info
            && a.data == s.world.hist[a.attempt - 1].data
  {
    R.ReachableInv(p, s);
    assert R.RInv(p, s.world, s.readers[id]) && R.AcceptOk(p, s.world.hist, s.readers[id].log.accepted[i]);
  }

  /** Producer to consumer: a reader that accepts a frame made by publish holds the caller's image, each row
      taken from where the caller's stride puts it. */
  lemma ReaderGetsSource(p: Params, s: Sys, id: nat, i: nat,
                         src: seq<Byte>, width: nat, height: nat, srcStride: nat, y: nat, x: nat)
    requires ParamsOk(p) && Reachable(p, s) && id in s.readers && i < |s.readers[id].log.accepted|
    requires var b := s.readers[id].log.accepted[i].attempt;
             1 <= b <= |s.world.hist| && PublishedImage(p, s.world.hist[b - 1], src, width, height, srcStride)
    requires y < height && x < width * p.bpp
    ensures var a := s.readers[id].log.accepted[i];
            && a.info.width == width && a.info.height == height && a.info.stride == width * p.bpp
            && var row := a.info.stride; var pitch := if srcStride == 0 then row else srcStride;
               && y * row + x < |a.data| == a.info.payloadBytes && y * pitch + x < |src|
               && a.data[y * row + x] == src[y * pitch + x]
  {
    AcceptedIsRecord(p, s, id, i);
    TimesIsProduct(width, p.bpp);
    PublishedBytes(p, s.world.hist[s.readers[id].log.accepted[i].attempt - 1], src, width, height, srcStride, y, x);
  }

  /** The slot being written is stamped with the given size. */
  predicate ShowsGeometry(p: Params, s: World, width: nat, height: nat) {
    s.writeSlot < |s.slots| &&
    var info := s.slots[s.writeSlot].info;
    info.width == width && info.height == height && info.stride == Times(width, p.bpp)
  }

  /** publish has its slot, stamped for this frame, and its source covers it. */
  predicate Publishing(p: Params, s: World, src: seq<Byte>, width: nat, height: nat, srcStride: nat) {
    var stride := Times(width, p.bpp);
    && s.pc.Filling? && ShowsGeometry(p, s, width, height)
    && s.pc.source == Some(Source(src, EffectiveStride(srcStride, stride)))
    && Covers(src, height, stride, EffectiveStride(srcStride, stride))
  }

  lemma CopyKeepsPublishing(p: Params, s: World, filled: World,
                            src: seq<Byte>, width: nat, height: nat, srcStride: nat)
    requires Shaped(p, s) && Publishing(p, s, src, width, height, srcStride)
    requires |filled.slots| == p.n && filled == Filled(p, s, filled.slots[s.writeSlot].payload)
    ensures Publishing(p, filled, src, width, height, srcStride) && filled.hist == s.hist
  {
  }

  lemma SealedImage(p: Params, filled: World, sealed: World,
                    src: seq<Byte>, width: nat, height: nat, srcStride: nat, ts: nat)
    requires Shaped(p, filled) && Counts(p, filled) && Publishing(p, filled, src, width, height, srcStride)
    requires RecordsOk(p, sealed.hist) && sealed == Announced(p, filled, ts)
    ensures |sealed.hist| == |filled.hist| + 1 == sealed.latestAttempt
    ensures PublishedImage(p, sealed.hist[|filled.hist|], src, width, height, srcStride)
  {
    assert RecordOk(p, sealed.hist[|filled.hist|]);
  }
}

/** The on-demand slot pool of the multiview producer: allocation, reclaim, resize, drawing, publishing. */
module SlotPool {
  import opened Words
  import opened Canvas
  import Layout
  import F = FrameModel
  import Invariant = FrameInvariant
  import P = PublisherClass

  const GRACE_NS: nat := 5_000_000_000
  const REGEN_NS: nat := 2_000_000_000
  const DEFAULT_WIDTH: nat := 960
  const DEFAULT_HEIGHT: nat := 540
  const MAX_WIDTH: nat := 1920
  const MAX_HEIGHT: nat := 1080

  datatype Color = Red | Green | Blue

  /** live is whether the slot has a publisher; a free slot holds no canvas. */
  datatype Slot = Slot(live: bool, canvas: seq<Byte>, width: nat, height: nat, color: Color,
                       nextRegen: nat, dirty: bool, hadSubscriber: bool, lastActive: nat)

  const FREE_SLOT: Slot := Slot(false, [], DEFAULT_WIDTH, DEFAULT_HEIGHT, Green, 0, true, false, 0)

  predicate SlotOk(s: Slot) {
    s.live ==> && Fits(s.canvas, s.width, s.height)
               && 1 <= s.width <= MAX_WIDTH && 1 <= s.height <= MAX_HEIGHT
  }

  function Blank(w: nat, h: nat): (c: seq<Byte>)
    ensures Fits(c, w, h)
  {
    seq(4 * Times(h, w), i => 0)
  }

  function NewSlot(now: nat): (s: Slot)
    ensures SlotOk(s)
  {
    Slot(true, Blank(DEFAULT_WIDTH, DEFAULT_HEIGHT), DEFAULT_WIDTH, DEFAULT_HEIGHT, Green, now, true, false, now)
  }

  /** Blank, of the default size, due to be painted, and not met by any consumer yet. */
  predicate IsNew(s: Slot, now: nat) {
    && s.live && s.width == 960 && s.height == 540 && s.color == Green
    && |s.canvas| == 960 * 540 * 4 && (forall k | 0 <= k < |s.canvas| :: s.canvas[k] == 0)
    && s.dirty && !s.hadSubscriber && s.lastActive == s.nextRegen == now
  }

  lemma NewSlotIsNew(now: nat)
    ensures IsNew(NewSlot(now), now)
  {
    TimesIsProduct(DEFAULT_HEIGHT, DEFAULT_WIDTH);
  }

  // -------------------------------------------------------------- what happened to the pool

  /** What a tick found at a slot: whether the command channel is claimed, and whether its owner is stale. */
  datatype Found = Found(hasSub: bool, ownerStale: bool)

  /** History of the pool, index by index. */
  datatype PoolEvent =
    | Assigned(i: nat, t: nat)
    | Active(i: nat, t: nat, found: Found)
    | Freed(i: nat, t: nat, found: Found)

  /** The time index i was last assigned or active, None while it is free. */
  function Replay(log: seq<PoolEvent>, i: nat): Option<nat> {
    if log == [] then None
    else
      var e := log[|log| - 1];
      if e.i != i then Replay(log[..|log| - 1], i)
      else if e.Freed? then None else Some(e.t)
  }

  /** What the pool promises of each event, given the events before it. */
  ghost predicate Lawful(before: seq<PoolEvent>, e: PoolEvent) {
    match e
    case Assigned(i, t) => Replay(before, i) == None && forall j | 0 <= j < i :: Replay(before, j).Some?
    case Active(i, t, found) => Replay(before, i).Some? && found.hasSub && !found.ownerStale
    case Freed(i, t, found) =>
      Replay(before, i).Some? && (if found.hasSub then found.ownerStale else Replay(before, i).value + GRACE_NS <= t)
  }

  ghost predicate LawfulAt(log: seq<PoolEvent>, k: nat) {
    k < |log| ==> Lawful(log[..k], log[k])
  }

  ghost predicate LawfulLog(log: seq<PoolEvent>) {
    forall k: nat :: LawfulAt(log, k)
  }

  predicate NotAfter(log: seq<PoolEvent>, a: nat, b: nat) {
    a < b < |log| ==> log[a].t <= log[b].t
  }

  ghost predicate InTimeOrder(log: seq<PoolEvent>) {
    forall a: nat, b: nat :: NotAfter(log, a, b)
  }

  /** The k-th event is not in the future and concerns one of the pool's slots. */
  predicate Known(log: seq<PoolEvent>, k: nat, clock: nat, count: nat) {
    k < |log| ==> log[k].t <= clock && log[k].i < count
  }

  ghost predicate History(log: seq<PoolEvent>, clock: nat, count: nat) {
    && LawfulLog(log) && InTimeOrder(log)
    && forall k: nat :: Known(log, k, clock, count)
  }

  lemma LogExtends(log: seq<PoolEvent>, e: PoolEvent)
    requires LawfulLog(log) && Lawful(log, e)
    ensures LawfulLog(log + [e])
    ensures forall i: nat ::
              Replay(log + [e], i) == if e.i != i then Replay(log, i) else if e.Freed? then None else Some(e.t)
  {
    var log' := log + [e];
    assert log'[..|log|] == log;
    forall k: nat ensures LawfulAt(log', k) {
      if k < |log| {
        assert log'[..k] == log[..k];
        assert LawfulAt(log, k);
      }
    }
  }

  lemma HistoryExtends(log: seq<PoolEvent>, clock: nat, count: nat, e: PoolEvent)
    requires History(log, clock, count) && Lawful(log, e) && e.i < count && clock <= e.t
    ensures History(log + [e], e.t, count)
  {
    LogExtends(log, e);
    var log' := log + [e];
    forall k: nat ensures Known(log', k, e.t, count) { assert Known(log, k, clock, count); }
    forall a: nat, b: nat ensures NotAfter(log', a, b) {
      assert NotAfter(log, a, b) && Known(log, a, clock, count);
    }
  }

  lemma PrefixLawful(log: seq<PoolEvent>, n: nat)
    requires LawfulLog(log) && n <= |log|
    ensures LawfulLog(log[..n])
  {
    forall k: nat ensures LawfulAt(log[..n], k) {
      assert LawfulAt(log, k);
      if k < n { assert log[..n][..k] == log[..k]; }
    }
  }

  lemma PrefixOrdered(log: seq<PoolEvent>, n: nat)
    requires InTimeOrder(log) && n <= |log|
    ensures InTimeOrder(log[..n])
  {
    forall a: nat, b: nat ensures NotAfter(log[..n], a, b) { assert NotAfter(log, a, b); }
  }

  // ------------------------------------------------------------------------ one slot

  datatype Command =
    | SetUrl(text: string)
    | MouseMove(x: int, y: int)
    | MouseButton(x: int, y: int)
    | Resize(w: nat, h: nat)
    | Other

  function ColorFromText(s: string): Color {
    if s == "red" then Red else if s == "blue" then Blue else Green
  }

  const YELLOW: Pixel := Pixel(0, 255, 255, 255)
  const WHITE: Pixel := Pixel(255, 255, 255, 255)

  /** An opaque pixel with only the colour's own channel lit. */
  function Shade(c: Color, level: Byte): Pixel {
    match c
    case Red => Pixel(0, 0, level, 255)
    case Green => Pixel(0, level, 0, 255)
    case Blue => Pixel(level, 0, 0, 255)
  }

  /** What one tick finds out about a slot, and the random choices it makes. */
  datatype Input = Input(hasSub: bool, ownerStale: bool, commands: seq<Command>,
                         newColor: Color, size: nat, a: Byte, b: Byte)

  function Min(a: nat, b: nat): nat { if a <= b then a else b }

  /** The canvas size after a series of commands; zero-sized requests are ignored, larger ones clamped. */
  function SizeAfter(w: nat, h: nat, cmds: seq<Command>): (nat, nat) {
    if cmds == [] then (w, h)
    else
      var (w', h') := SizeAfter(w, h, cmds[..|cmds| - 1]);
      var c := cmds[|cmds| - 1];
      if c.Resize? && c.w != 0 && c.h != 0 then (Min(c.w, MAX_WIDTH), Min(c.h, MAX_HEIGHT)) else (w', h')
  }

  /** The colour after a series of commands: that of the last text, if any. */
  function ColorAfter(c: Color, cmds: seq<Command>): Color {
    if cmds == [] then c
    else
      var last := cmds[|cmds| - 1];
      if !last.SetUrl? then ColorAfter(c, cmds[..|cmds| - 1])
      else if last.text == "red" then Red else if last.text == "blue" then Blue else Green
  }

  /** r is s with a mark drawn at (x, y), clipped to the canvas, and nothing else changed. */
  ghost predicate Drawn(s: Slot, x: int, y: int, px: Pixel, r: Slot) {
    && r == s.(canvas := r.canvas) && |r.canvas| == |s.canvas|
    && forall x', y' | 0 <= x' < s.width && 0 <= y' < s.height ::
         PixelAt(r.canvas, s.width, x', y') ==
         if Marked(s.width, s.height, x, y, x', y') then Some(px) else PixelAt(s.canvas, s.width, x', y')
  }

  method Draw(s: Slot, x: int, y: int, px: Pixel) returns (r: Slot)
    requires s.live && SlotOk(s)
    ensures SlotOk(r) && Drawn(s, x, y, px, r)
  {
    var canvas := s.canvas;
    var a := new Byte[|canvas|](i requires 0 <= i < |canvas| => canvas[i]);
    assert a[..] == canvas;
    DrawMark(a, s.width, s.height, x, y, px);
    r := s.(canvas := a[..]);
  }

  /** What one command does to a slot: s becomes r. */
  ghost predicate Effect(s: Slot, c: Command, r: Slot) {
    match c
    case SetUrl(text) => r == s.(color := ColorFromText(text), dirty := true)
    case MouseMove(x, y) => Drawn(s, x, y, YELLOW, r)
    case MouseButton(x, y) => Drawn(s, x, y, WHITE, r)
    case Resize(w, h) =>
      var w', h' := Min(w, MAX_WIDTH), Min(h, MAX_HEIGHT);
      if w == 0 || h == 0 || (w' == s.width && h' == s.height) then r == s
      else r == s.(width := w', height := h', canvas := Blank(w', h'), dirty := true)
    case Other => r == s
  }

  /** What a series of commands does, in order. */
  ghost predicate Effects(s: Slot, cmds: seq<Command>, r: Slot) {
    if cmds == [] then r == s
    else
      var earlier, last := cmds[..|cmds| - 1], cmds[|cmds| - 1];
      exists m :: Effects(s, earlier, m) && Effect(m, last, r)
  }

  method ApplyCommand(s: Slot, c: Command) returns (r: Slot)
    requires s.live && SlotOk(s)
    ensures SlotOk(r) && Effect(s, c, r)
  {
    r := s;
    match c {
      case SetUrl(text) => r := s.(color := ColorFromText(text), dirty := true);
      case MouseMove(x, y) => r := Draw(s, x, y, YELLOW);
      case MouseButton(x, y) => r := Draw(s, x, y, WHITE);
      case Resize(w, h) =>
        if w != 0 && h != 0 {
          var w', h' := Min(w, MAX_WIDTH), Min(h, MAX_HEIGHT);
          if w' != s.width || h' != s.height {
            r := s.(width := w', height := h', canvas := Blank(w', h'), dirty := true);
          }
        }
      case Other =>
    }
  }

  /** Whatever the commands, the size follows the resizes alone, the colour the texts alone, and the rest of
      the slot is untouched. */
  lemma {:induction false} EffectsOnSize(s: Slot, cmds: seq<Command>, r: Slot)
    requires Effects(s, cmds, r)
    ensures (r.width, r.height) == SizeAfter(s.width, s.height, cmds)
    ensures r.color == ColorAfter(s.color, cmds)
    ensures r == s.(canvas := r.canvas, width := r.width, height := r.height, color := r.color, dirty := r.dirty)
    decreases |cmds|
  {
    if cmds != [] {
      var m :| Effects(s, cmds[..|cmds| - 1], m) && Effect(m, cmds[|cmds| - 1], r);
      EffectsOnSize(s, cmds[..|cmds| - 1], m);
    }
  }

  /** A command that asks for no repaint: a mark, or a size the canvas already has. */
  predicate Gentle(w: nat, h: nat, c: Command) {
    && !c.SetUrl?
    && (c.Resize? && c.w != 0 && c.h != 0 ==> (Min(c.w, MAX_WIDTH), Min(c.h, MAX_HEIGHT)) == (w, h))
  }

  /** Commands make a repaint due when one of them sets a colour or the size has changed in the end, and
      not if all of them are gentle. */
  lemma {:induction false} EffectsOnDirty(s: Slot, cmds: seq<Command>, r: Slot)
    requires Effects(s, cmds, r)
    ensures s.dirty || (exists k :: 0 <= k < |cmds| && cmds[k].SetUrl?) ==> r.dirty
    ensures (r.width, r.height) != (s.width, s.height) ==> r.dirty
    ensures (forall k | 0 <= k < |cmds| :: Gentle(s.width, s.height, cmds[k])) ==>
              r.dirty == s.dirty && (r.width, r.height) == (s.width, s.height)
    decreases |cmds|
  {
    if cmds != [] {
      var earlier, last := cmds[..|cmds| - 1], cmds[|cmds| - 1];
      var m :| Effects(s, earlier, m) && Effect(m, last, r);
      EffectsOnDirty(s, earlier, m);
      if k :| 0 <= k < |cmds| && cmds[k].SetUrl? {
        assert k < |earlier| ==> earlier[k].SetUrl?;
      }
    }
  }

  lemma EffectsSnoc(s: Slot, cmds: seq<Command>, m: Slot, c: Command, r: Slot)
    requires Effects(s, cmds, m) && Effect(m, c, r)
    ensures Effects(s, cmds + [c], r)
  {
    assert (cmds + [c])[..|cmds|] == cmds;
  }

  /** Applies the queued commands of a live slot, in order. */
  method ApplyCommands(s: Slot, cmds: seq<Command>) returns (r: Slot)
    requires s.live && SlotOk(s)
    ensures SlotOk(r) && Effects(s, cmds, r)
    ensures (r.width, r.height) == SizeAfter(s.width, s.height, cmds) && r.color == ColorAfter(s.color, cmds)
    ensures r == s.(canvas := r.canvas, width := r.width, height := r.height, color := r.color, dirty := r.dirty)
  {
    r := s;
    var k := 0;
    while k < |cmds|
      invariant k <= |cmds| && r.live && SlotOk(r) && Effects(s, cmds[..k], r)
    {
      ghost var m := r;
      r := ApplyCommand(r, cmds[k]);
      EffectsSnoc(s, cmds[..k], m, cmds[k], r);
      assert cmds[..k + 1] == cmds[..k] + [cmds[k]];
      k := k + 1;
    }
    assert cmds[..k] == cmds;
    EffectsOnSize(s, cmds, r);
  }

  /** The whole canvas is a checkerboard in the slot's colour. */
  ghost predicate Painted(r: Slot, input: Input) {
    forall x, y | 0 <= x < r.width && 0 <= y < r.height ::
      input.size >= 1 && PixelAt(r.canvas, r.width, x, y) ==
        Some(Checker(x, y, input.size, Shade(r.color, input.a), Shade(r.color, input.b)))
  }

  /** A repaint when one is due: the whole canvas becomes a checkerboard in the slot's colour, erasing
      every mark. */
  ghost predicate Repainted(s: Slot, input: Input, now: nat, r: Slot) {
    if s.dirty || now >= s.nextRegen then
      r == s.(canvas := r.canvas, nextRegen := now + REGEN_NS, dirty := false) && Painted(r, input)
    else r == s
  }

  method Repaint(s: Slot, input: Input, now: nat) returns (r: Slot)
    requires s.live && SlotOk(s) && input.size >= 1
    ensures SlotOk(r) && Repainted(s, input, now, r)
  {
    r := s;
    if s.dirty || now >= s.nextRegen {
      var canvas := s.canvas;
      var a := new Byte[|canvas|](i requires 0 <= i < |canvas| => canvas[i]);
      assert a[..] == canvas;
      Regenerate(a, s.width, s.height, input.size, Shade(s.color, input.a), Shade(s.color, input.b));
      r := s.(canvas := a[..], nextRegen := now + REGEN_NS, dirty := false);
    }
  }

  /** Whether a tick frees a live slot. */
  predicate GivesUp(s: Slot, input: Input, now: nat) {
    (input.hasSub && input.ownerStale) || (!input.hasSub && now - s.lastActive >= GRACE_NS)
  }

  /** The bookkeeping of a slot that stays: a newly arrived consumer gets a fresh colour. */
  function Attended(s: Slot, input: Input, now: nat): Slot {
    var arrived := input.hasSub && !s.hadSubscriber;
    s.(color := if arrived then input.newColor else s.color, dirty := s.dirty || arrived,
       lastActive := if input.hasSub then now else s.lastActive, hadSubscriber := input.hasSub)
  }

  /** One tick of a live slot: freed, or attended, commanded and repainted. */
  ghost predicate Serviced(s: Slot, input: Input, now: nat, r: Slot) {
    if GivesUp(s, input, now) then r == FREE_SLOT
    else exists m :: Effects(Attended(s, input, now), input.commands, m) && Repainted(m, input, now, r)
  }

  /** What becomes of a live slot, in plain terms: it is freed exactly on a stale owner or after a full grace
      period without a consumer. Otherwise a consumer keeps it active; its size follows the resizes; its
      colour is the last one asked for, else a fresh one if a consumer has just arrived, else what it was;
      and it is repainted whenever it was due, a consumer has arrived, a colour was set or the size changed,
      and not when none of the commands asks for it. */
  ghost predicate TickFate(s: Slot, input: Input, now: nat, r: Slot) {
    && (!r.live <==> (input.hasSub && input.ownerStale) || (!input.hasSub && s.lastActive + GRACE_NS <= now))
    && (r.live ==>
          && r.lastActive == (if input.hasSub then now else s.lastActive)
          && r.hadSubscriber == input.hasSub && !r.dirty
          && (r.width, r.height) == SizeAfter(s.width, s.height, input.commands)
          && r.color == ColorAfter(if input.hasSub && !s.hadSubscriber then input.newColor else s.color, input.commands)
          && (Due(s, input, now) ==> r.nextRegen == now + REGEN_NS && Painted(r, input))
          && (!Due(s, input, now) && (forall k | 0 <= k < |input.commands| :: Gentle(s.width, s.height, input.commands[k]))
              ==> r.nextRegen == s.nextRegen))
  }

  ghost predicate Due(s: Slot, input: Input, now: nat) {
    || s.dirty || s.nextRegen <= now || (input.hasSub && !s.hadSubscriber)
    || (exists k :: 0 <= k < |input.commands| && input.commands[k].SetUrl?)
    || SizeAfter(s.width, s.height, input.commands) != (s.width, s.height)
  }

  /** One live slot through one tick. */
  method ServiceSlot(s: Slot, input: Input, now: nat) returns (r: Slot)
    requires s.live && SlotOk(s) && input.size >= 1
    ensures Serviced(s, input, now, r) && SlotOk(r)
    ensures TickFate(s, input, now, r)
  {
    if input.hasSub && input.ownerStale { return FREE_SLOT; }
    r := s;
    if input.hasSub {
      if !r.hadSubscriber { r := r.(color := input.newColor, dirty := true); }
      r := r.(lastActive := now);
    } else if now - r.lastActive >= GRACE_NS {
      return FREE_SLOT;
    }
    r := r.(hadSubscriber := input.hasSub);
    assert r == Attended(s, input, now);
    r := ApplyCommands(r, input.commands);
    ghost var m := r;
    EffectsOnDirty(Attended(s, input, now), input.commands, m);
    r := Repaint(r, input, now);
    assert Effects(Attended(s, input, now), input.commands, m) && Repainted(m, input, now, r);
  }

  // ------------------------------------------------------------------------ the pool

  /** A slot's fields agree with what the history says of its index. */
  ghost predicate Matches(s: Slot, taken: Option<nat>) {
    SlotOk(s) && taken == if s.live then Some(s.lastActive) else None
  }

  ghost predicate Agrees(slots: seq<Slot>, log: seq<PoolEvent>) {
    forall i | 0 <= i < |slots| :: Matches(slots[i], Replay(log, i))
  }

  /** A lawful event keeps slots and history in agreement. */
  lemma Extend(slots: seq<Slot>, log: seq<PoolEvent>, clock: nat, e: PoolEvent, s: Slot)
    requires Agrees(slots, log) && History(log, clock, |slots|)
    requires e.i < |slots| && clock <= e.t && Lawful(log, e)
    requires Matches(s, if e.Freed? then None else Some(e.t))
    ensures Agrees(slots[e.i := s], log + [e]) && History(log + [e], e.t, |slots|)
  {
    LogExtends(log, e);
    HistoryExtends(log, clock, |slots|, e);
  }

  /** The event one slot's part of a tick leaves in the history, if any. */
  function Events(s: Slot, i: nat, input: Input, now: nat): seq<PoolEvent> {
    if !s.live then []
    else
      var found := Found(input.hasSub, input.ownerStale);
      if GivesUp(s, input, now) then [Freed(i, now, found)]
      else if input.hasSub then [Active(i, now, found)] else []
  }

  /** The events of a tick's first n slots, in order. */
  function TickEvents(slots: seq<Slot>, inputs: seq<Input>, now: nat, n: nat): seq<PoolEvent>
    requires n <= |slots| == |inputs|
  {
    if n == 0 then [] else TickEvents(slots, inputs, now, n - 1) + Events(slots[n - 1], n - 1, inputs[n - 1], now)
  }

  lemma MoreEvents(past: seq<PoolEvent>, slots: seq<Slot>, inputs: seq<Input>, now: nat, n: nat)
    requires n < |slots| == |inputs|
    ensures past + TickEvents(slots, inputs, now, n + 1) ==
            past + TickEvents(slots, inputs, now, n) + Events(slots[n], n, inputs[n], now)
  {
  }

  /** One event of a tick says truly what the tick found at its slot, and what became of it. */
  predicate Truthful(was: seq<Slot>, inputs: seq<Input>, now: nat, slots: seq<Slot>, e: PoolEvent) {
    && e.i < |was| == |inputs| == |slots| && e.t == now && was[e.i].live && !e.Assigned?
    && e.found == Found(inputs[e.i].hasSub, inputs[e.i].ownerStale)
    && (e.Freed? <==> !slots[e.i].live)
  }

  /** The events of a tick are truthful, and every slot it freed and every consumer it met has one. */
  ghost predicate Explains(was: seq<Slot>, inputs: seq<Input>, now: nat, slots: seq<Slot>, n: nat, es: seq<PoolEvent>) {
    && n <= |was| == |inputs| == |slots|
    && (forall e | e in es :: Truthful(was, inputs, now, slots, e))
    && forall i | 0 <= i < n && was[i].live && (!slots[i].live || inputs[i].hasSub) :: Mentions(es, i)
  }

  ghost predicate Mentions(es: seq<PoolEvent>, i: nat) {
    exists e :: e in es && e.i == i
  }

  lemma MentionsMore(es: seq<PoolEvent>, more: seq<PoolEvent>, i: nat)
    ensures Mentions(es, i) || Mentions(more, i) ==> Mentions(es + more, i)
  {
    if Mentions(es, i) {
      var e :| e in es && e.i == i;
      assert e in es + more;
    }
    if Mentions(more, i) {
      var e :| e in more && e.i == i;
      assert e in es + more;
    }
  }

  /** One slot's part of this. */
  lemma EventExplains(was: seq<Slot>, inputs: seq<Input>, now: nat, slots: seq<Slot>, i: nat)
    requires i < |was| == |inputs| == |slots|
    requires was[i].live ==> TickFate(was[i], inputs[i], now, slots[i])
    ensures var es := Events(was[i], i, inputs[i], now);
            && (forall e | e in es :: Truthful(was, inputs, now, slots, e))
            && (was[i].live && (!slots[i].live || inputs[i].hasSub) ==> Mentions(es, i))
  {
    var es := Events(was[i], i, inputs[i], now);
    if es != [] { assert es[0] in es; }
  }

  lemma {:induction false} EventsExplain(was: seq<Slot>, inputs: seq<Input>, now: nat, slots: seq<Slot>, n: nat)
    requires n <= |was| == |inputs| == |slots|
    requires forall i | 0 <= i < |was| && was[i].live :: TickFate(was[i], inputs[i], now, slots[i])
    ensures Explains(was, inputs, now, slots, n, TickEvents(was, inputs, now, n))
  {
    if n > 0 {
      EventsExplain(was, inputs, now, slots, n - 1);
      var es, more := TickEvents(was, inputs, now, n - 1), Events(was[n - 1], n - 1, inputs[n - 1], now);
      EventExplains(was, inputs, now, slots, n - 1);
      forall i | 0 <= i < n && was[i].live && (!slots[i].live || inputs[i].hasSub) ensures Mentions(es + more, i) {
        MentionsMore(es, more, i);
      }
    }
  }

  /** A free slot stays as it is; a live one is serviced, and stays unless there is a reason to free it. */
  ghost predicate Outcome(s: Slot, input: Input, now: nat, r: Slot) {
    if s.live then Serviced(s, input, now, r) && TickFate(s, input, now, r) else r == s
  }

  /** The first n slots have had their part of the tick, the others have not. */
  ghost predicate Outcomes(was: seq<Slot>, inputs: seq<Input>, now: nat, slots: seq<Slot>, n: nat) {
    && n <= |was| == |inputs| == |slots|
    && (forall i | 0 <= i < n :: Outcome(was[i], inputs[i], now, slots[i]))
    && forall i | n <= i < |was| :: slots[i] == was[i]
  }

  lemma NextOutcome(was: seq<Slot>, inputs: seq<Input>, now: nat, slots: seq<Slot>, n: nat, r: Slot)
    requires n < |was| && Outcomes(was, inputs, now, slots, n) && Outcome(was[n], inputs[n], now, r)
    ensures Outcomes(was, inputs, now, slots[n := r], n + 1)
  {
  }

  class Pool {
    var slots: seq<Slot>
    ghost var log: seq<PoolEvent>
    ghost var clock: nat

    ghost predicate Valid()
      reads this
    {
      Agrees(slots, log) && History(log, clock, |slots|)
    }

    constructor (count: nat)
      ensures Valid() && |slots| == count && log == [] && clock == 0
      ensures forall i | 0 <= i < count :: !slots[i].live
    {
      slots := seq(count, i => FREE_SLOT);
      log, clock := [], 0;
    }

    /** In every run an index is never assigned twice without being freed in between. */
    lemma NeverAssignedTwice(i: nat, a: nat, b: nat)
      requires Valid() && a < b < |log|
      requires log[a].Assigned? && log[a].i == i && log[b].Assigned? && log[b].i == i
      ensures exists c :: a < c < b && log[c].Freed? && log[c].i == i
    {
      FreedInBetween(log, i, a, b);
    }

    /** In every run a slot is freed for idleness only after the whole grace period: every assignment of,
        or activity on, that index lies at least GRACE_NS before the moment it is freed. */
    lemma IdleFreeAfterGrace(i: nat, a: nat, b: nat)
      requires Valid() && a < b < |log|
      requires log[b].Freed? && !log[b].found.hasSub && log[b].i == i && log[a].i == i
      ensures log[a].t + GRACE_NS <= log[b].t
    {
      GraceInBetween(log, i, a, b);
    }

    /** In every run a slot is freed only for cause: the tick that freed it found it claimed by a stale owner,
        or unclaimed and every earlier event of the index a full grace period old; and a consumer that a tick
        counted as activity was not stale. */
    lemma FreedForCause(b: nat)
      requires Valid() && b < |log|
      ensures log[b].Freed? ==>
                || (log[b].found.hasSub && log[b].found.ownerStale)
                || (!log[b].found.hasSub && forall a | 0 <= a < b && log[a].i == log[b].i :: log[a].t + GRACE_NS <= log[b].t)
      ensures log[b].Active? ==> log[b].found.hasSub && !log[b].found.ownerStale
    {
      assert LawfulAt(log, b);
      if log[b].Freed? && !log[b].found.hasSub {
        forall a | 0 <= a < b && log[a].i == log[b].i ensures log[a].t + GRACE_NS <= log[b].t {
          GraceInBetween(log, log[b].i, a, b);
        }
      }
    }

    /** Serves one slot request: the lowest free index, or None if all are taken or the segment cannot be
        created. */
    method Request(now: nat, created: bool) returns (index: Option<nat>)
      requires Valid() && clock <= now
      modifies this
      ensures Valid() && |slots| == |old(slots)|
      ensures index.Some? ==>
                && index.value < |slots| && created && !old(slots)[index.value].live
                && (forall j | 0 <= j < index.value :: old(slots)[j].live)
                && slots == old(slots)[index.value := NewSlot(now)] && IsNew(slots[index.value], now)
                && log == old(log) + [Assigned(index.value, now)] && clock == now
      ensures index.None? ==> slots == old(slots) && log == old(log) && clock == old(clock)
                              && (created ==> forall j | 0 <= j < |slots| :: slots[j].live)
    {
      var i := 0;
      while i < |slots| && slots[i].live
        invariant i <= |slots| && forall j | 0 <= j < i :: slots[j].live
      {
        i := i + 1;
      }
      if i == |slots| || !created { return None; }
      var s := NewSlot(now);
      NewSlotIsNew(now);
      Extend(slots, log, clock, Assigned(i, now), s);
      slots, log, clock := slots[i := s], log + [Assigned(i, now)], now;
      index := Some(i);
    }

    /** One slot's part of a tick. */
    method ServiceOne(i: nat, input: Input, now: nat)
      requires Valid() && clock <= now && i < |slots| && input.size >= 1
      modifies this
      ensures Valid() && clock <= now && |slots| == |old(slots)|
      ensures slots == old(slots)[i := slots[i]] && Outcome(old(slots)[i], input, now, slots[i])
      ensures log == old(log) + Events(old(slots)[i], i, input, now)
    {
      if !slots[i].live {
        assert slots == slots[i := slots[i]];
        return;
      }
      var s := slots[i];
      assert Matches(s, Replay(log, i));
      var r := ServiceSlot(s, input, now);
      if GivesUp(s, input, now) || input.hasSub {
        ghost var found := Found(input.hasSub, input.ownerStale);
        ghost var e := if GivesUp(s, input, now) then Freed(i, now, found) else Active(i, now, found);
        Extend(slots, log, clock, e, r);
        log, clock := log + [e], now;
      }
      slots := slots[i := r];
    }

    /** The per-slot phase of one tick of the main loop. */
    method Tick(inputs: seq<Input>, now: nat)
      requires Valid() && clock <= now && |inputs| == |slots|
      requires forall i | 0 <= i < |inputs| :: inputs[i].size >= 1
      modifies this
      ensures Valid() && clock <= now && |slots| == |old(slots)|
      ensures forall i | 0 <= i < |slots| :: Outcome(old(slots)[i], inputs[i], now, slots[i])
      ensures forall i | 0 <= i < |slots| && old(slots)[i].live ::
                !slots[i].live <==>
                  || (inputs[i].hasSub && inputs[i].ownerStale)
                  || (!inputs[i].hasSub && old(slots)[i].lastActive + GRACE_NS <= now)
      ensures old(log) <= log && Explains(old(slots), inputs, now, slots, |slots|, log[|old(log)|..])
    {
      var i := 0;
      ghost var was, past := slots, log;
      while i < |slots|
        invariant i <= |slots| == |was| && Valid() && clock <= now
        invariant Outcomes(was, inputs, now, slots, i)
        invariant log == past + TickEvents(was, inputs, now, i)
      {
        MoreEvents(past, was, inputs, now, i);
        ghost var before := slots;
        ServiceOne(i, inputs[i], now);
        NextOutcome(was, inputs, now, before, i, slots[i]);
        i := i + 1;
      }
      assert forall i | 0 <= i < |slots| :: Outcome(was[i], inputs[i], now, slots[i]);
      EventsExplain(was, inputs, now, slots, |slots|);
      assert log[|past|..] == TickEvents(was, inputs, now, |slots|);
    }
  }

  // ------------------------------------------------------------------------ theorems

  /** Replay tells whether an index is taken: assigned, and not freed since. */
  lemma {:induction false} TakenMeansAssigned(log: seq<PoolEvent>, i: nat, a: nat)
    requires LawfulLog(log) && a < |log| && log[a].i == i && log[a].Assigned?
    requires forall c | a < c < |log| :: !(log[c].i == i && log[c].Freed?)
    ensures Replay(log, i).Some?
    decreases |log|
  {
    var n := |log| - 1;
    if a < n {
      PrefixLawful(log, n);
      assert LawfulAt(log, n);
      TakenMeansAssigned(log[..n], i, a);
    }
  }

  lemma FreedInBetween(log: seq<PoolEvent>, i: nat, a: nat, b: nat)
    requires LawfulLog(log) && a < b < |log|
    requires log[a].Assigned? && log[a].i == i && log[b].Assigned? && log[b].i == i
    ensures exists c :: a < c < b && log[c].Freed? && log[c].i == i
  {
    var before := log[..b];
    PrefixLawful(log, b);
    assert LawfulAt(log, b);
    if forall c | a < c < b :: !(log[c].i == i && log[c].Freed?) {
      TakenMeansAssigned(before, i, a);
    }
  }

  /** The replayed time is that of the last event of the index, so no earlier one is later. */
  lemma {:induction false} ReplayIsLatest(log: seq<PoolEvent>, i: nat, a: nat)
    requires InTimeOrder(log) && a < |log| && log[a].i == i && Replay(log, i).Some?
    ensures log[a].t <= Replay(log, i).value
    decreases |log|
  {
    var n := |log| - 1;
    assert NotAfter(log, a, n);
    if log[n].i != i {
      PrefixOrdered(log, n);
      ReplayIsLatest(log[..n], i, a);
    }
  }

  lemma GraceInBetween(log: seq<PoolEvent>, i: nat, a: nat, b: nat)
    requires LawfulLog(log) && InTimeOrder(log) && a < b < |log|
    requires log[b].Freed? && !log[b].found.hasSub && log[b].i == i && log[a].i == i
    ensures log[a].t + GRACE_NS <= log[b].t
  {
    assert LawfulAt(log, b);
    PrefixOrdered(log, b);
    ReplayIsLatest(log[..b], i, a);
  }

  /** The configuration every view's segment is created with, under its own name. */
  function ViewConfig(name: string): Layout.Config {
    Layout.Config(name, MAX_WIDTH, MAX_HEIGHT, 4, 3, 64, 512, 2000)
  }

  function ViewParams(name: string, cancels: bool): F.Params { F.ParamsOf(ViewConfig(name), cancels) }

  lemma ViewPayload(name: string, cancels: bool)
    ensures ViewParams(name, cancels).maxPayload == 4 * MAX_WIDTH * MAX_HEIGHT
  {
    TimesIsProduct(MAX_HEIGHT, 4);
    TimesIsProduct(MAX_WIDTH, 4 * MAX_HEIGHT);
  }

  /** The bytes of a canvas, counted as begin_write and as publish count them. */
  lemma CanvasBytes(s: Slot)
    requires s.live && SlotOk(s)
    ensures Times(Times(s.width, s.height), 4) == |s.canvas| <= 4 * MAX_WIDTH * MAX_HEIGHT
    ensures Times(s.height - 1, Times(s.width, 4)) + Times(s.width, 4) == |s.canvas|
  {
    Invariant.TimesCommutes(s.width, s.height);
    Invariant.RowsOfBytes(s.width, s.height, 4);
    TimesIsProduct(Times(s.width, s.height), 4);
    TimesBound(s.height, MAX_HEIGHT, s.width, MAX_WIDTH);
    TimesIsProduct(MAX_HEIGHT, MAX_WIDTH);
  }

  /** Publishing a slot passes the size check of its view's publisher, asks nothing the canvas does not
      supply, and reads exactly the canvas. */
  lemma PublishInBounds(s: Slot, name: string, cancels: bool)
    requires s.live && SlotOk(s)
    ensures var p := ViewParams(name, cancels);
            && F.GeometryAccepted(p, s.width, s.height) && P.Supplies(p, s.canvas, s.width, s.height, 0)
            && F.FrameBytes(p, s.width, s.height) == |s.canvas|
  {
    ViewPayload(name, cancels);
    CanvasBytes(s);
    Invariant.TimesAtLeast(Times(s.width, s.height), 4);
    Layout.Mul64Exact(s.width, s.height);
  }
}

/** The single-producer, single-consumer command ring, interleaved field by field and byte by byte,
    with head and tail kept as wrapping 64-bit counters. */
module CommandRing {
  import opened Words

  datatype Cell = Cell(id: nat, replyTo: nat, ts: nat, kind: nat, size: nat, payload: seq<Byte>)

  datatype Command = Command(id: nat, replyTo: nat, ts: nat, kind: nat, data: seq<Byte>)

  /** Arguments of push. `data` is None for a null pointer; otherwise it holds `size` bytes. */
  datatype Args = Args(kind: nat, data: Option<seq<Byte>>, size: nat, id: nat, replyTo: nat, ts: nat)

  datatype Dim = Dim(slots: nat, maxBytes: nat)

  predicate DimOk(d: Dim) {
    1 <= d.slots < TWO32 && And(d.slots, d.slots - 1) == 0
  }

  /** History: accepted, the arguments of every push that succeeded; pushed, what each of them left in
      its cell; popped, what each successful pop handed out. */
  datatype Ring = Ring(cells: seq<Cell>, head: nat, tail: nat,
                       accepted: seq<Args>, pushed: seq<Command>, popped: seq<Command>)

  predicate Shaped(d: Dim, r: Ring) {
    && DimOk(d) && |r.cells| == d.slots
    && forall i | 0 <= i < d.slots :: |r.cells[i].payload| == d.maxBytes
  }

  predicate ArgsOk(d: Dim, a: Args) {
    a.size <= d.maxBytes && (a.data.Some? ==> |a.data.value| == a.size)
  }

  /** The cell that head or tail designates: counter & (slots - 1). */
  function Index(d: Dim, counter: nat): nat
    requires DimOk(d)
  {
    And(counter, d.slots - 1)
  }

  // -------------------------------------------------------------------- push steps

  datatype PushPc =
    | PushIdle
    | HaveHead(args: Args, head: nat)
    | Writing(args: Args, head: nat, k: nat)

  datatype PushEvent =
    | PushStart(args: Args)
    | PushLoadTail
    | PushWrite
    | PushStoreHead
    | PushCrash

  /** Stores a push makes to its cell: five fields, then the payload bytes. */
  function Stores(a: Args): nat { 5 + (if a.data.Some? then a.size else 0) }

  predicate PushEnabled(d: Dim, r: Ring, pc: PushPc, e: PushEvent) {
    Shaped(d, r) &&
    match e
    case PushStart(a) => pc.PushIdle? && ArgsOk(d, a)
    case PushLoadTail => pc.HaveHead?
    case PushWrite => pc.Writing? && Index(d, pc.head) < d.slots && ArgsOk(d, pc.args) && pc.k < Stores(pc.args)
    case PushStoreHead =>
      pc.Writing? && Index(d, pc.head) < d.slots && pc.k == Stores(pc.args) && pc.args.size <= d.maxBytes
    case PushCrash => true
  }

  /** The k-th store of a push into its cell. */
  function StoreInto(c: Cell, a: Args, k: nat): Cell
    requires k < Stores(a) && (a.data.Some? ==> |a.data.value| == a.size <= |c.payload|)
  {
    if k == 0 then c.(id := a.id)
    else if k == 1 then c.(replyTo := a.replyTo)
    else if k == 2 then c.(ts := a.ts)
    else if k == 3 then c.(kind := a.kind)
    else if k == 4 then c.(size := a.size)
    else c.(payload := c.payload[k - 5 := a.data.value[k - 5]])
  }

  function Contents(c: Cell): Command {
    Command(c.id, c.replyTo, c.ts, c.kind, if c.size <= |c.payload| then c.payload[..c.size] else c.payload)
  }

  function PushStep(d: Dim, r: Ring, pc: PushPc, e: PushEvent): (Ring, PushPc)
    requires PushEnabled(d, r, pc, e)
  {
    match e
    case PushStart(a) => (r, HaveHead(a, r.head))
    case PushLoadTail =>
      (r, if Sub64(pc.head, r.tail) >= d.slots then PushIdle else Writing(pc.args, pc.head, 0))
    case PushWrite =>
      var i := Index(d, pc.head);
      (r.(cells := r.cells[i := StoreInto(r.cells[i], pc.args, pc.k)]), Writing(pc.args, pc.head, pc.k + 1))
    case PushStoreHead =>
      (r.(head := Add64(pc.head, 1), accepted := r.accepted + [pc.args],
          pushed := r.pushed + [Contents(r.cells[Index(d, pc.head)])]), PushIdle)
    case PushCrash => (r, PushIdle)
  }

  // --------------------------------------------------------------------- pop steps

  datatype PopPc =
    | PopIdle
    | HaveTail(tail: nat)
    | Reading(tail: nat, k: nat, n: nat, out: Command)

  datatype PopEvent =
    | PopStart
    | PopLoadHead
    | PopRead
    | PopStoreTail
    | PopCrash

  const NO_COMMAND: Command := Command(0, 0, 0, 0, [])

  predicate PopEnabled(d: Dim, r: Ring, pc: PopPc, e: PopEvent) {
    Shaped(d, r) &&
    match e
    case PopStart => pc.PopIdle?
    case PopLoadHead => pc.HaveTail?
    case PopRead =>
      && pc.Reading? && Index(d, pc.tail) < d.slots
      && (pc.k < 5 || (pc.k < 5 + pc.n && pc.k - 5 < d.maxBytes))
    case PopStoreTail => pc.Reading? && pc.k == 5 + pc.n
    case PopCrash => true
  }

  /** The k-th load of a pop; the size load clamps to the configured maximum. */
  function LoadFrom(d: Dim, c: Cell, pc: PopPc): PopPc
    requires pc.Reading? && (pc.k < 5 || pc.k - 5 < |c.payload|)
  {
    var out := pc.out;
    if pc.k == 0 then Reading(pc.tail, 1, pc.n, out.(id := c.id))
    else if pc.k == 1 then Reading(pc.tail, 2, pc.n, out.(replyTo := c.replyTo))
    else if pc.k == 2 then Reading(pc.tail, 3, pc.n, out.(ts := c.ts))
    else if pc.k == 3 then Reading(pc.tail, 4, pc.n, out.(kind := c.kind))
    else if pc.k == 4 then Reading(pc.tail, 5, if c.size > d.maxBytes then d.maxBytes else c.size, out)
    else Reading(pc.tail, pc.k + 1, pc.n, out.(data := out.data + [c.payload[pc.k - 5]]))
  }

  function PopStep(d: Dim, r: Ring, pc: PopPc, e: PopEvent): (Ring, PopPc)
    requires PopEnabled(d, r, pc, e)
  {
    match e
    case PopStart => (r, HaveTail(r.tail))
    case PopLoadHead => (r, if pc.tail == r.head then PopIdle else Reading(pc.tail, 0, 0, NO_COMMAND))
    case PopRead => (r, LoadFrom(d, r.cells[Index(d, pc.tail)], pc))
    case PopStoreTail => (r.(tail := Add64(pc.tail, 1), popped := r.popped + [pc.out]), PopIdle)
    case PopCrash => (r, PopIdle)
  }

  // ---------------------------------------------------------------------- invariant

  predicate CellHolds(c: Cell, cmd: Command) {
    && c.id == cmd.id && c.replyTo == cmd.replyTo && c.ts == cmd.ts && c.kind == cmd.kind
    && c.size == |cmd.data| <= |c.payload| && c.payload[..c.size] == cmd.data
  }

  /** A command carries what the push was given; a null pointer leaves its bytes unspecified. */
  predicate Delivers(a: Args, cmd: Command) {
    && cmd.id == a.id && cmd.replyTo == a.replyTo && cmd.ts == a.ts && cmd.kind == a.kind
    && |cmd.data| == a.size && (a.data.Some? ==> cmd.data == a.data.value)
  }

  ghost predicate CellsOk(d: Dim, r: Ring)
    requires Shaped(d, r)
  {
    forall i | |r.popped| <= i < |r.pushed| :: CellHolds(r.cells[SlotOf(d.slots, i)], r.pushed[i])
  }

  ghost predicate DeliversAll(accepted: seq<Args>, pushed: seq<Command>) {
    |accepted| == |pushed| && forall i | 0 <= i < |pushed| :: Delivers(accepted[i], pushed[i])
  }

  predicate Counters(d: Dim, r: Ring) {
    && r.head == |r.pushed| % TWO64 && r.tail == |r.popped| % TWO64
    && |r.popped| <= |r.pushed| <= |r.popped| + d.slots
    && r.popped <= r.pushed
  }

  ghost predicate Core(d: Dim, r: Ring) {
    Shaped(d, r) && Counters(d, r) && CellsOk(d, r) && DeliversAll(r.accepted, r.pushed)
  }

  /** The first k stores of a push are in its cell. */
  predicate Written(c: Cell, a: Args, k: nat) {
    && (k >= 1 ==> c.id == a.id) && (k >= 2 ==> c.replyTo == a.replyTo) && (k >= 3 ==> c.ts == a.ts)
    && (k >= 4 ==> c.kind == a.kind) && (k >= 5 ==> c.size == a.size)
    && (k > 5 ==> a.data.Some? && k - 5 <= |a.data.value| && k - 5 <= |c.payload|
                  && c.payload[..k - 5] == a.data.value[..k - 5])
  }

  ghost predicate PushOk(d: Dim, r: Ring, pc: PushPc)
    requires Shaped(d, r)
  {
    match pc
    case PushIdle => true
    case HaveHead(a, head) => head == r.head && ArgsOk(d, a)
    case Writing(a, head, k) =>
      && head == r.head && ArgsOk(d, a) && k <= Stores(a)
      && |r.pushed| < |r.popped| + d.slots
      && Written(r.cells[SlotOf(d.slots, |r.pushed|)], a, k)
  }

  /** The first k loads of a pop agree with the command at the front of the queue. */
  predicate ReadSoFar(pc: PopPc, cmd: Command)
    requires pc.Reading?
  {
    && (pc.k >= 1 ==> pc.out.id == cmd.id) && (pc.k >= 2 ==> pc.out.replyTo == cmd.replyTo)
    && (pc.k >= 3 ==> pc.out.ts == cmd.ts) && (pc.k >= 4 ==> pc.out.kind == cmd.kind)
    && (pc.k < 5 ==> pc.n == 0 && pc.out.data == [])
    && (pc.k >= 5 ==> pc.n == |cmd.data| && pc.k <= 5 + pc.n && pc.out.data == cmd.data[..pc.k - 5])
  }

  ghost predicate PopOk(d: Dim, r: Ring, pc: PopPc) {
    match pc
    case PopIdle => true
    case HaveTail(tail) => tail == r.tail
    case Reading(tail, k, n, out) =>
      && tail == r.tail && |r.popped| < |r.pushed|
      && ReadSoFar(pc, r.pushed[|r.popped|]) && |r.pushed[|r.popped|].data| <= d.maxBytes
  }

  // ------------------------------------------------------------------- preservation

  /** The pusher's cell is never one that holds a queued command. */
  lemma WritingCellIsFree(d: Dim, r: Ring, i: nat)
    requires Core(d, r) && |r.pushed| < |r.popped| + d.slots && |r.popped| <= i < |r.pushed|
    ensures SlotOf(d.slots, i) != SlotOf(d.slots, |r.pushed|)
  {
    SlotsDiffer(d.slots, i, |r.pushed|);
  }

  lemma StoreExtends(c: Cell, a: Args, k: nat)
    requires k < Stores(a) && (a.data.Some? ==> |a.data.value| == a.size <= |c.payload|) && Written(c, a, k)
    ensures Written(StoreInto(c, a, k), a, k + 1) && |StoreInto(c, a, k).payload| == |c.payload|
  {
    if k >= 5 {
      var c' := StoreInto(c, a, k);
      assert c'.payload[..k - 4] == c.payload[..k - 5] + [a.data.value[k - 5]];
      assert a.data.value[..k - 4] == a.data.value[..k - 5] + [a.data.value[k - 5]];
      assert k == 5 ==> c.payload[..k - 5] == [];
    }
  }

  lemma PushWriteKeeps(d: Dim, r: Ring, pc: PushPc, pop: PopPc)
    requires Core(d, r) && PushOk(d, r, pc) && PopOk(d, r, pop) && PushEnabled(d, r, pc, PushWrite)
    ensures var (r', pc') := PushStep(d, r, pc, PushWrite); Core(d, r') && PushOk(d, r', pc') && PopOk(d, r', pop)
  {
    var (r', pc') := PushStep(d, r, pc, PushWrite);
    MaskIsSlot(|r.pushed|, d.slots);
    StoreExtends(r.cells[Index(d, pc.head)], pc.args, pc.k);
    forall i | |r.popped| <= i < |r.pushed| ensures CellHolds(r'.cells[SlotOf(d.slots, i)], r.pushed[i]) {
      WritingCellIsFree(d, r, i);
    }
  }

  /** A finished cell holds what was pushed, and the next queue entry is live in it. */
  lemma FinishedCell(d: Dim, c: Cell, a: Args)
    requires ArgsOk(d, a) && |c.payload| == d.maxBytes && Written(c, a, Stores(a))
    ensures CellHolds(c, Contents(c)) && Delivers(a, Contents(c))
  {
    if a.data.Some? && a.size == 0 { assert a.data.value == []; }
    if a.data.Some? && a.size > 0 { assert a.data.value[..a.size] == a.data.value; }
  }

  /** Incrementing a wrapped counter follows the unwrapped count. */
  lemma Increment(n: nat)
    ensures Add64(n % TWO64, 1) == (n + 1) % TWO64
  {
  }

  lemma PrefixExtends<T>(xs: seq<T>, ys: seq<T>, y: T)
    requires xs <= ys
    ensures xs <= ys + [y]
    ensures |xs| < |ys| && y == ys[|xs|] ==> xs + [y] <= ys
  {
  }

  lemma PushCells(d: Dim, r: Ring, r': Ring, cmd: Command)
    requires Shaped(d, r) && Shaped(d, r') && CellsOk(d, r) && |r.popped| <= |r.pushed|
    requires r'.cells == r.cells && r'.popped == r.popped && r'.pushed == r.pushed + [cmd]
    requires CellHolds(r.cells[SlotOf(d.slots, |r.pushed|)], cmd)
    ensures CellsOk(d, r')
  {
    assert forall i | 0 <= i < |r.pushed| :: r'.pushed[i] == r.pushed[i];
  }

  lemma PushCounters(d: Dim, r: Ring, r': Ring, cmd: Command)
    requires Counters(d, r) && |r.pushed| < |r.popped| + d.slots
    requires r'.head == Add64(r.head, 1) && r'.tail == r.tail
    requires r'.popped == r.popped && r'.pushed == r.pushed + [cmd]
    ensures Counters(d, r')
  {
    Increment(|r.pushed|);
    PrefixExtends(r.popped, r.pushed, cmd);
  }

  lemma DeliversSnoc(accepted: seq<Args>, pushed: seq<Command>, a: Args, cmd: Command)
    requires DeliversAll(accepted, pushed) && Delivers(a, cmd)
    ensures DeliversAll(accepted + [a], pushed + [cmd])
  {
  }

  /** A pop in progress does not mind a longer queue. */
  lemma PopUnaware(d: Dim, r: Ring, r': Ring, pop: PopPc)
    requires PopOk(d, r, pop) && r'.tail == r.tail && r'.popped == r.popped && r.pushed <= r'.pushed
    ensures PopOk(d, r', pop)
  {
  }

  /** Publishing a finished cell: the ring r with the command of cell c at the back of its queue. */
  lemma PublishKeeps(d: Dim, r: Ring, r': Ring, a: Args, c: Cell)
    requires Core(d, r) && |r.pushed| < |r.popped| + d.slots && ArgsOk(d, a)
    requires c == r.cells[SlotOf(d.slots, |r.pushed|)] && Written(c, a, Stores(a))
    requires r' == r.(head := Add64(r.head, 1), accepted := r.accepted + [a], pushed := r.pushed + [Contents(c)])
    ensures Core(d, r') && Delivers(a, Contents(c))
  {
    FinishedCell(d, c, a);
    PushCounters(d, r, r', Contents(c));
    PushCells(d, r, r', Contents(c));
    DeliversSnoc(r.accepted, r.pushed, a, Contents(c));
  }

  lemma PushStoreKeeps(d: Dim, r: Ring, pc: PushPc, pop: PopPc)
    requires Core(d, r) && PushOk(d, r, pc) && PopOk(d, r, pop) && PushEnabled(d, r, pc, PushStoreHead)
    ensures var (r', pc') := PushStep(d, r, pc, PushStoreHead); Core(d, r') && PushOk(d, r', pc') && PopOk(d, r', pop)
    ensures Delivers(pc.args, Contents(r.cells[Index(d, pc.head)]))
  {
    var (r', pc') := PushStep(d, r, pc, PushStoreHead);
    MaskIsSlot(|r.pushed|, d.slots);
    PublishKeeps(d, r, r', pc.args, r.cells[Index(d, pc.head)]);
    PopUnaware(d, r, r', pop);
  }

  lemma PushLoadKeeps(d: Dim, r: Ring, pc: PushPc)
    requires Core(d, r) && PushOk(d, r, pc) && PushEnabled(d, r, pc, PushLoadTail)
    ensures PushOk(d, r, PushStep(d, r, pc, PushLoadTail).1)
    ensures PushStep(d, r, pc, PushLoadTail).1.PushIdle? <==> |r.pushed| - |r.popped| == d.slots
  {
    SubAcrossWrap(|r.pushed|, |r.popped|);
  }

  /** Every push step keeps the ring, its own progress and any pop in progress. */
  lemma PushKeeps(d: Dim, r: Ring, pc: PushPc, e: PushEvent, pop: PopPc)
    requires Core(d, r) && PushOk(d, r, pc) && PopOk(d, r, pop) && PushEnabled(d, r, pc, e)
    ensures var (r', pc') := PushStep(d, r, pc, e); Core(d, r') && PushOk(d, r', pc') && PopOk(d, r', pop)
  {
    match e
    case PushStart(a) =>
    case PushLoadTail => PushLoadKeeps(d, r, pc);
    case PushWrite => PushWriteKeeps(d, r, pc, pop);
    case PushStoreHead => PushStoreKeeps(d, r, pc, pop);
    case PushCrash =>
  }

  lemma LoadExtends(d: Dim, c: Cell, pc: PopPc, cmd: Command)
    requires pc.Reading? && CellHolds(c, cmd) && ReadSoFar(pc, cmd) && |cmd.data| <= d.maxBytes == |c.payload|
    requires pc.k < 5 || pc.k < 5 + pc.n
    ensures var pc' := LoadFrom(d, c, pc); pc'.Reading? && pc'.tail == pc.tail && ReadSoFar(pc', cmd)
  {
    if pc.k >= 5 {
      assert c.payload[pc.k - 5] == c.payload[..c.size][pc.k - 5];
      assert cmd.data[..pc.k - 4] == cmd.data[..pc.k - 5] + [cmd.data[pc.k - 5]];
    }
  }

  lemma PopReadKeeps(d: Dim, r: Ring, pc: PopPc)
    requires Core(d, r) && PopOk(d, r, pc) && PopEnabled(d, r, pc, PopRead)
    ensures PopOk(d, r, PopStep(d, r, pc, PopRead).1)
  {
    MaskIsSlot(|r.popped|, d.slots);
    LoadExtends(d, r.cells[Index(d, pc.tail)], pc, r.pushed[|r.popped|]);
  }

  lemma PopWhole(pc: PopPc, cmd: Command)
    requires pc.Reading? && ReadSoFar(pc, cmd) && pc.k == 5 + pc.n
    ensures pc.out == cmd
  {
    assert cmd.data[..|cmd.data|] == cmd.data;
  }

  lemma PopStoreKeeps(d: Dim, r: Ring, push: PushPc, pc: PopPc)
    requires Core(d, r) && PushOk(d, r, push) && PopOk(d, r, pc) && PopEnabled(d, r, pc, PopStoreTail)
    ensures var (r', pc') := PopStep(d, r, pc, PopStoreTail); Core(d, r') && PushOk(d, r', push) && PopOk(d, r', pc')
    ensures pc.out == r.pushed[|r.popped|]
  {
    var (r', pc') := PopStep(d, r, pc, PopStoreTail);
    PopWhole(pc, r.pushed[|r.popped|]);
    Increment(|r.popped|);
    PrefixExtends(r.popped, r.pushed, pc.out);
    assert Counters(d, r');
    assert CellsOk(d, r');
  }

  lemma PopLoadKeeps(d: Dim, r: Ring, pc: PopPc)
    requires Core(d, r) && PopOk(d, r, pc) && PopEnabled(d, r, pc, PopLoadHead)
    ensures PopOk(d, r, PopStep(d, r, pc, PopLoadHead).1)
    ensures PopStep(d, r, pc, PopLoadHead).1.PopIdle? <==> |r.pushed| == |r.popped|
  {
    SubAcrossWrap(|r.pushed|, |r.popped|);
    if |r.popped| < |r.pushed| { assert CellHolds(r.cells[SlotOf(d.slots, |r.popped|)], r.pushed[|r.popped|]); }
  }

  /** Every pop step keeps the ring, its own progress and any push in progress. */
  lemma PopKeeps(d: Dim, r: Ring, push: PushPc, pc: PopPc, e: PopEvent)
    requires Core(d, r) && PushOk(d, r, push) && PopOk(d, r, pc) && PopEnabled(d, r, pc, e)
    ensures var (r', pc') := PopStep(d, r, pc, e); Core(d, r') && PushOk(d, r', push) && PopOk(d, r', pc')
  {
    match e
    case PopStart =>
    case PopLoadHead => PopLoadKeeps(d, r, pc);
    case PopRead => PopReadKeeps(d, r, pc);
    case PopStoreTail => PopStoreKeeps(d, r, push, pc);
    case PopCrash =>
  }
}

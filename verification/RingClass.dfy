/** LLRing as the object each side of the channel calls: push, pop and pending, in place. */
module RingClass {
  import opened Words
  import opened CommandRing
  import opened RingTheorems

  /** One store of a push into its cell. */
  lemma StoreKeeps(d: Dim, r: Ring, a: Args, k: nat)
    requires Core(d, r) && PushOk(d, r, Writing(a, r.head, k)) && k < Stores(a)
    ensures var i := Index(d, r.head);
            && i < d.slots && (a.data.Some? ==> |a.data.value| == a.size <= |r.cells[i].payload|)
            && var t := r.(cells := r.cells[i := StoreInto(r.cells[i], a, k)]);
               Core(d, t) && PushOk(d, t, Writing(a, t.head, k + 1))
  {
    MaskIsSlot(|r.pushed|, d.slots);
    SlotOfIsMod(d.slots, |r.pushed|);
    PushWriteKeeps(d, r, Writing(a, r.head, k), PopIdle);
  }

  /** The cell at tail of a ring that is not empty holds the front of the queue. */
  lemma FrontCell(d: Dim, r: Ring)
    requires Core(d, r) && |r.popped| < |r.pushed|
    ensures Index(d, r.tail) < d.slots && CellHolds(r.cells[Index(d, r.tail)], r.pushed[|r.popped|])
  {
    MaskIsSlot(|r.popped|, d.slots);
    SlotOfIsMod(d.slots, |r.popped|);
  }

  /** Handing out the front of the queue. */
  lemma FrontPops(d: Dim, r: Ring, cmd: Command)
    requires Core(d, r) && |r.popped| < |r.pushed| && cmd == r.pushed[|r.popped|]
    ensures var t := r.(tail := Add64(r.tail, 1), popped := r.popped + [cmd]);
            Core(d, t) && Queue(r) == [cmd] + Queue(t)
  {
    Increment(|r.popped|);
    PrefixExtends(r.popped, r.pushed, cmd);
  }

  class LLRing {
    const dim: Dim
    var cells: seq<Cell>
    var head: nat
    var tail: nat
    ghost var accepted: seq<Args>
    ghost var pushed: seq<Command>
    ghost var popped: seq<Command>

    ghost function View(): Ring
      reads this
    {
      Ring(cells, head, tail, accepted, pushed, popped)
    }

    ghost predicate Valid()
      reads this
    {
      Core(dim, View())
    }

    constructor (d: Dim)
      requires DimOk(d)
      ensures Valid() && dim == d && View() == EmptyRing(d)
    {
      dim := d;
      cells := seq(d.slots, i => Cell(0, 0, 0, 0, 0, seq(d.maxBytes, j => 0)));
      head, tail := 0, 0;
      accepted, pushed, popped := [], [], [];
      new;
      EmptyRingOk(d);
    }

    predicate Full()
      reads this
    {
      Sub64(head, tail) >= dim.slots
    }

    lemma FullMeansFull()
      requires Valid()
      ensures Full() <==> |Queue(View())| == dim.slots
    {
      SubAcrossWrap(|pushed|, |popped|);
    }

    /** Writes the command into the free cell at head, without publishing it. */
    method FillCell(a: Args)
      requires Valid() && ArgsOk(dim, a) && |Queue(View())| < dim.slots
      modifies this`cells
      ensures Valid() && PushOk(dim, View(), Writing(a, head, Stores(a)))
    {
      MaskIsSlot(|pushed|, dim.slots);
      var i := Index(dim, head);
      var k := 0;
      while k < Stores(a)
        invariant k <= Stores(a) && Valid() && PushOk(dim, View(), Writing(a, head, k))
      {
        StoreKeeps(dim, View(), a, k);
        cells := cells[i := StoreInto(cells[i], a, k)];
        k := k + 1;
      }
    }

    /** False if the command is oversized or the queue is full, and then nothing changes; otherwise the
        command joins the back of the queue. */
    method Push(a: Args) returns (ok: bool)
      requires Valid() && (a.data.Some? ==> |a.data.value| == a.size)
      modifies this
      ensures Valid()
      ensures ok <==> a.size <= dim.maxBytes && |Queue(old(View()))| < dim.slots
      ensures !ok ==> View() == old(View())
      ensures ok ==> popped == old(popped) && accepted == old(accepted) + [a]
      ensures ok ==> exists cmd :: Queue(View()) == Queue(old(View())) + [cmd] && Delivers(a, cmd)
    {
      FullMeansFull();
      if a.size > dim.maxBytes || Full() { return false; }
      FillCell(a);
      MaskIsSlot(|pushed|, dim.slots);
      ghost var was, c := View(), cells[Index(dim, head)];
      accepted, pushed := accepted + [a], pushed + [Contents(c)];
      head := Add64(head, 1);
      PublishKeeps(dim, was, View(), a, c);
      assert Queue(View()) == Queue(was) + [Contents(c)];
      ok := true;
    }

    /** The payload of a cell, as many bytes as its size says but never more than fit. */
    method CopyOut(c: Cell) returns (data: seq<Byte>)
      requires |c.payload| == dim.maxBytes
      ensures data == c.payload[..if c.size > dim.maxBytes then dim.maxBytes else c.size]
    {
      var n := if c.size > dim.maxBytes then dim.maxBytes else c.size;
      data := [];
      while |data| < n
        invariant |data| <= n && data == c.payload[..|data|]
      {
        data := data + [c.payload[|data|]];
      }
    }

    /** None if the queue is empty; otherwise its front, which is removed. */
    method Pop() returns (out: Option<Command>)
      requires Valid()
      modifies this
      ensures Valid() && pushed == old(pushed) && accepted == old(accepted)
      ensures out.None? <==> Queue(old(View())) == []
      ensures out.None? ==> View() == old(View())
      ensures out.Some? ==> Queue(old(View())) == [out.value] + Queue(View())
    {
      SubAcrossWrap(|pushed|, |popped|);
      if tail == head { return None; }

      FrontCell(dim, View());
      var c := cells[Index(dim, tail)];
      var data := CopyOut(c);
      var cmd := Command(c.id, c.replyTo, c.ts, c.kind, data);
      FrontPops(dim, View(), cmd);
      popped := popped + [cmd];
      tail := Add64(tail, 1);
      out := Some(cmd);
    }

    method Pending() returns (n: nat)
      requires Valid()
      ensures n == |Queue(View())| <= dim.slots
    {
      PendingIsLength(dim, View());
      n := Sub64(head, tail) % TWO32;
    }
  }
}

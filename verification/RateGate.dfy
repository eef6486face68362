/** The publish and read rate gates: how many passes any window of time can contain. */
module RateGate {
  import opened Words

  predicate SpacedAt(times: seq<nat>, gap: nat, i: nat) {
    1 <= i < |times| ==> times[i - 1] + gap <= times[i]
  }

  /** Consecutive times are at least `gap` apart. */
  ghost predicate Spaced(times: seq<nat>, gap: nat) {
    forall i: nat :: SpacedAt(times, gap, i)
  }

  /** How many of the times lie in the closed window [lo, hi]. */
  function CountIn(times: seq<nat>, lo: nat, hi: nat): nat {
    if times == [] then 0
    else
      var last := times[|times| - 1];
      CountIn(times[..|times| - 1], lo, hi) + (if lo <= last <= hi then 1 else 0)
  }

  lemma SpacedPrefix(times: seq<nat>, gap: nat)
    requires Spaced(times, gap) && times != []
    ensures Spaced(times[..|times| - 1], gap)
  {
    var xs := times[..|times| - 1];
    forall i: nat ensures SpacedAt(xs, gap, i) { assert SpacedAt(times, gap, i); }
  }

  lemma {:induction false} NoneAfter(times: seq<nat>, lo: nat, hi: nat, gap: nat)
    requires Spaced(times, gap) && (times != [] ==> times[|times| - 1] < lo)
    ensures CountIn(times, lo, hi) == 0
    decreases |times|
  {
    if times != [] {
      SpacedPrefix(times, gap);
      assert SpacedAt(times, gap, |times| - 1);
      NoneAfter(times[..|times| - 1], lo, hi, gap);
    }
  }

  /** k + 1 passes in a window span at least k gaps. */
  lemma {:induction false} WindowSpan(times: seq<nat>, gap: nat, lo: nat, hi: nat)
    requires Spaced(times, gap) && lo <= hi
    ensures CountIn(times, lo, hi) > 0 ==> lo + Times(CountIn(times, lo, hi) - 1, gap) <= hi
    ensures CountIn(times, lo, hi) > 0 && times != [] && times[|times| - 1] <= hi ==>
              lo + Times(CountIn(times, lo, hi) - 1, gap) <= times[|times| - 1]
    decreases |times|
  {
    if times != [] {
      var xs, last := times[..|times| - 1], times[|times| - 1];
      SpacedPrefix(times, gap);
      WindowSpan(xs, gap, lo, hi);
      if last < lo {
        NoneAfter(times, lo, hi, gap);
      } else if last <= hi && xs != [] {
        assert SpacedAt(times, gap, |times| - 1);
      }
    }
  }

  /** Any window of length T contains at most floor(T / gap) + 1 passes. */
  lemma WindowBound(times: seq<nat>, gap: nat, lo: nat, T: nat)
    requires Spaced(times, gap) && gap > 0
    ensures CountIn(times, lo, lo + T) <= T / gap + 1
  {
    WindowSpan(times, gap, lo, lo + T);
    var n := CountIn(times, lo, lo + T);
    if n > 0 {
      TimesIsProduct(n - 1, gap);
      QuotientBound(n - 1, gap, T);
    }
  }

  lemma QuotientBound(k: nat, gap: nat, T: nat)
    requires gap > 0 && k * gap <= T
    ensures k <= T / gap
  {
    DivFacts(T, gap);
    if k > T / gap { MulLe(gap, T / gap + 1, k); }
  }

  /** Appending a time at least a gap after the last keeps a sequence spaced. */
  lemma SpacedExtends(times: seq<nat>, gap: nat, t: nat)
    requires Spaced(times, gap) && (times != [] ==> times[|times| - 1] + gap <= t)
    ensures Spaced(times + [t], gap)
  {
    var xs := times + [t];
    forall i: nat ensures SpacedAt(xs, gap, i) { assert SpacedAt(times, gap, i); }
  }

  // ------------------------------------------------------------------- the two gates

  /** The test both gates make: closed while the last pass is too recent; 0 means never. */
  predicate GateOpen(interval: nat, last: nat, now: nat) {
    interval == 0 || last == 0 || Sub64(now, last) >= interval
  }

  /** The subscriber's read gate. It is charged when a read gets through, whatever the read then finds.
      History: passes, the times it let a read through; accepted, those of reads that returned a frame. */
  class ReadGate {
    var interval: nat
    var last: nat
    var throttled: nat
    ghost var passes: seq<nat>
    ghost var accepted: seq<nat>

    /** A gate without a limit never closes and keeps no time. */
    ghost predicate Valid(now: nat)
      reads this
    {
      && last <= now
      && Spaced(accepted, interval)
      && (interval == 0 ==> last == 0 && (accepted != [] ==> accepted[|accepted| - 1] <= now))
      && (interval > 0 ==> PassesOk())
    }

    ghost predicate PassesOk()
      reads this
    {
      && Spaced(passes, interval)
      && (last == 0 <==> passes == []) && (passes == [] ==> accepted == [])
      && (passes != [] ==> passes[|passes| - 1] == last)
      && (accepted != [] ==> accepted[|accepted| - 1] <= last)
    }

    constructor (interval: nat)
      ensures Valid(0) && this.interval == interval && accepted == [] && passes == []
    {
      this.interval := interval;
      last, throttled := 0, 0;
      passes, accepted := [], [];
    }

    /** One read_latest at time now; `found` is whether it would return a frame. */
    method Read(now: nat, found: bool) returns (through: bool)
      requires 0 < now < TWO64 && Valid(now)
      modifies this
      ensures Valid(now) && interval == old(interval)
      ensures through <==> interval == 0 || old(last) == 0 || now - old(last) >= interval
      ensures last == if through && interval > 0 then now else old(last)
      ensures throttled == old(throttled) + (if through then 0 else 1)
      ensures passes == if through then old(passes) + [now] else old(passes)
      ensures accepted == if through && found then old(accepted) + [now] else old(accepted)
    {
      if interval > 0 {
        if !GateOpen(interval, last, now) {
          throttled := throttled + 1;
          return false;
        }
        SpacedExtends(passes, interval, now);
        last := now;
      }
      SpacedExtends(accepted, interval, now);
      passes := passes + [now];
      if found { accepted := accepted + [now]; }
      return true;
    }

    /** Accepted reads in any window of length T, over the whole life of a gate with a limit. */
    lemma ReadsInWindow(now: nat, lo: nat, T: nat)
      requires Valid(now) && interval > 0
      ensures CountIn(accepted, lo, lo + T) <= T / interval + 1
    {
      WindowBound(accepted, interval, lo, T);
    }
  }
}

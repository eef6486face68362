/** Machine words: 64-bit wrap-around, bitwise `and`, and the power-of-two facts the
    command ring relies on. Naturals are unbounded; wrapping is written out. */
module Words {

  const TWO32: nat := 0x1_0000_0000
  const TWO64: nat := 0x1_0000_0000_0000_0000

  type Byte = b: nat | b < 256 witness 0

  datatype Option<+T> = None | Some(value: T)

  function Add64(a: nat, b: nat): nat { (a + b) % TWO64 }

  /** Unsigned 64-bit subtraction: wraps instead of going negative. */
  function Sub64(a: nat, b: nat): (r: nat)
    ensures r < TWO64
    ensures b <= a < TWO64 ==> r == a - b
  {
    (a - b) % TWO64
  }

  /** Unsigned 64-bit product; Times is multiplication, see TimesIsProduct. */
  function Mul64(a: nat, b: nat): nat { Times(a, b) % TWO64 }

  function Pow2(k: nat): (p: nat)
    ensures p >= 1
  {
    if k == 0 then 1 else 2 * Pow2(k - 1)
  }

  /** Bitwise `and` of two unsigned numbers. */
  function And(a: nat, b: nat): (r: nat)
    decreases a
  {
    if a == 0 || b == 0 then 0 else (a % 2) * (b % 2) + 2 * And(a / 2, b / 2)
  }

  lemma {:induction false} AndSelf(a: nat)
    ensures And(a, a) == a
  {
    if a != 0 { AndSelf(a / 2); }
  }

  lemma {:induction false} AndIsCommutative(a: nat, b: nat)
    ensures And(a, b) == And(b, a)
  {
    if a != 0 && b != 0 { AndIsCommutative(a / 2, b / 2); }
  }

  /** The test `(c & (c - 1)) == 0` on a nonzero c accepts exactly the powers of two. */
  lemma {:induction false} PowerOfTwoTest(c: nat)
    requires c != 0
    ensures And(c, c - 1) == 0 <==> exists k: nat :: c == Pow2(k)
  {
    if c == 1 {
      assert c == Pow2(0);
    } else if c % 2 == 0 {
      PowerOfTwoTest(c / 2);
      assert (c - 1) / 2 == c / 2 - 1 && (c - 1) % 2 == 1;
      assert And(c, c - 1) == 2 * And(c / 2, c / 2 - 1);
      if And(c, c - 1) == 0 {
        var k: nat :| c / 2 == Pow2(k);
        assert c == Pow2(k + 1);
      }
      if k: nat :| c == Pow2(k) {
        var half: nat := k - 1;
        assert Pow2(k) == 2 * Pow2(half);
        assert c / 2 == Pow2(half);
        assert And(c / 2, c / 2 - 1) == 0;
      }
    } else {
      AndSelf(c / 2);
      assert (c - 1) / 2 == c / 2 && (c - 1) % 2 == 0;
      assert And(c, c - 1) == 2 * (c / 2);
      forall k: nat ensures c != Pow2(k) { Pow2Parity(k); }
    }
  }

  lemma Pow2Parity(k: nat)
    ensures Pow2(k) == 1 || Pow2(k) % 2 == 0
  {
  }

  /** Masking with an odd number keeps the last bit. */
  lemma AndOdd(x: nat, m: nat)
    requires m >= 1
    ensures And(x, 2 * m - 1) == x % 2 + 2 * And(x / 2, m - 1)
  {
    assert (2 * m - 1) / 2 == m - 1 && (2 * m - 1) % 2 == 1;
  }

  /** Masking with a power of two minus one is the remainder. */
  lemma {:induction false} MaskIsMod(x: nat, k: nat)
    ensures And(x, Pow2(k) - 1) == x % Pow2(k)
    decreases k
  {
    if k > 0 {
      MaskIsMod(x / 2, k - 1);
      AndOdd(x, Pow2(k - 1));
      ModDouble(x, Pow2(k - 1));
    }
  }

  lemma ModDouble(x: nat, m: nat)
    requires m >= 1
    ensures x % (2 * m) == x % 2 + 2 * ((x / 2) % m)
  {
    var q, r := (x / 2) / m, (x / 2) % m;
    assert x == (2 * m) * q + (x % 2 + 2 * r);
    ModUnique(x, 2 * m, q, x % 2 + 2 * r);
  }

  lemma MulLe(n: nat, a: int, b: int)
    requires a <= b
    ensures n * a <= n * b
  {
  }

  /** Quotient and remainder are unique. */
  lemma ModUnique(x: nat, n: nat, q: nat, r: nat)
    requires n >= 1 && r < n && x == n * q + r
    ensures x % n == r && x / n == q
  {
    var q' := x / n;
    assert x == n * q' + x % n;
    if q' < q { MulLe(n, q' + 1, q); }
    if q < q' { MulLe(n, q + 1, q'); }
  }

  lemma {:induction false} Pow2Add(a: nat, b: nat)
    ensures Pow2(a + b) == Pow2(a) * Pow2(b)
    decreases a
  {
    if a != 0 {
      Pow2Add(a - 1, b);
      MulAssoc(2, Pow2(a - 1), Pow2(b));
    }
  }

  lemma {:induction false} Pow2Monotone(a: nat, b: nat)
    requires a <= b
    ensures Pow2(a) <= Pow2(b)
    decreases b - a
  {
    if a < b { Pow2Monotone(a, b - 1); }
  }

  lemma Pow2Is64()
    ensures Pow2(32) == TWO32 && Pow2(64) == TWO64
  {
    assert Pow2(8) == 256;
    Pow2Add(8, 8);
    Pow2Add(16, 16);
    Pow2Add(32, 32);
  }

  /** Reducing modulo a multiple of n first does not change the remainder modulo n. */
  lemma ModOfMod(x: nat, n: nat, m: nat, w: nat)
    requires n >= 1 && m >= 1 && w == n * m
    ensures (x % w) % n == x % n
  {
    var q, r := x / w, x % w;
    DivFacts(x, w);
    DivFacts(r, n);
    MulAssoc(n, m, q);
    MulAdd(n, m * q, r / n);
    ModUnique(x, n, m * q + r / n, r % n);
  }

  lemma DivFacts(x: nat, n: nat)
    requires n >= 1
    ensures x == n * (x / n) + x % n && 0 <= x % n < n && x / n >= 0
  {
  }

  lemma MulAssoc(a: nat, b: nat, c: nat)
    ensures (a * b) * c == a * (b * c)
  {
  }

  lemma MulAdd(a: nat, b: int, c: int)
    ensures a * (b + c) == a * b + a * c
  {
  }

  lemma ModAddN(b: nat, n: nat)
    requires n >= 1
    ensures (b + n) % n == b % n
  {
    ModUnique(b + n, n, b / n + 1, b % n);
  }

  /** The product n * size, as n repeated steps of `size`; see TimesIsProduct. Address arithmetic
      uses this form so that its proofs stay linear. */
  function Times(n: nat, size: nat): nat {
    if n == 0 then 0 else Times(n - 1, size) + size
  }

  lemma {:induction false} TimesIsProduct(n: nat, size: nat)
    ensures Times(n, size) == n * size
  {
    if n != 0 {
      TimesIsProduct(n - 1, size);
      MulAdd(size, n - 1, 1);
    }
  }

  /** Items laid out at a fixed stride: item i ends before item j > i starts. */
  lemma {:induction false} TimesStep(i: nat, j: nat, size: nat)
    requires i < j
    ensures Times(i, size) + size <= Times(j, size)
    decreases j
  {
    if i < j - 1 { TimesStep(i, j - 1, size); }
  }

  lemma {:induction false} TimesAligned(n: nat, size: nat)
    requires size % 64 == 0
    ensures Times(n, size) % 64 == 0
  {
    if n != 0 { TimesAligned(n - 1, size); }
  }

  lemma {:induction false} TimesBound(n: nat, m: nat, size: nat, limit: nat)
    requires n <= m && size <= limit
    ensures Times(n, size) <= Times(m, limit)
    ensures n >= 1 ==> size <= Times(n, size)
    decreases m
  {
    if n == m {
      if n != 0 { TimesBound(n - 1, m - 1, size, limit); }
    } else {
      TimesBound(n, m - 1, size, limit);
    }
  }

  /** b modulo n, the place of item b in a ring of n cells, by repeated subtraction so that proofs stay
      linear; see SlotOfIsMod. */
  function SlotOf(n: nat, b: nat): (j: nat)
    requires n >= 1
    ensures j < n
  {
    if b < n then b else SlotOf(n, b - n)
  }

  lemma {:induction false} SlotOfIsMod(n: nat, b: nat)
    requires n >= 1
    ensures SlotOf(n, b) == b % n
    decreases b
  {
    if b >= n {
      SlotOfIsMod(n, b - n);
      ModAddN(b - n, n);
    }
  }

  /** Advancing the place by one, modulo the ring size. */
  lemma {:induction false} NextSlot(n: nat, b: nat)
    requires n >= 2
    ensures SlotOf(n, SlotOf(n, b) + 1) == SlotOf(n, b + 1)
    decreases b
  {
    if b >= n { NextSlot(n, b - n); }
  }

  /** Items less than a full turn apart use different cells; a full turn apart, the same. */
  lemma {:induction false} SlotsDiffer(n: nat, b: nat, c: nat)
    requires n >= 1 && b < c
    ensures c < b + n ==> SlotOf(n, b) != SlotOf(n, c)
    ensures c == b + n ==> SlotOf(n, b) == SlotOf(n, c)
    decreases b
  {
    if b >= n { SlotsDiffer(n, b - n, c - n); }
  }

  /** A power of two that fits 32 bits divides the 64-bit modulus, so ring indices agree
      across the wrap of the counters. */
  lemma MaskAcrossWrap(x: nat, slots: nat)
    requires 1 <= slots < TWO32 && And(slots, slots - 1) == 0
    ensures And(x % TWO64, slots - 1) == x % slots
  {
    PowerOfTwoTest(slots);
    var k: nat :| slots == Pow2(k);
    Pow2Is64();
    if k >= 32 { Pow2Monotone(32, k); }
    Pow2Add(k, 64 - k);
    MaskIsMod(x % TWO64, k);
    ModOfMod(x, slots, Pow2(64 - k), TWO64);
  }

  /** The cell index the ring code computes is the place of item x in the ring. */
  lemma MaskIsSlot(x: nat, slots: nat)
    requires 1 <= slots < TWO32 && And(slots, slots - 1) == 0
    ensures And(x % TWO64, slots - 1) == SlotOf(slots, x)
  {
    MaskAcrossWrap(x, slots);
    SlotOfIsMod(slots, x);
  }

  /** Wrapped counters differ by the exact distance, whatever the number of wraps. */
  lemma SubAcrossWrap(h: nat, t: nat)
    requires t <= h < t + TWO64
    ensures Sub64(h % TWO64, t % TWO64) == h - t
    ensures h % TWO64 == t % TWO64 <==> h == t
  {
  }
}

/** The view canvas of the multiview producer: BGRA pixels written in place. */
module Canvas {
  import opened Words

  datatype Pixel = Pixel(b: Byte, g: Byte, r: Byte, a: Byte)

  /** A canvas of w by h pixels, four bytes each. */
  predicate Fits(canvas: seq<Byte>, w: nat, h: nat) { |canvas| == 4 * Times(h, w) }

  function Offset(w: nat, x: nat, y: nat): nat { 4 * (Times(y, w) + x) }

  /** The pixel at column x of row y, if it is inside the canvas. */
  function PixelAt(canvas: seq<Byte>, w: nat, x: nat, y: nat): Option<Pixel> {
    var k := Offset(w, x, y);
    if x < w && k + 4 <= |canvas| then Some(Pixel(canvas[k], canvas[k + 1], canvas[k + 2], canvas[k + 3])) else None
  }

  lemma InBounds(w: nat, h: nat, x: nat, y: nat)
    requires x < w && y < h
    ensures Offset(w, x, y) + 4 <= 4 * Times(h, w)
  {
    TimesStep(y, h, w);
  }

  /** Different pixels do not overlap. */
  lemma PixelsApart(w: nat, x: nat, y: nat, x': nat, y': nat)
    requires x < w && x' < w && (x != x' || y != y')
    ensures Offset(w, x, y) + 4 <= Offset(w, x', y') || Offset(w, x', y') + 4 <= Offset(w, x, y)
  {
    if y < y' { TimesStep(y, y', w); } else if y' < y { TimesStep(y', y, w); }
  }

  method SetPixel(canvas: array<Byte>, w: nat, h: nat, x: nat, y: nat, px: Pixel)
    requires Fits(canvas[..], w, h) && x < w && y < h
    modifies canvas
    ensures Fits(canvas[..], w, h)
    ensures forall x', y' | 0 <= x' < w && 0 <= y' < h ::
              PixelAt(canvas[..], w, x', y') ==
              if x' == x && y' == y then Some(px) else PixelAt(old(canvas[..]), w, x', y')
  {
    InBounds(w, h, x, y);
    ghost var was := canvas[..];
    var k := Offset(w, x, y);
    canvas[k], canvas[k + 1], canvas[k + 2], canvas[k + 3] := px.b, px.g, px.r, px.a;
    forall x', y' | 0 <= x' < w && 0 <= y' < h
      ensures PixelAt(canvas[..], w, x', y') == if x' == x && y' == y then Some(px) else PixelAt(was, w, x', y')
    {
      InBounds(w, h, x', y');
      if x' != x || y' != y { PixelsApart(w, x, y, x', y'); }
    }
  }

  // -------------------------------------------------------------------- regenerate

  function Checker(x: nat, y: nat, size: nat, a: Pixel, b: Pixel): Pixel
    requires size >= 1
  {
    if (x / size + y / size) % 2 == 0 then a else b
  }

  /** The square in the corner has the first colour, and one square further in either direction the two
      colours change places: this determines the pattern. */
  lemma CheckerAlternates(x: nat, y: nat, size: nat, a: Pixel, b: Pixel)
    requires size >= 1
    ensures x < size && y < size ==> Checker(x, y, size, a, b) == a
    ensures Checker(x + size, y, size, a, b) == Checker(x, y + size, size, a, b) == Checker(x, y, size, b, a)
  {
    NextSquare(x, size);
    NextSquare(y, size);
  }

  lemma NextSquare(x: nat, size: nat)
    requires size >= 1
    ensures (x + size) / size == x / size + 1
  {
    DivFacts(x, size);
    ModUnique(x + size, size, x / size + 1, x % size);
  }

  /** Overwrites the whole canvas with a checkerboard. */
  method Regenerate(canvas: array<Byte>, w: nat, h: nat, size: nat, a: Pixel, b: Pixel)
    requires Fits(canvas[..], w, h) && size >= 1
    modifies canvas
    ensures Fits(canvas[..], w, h)
    ensures forall x, y | 0 <= x < w && 0 <= y < h :: PixelAt(canvas[..], w, x, y) == Some(Checker(x, y, size, a, b))
  {
    var y := 0;
    while y < h
      invariant y <= h && Fits(canvas[..], w, h)
      invariant forall x', y' | 0 <= x' < w && 0 <= y' < y ::
                  PixelAt(canvas[..], w, x', y') == Some(Checker(x', y', size, a, b))
    {
      var x := 0;
      while x < w
        invariant x <= w && Fits(canvas[..], w, h)
        invariant forall x', y' | 0 <= x' < w && 0 <= y' < y ::
                    PixelAt(canvas[..], w, x', y') == Some(Checker(x', y', size, a, b))
        invariant forall x' | 0 <= x' < x :: PixelAt(canvas[..], w, x', y) == Some(Checker(x', y, size, a, b))
      {
        SetPixel(canvas, w, h, x, y, Checker(x, y, size, a, b));
        x := x + 1;
      }
      y := y + 1;
    }
  }

  // ---------------------------------------------------------------------- draw_mark

  const RADIUS: int := 4

  /** Pixel (x', y') belongs to the mark centred on (x, y), if that centre is on the canvas at all. */
  predicate Marked(w: nat, h: nat, x: int, y: int, x': int, y': int) {
    && 0 <= x < w && 0 <= y < h
    && x - RADIUS <= x' <= x + RADIUS && y - RADIUS <= y' <= y + RADIUS
  }

  /** A square mark of radius 4, clipped to the canvas; nothing else changes. */
  method DrawMark(canvas: array<Byte>, w: nat, h: nat, x: int, y: int, px: Pixel)
    requires Fits(canvas[..], w, h)
    modifies canvas
    ensures Fits(canvas[..], w, h)
    ensures forall x', y' | 0 <= x' < w && 0 <= y' < h ::
              PixelAt(canvas[..], w, x', y') ==
              if Marked(w, h, x, y, x', y') then Some(px) else PixelAt(old(canvas[..]), w, x', y')
  {
    if x < 0 || y < 0 || x >= w || y >= h { return; }
    ghost var was := canvas[..];
    var dy := -RADIUS;
    while dy <= RADIUS
      invariant -RADIUS <= dy <= RADIUS + 1 && Fits(canvas[..], w, h)
      invariant forall x', y' | 0 <= x' < w && 0 <= y' < h ::
                  PixelAt(canvas[..], w, x', y') ==
                  if Marked(w, h, x, y, x', y') && y' < y + dy then Some(px) else PixelAt(was, w, x', y')
    {
      if 0 <= y + dy < h {
        MarkRow(canvas, w, h, x, y + dy, px);
      }
      dy := dy + 1;
    }
  }

  /** One row of the mark. */
  method MarkRow(canvas: array<Byte>, w: nat, h: nat, x: int, py: nat, px: Pixel)
    requires Fits(canvas[..], w, h) && 0 <= x < w && py < h
    modifies canvas
    ensures Fits(canvas[..], w, h)
    ensures forall x', y' | 0 <= x' < w && 0 <= y' < h ::
              PixelAt(canvas[..], w, x', y') ==
              if y' == py && x - RADIUS <= x' <= x + RADIUS then Some(px) else PixelAt(old(canvas[..]), w, x', y')
  {
    ghost var was := canvas[..];
    var dx := -RADIUS;
    while dx <= RADIUS
      invariant -RADIUS <= dx <= RADIUS + 1 && Fits(canvas[..], w, h)
      invariant forall x', y' | 0 <= x' < w && 0 <= y' < h ::
                  PixelAt(canvas[..], w, x', y') ==
                  if y' == py && x - RADIUS <= x' < x + dx then Some(px) else PixelAt(was, w, x', y')
    {
      if 0 <= x + dx < w {
        SetPixel(canvas, w, h, x + dx, py, px);
      }
      dx := dx + 1;
    }
  }
}

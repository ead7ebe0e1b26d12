// The raw RGBA buffer of badgeGraphicImageProcessor.ts: four bytes a pixel, row by row.
module Pixels {

  type Byte = b: int | 0 <= b < 256

  datatype Rgb = Rgb(r: int, g: int, b: int)

  datatype Point = Point(x: int, y: int)

  // A buffer of width w and height h, both at least one.
  predicate Raw(s: seq<Byte>, w: nat, h: nat) {
    w >= 1 && h >= 1 && |s| == 4 * (w * h)
  }

  predicate InGrid(w: nat, h: nat, p: Point) {
    0 <= p.x < w && 0 <= p.y < h
  }

  predicate OnBorder(w: nat, h: nat, p: Point) {
    InGrid(w, h, p) && (p.x == 0 || p.y == 0 || p.x == w - 1 || p.y == h - 1)
  }

  predicate Adjacent(p: Point, q: Point) {
    || (p.y == q.y && (p.x == q.x + 1 || q.x == p.x + 1))
    || (p.x == q.x && (p.y == q.y + 1 || q.y == p.y + 1))
  }

  // Raster order, the order in which the row and column loops visit pixels.
  predicate Before(p: Point, q: Point) {
    p.y < q.y || (p.y == q.y && p.x < q.x)
  }

  function Index(w: nat, h: nat, p: Point): (i: nat)
    requires InGrid(w, h, p)
    ensures i < w * h
  {
    IndexInRange(w, h, p);
    p.y * w + p.x
  }

  lemma IndexInRange(w: nat, h: nat, p: Point)
    requires InGrid(w, h, p)
    ensures 0 <= p.y * w + p.x < w * h
  {
    MulMonotone(0, p.y, w);
    MulMonotone(p.y + 1, h, w);
    assert (p.y + 1) * w == p.y * w + w;
  }

  function PixelOf(w: nat, i: nat): Point
    requires w >= 1
  {
    Point(i % w, i / w)
  }

  lemma PixelOfIndex(w: nat, h: nat, p: Point)
    requires InGrid(w, h, p)
    ensures PixelOf(w, Index(w, h, p)) == p
  {
    DivModUnique(w, p.y, p.x);
  }

  lemma DivModUnique(w: nat, y: nat, x: nat)
    requires x < w
    ensures (y * w + x) / w == y && (y * w + x) % w == x
  {
    var i := y * w + x;
    var q, r := i / w, i % w;
    assert i == q * w + r;
    if q < y {
      MulMonotone(q + 1, y, w);
    } else if q > y {
      MulMonotone(y + 1, q, w);
    }
  }

  lemma MulMonotone(a: nat, b: nat, w: nat)
    requires a <= b
    ensures a * w <= b * w
  {
  }

  lemma IndexOfPixel(w: nat, h: nat, i: nat)
    requires w >= 1 && i < w * h
    ensures InGrid(w, h, PixelOf(w, i)) && Index(w, h, PixelOf(w, i)) == i
  {
    var q, r := i / w, i % w;
    assert i == q * w + r;
    if q >= h {
      assert q * w >= h * w;
    }
  }

  function ColourAt(s: seq<Byte>, w: nat, h: nat, p: Point): Rgb
    requires Raw(s, w, h) && InGrid(w, h, p)
  {
    var i := Index(w, h, p);
    Rgb(s[i * 4], s[i * 4 + 1], s[i * 4 + 2])
  }

  function AlphaAt(s: seq<Byte>, w: nat, h: nat, p: Point): Byte
    requires Raw(s, w, h) && InGrid(w, h, p)
  {
    s[Index(w, h, p) * 4 + 3]
  }

  // Below half alpha, which is what both the fringe pass and the ratios call transparent.
  predicate Transparent(s: seq<Byte>, w: nat, h: nat, p: Point)
    requires Raw(s, w, h) && InGrid(w, h, p)
  {
    AlphaAt(s, w, h, p) < 128
  }

  // The buffer s with the alpha byte of every pixel of c zeroed and nothing else touched.
  ghost function Clear(s: seq<Byte>, w: nat, h: nat, c: iset<Point>): (t: seq<Byte>)
    requires Raw(s, w, h)
    ensures Raw(t, w, h)
  {
    seq(|s|, k requires 0 <= k < |s| => if k % 4 == 3 && PixelOf(w, k / 4) in c then 0 else s[k])
  }

  lemma ClearAt(s: seq<Byte>, w: nat, h: nat, c: iset<Point>, p: Point)
    requires Raw(s, w, h) && InGrid(w, h, p)
    ensures AlphaAt(Clear(s, w, h, c), w, h, p) == if p in c then 0 else AlphaAt(s, w, h, p)
    ensures ColourAt(Clear(s, w, h, c), w, h, p) == ColourAt(s, w, h, p)
  {
    var i := Index(w, h, p);
    PixelOfIndex(w, h, p);
    assert (i * 4 + 3) % 4 == 3 && (i * 4 + 3) / 4 == i;
    assert (i * 4) % 4 == 0 && (i * 4 + 1) % 4 == 1 && (i * 4 + 2) % 4 == 2;
  }

  // Zeroing one alpha byte extends the cleared set by that pixel.
  lemma ClearOneMore(s: seq<Byte>, w: nat, h: nat, c: iset<Point>, p: Point)
    requires Raw(s, w, h) && InGrid(w, h, p)
    ensures Clear(s, w, h, c + iset{p}) == Clear(s, w, h, c)[Index(w, h, p) * 4 + 3 := 0]
  {
    var j := Index(w, h, p) * 4 + 3;
    PixelOfIndex(w, h, p);
    var a, b := Clear(s, w, h, c + iset{p}), Clear(s, w, h, c)[j := 0];
    forall k | 0 <= k < |s|
      ensures a[k] == b[k]
    {
      if k % 4 == 3 && k != j {
        assert k == k / 4 * 4 + 3 && k / 4 < w * h;
        IndexOfPixel(w, h, k / 4);
      }
    }
  }

  lemma ClearNothing(s: seq<Byte>, w: nat, h: nat)
    requires Raw(s, w, h)
    ensures Clear(s, w, h, iset{}) == s
  {
  }

  // Only the pixels of the grid matter to what is cleared.
  lemma ClearSame(s: seq<Byte>, w: nat, h: nat, c: iset<Point>, d: iset<Point>)
    requires Raw(s, w, h)
    requires forall p :: InGrid(w, h, p) ==> (p in c <==> p in d)
    ensures Clear(s, w, h, c) == Clear(s, w, h, d)
  {
    forall k | 0 <= k < |s|
      ensures Clear(s, w, h, c)[k] == Clear(s, w, h, d)[k]
    {
      if k % 4 == 3 {
        assert k / 4 < w * h;
        IndexOfPixel(w, h, k / 4);
      }
    }
  }
}

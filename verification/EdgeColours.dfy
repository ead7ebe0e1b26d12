// What the reference colours of an image say about its edge: where the samples stand, what the median of a channel is,
// and what happens to a colour that most of the edge has.
module EdgeColours {
  import opened Pixels
  import opened FloodFill
  import opened FringeHalo
  import opened BackgroundRemoval
  import P = Percentiles
  import Sorting

  // ----- the median -----

  lemma MedianSplits(values: seq<int>)
    requires values != []
    ensures 2 * P.AtMost(values, Median(values) as real) > |values|
    ensures 2 * P.AtLeast(values, Median(values) as real) >= |values|
  {
    var sorted, i := Sorting.Sorted(values), |values| / 2;
    var m := Median(values);
    assert m == sorted[i];
    hide Sorting.Sorted;
    P.SortedCounts(values, m as real);
    P.AscendingCounts(sorted, m as real, i);
  }

  // The median is the one value with more than half of the sample at or below it and at least half at or above.
  lemma MedianIff(values: seq<int>, m: int)
    requires values != []
    ensures Median(values) == m <==>
      2 * P.AtMost(values, m as real) > |values| && 2 * P.AtLeast(values, m as real) >= |values|
  {
    hide Median;
    MedianSplits(values);
    var median := Median(values);
    if m < median {
      P.ApartCounts(values, m, median);
    } else if m > median {
      P.ApartCounts(values, median, m);
    }
  }

  // ----- a colour that most of the edge has -----

  function Held(colors: seq<Rgb>, c: Rgb): nat {
    if colors == [] then 0 else (if colors[0] == c then 1 else 0) + Held(colors[1..], c)
  }

  lemma {:induction false} HeldOnBothSides(colors: seq<Rgb>, c: Rgb, values: seq<int>, v: int)
    requires |values| == |colors| && forall k :: 0 <= k < |colors| && colors[k] == c ==> values[k] == v
    ensures P.AtMost(values, v as real) >= Held(colors, c) && P.AtLeast(values, v as real) >= Held(colors, c)
  {
    if colors != [] {
      HeldOnBothSides(colors[1..], c, values[1..], v);
    }
  }

  // A colour held by more than half of the samples is their median in every channel.
  lemma MajorityIsMedian(colors: seq<Rgb>, c: Rgb)
    requires 2 * Held(colors, c) > |colors|
    ensures MedianEdgeColor(colors) == c
  {
    hide Median;
    var reds := seq(|colors|, k requires 0 <= k < |colors| => colors[k].r);
    var greens := seq(|colors|, k requires 0 <= k < |colors| => colors[k].g);
    var blues := seq(|colors|, k requires 0 <= k < |colors| => colors[k].b);
    assert MedianEdgeColor(colors) == Rgb(Median(reds), Median(greens), Median(blues));
    hide MedianEdgeColor;
    HeldOnBothSides(colors, c, reds, c.r);
    HeldOnBothSides(colors, c, greens, c.g);
    HeldOnBothSides(colors, c, blues, c.b);
    hide Held;
    MedianIff(reds, c.r);
    MedianIff(greens, c.g);
    MedianIff(blues, c.b);
  }

  // A walk from the border over pixels whose channels differ by no more than so much in sum from one colour.
  ghost predicate ShadeWalk(s: seq<Byte>, w: nat, h: nat, c: Rgb, shade: nat, path: seq<Point>)
    requires Raw(s, w, h)
  {
    && |path| > 0 && OnBorder(w, h, path[0])
    && (forall k :: 0 <= k < |path| ==> InGrid(w, h, path[k]) && Apart(ColourAt(s, w, h, path[k]), c, shade))
    && (forall k :: 0 < k < |path| ==> Adjacent(path[k - 1], path[k]))
  }

  // Whatever the artwork: of a colour that most edge samples have, the shades within 48 are cleared by the first trial as
  // far as they reach in from the border, those within 72 by the second, and those within 96 by the third.
  lemma MajorityCleared(s: seq<Byte>, w: nat, h: nat, c: Rgb, k: nat, path: seq<Point>)
    requires Raw(s, w, h) && 2 * Held(EdgeSamples(s, w, h), c) > |EdgeSamples(s, w, h)|
    requires k < 3 && ShadeWalk(s, w, h, c, 48 + 24 * k, path)
    ensures AlphaAt(Trial(s, w, h, k), w, h, path[|path| - 1]) == 0
  {
    hide MedianEdgeColor;
    hide Held;
    hide Raw;
    hide ColourAt;
    MajorityIsMedian(EdgeSamples(s, w, h), c);
    var refs, p := References(s, w, h), path[|path| - 1];
    assert refs[0] == c;
    hide EdgeSamples;
    hide References;
    WalkIsBackdrop(s, w, h, c, refs, Tolerance(k), path);
    hide ShadeWalk;
    FilledIsCleared(s, w, h, refs, Tolerance(k), p);
    hide TrialWith;
  }

  lemma WalkIsBackdrop(s: seq<Byte>, w: nat, h: nat, c: Rgb, refs: seq<Rgb>, tolerance: nat, path: seq<Point>)
    requires Raw(s, w, h) && |refs| > 0 && refs[0] == c && ShadeWalk(s, w, h, c, tolerance, path)
    ensures path[|path| - 1] in EdgeBackdrop(s, w, h, refs, tolerance) && InGrid(w, h, path[|path| - 1])
  {
    hide Raw;
    hide ColourAt;
    hide Adjacent;
    hide Apart;
    var b := Backdrop(s, w, h, refs, tolerance);
    forall k | 0 <= k < |path|
      ensures path[k] in b
    {
      var d := ColourAt(s, w, h, path[k]);
      ApartIff(d, c, tolerance);
      NearIsNeutral(d, refs, tolerance);
    }
    hide IsNeutral;
    assert BorderPath(w, h, b, path);
  }

  lemma NearIsNeutral(c: Rgb, refs: seq<Rgb>, tolerance: int)
    requires |refs| > 0 && ColourDistance(c, refs[0]) <= tolerance
    ensures IsNeutral(c, refs, tolerance)
  {
  }

  // What the fill reaches stays clear through the fringe passes.
  lemma FilledIsCleared(s: seq<Byte>, w: nat, h: nat, refs: seq<Rgb>, tolerance: nat, p: Point)
    requires Raw(s, w, h) && InGrid(w, h, p) && p in EdgeBackdrop(s, w, h, refs, tolerance)
    ensures AlphaAt(TrialWith(s, w, h, refs, tolerance), w, h, p) == 0
  {
    hide EdgeBackdrop;
    hide AlphaAt;
    hide ColourAt;
    hide Raw;
    var e := EdgeBackdrop(s, w, h, refs, tolerance);
    ClearAt(s, w, h, e, p);
    var filled := Clear(s, w, h, e);
    ClearAt(filled, w, h, EatenBy(filled, w, h, PASSES), p);
    hide Clear;
    hide EatenBy;
  }

  // ----- the opaque share -----

  // The pixels counted are those that are not transparent, each once.
  lemma OpaqueIff(s: seq<Byte>, w: nat, h: nat)
    requires Raw(s, w, h)
    ensures forall p :: InGrid(w, h, p) ==> (Index(w, h, p) in OpaquePixels(s, w * h) <==> !Transparent(s, w, h, p))
    ensures forall i :: i in OpaquePixels(s, w * h) ==>
      0 <= i < w * h && InGrid(w, h, PixelOf(w, i)) && Index(w, h, PixelOf(w, i)) == i
    ensures Opaque(s, w, h) * (w * h) as real == |OpaquePixels(s, w * h)| as real
  {
    hide Index;
    forall i | i in OpaquePixels(s, w * h)
      ensures InGrid(w, h, PixelOf(w, i)) && Index(w, h, PixelOf(w, i)) == i
    {
      IndexOfPixel(w, h, i);
    }
  }

  // ----- what passes for backdrop -----

  // However the channels' differences are signed, they come to no more than d.
  predicate Apart(a: Rgb, b: Rgb, d: int) {
    var x, y, z := a.r - b.r, a.g - b.g, a.b - b.b;
    && x + y + z <= d && x + y - z <= d && x - y + z <= d && x - y - z <= d
    && -x + y + z <= d && -x + y - z <= d && -x - y + z <= d && -x - y - z <= d
  }

  lemma ApartIff(a: Rgb, b: Rgb, d: int)
    ensures ColourDistance(a, b) <= d <==> Apart(a, b, d)
  {
  }

  // No two channels differ by d or more.
  predicate Level(c: Rgb, d: int) {
    && c.r - c.g < d && c.g - c.r < d && c.r - c.b < d && c.b - c.r < d && c.g - c.b < d && c.b - c.g < d
  }

  // How much tint a backdrop may have, by brightness: below an average of 36, up to 165, up to 225, and above.
  function Tint(c: Rgb): int {
    var sum := c.r + c.g + c.b;
    if sum < 108 then 40 else if sum <= 495 then 0 else if sum <= 675 then 24 else 50
  }

  // A colour passes for backdrop near a reference colour, or with less tint than its brightness allows; and for a fringe
  // when it is brighter than 215 with channels less than 55 apart.
  lemma NeutralIff(c: Rgb, refs: seq<Rgb>, tolerance: int)
    ensures IsNeutral(c, refs, tolerance) <==>
      (exists k :: 0 <= k < |refs| && Apart(c, refs[k], tolerance)) || (Tint(c) > 0 && Level(c, Tint(c)))
    ensures IsFringe(c) <==> c.r + c.g + c.b > 645 && Level(c, 55)
  {
    forall k | 0 <= k < |refs|
      ensures ColourDistance(c, refs[k]) <= tolerance <==> Apart(c, refs[k], tolerance)
    {
      ApartIff(c, refs[k], tolerance);
    }
    hide Apart;
    hide ColourDistance;
    SpreadIff(c, 55);
    SpreadIff(c, 50);
    SpreadIff(c, 40);
    SpreadIff(c, 24);
    hide Spread;
    hide Level;
  }

  lemma SpreadIff(c: Rgb, d: int)
    ensures Spread(c) < d <==> d > 0 && Level(c, d)
  {
  }

  // ----- where the samples stand -----

  // n strides reach past the end of a side, n - 1 do not.
  predicate Covers(n: nat, step: nat, side: nat) {
    n > 0 && (n - 1) * step < side <= n * step
  }

  lemma {:induction false} RowSamplesAt(s: seq<Byte>, w: nat, h: nat, x: nat, k: nat)
    requires Raw(s, w, h) && x + k * Step(w) < w
    ensures var row := RowSamples(s, w, h, x);
            && 2 * k + 1 < |row|
            && row[2 * k] == ColourAt(s, w, h, Point(x + k * Step(w), 0))
            && row[2 * k + 1] == ColourAt(s, w, h, Point(x + k * Step(w), h - 1))
    decreases k
  {
    hide ColourAt;
    if k > 0 {
      assert k * Step(w) == Step(w) + (k - 1) * Step(w);
      RowSamplesAt(s, w, h, x + Step(w), k - 1);
    }
  }

  lemma {:induction false} ColumnSamplesAt(s: seq<Byte>, w: nat, h: nat, y: nat, k: nat)
    requires Raw(s, w, h) && y + k * Step(h) < h
    ensures var column := ColumnSamples(s, w, h, y);
            && 2 * k + 1 < |column|
            && column[2 * k] == ColourAt(s, w, h, Point(0, y + k * Step(h)))
            && column[2 * k + 1] == ColourAt(s, w, h, Point(w - 1, y + k * Step(h)))
    decreases k
  {
    hide ColourAt;
    if k > 0 {
      assert k * Step(h) == Step(h) + (k - 1) * Step(h);
      ColumnSamplesAt(s, w, h, y + Step(h), k - 1);
    }
  }

  lemma {:induction false} RowSampleCount(s: seq<Byte>, w: nat, h: nat, n: nat, x: nat)
    requires Raw(s, w, h) && n > 0 && x + (n - 1) * Step(w) < w <= x + n * Step(w)
    ensures |RowSamples(s, w, h, x)| == 2 * n
    decreases n
  {
    hide ColourAt;
    hide Raw;
    if n > 1 {
      assert n * Step(w) == Step(w) + (n - 1) * Step(w) && (n - 1) * Step(w) == Step(w) + (n - 2) * Step(w);
      RowSampleCount(s, w, h, n - 1, x + Step(w));
    }
  }

  lemma {:induction false} ColumnSampleCount(s: seq<Byte>, w: nat, h: nat, m: nat, y: nat)
    requires Raw(s, w, h) && m > 0 && y + (m - 1) * Step(h) < h <= y + m * Step(h)
    ensures |ColumnSamples(s, w, h, y)| == 2 * m
    decreases m
  {
    hide ColourAt;
    hide Raw;
    if m > 1 {
      assert m * Step(h) == Step(h) + (m - 1) * Step(h) && (m - 1) * Step(h) == Step(h) + (m - 2) * Step(h);
      ColumnSampleCount(s, w, h, m - 1, y + Step(h));
    }
  }

  // The top and the bottom pixel of each stride along the width, and the left and the right one along the height.
  ghost predicate TopsAndBottoms(s: seq<Byte>, w: nat, h: nat, n: nat, colors: seq<Rgb>)
    requires Raw(s, w, h)
  {
    && |colors| == 2 * n
    && forall k: nat :: k < n && k * Step(w) < w ==>
         && colors[2 * k] == ColourAt(s, w, h, Point(k * Step(w), 0))
         && colors[2 * k + 1] == ColourAt(s, w, h, Point(k * Step(w), h - 1))
  }

  ghost predicate LeftsAndRights(s: seq<Byte>, w: nat, h: nat, m: nat, colors: seq<Rgb>)
    requires Raw(s, w, h)
  {
    && |colors| == 2 * m
    && forall k: nat :: k < m && k * Step(h) < h ==>
         && colors[2 * k] == ColourAt(s, w, h, Point(0, k * Step(h)))
         && colors[2 * k + 1] == ColourAt(s, w, h, Point(w - 1, k * Step(h)))
  }

  // With n strides along the width and m along the height: the tops and bottoms, then the lefts and rights.
  lemma SamplesStand(s: seq<Byte>, w: nat, h: nat, n: nat, m: nat)
    requires Raw(s, w, h) && Covers(n, Step(w), w) && Covers(m, Step(h), h)
    ensures var colors := EdgeSamples(s, w, h);
            && |colors| == 2 * n + 2 * m
            && TopsAndBottoms(s, w, h, n, colors[..2 * n]) && LeftsAndRights(s, w, h, m, colors[2 * n..])
  {
    hide RowSamples;
    hide ColumnSamples;
    hide Step;
    hide TopsAndBottoms;
    hide LeftsAndRights;
    RowSampleCount(s, w, h, n, 0);
    ColumnSampleCount(s, w, h, m, 0);
    var row, column := RowSamples(s, w, h, 0), ColumnSamples(s, w, h, 0);
    assert EdgeSamples(s, w, h) == row + column;
    assert (row + column)[..2 * n] == row && (row + column)[2 * n..] == column;
    hide EdgeSamples;
    RowStands(s, w, h, n);
    ColumnStands(s, w, h, m);
  }

  lemma RowStands(s: seq<Byte>, w: nat, h: nat, n: nat)
    requires Raw(s, w, h) && |RowSamples(s, w, h, 0)| == 2 * n
    ensures TopsAndBottoms(s, w, h, n, RowSamples(s, w, h, 0))
  {
    hide ColourAt;
    hide RowSamples;
    hide Step;
    forall k: nat | k < n && k * Step(w) < w
      ensures RowSamples(s, w, h, 0)[2 * k] == ColourAt(s, w, h, Point(k * Step(w), 0))
      ensures RowSamples(s, w, h, 0)[2 * k + 1] == ColourAt(s, w, h, Point(k * Step(w), h - 1))
    {
      RowSamplesAt(s, w, h, 0, k);
    }
  }

  lemma ColumnStands(s: seq<Byte>, w: nat, h: nat, m: nat)
    requires Raw(s, w, h) && |ColumnSamples(s, w, h, 0)| == 2 * m
    ensures LeftsAndRights(s, w, h, m, ColumnSamples(s, w, h, 0))
  {
    hide ColourAt;
    hide ColumnSamples;
    hide Step;
    forall k: nat | k < m && k * Step(h) < h
      ensures ColumnSamples(s, w, h, 0)[2 * k] == ColourAt(s, w, h, Point(0, k * Step(h)))
      ensures ColumnSamples(s, w, h, 0)[2 * k + 1] == ColourAt(s, w, h, Point(w - 1, k * Step(h)))
    {
      ColumnSamplesAt(s, w, h, 0, k);
    }
  }

  // A side of less than 80 pixels is sampled pixel by pixel.
  lemma ShortSides(side: nat)
    ensures Step(side) == 1 <==> side < 80
    ensures side >= 80 ==> Step(side) * 40 <= side < Step(side) * 40 + 40
  {
  }
}

// removeSolidBackground: the best of three trials, judged by how much of the edge and of the whole turned transparent.
module BackgroundRemoval {
  import opened Pixels
  import opened FloodFill
  import opened FringeHalo
  import Sorting

  // ----- reference colours -----

  function Median(values: seq<int>): int {
    if values == [] then 0 else Sorting.Sorted(values)[|values| / 2]
  }

  function MedianEdgeColor(colors: seq<Rgb>): Rgb {
    Rgb(Median(seq(|colors|, k requires 0 <= k < |colors| => colors[k].r)),
        Median(seq(|colors|, k requires 0 <= k < |colors| => colors[k].g)),
        Median(seq(|colors|, k requires 0 <= k < |colors| => colors[k].b)))
  }

  lemma MedianIsOneOf(values: seq<int>)
    requires values != []
    ensures Median(values) in values
  {
    var sorted := Sorting.Sorted(values);
    assert sorted[|values| / 2] in multiset(sorted);
  }

  lemma MedianAt(values: seq<int>) returns (k: nat)
    requires values != []
    ensures k < |values| && values[k] == Median(values)
  {
    hide Median;
    MedianIsOneOf(values);
    k :| k < |values| && values[k] == Median(values);
  }

  // Each channel of the median colour is that channel of some sample; the channels need not be of the same one.
  lemma MedianChannelsAreSampled(colors: seq<Rgb>)
    requires colors != []
    ensures exists k :: 0 <= k < |colors| && colors[k].r == MedianEdgeColor(colors).r
    ensures exists k :: 0 <= k < |colors| && colors[k].g == MedianEdgeColor(colors).g
    ensures exists k :: 0 <= k < |colors| && colors[k].b == MedianEdgeColor(colors).b
  {
    hide Median;
    var reds := seq(|colors|, k requires 0 <= k < |colors| => colors[k].r);
    var greens := seq(|colors|, k requires 0 <= k < |colors| => colors[k].g);
    var blues := seq(|colors|, k requires 0 <= k < |colors| => colors[k].b);
    assert MedianEdgeColor(colors) == Rgb(Median(reds), Median(greens), Median(blues));
    hide MedianEdgeColor;
    var r := MedianAt(reds);
    var g := MedianAt(greens);
    var b := MedianAt(blues);
    assert colors[r].r == reds[r] && colors[g].g == greens[g] && colors[b].b == blues[b];
  }

  function Step(side: nat): (r: nat)
    ensures r >= 1
  {
    if side / 40 > 1 then side / 40 else 1
  }

  ghost function RowSamples(s: seq<Byte>, w: nat, h: nat, x: nat): seq<Rgb>
    requires Raw(s, w, h)
    decreases w - x
  {
    if x >= w then []
    else [ColourAt(s, w, h, Point(x, 0)), ColourAt(s, w, h, Point(x, h - 1))] + RowSamples(s, w, h, x + Step(w))
  }

  ghost function ColumnSamples(s: seq<Byte>, w: nat, h: nat, y: nat): seq<Rgb>
    requires Raw(s, w, h)
    decreases h - y
  {
    if y >= h then []
    else [ColourAt(s, w, h, Point(0, y)), ColourAt(s, w, h, Point(w - 1, y))] + ColumnSamples(s, w, h, y + Step(h))
  }

  method SampleRows(rgba: array<Byte>, w: nat, h: nat) returns (colors: seq<Rgb>)
    requires Raw(rgba[..], w, h)
    ensures colors == RowSamples(rgba[..], w, h, 0)
  {
    colors := [];
    var x := 0;
    while x < w
      invariant colors + RowSamples(rgba[..], w, h, x) == RowSamples(rgba[..], w, h, 0)
    {
      var pair := [ColourAt(rgba[..], w, h, Point(x, 0)), ColourAt(rgba[..], w, h, Point(x, h - 1))];
      ghost var rest := RowSamples(rgba[..], w, h, x + Step(w));
      assert colors + (pair + rest) == (colors + pair) + rest;
      colors := colors + pair;
      x := x + Step(w);
    }
  }

  method SampleColumns(rgba: array<Byte>, w: nat, h: nat) returns (colors: seq<Rgb>)
    requires Raw(rgba[..], w, h)
    ensures colors == ColumnSamples(rgba[..], w, h, 0)
  {
    colors := [];
    var y := 0;
    while y < h
      invariant colors + ColumnSamples(rgba[..], w, h, y) == ColumnSamples(rgba[..], w, h, 0)
    {
      var pair := [ColourAt(rgba[..], w, h, Point(0, y)), ColourAt(rgba[..], w, h, Point(w - 1, y))];
      ghost var rest := ColumnSamples(rgba[..], w, h, y + Step(h));
      assert colors + (pair + rest) == (colors + pair) + rest;
      colors := colors + pair;
      y := y + Step(h);
    }
  }

  // The first four samples are always there, and the very first is the top-left pixel.
  method SampleEdgeColors(rgba: array<Byte>, w: nat, h: nat) returns (colors: seq<Rgb>)
    requires Raw(rgba[..], w, h)
    ensures colors == EdgeSamples(rgba[..], w, h)
  {
    var rows := SampleRows(rgba, w, h);
    var columns := SampleColumns(rgba, w, h);
    colors := rows + columns;
  }

  ghost function EdgeSamples(s: seq<Byte>, w: nat, h: nat): (colors: seq<Rgb>)
    requires Raw(s, w, h)
    ensures |colors| >= 4 && colors[0] == ColourAt(s, w, h, Point(0, 0))
  {
    RowSamples(s, w, h, 0) + ColumnSamples(s, w, h, 0)
  }

  ghost function References(s: seq<Byte>, w: nat, h: nat): (refs: seq<Rgb>)
    requires Raw(s, w, h)
    ensures |refs| >= 2 && refs[1] == ColourAt(s, w, h, Point(0, 0))
  {
    var colors := EdgeSamples(s, w, h);
    [MedianEdgeColor(colors)] + colors[..4]
  }

  // ----- ratios -----

  function Ratio(part: nat, whole: nat): real {
    if whole == 0 then 0.0 else part as real / whole as real
  }

  lemma RatioMonotone(a: nat, b: nat, n: nat)
    requires a <= b
    ensures 0.0 <= Ratio(a, n) <= Ratio(b, n)
  {
    if n > 0 {
      assert a as real / n as real >= 0.0;
      assert (b - a) as real / n as real >= 0.0;
    }
  }

  function AlphaByte(s: seq<Byte>, i: nat): Byte
    requires i * 4 + 3 < |s|
  {
    s[i * 4 + 3]
  }

  ghost function OpaquePixels(s: seq<Byte>, n: nat): set<int>
    requires n * 4 <= |s|
  {
    set i | 0 <= i < n && AlphaByte(s, i) >= 128
  }

  ghost function Opaque(s: seq<Byte>, w: nat, h: nat): real
    requires Raw(s, w, h)
  {
    Ratio(|OpaquePixels(s, w * h)|, w * h)
  }

  method OpaqueRatio(rgba: array<Byte>, w: nat, h: nat) returns (ratio: real)
    requires Raw(rgba[..], w, h)
    ensures ratio == Opaque(rgba[..], w, h)
  {
    var opaque_ := 0;
    var total := w * h;
    for i := 0 to total
      invariant opaque_ == |OpaquePixels(rgba[..], i)|
    {
      ghost var next := OpaquePixels(rgba[..], i + 1);
      if AlphaByte(rgba[..], i) >= 128 {
        assert next == OpaquePixels(rgba[..], i) + {i};
        opaque_ := opaque_ + 1;
      } else {
        assert next == OpaquePixels(rgba[..], i);
      }
    }
    ratio := Ratio(opaque_, total);
  }

  // The edge pixels in the order they are checked.
  ghost function TopAndBottom(h: nat, x: nat): seq<Point> {
    if x == 0 then [] else TopAndBottom(h, x - 1) + [Point(x - 1, 0)] + [Point(x - 1, h - 1)]
  }

  ghost function LeftAndRight(w: nat, y: nat): seq<Point> {
    if y <= 1 then [] else LeftAndRight(w, y - 1) + [Point(0, y - 1)] + [Point(w - 1, y - 1)]
  }

  ghost function EdgeChecks(w: nat, h: nat): seq<Point>
    requires h >= 1
  {
    TopAndBottom(h, w) + LeftAndRight(w, h - 1)
  }

  lemma {:induction false} TopAndBottomHolds(w: nat, h: nat, x: nat)
    requires h >= 1 && x <= w
    ensures |TopAndBottom(h, x)| == 2 * x
    ensures forall p :: p in TopAndBottom(h, x) <==> InGrid(w, h, p) && p.x < x && (p.y == 0 || p.y == h - 1)
  {
    if x > 0 {
      TopAndBottomHolds(w, h, x - 1);
      var r := TopAndBottom(h, x - 1);
      assert forall p :: p in TopAndBottom(h, x) <==> p in r || p == Point(x - 1, 0) || p == Point(x - 1, h - 1);
    }
  }

  lemma {:induction false} LeftAndRightHolds(w: nat, h: nat, y: nat)
    requires w >= 1 && y <= h
    ensures |LeftAndRight(w, y)| == if y <= 1 then 0 else 2 * (y - 1)
    ensures forall p :: p in LeftAndRight(w, y) <==>
      InGrid(w, h, p) && 1 <= p.y < y && (p.x == 0 || p.x == w - 1)
  {
    if y > 1 {
      LeftAndRightHolds(w, h, y - 1);
      var r := LeftAndRight(w, y - 1);
      assert forall p :: p in LeftAndRight(w, y) <==> p in r || p == Point(0, y - 1) || p == Point(w - 1, y - 1);
    }
  }

  // The checks cover the border and nothing else. Counting how many there are: no border pixel is
  // checked twice unless the image is one pixel wide or high.
  lemma EdgeChecksAreTheBorder(w: nat, h: nat)
    requires w >= 1 && h >= 1
    ensures forall p :: p in EdgeChecks(w, h) <==> OnBorder(w, h, p)
    ensures |EdgeChecks(w, h)| == 2 * w + (if h >= 2 then 2 * (h - 2) else 0)
  {
    TopAndBottomHolds(w, h, w);
    LeftAndRightHolds(w, h, h - 1);
  }

  ghost function CountTransparent(s: seq<Byte>, w: nat, h: nat, ps: seq<Point>): nat
    requires Raw(s, w, h)
  {
    if ps == [] then 0
    else
      var p := ps[|ps| - 1];
      CountTransparent(s, w, h, ps[..|ps| - 1]) + (if InGrid(w, h, p) && Transparent(s, w, h, p) then 1 else 0)
  }

  lemma CountAppend(s: seq<Byte>, w: nat, h: nat, ps: seq<Point>, p: Point)
    requires Raw(s, w, h) && InGrid(w, h, p)
    ensures CountTransparent(s, w, h, ps + [p])
         == CountTransparent(s, w, h, ps) + (if Transparent(s, w, h, p) then 1 else 0)
  {
    assert (ps + [p])[..|ps|] == ps;
  }

  ghost function EdgeTransparency(s: seq<Byte>, w: nat, h: nat): real
    requires Raw(s, w, h)
  {
    EdgeChecksAreTheBorder(w, h);
    Ratio(CountTransparent(s, w, h, EdgeChecks(w, h)), |EdgeChecks(w, h)|)
  }

  method EdgeTransparentRatio(rgba: array<Byte>, w: nat, h: nat) returns (ratio: real)
    requires Raw(rgba[..], w, h)
    ensures ratio == EdgeTransparency(rgba[..], w, h)
  {
    var transparent, total := CheckRows(rgba, w, h);
    transparent, total := CheckColumns(rgba, w, h, transparent, total, TopAndBottom(h, w));
    ratio := if total == 0 then 0.0 else Ratio(transparent, total);
  }

  // The counters after checking the points of done.
  ghost predicate Tally(s: seq<Byte>, w: nat, h: nat, done: seq<Point>, transparent: nat, total: nat)
    requires Raw(s, w, h)
  {
    transparent == CountTransparent(s, w, h, done) && total == |done|
  }

  method CheckRows(rgba: array<Byte>, w: nat, h: nat) returns (transparent: nat, total: nat)
    requires Raw(rgba[..], w, h)
    ensures Tally(rgba[..], w, h, TopAndBottom(h, w), transparent, total)
  {
    transparent, total := 0, 0;
    for x := 0 to w
      invariant Tally(rgba[..], w, h, TopAndBottom(h, x), transparent, total)
    {
      ghost var done := TopAndBottom(h, x);
      transparent, total := Check(rgba, w, h, Point(x, 0), transparent, total, done);
      transparent, total := Check(rgba, w, h, Point(x, h - 1), transparent, total, done + [Point(x, 0)]);
      assert done + [Point(x, 0)] + [Point(x, h - 1)] == TopAndBottom(h, x + 1);
    }
  }

  lemma NextColumnChecks(row: seq<Point>, w: nat, y: nat)
    requires y >= 1
    ensures row + LeftAndRight(w, y + 1) == row + LeftAndRight(w, y) + [Point(0, y)] + [Point(w - 1, y)]
  {
  }

  method CheckColumns(rgba: array<Byte>, w: nat, h: nat, t0: nat, n0: nat, ghost row: seq<Point>)
    returns (transparent: nat, total: nat)
    requires Raw(rgba[..], w, h) && Tally(rgba[..], w, h, row, t0, n0)
    ensures Tally(rgba[..], w, h, row + LeftAndRight(w, h - 1), transparent, total)
  {
    hide Tally;
    assert w >= 1 && h >= 1;
    hide Raw;
    transparent, total := t0, n0;
    assert row + LeftAndRight(w, 1) == row;
    assert row + LeftAndRight(w, 0) == row;
    hide LeftAndRight;
    var y := 1;
    while y < h - 1
      invariant 1 <= y && (y <= h - 1 || (y == 1 && h == 1))
      invariant Tally(rgba[..], w, h, row + LeftAndRight(w, y), transparent, total)
    {
      ghost var done := row + LeftAndRight(w, y);
      transparent, total := Check(rgba, w, h, Point(0, y), transparent, total, done);
      transparent, total := Check(rgba, w, h, Point(w - 1, y), transparent, total, done + [Point(0, y)]);
      NextColumnChecks(row, w, y);
      y := y + 1;
    }
  }

  method Check(rgba: array<Byte>, w: nat, h: nat, p: Point, transparent: nat, total: nat, ghost done: seq<Point>)
    returns (transparent': nat, total': nat)
    requires Raw(rgba[..], w, h) && InGrid(w, h, p)
    requires Tally(rgba[..], w, h, done, transparent, total)
    ensures Tally(rgba[..], w, h, done + [p], transparent', total')
  {
    CountAppend(rgba[..], w, h, done, p);
    total' := total + 1;
    transparent' := if Transparent(rgba[..], w, h, p) then transparent + 1 else transparent;
  }

  // ----- scores -----

  function Score(edge: real, opaque_: real): real {
    if opaque_ < 0.04 then -1.0
    else if opaque_ > 0.97 then edge * 0.25
    else edge
  }

  ghost function ScoreOf(s: seq<Byte>, w: nat, h: nat): real
    requires Raw(s, w, h)
  {
    Score(EdgeTransparency(s, w, h), Opaque(s, w, h))
  }

  // t is at least as transparent as s, pixel by pixel.
  ghost predicate NoMoreOpaque(s: seq<Byte>, t: seq<Byte>, w: nat, h: nat)
    requires Raw(s, w, h) && Raw(t, w, h)
  {
    forall p :: InGrid(w, h, p) && Transparent(s, w, h, p) ==> Transparent(t, w, h, p)
  }

  lemma OpaqueFalls(s: seq<Byte>, t: seq<Byte>, w: nat, h: nat)
    requires Raw(s, w, h) && Raw(t, w, h) && NoMoreOpaque(s, t, w, h)
    ensures Opaque(t, w, h) <= Opaque(s, w, h)
  {
    var a, b := OpaquePixels(t, w * h), OpaquePixels(s, w * h);
    forall i | i in a
      ensures i in b
    {
      IndexOfPixel(w, h, i);
      var p := PixelOf(w, i);
      assert AlphaByte(s, i) == AlphaAt(s, w, h, p) && AlphaByte(t, i) == AlphaAt(t, w, h, p);
    }
    SubsetSmaller(a, b);
    RatioMonotone(|a|, |b|, w * h);
  }

  lemma {:induction false} SubsetSmaller(a: set<int>, b: set<int>)
    requires a <= b
    ensures |a| <= |b|
  {
    assert b == a + (b - a);
  }

  lemma {:induction false} CountRises(s: seq<Byte>, t: seq<Byte>, w: nat, h: nat, ps: seq<Point>)
    requires Raw(s, w, h) && Raw(t, w, h) && NoMoreOpaque(s, t, w, h)
    ensures CountTransparent(s, w, h, ps) <= CountTransparent(t, w, h, ps)
  {
    if ps != [] {
      CountRises(s, t, w, h, ps[..|ps| - 1]);
    }
  }

  lemma EdgeRises(s: seq<Byte>, t: seq<Byte>, w: nat, h: nat)
    requires Raw(s, w, h) && Raw(t, w, h) && NoMoreOpaque(s, t, w, h)
    ensures 0.0 <= EdgeTransparency(s, w, h) <= EdgeTransparency(t, w, h)
  {
    var ps := EdgeChecks(w, h);
    CountRises(s, t, w, h, ps);
    RatioMonotone(CountTransparent(s, w, h, ps), CountTransparent(t, w, h, ps), |ps|);
  }

  // ----- trials -----

  const PASSES := 3

  // The tolerances in the order they are tried.
  function Tolerance(k: nat): int
    requires k < 3
  {
    if k == 0 then 48 else if k == 1 then 72 else 96
  }

  // Flood fill, then the fringe passes.
  ghost function TrialWith(s: seq<Byte>, w: nat, h: nat, refs: seq<Rgb>, tolerance: int): (t: seq<Byte>)
    requires Raw(s, w, h)
    ensures Raw(t, w, h)
  {
    var filled := Clear(s, w, h, EdgeBackdrop(s, w, h, refs, tolerance));
    Clear(filled, w, h, EatenBy(filled, w, h, PASSES))
  }

  ghost function Trial(s: seq<Byte>, w: nat, h: nat, k: nat): (t: seq<Byte>)
    requires Raw(s, w, h) && k < 3
    ensures Raw(t, w, h)
  {
    TrialWith(s, w, h, References(s, w, h), Tolerance(k))
  }

  ghost function TrialOpaque(s: seq<Byte>, w: nat, h: nat, k: nat): real
    requires Raw(s, w, h) && k < 3
  {
    Opaque(Trial(s, w, h, k), w, h)
  }

  ghost function TrialScores(s: seq<Byte>, w: nat, h: nat): (scores: seq<real>)
    requires Raw(s, w, h)
    ensures |scores| == 3
  {
    seq(3, k requires 0 <= k < 3 => ScoreOf(Trial(s, w, h, k), w, h))
  }

  // Through flood fill and all fringe passes, a larger tolerance never leaves a pixel opaque that a smaller one cleared.
  lemma TrialMonotone(s: seq<Byte>, w: nat, h: nat, refs: seq<Rgb>, lo: int, hi: int)
    requires Raw(s, w, h) && lo <= hi
    ensures NoMoreOpaque(TrialWith(s, w, h, refs, lo), TrialWith(s, w, h, refs, hi), w, h)
  {
    var b, c := EdgeBackdrop(s, w, h, refs, lo), EdgeBackdrop(s, w, h, refs, hi);
    ToleranceWidens(s, w, h, refs, lo, hi);
    forall p | InGrid(w, h, p)
      ensures ColourAt(Clear(s, w, h, b), w, h, p) == ColourAt(Clear(s, w, h, c), w, h, p)
      ensures Transparent(Clear(s, w, h, b), w, h, p) ==> Transparent(Clear(s, w, h, c), w, h, p)
    {
      ClearAt(s, w, h, b, p);
      ClearAt(s, w, h, c, p);
    }
    FringeMonotone(Clear(s, w, h, b), Clear(s, w, h, c), w, h, PASSES);
  }

  // So the opaque share of the three trials never rises from 48 to 72 to 96.
  lemma OpaqueShareFalls(s: seq<Byte>, w: nat, h: nat, i: nat, j: nat)
    requires Raw(s, w, h) && i <= j < 3
    ensures NoMoreOpaque(Trial(s, w, h, i), Trial(s, w, h, j), w, h)
    ensures TrialOpaque(s, w, h, j) <= TrialOpaque(s, w, h, i)
  {
    TrialMonotone(s, w, h, References(s, w, h), Tolerance(i), Tolerance(j));
    OpaqueFalls(Trial(s, w, h, i), Trial(s, w, h, j), w, h);
  }

  lemma ScoreSign(s: seq<Byte>, w: nat, h: nat, k: nat)
    requires Raw(s, w, h) && k < 3
    ensures if TrialOpaque(s, w, h, k) < 0.04 then TrialScores(s, w, h)[k] == -1.0 else TrialScores(s, w, h)[k] >= 0.0
  {
    var t := Trial(s, w, h, k);
    EdgeRises(t, t, w, h);
  }

  // While a tolerance still keeps 4% of the image, raising it up to there never lowers the score.
  lemma ScoresRise(s: seq<Byte>, w: nat, h: nat, i: nat, j: nat)
    requires Raw(s, w, h) && i <= j < 3 && TrialOpaque(s, w, h, j) >= 0.04
    ensures 0.0 <= TrialScores(s, w, h)[i] <= TrialScores(s, w, h)[j]
  {
    hide Trial;
    hide Raw;
    hide EdgeTransparency;
    hide Opaque;
    hide NoMoreOpaque;
    OpaqueShareFalls(s, w, h, i, j);
    EdgeRises(Trial(s, w, h, i), Trial(s, w, h, j), w, h);
    TrialScoreIs(s, w, h, i);
    TrialScoreIs(s, w, h, j);
    hide TrialScores;
  }

  // The first position with the best score.
  predicate Wins(scores: seq<real>, j: nat) {
    && j < |scores|
    && forall i :: 0 <= i < |scores| ==> scores[i] <= scores[j] && (i < j ==> scores[i] < scores[j])
  }

  // The winner scores as well as the largest tolerance that still keeps 4% of the image, and is never larger.
  lemma WinnerMatchesLargestSafe(s: seq<Byte>, w: nat, h: nat, j: nat, k: nat)
    requires Raw(s, w, h) && Wins(TrialScores(s, w, h), j)
    requires k < 3 && TrialOpaque(s, w, h, k) >= 0.04
    requires forall i :: k < i < 3 ==> TrialOpaque(s, w, h, i) < 0.04
    ensures TrialScores(s, w, h)[j] == TrialScores(s, w, h)[k] && j <= k
    ensures TrialOpaque(s, w, h, j) >= 0.04
  {
    ScoreSign(s, w, h, k);
    ScoreSign(s, w, h, j);
    if j <= k {
      ScoresRise(s, w, h, j, k);
    }
  }

  // What the caller's buffer holds afterwards.
  ghost predicate Outcome(s: seq<Byte>, w: nat, h: nat, result: seq<Byte>)
    requires Raw(s, w, h)
  {
    if TrialOpaque(s, w, h, 0) < 0.04 then result == s
    else exists j :: j < 3 && Wins(TrialScores(s, w, h), j) && result == Trial(s, w, h, j)
  }

  // A border pixel that is one of its own reference colours is cleared by every trial.
  lemma ReferenceCleared(s: seq<Byte>, w: nat, h: nat, refs: seq<Rgb>, tolerance: nat, k: nat, p: Point)
    requires Raw(s, w, h) && OnBorder(w, h, p)
    requires k < |refs| && refs[k] == ColourAt(s, w, h, p)
    ensures AlphaAt(TrialWith(s, w, h, refs, tolerance), w, h, p) == 0
  {
    var b := Backdrop(s, w, h, refs, tolerance);
    assert ColourDistance(ColourAt(s, w, h, p), refs[k]) == 0;
    JoinedBorder(w, h, b, p);
    var e := EdgeBackdrop(s, w, h, refs, tolerance);
    ClearAt(s, w, h, e, p);
    var filled := Clear(s, w, h, e);
    ClearAt(filled, w, h, EatenBy(filled, w, h, PASSES), p);
  }

  lemma ClearedAlready(s: seq<Byte>, w: nat, h: nat, c: iset<Point>)
    requires Raw(s, w, h)
    requires forall p :: InGrid(w, h, p) && p in c ==> AlphaAt(s, w, h, p) == 0
    ensures Clear(s, w, h, c) == s
  {
    forall k | 0 <= k < |s|
      ensures Clear(s, w, h, c)[k] == s[k]
    {
      if k % 4 == 3 {
        assert k == k / 4 * 4 + 3 && k / 4 < w * h;
        IndexOfPixel(w, h, k / 4);
        assert AlphaAt(s, w, h, PixelOf(w, k / 4)) == s[k];
      }
    }
  }

  // A trial that changes nothing clears nothing visible, so neither does a milder one.
  lemma MilderChangesNothing(s: seq<Byte>, w: nat, h: nat, refs: seq<Rgb>, lo: int, hi: int)
    requires Raw(s, w, h) && lo <= hi && TrialWith(s, w, h, refs, hi) == s
    ensures TrialWith(s, w, h, refs, lo) == s
  {
    var b, c := EdgeBackdrop(s, w, h, refs, lo), EdgeBackdrop(s, w, h, refs, hi);
    ToleranceWidens(s, w, h, refs, lo, hi);
    var filled := Clear(s, w, h, c);
    forall p | InGrid(w, h, p) && p in c
      ensures AlphaAt(s, w, h, p) == 0
    {
      ClearAt(s, w, h, c, p);
      ClearAt(filled, w, h, EatenBy(filled, w, h, PASSES), p);
    }
    ClearedAlready(s, w, h, c);
    ClearedAlready(s, w, h, b);
  }

  lemma UnchangedWinnerIsMildest(s: seq<Byte>, w: nat, h: nat, j: nat)
    requires Raw(s, w, h) && j < 3 && Wins(TrialScores(s, w, h), j) && Trial(s, w, h, j) == s
    ensures Trial(s, w, h, 0) == s && j == 0
  {
    hide TrialWith;
    hide References;
    hide ScoreOf;
    MilderChangesNothing(s, w, h, References(s, w, h), Tolerance(0), Tolerance(j));
    assert TrialScores(s, w, h)[0] == TrialScores(s, w, h)[j];
  }

  lemma VisibleCornerChanges(s: seq<Byte>, w: nat, h: nat)
    requires Raw(s, w, h) && AlphaAt(s, w, h, Point(0, 0)) != 0
    ensures Trial(s, w, h, 0) != s
  {
    hide TrialWith;
    ReferenceCleared(s, w, h, References(s, w, h), Tolerance(0), 1, Point(0, 0));
  }

  // The outcome is the image itself when the mildest trial eats over 96% of it, or is itself the winner and changes
  // nothing.
  lemma KeptIff(s: seq<Byte>, w: nat, h: nat, result: seq<Byte>)
    requires Raw(s, w, h) && Outcome(s, w, h, result)
    ensures result == s <==>
      TrialOpaque(s, w, h, 0) < 0.04 || (Trial(s, w, h, 0) == s && Wins(TrialScores(s, w, h), 0))
    ensures AlphaAt(s, w, h, Point(0, 0)) != 0 ==> Trial(s, w, h, 0) != s
  {
    hide Trial;
    hide TrialScores;
    hide TrialOpaque;
    if AlphaAt(s, w, h, Point(0, 0)) != 0 {
      VisibleCornerChanges(s, w, h);
    }
    hide AlphaAt;
    if TrialOpaque(s, w, h, 0) >= 0.04 {
      var j :| j < 3 && Wins(TrialScores(s, w, h), j) && result == Trial(s, w, h, j);
      if result == s {
        UnchangedWinnerIsMildest(s, w, h, j);
      }
    }
  }

  // ----- the search -----

  // The background removed from a copy at one tolerance.
  method TryTolerance(rgba: array<Byte>, w: nat, h: nat, refs: seq<Rgb>, tolerance: int) returns (trial: array<Byte>)
    requires Raw(rgba[..], w, h)
    ensures fresh(trial) && trial[..] == TrialWith(rgba[..], w, h, refs, tolerance)
  {
    trial := Copy(rgba);
    FloodFillBackground(trial, w, h, refs, tolerance);
    RemoveFringeHalos(trial, w, h, PASSES);
  }

  // Position j holds the best of the first k scores, and earlier ones are strictly worse; -1 while none beats -1.
  predicate FirstBest(scores: seq<real>, k: nat, bestScore: real, j: int)
    requires k <= |scores|
  {
    && bestScore >= -1.0
    && (forall i :: 0 <= i < k ==> scores[i] <= bestScore)
    && (if bestScore == -1.0 then j == -1
        else 0 <= j < k && scores[j] == bestScore && forall i :: 0 <= i < j ==> scores[i] < bestScore)
  }

  lemma FirstBestStep(scores: seq<real>, k: nat, bestScore: real, j: int)
    requires k < |scores| && FirstBest(scores, k, bestScore, j)
    ensures if scores[k] > bestScore then FirstBest(scores, k + 1, scores[k], k)
            else FirstBest(scores, k + 1, bestScore, j)
  {
  }

  lemma TrialScoreIs(s: seq<Byte>, w: nat, h: nat, k: nat)
    requires Raw(s, w, h) && k < 3
    ensures TrialScores(s, w, h)[k] == ScoreOf(Trial(s, w, h, k), w, h)
  {
    hide Raw;
    hide Trial;
    hide ScoreOf;
  }

  lemma BestOutcome(s: seq<Byte>, w: nat, h: nat, best: seq<Byte>, bestScore: real, j: int)
    requires Raw(s, w, h) && FirstBest(TrialScores(s, w, h), 3, bestScore, j)
    requires best == if j < 0 then s else Trial(s, w, h, j)
    ensures Outcome(s, w, h, best)
  {
    var scores := TrialScores(s, w, h);
    ScoreSign(s, w, h, 0);
    if j >= 0 {
      ScoreSign(s, w, h, j);
      OpaqueShareFalls(s, w, h, 0, j);
      assert Wins(scores, j);
    } else {
      assert scores[0] <= bestScore;
    }
  }

  method RemoveSolidBackground(rgba: array<Byte>, w: nat, h: nat)
    requires Raw(rgba[..], w, h)
    modifies rgba
    ensures Raw(rgba[..], w, h) && Outcome(old(rgba[..]), w, h, rgba[..])
  {
    hide Outcome;
    hide MedianEdgeColor;
    ghost var s := rgba[..];
    var edgeColors := SampleEdgeColors(rgba, w, h);
    var refs := [MedianEdgeColor(edgeColors)] + edgeColors[..4];
    assert refs == References(s, w, h);
    hide EdgeSamples;
    hide References;
    var best := Search(rgba, w, h, refs);
    Overwrite(rgba, best);
  }

  method Search(rgba: array<Byte>, w: nat, h: nat, refs: seq<Rgb>) returns (best: array<Byte>)
    requires Raw(rgba[..], w, h) && refs == References(rgba[..], w, h)
    ensures fresh(best) && Raw(best[..], w, h) && Outcome(rgba[..], w, h, best[..])
  {
    hide Outcome;
    hide References;
    hide TrialScores;
    hide TrialWith;
    hide ScoreOf;
    ghost var s, scores, j := rgba[..], TrialScores(rgba[..], w, h), -1;
    best := Copy(rgba);
    var bestScore := -1.0;
    assert FirstBest(scores, 0, bestScore, j);
    hide FirstBest;
    for k := 0 to 3
      invariant fresh(best) && rgba[..] == s && Raw(best[..], w, h)
      invariant FirstBest(scores, k, bestScore, j) && j < k
      invariant best[..] == if j < 0 then s else Trial(s, w, h, j)
    {
      var trial := TryTolerance(rgba, w, h, refs, Tolerance(k));
      assert trial[..] == Trial(s, w, h, k);
      hide Trial;
      var score := ScoreBackgroundRemoval(trial, w, h);
      TrialScoreIs(s, w, h, k);
      FirstBestStep(scores, k, bestScore, j);
      if score > bestScore {
        bestScore := score;
        best := trial;
        j := k;
      }
    }
    BestOutcome(s, w, h, best[..], bestScore, j);
  }

  method ScoreBackgroundRemoval(rgba: array<Byte>, w: nat, h: nat) returns (score: real)
    requires Raw(rgba[..], w, h)
    ensures score == ScoreOf(rgba[..], w, h)
  {
    var edge := EdgeTransparentRatio(rgba, w, h);
    var opaque_ := OpaqueRatio(rgba, w, h);
    score := Score(edge, opaque_);
  }

  method Overwrite(a: array<Byte>, b: array<Byte>)
    requires a.Length == b.Length && a != b
    modifies a
    ensures a[..] == b[..]
  {
    forall k | 0 <= k < a.Length {
      a[k] := b[k];
    }
  }

  method Copy(a: array<Byte>) returns (c: array<Byte>)
    ensures fresh(c) && c[..] == a[..]
  {
    c := new Byte[a.Length](k requires 0 <= k < a.Length reads a => a[k]);
  }
}

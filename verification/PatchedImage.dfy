// An image that the upload hands to removeSolidBackground and that comes out as it went in, although the mildest trial
// keeps three quarters of it: red above, green below, and two transparent white pixels at both left corners.
module PatchedImage {
  import opened Pixels
  import opened FloodFill
  import opened FringeHalo
  import opened BackgroundRemoval
  import Percentiles
  import Sorting

  const WHITE := Rgb(255, 255, 255)
  const RED := Rgb(255, 0, 0)
  const GREEN := Rgb(0, 255, 0)

  predicate Patch(p: Point) {
    p.x < 2 && (p.y == 0 || p.y == 3)
  }

  function Paint(p: Point): Rgb {
    if Patch(p) then WHITE else if p.y < 2 then RED else GREEN
  }

  // The four bytes of pixel i.
  function Channels(i: nat): (c: seq<Byte>)
    ensures |c| == 4
  {
    if i in {0, 1, 12, 13} then [255, 255, 255, 0]
    else if i < 8 then [255, 0, 0, 255]
    else [0, 255, 0, 255]
  }

  function Image(): (s: seq<Byte>)
    ensures Raw(s, 4, 4)
  {
    seq(64, k requires 0 <= k < 64 => Channels(k / 4)[k % 4])
  }

  lemma ImageBytes(i: nat)
    requires i < 16
    ensures var s, c := Image(), Channels(i);
            s[i * 4] == c[0] && s[i * 4 + 1] == c[1] && s[i * 4 + 2] == c[2] && s[i * 4 + 3] == c[3]
  {
    assert (i * 4) / 4 == i && (i * 4 + 1) / 4 == i && (i * 4 + 2) / 4 == i && (i * 4 + 3) / 4 == i;
  }

  lemma ChannelsArePaint(p: Point)
    requires InGrid(4, 4, p)
    ensures var c := Channels(p.y * 4 + p.x);
            Rgb(c[0], c[1], c[2]) == Paint(p) && c[3] == if Patch(p) then 0 else 255
  {
    var i := p.y * 4 + p.x;
    assert (Patch(p) <==> i in {0, 1, 12, 13}) && (p.y < 2 <==> i < 8);
  }

  // What the proof needs to know of the image.
  ghost predicate Patched(s: seq<Byte>, w: nat, h: nat) {
    && w == h == 4 && Raw(s, w, h)
    && (forall p :: InGrid(w, h, p) ==> ColourAt(s, w, h, p) == Paint(p))
    && (forall p :: InGrid(w, h, p) ==> AlphaAt(s, w, h, p) == if Patch(p) then 0 else 255)
  }

  lemma PatchedSize(s: seq<Byte>, w: nat, h: nat)
    requires Patched(s, w, h)
    ensures Raw(s, w, h) && w == 4 && h == 4
  {
    hide Raw;
    hide ColourAt;
    hide AlphaAt;
  }

  lemma PatchedAt(s: seq<Byte>, w: nat, h: nat, p: Point)
    requires Patched(s, w, h) && InGrid(w, h, p)
    ensures Raw(s, w, h) && ColourAt(s, w, h, p) == Paint(p)
    ensures AlphaAt(s, w, h, p) == if Patch(p) then 0 else 255
  {
    hide Raw;
    hide ColourAt;
    hide AlphaAt;
    hide Paint;
    hide Patch;
  }

  lemma BytesAt(s: seq<Byte>, w: nat, h: nat, p: Point, i: nat)
    requires Raw(s, w, h) && InGrid(w, h, p) && i == p.y * w + p.x
    ensures i * 4 + 3 < |s|
    ensures ColourAt(s, w, h, p) == Rgb(s[i * 4], s[i * 4 + 1], s[i * 4 + 2])
    ensures AlphaAt(s, w, h, p) == s[i * 4 + 3]
  {
    assert Index(w, h, p) == i;
    hide Index;
    hide InGrid;
  }

  lemma ImageAt(p: Point)
    requires InGrid(4, 4, p)
    ensures ColourAt(Image(), 4, 4, p) == Paint(p)
    ensures AlphaAt(Image(), 4, 4, p) == if Patch(p) then 0 else 255
  {
    hide Image;
    hide Channels;
    hide Paint;
    hide Patch;
    var i := p.y * 4 + p.x;
    ImageBytes(i);
    ChannelsArePaint(p);
    BytesAt(Image(), 4, 4, p, i);
    hide ColourAt;
    hide AlphaAt;
  }

  lemma ImageIsPatched()
    ensures Patched(Image(), 4, 4)
  {
    hide Image;
    hide ColourAt;
    hide AlphaAt;
    forall p | InGrid(4, 4, p)
      ensures ColourAt(Image(), 4, 4, p) == Paint(p)
      ensures AlphaAt(Image(), 4, 4, p) == if Patch(p) then 0 else 255
    {
      ImageAt(p);
    }
  }

  // ----- the reference colours -----

  // How many of the samples fall short of full red, or of full green.
  function Low(colors: seq<Rgb>, green: bool): nat {
    if colors == [] then 0
    else (if (if green then colors[0].g else colors[0].r) < 255 then 1 else 0) + Low(colors[1..], green)
  }

  lemma LowPair(a: Rgb, b: Rgb, rest: seq<Rgb>, green: bool)
    ensures Low([a, b] + rest, green) == Low([a], green) + Low([b], green) + Low(rest, green)
  {
    assert ([a, b] + rest)[1..] == [b] + rest && ([b] + rest)[1..] == rest;
    assert [a][1..] == [] && [b][1..] == [];
  }

  lemma {:induction false} LowConcat(a: seq<Rgb>, b: seq<Rgb>, green: bool)
    ensures Low(a + b, green) == Low(a, green) + Low(b, green)
  {
    if a == [] {
      assert a + b == b;
    } else {
      assert (a + b)[1..] == a[1..] + b;
      LowConcat(a[1..], b, green);
    }
  }

  lemma RowPair(s: seq<Byte>, w: nat, h: nat, x: nat)
    requires Patched(s, w, h) && x < w
    ensures Raw(s, w, h)
    ensures RowSamples(s, w, h, x) == [Paint(Point(x, 0)), Paint(Point(x, h - 1))] + RowSamples(s, w, h, x + 1)
  {
    PatchedSize(s, w, h);
    PatchedAt(s, w, h, Point(x, 0));
    PatchedAt(s, w, h, Point(x, h - 1));
    hide Patched;
    hide ColourAt;
    hide Raw;
    hide Paint;
    assert Step(w) == 1;
  }

  lemma ColumnPair(s: seq<Byte>, w: nat, h: nat, y: nat)
    requires Patched(s, w, h) && y < h
    ensures Raw(s, w, h)
    ensures ColumnSamples(s, w, h, y) == [Paint(Point(0, y)), Paint(Point(w - 1, y))] + ColumnSamples(s, w, h, y + 1)
  {
    PatchedSize(s, w, h);
    PatchedAt(s, w, h, Point(0, y));
    PatchedAt(s, w, h, Point(w - 1, y));
    hide Patched;
    hide ColourAt;
    hide Raw;
    hide Paint;
    assert Step(h) == 1;
  }

  lemma NoLow(green: bool)
    ensures Low([], green) == 0
  {
  }

  lemma OneLow(c: Rgb, green: bool)
    ensures Low([c], green) == if (if green then c.g else c.r) < 255 then 1 else 0
  {
    NoLow(green);
    assert [c][1..] == [];
  }

  lemma RowLow(x: nat, green: bool)
    requires x < 4
    ensures Low([Paint(Point(x, 0))], green) + Low([Paint(Point(x, 3))], green) <= if x < 2 then 0 else 1
  {
    OneLow(Paint(Point(x, 0)), green);
    OneLow(Paint(Point(x, 3)), green);
    hide Low;
  }

  lemma ColumnLow(y: nat, green: bool)
    requires y < 4
    ensures var low := Low([Paint(Point(0, y))], green) + Low([Paint(Point(3, y))], green);
            low <= if y == 0 || y == 3 then 1 else 2
  {
    OneLow(Paint(Point(0, y)), green);
    OneLow(Paint(Point(3, y)), green);
    hide Low;
  }

  lemma {:induction false} RowsAreHigh(s: seq<Byte>, w: nat, h: nat, x: nat, green: bool)
    requires Patched(s, w, h) && x <= w
    ensures |RowSamples(s, w, h, x)| == 2 * (w - x)
    ensures Low(RowSamples(s, w, h, x), green) <= if x <= 2 then 2 else 4 - x
    decreases w - x
  {
    hide Patched;
    hide Raw;
    hide Low;
    hide Paint;
    PatchedSize(s, w, h);
    if x < w {
      var a, b, rest := Point(x, 0), Point(x, h - 1), RowSamples(s, w, h, x + 1);
      RowsAreHigh(s, w, h, x + 1, green);
      RowPair(s, w, h, x);
      hide RowSamples;
      LowPair(Paint(a), Paint(b), rest, green);
      RowLow(x, green);
    } else {
      assert RowSamples(s, w, h, x) == [];
      NoLow(green);
    }
  }

  lemma {:induction false} ColumnsAreHigh(s: seq<Byte>, w: nat, h: nat, y: nat, green: bool)
    requires Patched(s, w, h) && y <= h
    ensures |ColumnSamples(s, w, h, y)| == 2 * (h - y)
    ensures Low(ColumnSamples(s, w, h, y), green) <= if y == 4 then 0 else if y == 0 then 6 else 7 - 2 * y
    decreases h - y
  {
    hide Patched;
    hide Raw;
    hide Low;
    hide Paint;
    PatchedSize(s, w, h);
    if y < h {
      var a, b, rest := Point(0, y), Point(w - 1, y), ColumnSamples(s, w, h, y + 1);
      ColumnsAreHigh(s, w, h, y + 1, green);
      ColumnPair(s, w, h, y);
      hide ColumnSamples;
      LowPair(Paint(a), Paint(b), rest, green);
      ColumnLow(y, green);
    } else {
      assert ColumnSamples(s, w, h, y) == [];
      NoLow(green);
    }
  }

  lemma SamplesAreHigh(s: seq<Byte>, w: nat, h: nat, green: bool)
    requires Patched(s, w, h) && Raw(s, w, h)
    ensures |EdgeSamples(s, w, h)| == 16 && Low(EdgeSamples(s, w, h), green) <= 8
  {
    hide Patched;
    hide Raw;
    hide ColourAt;
    hide RowSamples;
    hide ColumnSamples;
    hide Low;
    PatchedSize(s, w, h);
    RowsAreHigh(s, w, h, 0, green);
    ColumnsAreHigh(s, w, h, 0, green);
    LowConcat(RowSamples(s, w, h, 0), ColumnSamples(s, w, h, 0), green);
  }

  lemma {:induction false} AtMostIsLow(colors: seq<Rgb>, values: seq<int>, green: bool)
    requires |values| == |colors|
    requires forall k :: 0 <= k < |colors| ==> values[k] == if green then colors[k].g else colors[k].r
    ensures Percentiles.AtMost(values, 254.0) == Low(colors, green)
  {
    if colors != [] {
      AtMostIsLow(colors[1..], values[1..], green);
    }
  }

  // With at most half of the values short of 255, the median is not.
  lemma HighMedian(values: seq<int>)
    requires values != [] && 2 * Percentiles.AtMost(values, 254.0) <= |values|
    ensures Median(values) >= 255
  {
    var sorted := Sorting.Sorted(values);
    Percentiles.SortedCounts(values, 254.0);
    Percentiles.AscendingCounts(sorted, 254.0, |values| / 2);
  }

  lemma MedianIsHigh(colors: seq<Rgb>)
    requires |colors| == 16 && Low(colors, false) <= 8 && Low(colors, true) <= 8
    ensures FarFromBoth(MedianEdgeColor(colors))
  {
    hide Low;
    hide Median;
    var reds := seq(|colors|, k requires 0 <= k < |colors| => colors[k].r);
    var greens := seq(|colors|, k requires 0 <= k < |colors| => colors[k].g);
    AtMostIsLow(colors, reds, false);
    AtMostIsLow(colors, greens, true);
    HighMedian(reds);
    HighMedian(greens);
  }

  // As red and as green as white is, so far from pure red and from pure green.
  predicate FarFromBoth(c: Rgb) {
    c.r >= 255 && c.g >= 255
  }

  lemma RowsStartWhite(s: seq<Byte>, w: nat, h: nat)
    requires Patched(s, w, h)
    ensures Raw(s, w, h) && RowSamples(s, w, h, 0) == [WHITE, WHITE] + ([WHITE, WHITE] + RowSamples(s, w, h, 2))
  {
    hide Patched;
    hide RowSamples;
    hide Raw;
    PatchedSize(s, w, h);
    RowPair(s, w, h, 0);
    RowPair(s, w, h, 1);
    LeftIsWhite(0);
    LeftIsWhite(1);
    hide Paint;
  }

  lemma LeftIsWhite(x: nat)
    requires x < 2
    ensures Paint(Point(x, 0)) == WHITE && Paint(Point(x, 3)) == WHITE
  {
  }

  lemma FirstFourAreWhite(s: seq<Byte>, w: nat, h: nat)
    requires Patched(s, w, h) && Raw(s, w, h)
    ensures EdgeSamples(s, w, h)[..4] == [WHITE, WHITE, WHITE, WHITE]
  {
    RowsStartWhite(s, w, h);
    FourFirst(RowSamples(s, w, h, 2), ColumnSamples(s, w, h, 0));
    hide Patched;
    hide Raw;
    hide ColourAt;
    hide RowSamples;
    hide ColumnSamples;
    assert EdgeSamples(s, w, h) == RowSamples(s, w, h, 0) + ColumnSamples(s, w, h, 0);
    hide EdgeSamples;
  }

  lemma FourFirst(rows: seq<Rgb>, columns: seq<Rgb>)
    ensures ([WHITE, WHITE] + ([WHITE, WHITE] + rows) + columns)[..4] == [WHITE, WHITE, WHITE, WHITE]
  {
  }

  lemma AllFar(c: Rgb)
    requires FarFromBoth(c)
    ensures var refs := [c] + [WHITE, WHITE, WHITE, WHITE];
            forall k :: 0 <= k < |refs| ==> FarFromBoth(refs[k])
  {
  }

  lemma ReferencesAreFar(s: seq<Byte>, w: nat, h: nat)
    requires Patched(s, w, h) && Raw(s, w, h)
    ensures forall k :: 0 <= k < |References(s, w, h)| ==> FarFromBoth(References(s, w, h)[k])
  {
    hide Patched;
    hide Raw;
    hide ColourAt;
    hide EdgeSamples;
    hide MedianEdgeColor;
    hide FarFromBoth;
    PatchedSize(s, w, h);
    SamplesAreHigh(s, w, h, false);
    SamplesAreHigh(s, w, h, true);
    var colors := EdgeSamples(s, w, h);
    MedianIsHigh(colors);
    hide Low;
    FirstFourAreWhite(s, w, h);
    AllFar(MedianEdgeColor(colors));
    assert References(s, w, h) == [MedianEdgeColor(colors)] + [WHITE, WHITE, WHITE, WHITE];
    hide References;
  }

  lemma ColoursStay(refs: seq<Rgb>, tolerance: int)
    requires tolerance < 255 && forall k :: 0 <= k < |refs| ==> FarFromBoth(refs[k])
    ensures !IsNeutral(RED, refs, tolerance) && !IsFringe(RED)
    ensures !IsNeutral(GREEN, refs, tolerance) && !IsFringe(GREEN)
  {
    forall k | 0 <= k < |refs|
      ensures ColourDistance(RED, refs[k]) >= 255 && ColourDistance(GREEN, refs[k]) >= 255
    {
      assert FarFromBoth(refs[k]);
    }
  }

  // ----- what happens to it -----

  lemma OnlyThePatches(s: seq<Byte>, w: nat, h: nat, refs: seq<Rgb>, tolerance: int, p: Point)
    requires Patched(s, w, h) && InGrid(w, h, p)
    requires tolerance < 255 && forall k :: 0 <= k < |refs| ==> FarFromBoth(refs[k])
    ensures p in EdgeBackdrop(s, w, h, refs, tolerance) ==> AlphaAt(s, w, h, p) == 0
    ensures !Halo(s, w, h, p)
  {
    hide AlphaAt;
    assert ColourAt(s, w, h, p) == Paint(p) && AlphaAt(s, w, h, p) == if Patch(p) then 0 else 255;
    hide ColourAt;
    hide Patched;
    ColoursStay(refs, tolerance);
    hide IsNeutral;
    hide IsFringe;
    if p in EdgeBackdrop(s, w, h, refs, tolerance) {
      assert p in Backdrop(s, w, h, refs, tolerance);
    }
  }

  lemma TrialsChangeNothing(s: seq<Byte>, w: nat, h: nat, k: nat)
    requires Patched(s, w, h) && k < 3
    ensures Trial(s, w, h, k) == s
  {
    assert Raw(s, w, h);
    var refs := References(s, w, h);
    ReferencesAreFar(s, w, h);
    hide Patched;
    hide References;
    hide Halo;
    hide FarFromBoth;
    var e := EdgeBackdrop(s, w, h, refs, Tolerance(k));
    EatenInGrid(s, w, h, PASSES);
    forall p | InGrid(w, h, p)
      ensures p in e ==> AlphaAt(s, w, h, p) == 0
      ensures p !in EatenBy(s, w, h, PASSES)
    {
      OnlyThePatches(s, w, h, refs, Tolerance(k), p);
    }
    hide EdgeBackdrop;
    hide EatenBy;
    hide AlphaAt;
    ClearedAlready(s, w, h, e);
    ClearedAlready(s, w, h, EatenBy(s, w, h, PASSES));
  }

  lemma SeenAt(s: seq<Byte>, w: nat, h: nat, p: Point)
    requires Patched(s, w, h) && InGrid(w, h, p)
    ensures Raw(s, w, h) && (Transparent(s, w, h, p) <==> Patch(p))
  {
    PatchedAt(s, w, h, p);
    hide Patched;
    hide AlphaAt;
    hide ColourAt;
    hide Raw;
  }

  lemma CountPair(s: seq<Byte>, w: nat, h: nat, ps: seq<Point>, a: Point, b: Point)
    requires Patched(s, w, h) && InGrid(w, h, a) && InGrid(w, h, b)
    ensures Raw(s, w, h)
    ensures CountTransparent(s, w, h, ps + [a] + [b])
         == CountTransparent(s, w, h, ps) + (if Patch(a) then 1 else 0) + (if Patch(b) then 1 else 0)
  {
    hide Raw;
    hide CountTransparent;
    hide Patch;
    SeenAt(s, w, h, a);
    SeenAt(s, w, h, b);
    CountAppend(s, w, h, ps, a);
    CountAppend(s, w, h, ps + [a], b);
    hide Patched;
    hide Transparent;
  }

  lemma {:induction false} RowChecks(s: seq<Byte>, w: nat, h: nat, x: nat)
    requires Patched(s, w, h) && x <= w
    ensures Raw(s, w, h)
    ensures CountTransparent(s, w, h, TopAndBottom(h, x)) == if x <= 2 then 2 * x else 4
  {
    PatchedSize(s, w, h);
    if x == 0 {
      hide Patched;
      hide Raw;
    } else {
      RowChecks(s, w, h, x - 1);
      CountPair(s, w, h, TopAndBottom(h, x - 1), Point(x - 1, 0), Point(x - 1, h - 1));
      hide Patched;
      hide Raw;
      hide CountTransparent;
    }
  }

  lemma {:induction false} ColumnChecks(s: seq<Byte>, w: nat, h: nat, done: seq<Point>, y: nat)
    requires Patched(s, w, h) && y < h
    ensures Raw(s, w, h)
    ensures CountTransparent(s, w, h, done + LeftAndRight(w, y)) == CountTransparent(s, w, h, done)
  {
    PatchedSize(s, w, h);
    hide CountTransparent;
    if y <= 1 {
      assert done + LeftAndRight(w, y) == done;
      hide Patched;
      hide Raw;
    } else {
      ColumnChecks(s, w, h, done, y - 1);
      var a, b := Point(0, y - 1), Point(w - 1, y - 1);
      CountPair(s, w, h, done + LeftAndRight(w, y - 1), a, b);
      hide Patched;
      hide Raw;
      assert done + LeftAndRight(w, y) == done + LeftAndRight(w, y - 1) + [a] + [b];
    }
  }

  lemma EdgeIsMostlyOpaque(s: seq<Byte>, w: nat, h: nat)
    requires Patched(s, w, h)
    ensures EdgeTransparency(s, w, h) < 0.35
  {
    hide Patched;
    hide Raw;
    hide CountTransparent;
    hide TopAndBottom;
    hide LeftAndRight;
    PatchedSize(s, w, h);
    RowChecks(s, w, h, w);
    ColumnChecks(s, w, h, TopAndBottom(h, w), h - 1);
    EdgeChecksAreTheBorder(w, h);
    hide InGrid;
    hide OnBorder;
  }

  lemma KeepsMostOfIt(s: seq<Byte>, w: nat, h: nat)
    requires Patched(s, w, h)
    ensures Opaque(s, w, h) >= 0.04
  {
    var p := Point(1, 1);
    assert AlphaAt(s, w, h, p) == 255;
    assert Index(w, h, p) == 5;
    assert AlphaByte(s, 5) == 255;
    hide Patched;
    assert 5 in OpaquePixels(s, 16);
    SubsetSmaller({5}, OpaquePixels(s, 16));
    RatioMonotone(1, |OpaquePixels(s, 16)|, 16);
  }

  // The upload processes the image, its mildest trial keeps over 4% of it, and the result is the image itself.
  lemma LeftAloneWithoutBeingTooEager(result: seq<Byte>)
    requires Outcome(Image(), 4, 4, result)
    ensures EdgeTransparency(Image(), 4, 4) < 0.35
    ensures result == Image() && TrialOpaque(Image(), 4, 4, 0) >= 0.04
  {
    ImageIsPatched();
    PatchedIsLeftAlone(Image(), 4, 4, result);
    hide Image;
    hide Outcome;
    hide EdgeTransparency;
  }

  lemma PatchedIsLeftAlone(s: seq<Byte>, w: nat, h: nat, result: seq<Byte>)
    requires Patched(s, w, h) && Outcome(s, w, h, result)
    ensures EdgeTransparency(s, w, h) < 0.35
    ensures result == s && TrialOpaque(s, w, h, 0) >= 0.04
  {
    EdgeIsMostlyOpaque(s, w, h);
    KeepsMostOfIt(s, w, h);
    forall k: nat | k < 3
      ensures Trial(s, w, h, k) == s
    {
      TrialsChangeNothing(s, w, h, k);
    }
    hide Trial;
    hide Wins;
    hide Patched;
    hide Opaque;
    hide EdgeTransparency;
  }
}

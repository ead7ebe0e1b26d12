// removeFringeHalos: repeated in-place raster passes that eat a light fringe from its transparent side.
module FringeHalo {
  import opened Pixels
  import opened FloodFill

  predicate IsFringe(c: Rgb) {
    Average(c) > 215.0 && Spread(c) < 55
  }

  // An opaque light neutral pixel, the only kind a pass may clear.
  predicate Halo(s: seq<Byte>, w: nat, h: nat, p: Point)
    requires Raw(s, w, h)
  {
    InGrid(w, h, p) && !Transparent(s, w, h, p) && IsFringe(ColourAt(s, w, h, p))
  }

  predicate OutsideOrTransparent(s: seq<Byte>, w: nat, h: nat, q: Point)
    requires Raw(s, w, h)
  {
    InGrid(w, h, q) ==> Transparent(s, w, h, q)
  }

  predicate HasTransparentNeighbor(s: seq<Byte>, w: nat, h: nat, p: Point)
    requires Raw(s, w, h)
  {
    || OutsideOrTransparent(s, w, h, Point(p.x + 1, p.y))
    || OutsideOrTransparent(s, w, h, Point(p.x - 1, p.y))
    || OutsideOrTransparent(s, w, h, Point(p.x, p.y + 1))
    || OutsideOrTransparent(s, w, h, Point(p.x, p.y - 1))
  }

  lemma TransparentNeighbor(s: seq<Byte>, w: nat, h: nat, p: Point)
    requires Raw(s, w, h) && InGrid(w, h, p)
    ensures HasTransparentNeighbor(s, w, h, p) <==>
      OnBorder(w, h, p) || exists q :: InGrid(w, h, q) && Adjacent(q, p) && Transparent(s, w, h, q)
  {
    if HasTransparentNeighbor(s, w, h, p) && !OnBorder(w, h, p) {
      var q :|
        && q in [Point(p.x + 1, p.y), Point(p.x - 1, p.y), Point(p.x, p.y + 1), Point(p.x, p.y - 1)]
        && OutsideOrTransparent(s, w, h, q);
      assert InGrid(w, h, q) && Adjacent(q, p);
    }
    if exists q :: InGrid(w, h, q) && Adjacent(q, p) && Transparent(s, w, h, q) {
      var q :| InGrid(w, h, q) && Adjacent(q, p) && Transparent(s, w, h, q);
      assert q in [Point(p.x + 1, p.y), Point(p.x - 1, p.y), Point(p.x, p.y + 1), Point(p.x, p.y - 1)];
    }
  }

  // A walk over halo pixels from one that touches the image edge or a pixel transparent at entry.
  ghost predicate HaloPath(s: seq<Byte>, w: nat, h: nat, path: seq<Point>)
    requires Raw(s, w, h)
  {
    && |path| > 0
    && (forall k :: 0 <= k < |path| ==> Halo(s, w, h, path[k]))
    && HasTransparentNeighbor(s, w, h, path[0])
    && (forall k :: 0 < k < |path| ==> Adjacent(path[k - 1], path[k]))
  }

  // How often the walk steps against the raster order; a pass can follow it only between such steps.
  ghost function Reversals(path: seq<Point>): nat {
    if |path| <= 1 then 0
    else
      Reversals(path[..|path| - 1]) + (if Before(path[|path| - 1], path[|path| - 2]) then 1 else 0)
  }

  ghost predicate Eaten(s: seq<Byte>, w: nat, h: nat, passes: nat, p: Point)
    requires Raw(s, w, h)
  {
    exists path :: HaloPath(s, w, h, path) && path[|path| - 1] == p && Reversals(path) < passes
  }

  // Exactly what `passes` passes clear: the pixels a halo path reaches with fewer reversals than that.
  ghost function EatenBy(s: seq<Byte>, w: nat, h: nat, passes: nat): iset<Point>
    requires Raw(s, w, h)
  {
    iset p | Eaten(s, w, h, passes, p)
  }

  lemma EatenSeed(s: seq<Byte>, w: nat, h: nat, passes: nat, p: Point)
    requires Raw(s, w, h) && Halo(s, w, h, p) && HasTransparentNeighbor(s, w, h, p) && passes > 0
    ensures Eaten(s, w, h, passes, p)
  {
    var path := [p];
    assert HaloPath(s, w, h, path) && path[|path| - 1] == p && Reversals(path) < passes;
  }

  lemma LongerPath(s: seq<Byte>, w: nat, h: nat, path: seq<Point>, p: Point)
    requires Raw(s, w, h) && HaloPath(s, w, h, path) && Halo(s, w, h, p) && Adjacent(path[|path| - 1], p)
    ensures HaloPath(s, w, h, path + [p])
    ensures Reversals(path + [p]) == Reversals(path) + (if Before(p, path[|path| - 1]) then 1 else 0)
  {
    hide Halo;
    hide HasTransparentNeighbor;
    hide Raw;
    hide Adjacent;
    hide Before;
    var longer := path + [p];
    assert longer[..|longer| - 1] == path;
  }

  // Forward steps cost nothing, backward ones a pass.
  lemma EatenStep(s: seq<Byte>, w: nat, h: nat, passes: nat, q: Point, p: Point)
    requires Raw(s, w, h) && Halo(s, w, h, p) && Adjacent(q, p)
    requires if Before(p, q) then passes > 0 && Eaten(s, w, h, passes - 1, q) else Eaten(s, w, h, passes, q)
    ensures Eaten(s, w, h, passes, p)
  {
    hide Halo;
    hide HasTransparentNeighbor;
    hide Raw;
    hide Adjacent;
    hide Before;
    var before := if Before(p, q) then passes - 1 else passes;
    assert Eaten(s, w, h, before, q);
    var path :| HaloPath(s, w, h, path) && path[|path| - 1] == q && Reversals(path) < before;
    LongerPath(s, w, h, path, p);
    hide HaloPath;
    hide Reversals;
    assert (path + [p])[|path|] == p;
  }

  lemma EatenLastStep(s: seq<Byte>, w: nat, h: nat, passes: nat, p: Point) returns (q: Point)
    requires Raw(s, w, h) && Eaten(s, w, h, passes, p)
    ensures passes > 0 && Halo(s, w, h, p)
    ensures HasTransparentNeighbor(s, w, h, p) || (
      && Adjacent(q, p)
      && (if Before(p, q) then Eaten(s, w, h, passes - 1, q) else Eaten(s, w, h, passes, q)))
  {
    q := p;
    var path :| HaloPath(s, w, h, path) && path[|path| - 1] == p && Reversals(path) < passes;
    if |path| > 1 {
      q := path[|path| - 2];
      var shorter := path[..|path| - 1];
      assert HaloPath(s, w, h, shorter) && shorter[|shorter| - 1] == q;
      assert Adjacent(path[|path| - 2], path[|path| - 1]);
    }
  }

  lemma MorePassesEatMore(s: seq<Byte>, w: nat, h: nat, passes: nat, more: nat)
    requires Raw(s, w, h) && passes <= more
    ensures EatenBy(s, w, h, passes) <= EatenBy(s, w, h, more)
  {
    forall p | Eaten(s, w, h, passes, p)
      ensures Eaten(s, w, h, more, p)
    {
      var path :| HaloPath(s, w, h, path) && path[|path| - 1] == p && Reversals(path) < passes;
      assert Reversals(path) < more;
    }
  }

  // Once a pass adds nothing, no later pass does: the early exit loses nothing.
  lemma StableOnceUnchanged(s: seq<Byte>, w: nat, h: nat, passes: nat, more: nat)
    requires Raw(s, w, h) && passes <= more
    requires EatenBy(s, w, h, passes + 1) <= EatenBy(s, w, h, passes)
    ensures EatenBy(s, w, h, more) == EatenBy(s, w, h, passes)
  {
    MorePassesEatMore(s, w, h, passes, more);
    forall p | Eaten(s, w, h, more, p)
      ensures Eaten(s, w, h, passes, p)
    {
      var path :| HaloPath(s, w, h, path) && path[|path| - 1] == p && Reversals(path) < more;
      PathIsEaten(s, w, h, passes, path);
    }
  }

  lemma {:induction false} PathIsEaten(s: seq<Byte>, w: nat, h: nat, passes: nat, path: seq<Point>)
    requires Raw(s, w, h) && HaloPath(s, w, h, path)
    requires EatenBy(s, w, h, passes + 1) <= EatenBy(s, w, h, passes)
    ensures Eaten(s, w, h, passes, path[|path| - 1])
  {
    var p := path[|path| - 1];
    if |path| == 1 {
      EatenSeed(s, w, h, passes + 1, p);
    } else {
      var q := path[|path| - 2];
      PathIsEaten(s, w, h, passes, path[..|path| - 1]);
      MorePassesEatMore(s, w, h, passes, passes + 1);
      assert q in EatenBy(s, w, h, passes) && q in EatenBy(s, w, h, passes + 1);
      EatenStep(s, w, h, passes + 1, q, p);
    }
    assert p in EatenBy(s, w, h, passes + 1);
  }

  // What is cleared after `pass` whole passes and the part of the next one before pixel `at`.
  ghost function EatenSoFar(s: seq<Byte>, w: nat, h: nat, pass: nat, at: Point): iset<Point>
    requires Raw(s, w, h)
  {
    iset p | Eaten(s, w, h, pass, p) || (Eaten(s, w, h, pass + 1, p) && Before(p, at))
  }

  // The visit of one pixel: it is cleared now exactly when the path characterisation says so.
  lemma VisitDecides(s: seq<Byte>, w: nat, h: nat, pass: nat, at: Point)
    requires Raw(s, w, h) && InGrid(w, h, at)
    ensures var t := Clear(s, w, h, EatenSoFar(s, w, h, pass, at));
            && (Transparent(t, w, h, at) ==>
                 (at in EatenSoFar(s, w, h, pass, at) <==> Eaten(s, w, h, pass + 1, at)))
            && (!Transparent(t, w, h, at) ==>
                 && at !in EatenSoFar(s, w, h, pass, at)
                 && (Eaten(s, w, h, pass + 1, at) <==>
                     IsFringe(ColourAt(t, w, h, at)) && HasTransparentNeighbor(t, w, h, at)))
  {
    var c := EatenSoFar(s, w, h, pass, at);
    var t := Clear(s, w, h, c);
    ClearAt(s, w, h, c, at);
    MorePassesEatMore(s, w, h, pass, pass + 1);
    assert Eaten(s, w, h, pass, at) ==> at in EatenBy(s, w, h, pass + 1);
    if Eaten(s, w, h, pass + 1, at) {
      var _ := EatenLastStep(s, w, h, pass + 1, at);
    }
    if !Transparent(t, w, h, at) {
      TransparentNeighbor(t, w, h, at);
      TransparentNeighbor(s, w, h, at);
      if IsFringe(ColourAt(t, w, h, at)) && HasTransparentNeighbor(t, w, h, at) {
        NeighbourFeeds(s, w, h, pass, at);
      }
      if Eaten(s, w, h, pass + 1, at) {
        FedByNeighbour(s, w, h, pass, at);
      }
    }
  }

  lemma NeighbourFeeds(s: seq<Byte>, w: nat, h: nat, pass: nat, at: Point)
    requires Raw(s, w, h) && Halo(s, w, h, at)
    requires HasTransparentNeighbor(Clear(s, w, h, EatenSoFar(s, w, h, pass, at)), w, h, at)
    ensures Eaten(s, w, h, pass + 1, at)
  {
    var c := EatenSoFar(s, w, h, pass, at);
    var t := Clear(s, w, h, c);
    TransparentNeighbor(t, w, h, at);
    TransparentNeighbor(s, w, h, at);
    if HasTransparentNeighbor(s, w, h, at) {
      EatenSeed(s, w, h, pass + 1, at);
    } else {
      var q :| InGrid(w, h, q) && Adjacent(q, at) && Transparent(t, w, h, q);
      ClearAt(s, w, h, c, q);
      assert q in c;
      if !Before(at, q) {
        MorePassesEatMore(s, w, h, pass, pass + 1);
        assert q in EatenBy(s, w, h, pass) ==> q in EatenBy(s, w, h, pass + 1);
      }
      EatenStep(s, w, h, pass + 1, q, at);
    }
  }

  lemma FedByNeighbour(s: seq<Byte>, w: nat, h: nat, pass: nat, at: Point)
    requires Raw(s, w, h) && InGrid(w, h, at) && Eaten(s, w, h, pass + 1, at)
    ensures HasTransparentNeighbor(Clear(s, w, h, EatenSoFar(s, w, h, pass, at)), w, h, at)
  {
    var c := EatenSoFar(s, w, h, pass, at);
    var t := Clear(s, w, h, c);
    var q := EatenLastStep(s, w, h, pass + 1, at);
    TransparentNeighbor(t, w, h, at);
    TransparentNeighbor(s, w, h, at);
    if HasTransparentNeighbor(s, w, h, at) && !OnBorder(w, h, at) {
      var o :| InGrid(w, h, o) && Adjacent(o, at) && Transparent(s, w, h, o);
      ClearAt(s, w, h, c, o);
      assert Transparent(t, w, h, o);
    } else if !OnBorder(w, h, at) {
      assert InGrid(w, h, q) && q in c;
      ClearAt(s, w, h, c, q);
      assert Transparent(t, w, h, q);
    }
  }

  method RemoveFringeHalos(rgba: array<Byte>, w: nat, h: nat, passes: nat)
    requires Raw(rgba[..], w, h)
    modifies rgba
    ensures rgba[..] == Clear(old(rgba[..]), w, h, EatenBy(old(rgba[..]), w, h, passes))
  {
    ghost var s := rgba[..];
    NothingEatenYet(s, w, h);
    for pass := 0 to passes
      invariant rgba[..] == Clear(s, w, h, EatenBy(s, w, h, pass))
    {
      var changed := OnePass(rgba, w, h, s, pass);
      if !changed {
        StableOnceUnchanged(s, w, h, pass, passes);
        break;
      }
    }
  }

  lemma NothingEatenYet(s: seq<Byte>, w: nat, h: nat)
    requires Raw(s, w, h)
    ensures Clear(s, w, h, EatenBy(s, w, h, 0)) == s
  {
    ClearNothing(s, w, h);
    ClearSame(s, w, h, EatenBy(s, w, h, 0), iset{});
  }

  // The buffer in the middle of a pass, and whether anything was cleared in it so far.
  ghost predicate Passing(s: seq<Byte>, rgba: seq<Byte>, w: nat, h: nat, pass: nat, at: Point, changed: bool)
    requires Raw(s, w, h)
  {
    && rgba == Clear(s, w, h, EatenSoFar(s, w, h, pass, at))
    && (!changed ==> forall p :: Before(p, at) && Eaten(s, w, h, pass + 1, p) ==> Eaten(s, w, h, pass, p))
  }

  predicate ClearsNow(rgba: seq<Byte>, w: nat, h: nat, at: Point)
    requires Raw(rgba, w, h) && InGrid(w, h, at)
  {
    !Transparent(rgba, w, h, at) && IsFringe(ColourAt(rgba, w, h, at)) && HasTransparentNeighbor(rgba, w, h, at)
  }

  lemma VisitPixel(s: seq<Byte>, rgba: seq<Byte>, w: nat, h: nat, pass: nat, at: Point, changed: bool)
    requires Raw(s, w, h) && InGrid(w, h, at) && Passing(s, rgba, w, h, pass, at, changed)
    ensures Passing(s, if ClearsNow(rgba, w, h, at) then rgba[Index(w, h, at) * 4 + 3 := 0] else rgba,
                    w, h, pass, Point(at.x + 1, at.y), changed || ClearsNow(rgba, w, h, at))
  {
    VisitDecides(s, w, h, pass, at);
    VisitMoves(s, w, h, pass, at);
  }

  // From the end of one row to the start of the next.
  lemma NextRow(s: seq<Byte>, rgba: seq<Byte>, w: nat, h: nat, pass: nat, y: nat, changed: bool)
    requires Raw(s, w, h) && y < h && Passing(s, rgba, w, h, pass, Point(w, y), changed)
    ensures Passing(s, rgba, w, h, pass, Point(0, y + 1), changed)
  {
    EatenInGrid(s, w, h, pass + 1);
    ClearSame(s, w, h, EatenSoFar(s, w, h, pass, Point(w, y)), EatenSoFar(s, w, h, pass, Point(0, y + 1)));
  }

  lemma PassEnds(s: seq<Byte>, rgba: seq<Byte>, w: nat, h: nat, pass: nat, changed: bool)
    requires Raw(s, w, h) && Passing(s, rgba, w, h, pass, Point(0, h), changed)
    ensures rgba == Clear(s, w, h, EatenBy(s, w, h, pass + 1))
    ensures !changed ==> EatenBy(s, w, h, pass + 1) <= EatenBy(s, w, h, pass)
  {
    EatenInGrid(s, w, h, pass + 1);
    MorePassesEatMore(s, w, h, pass, pass + 1);
    forall p | Eaten(s, w, h, pass, p)
      ensures Eaten(s, w, h, pass + 1, p)
    {
      assert p in EatenBy(s, w, h, pass) && p in EatenBy(s, w, h, pass + 1);
    }
    ClearSame(s, w, h, EatenSoFar(s, w, h, pass, Point(0, h)), EatenBy(s, w, h, pass + 1));
  }

  // One raster pass over the buffer, in place.
  method OnePass(rgba: array<Byte>, w: nat, h: nat, ghost s: seq<Byte>, ghost pass: nat) returns (changed: bool)
    requires Raw(s, w, h) && rgba[..] == Clear(s, w, h, EatenBy(s, w, h, pass))
    modifies rgba
    ensures rgba[..] == Clear(s, w, h, EatenBy(s, w, h, pass + 1))
    ensures !changed ==> EatenBy(s, w, h, pass + 1) <= EatenBy(s, w, h, pass)
  {
    changed := false;
    EatenInGrid(s, w, h, pass + 1);
    ClearSame(s, w, h, EatenBy(s, w, h, pass), EatenSoFar(s, w, h, pass, Point(0, 0)));
    for y := 0 to h
      invariant Passing(s, rgba[..], w, h, pass, Point(0, y), changed)
    {
      for x := 0 to w
        invariant Passing(s, rgba[..], w, h, pass, Point(x, y), changed)
      {
        var at := Point(x, y);
        ghost var bytes := rgba[..];
        VisitPixel(s, bytes, w, h, pass, at, changed);
        if ClearsNow(rgba[..], w, h, at) {
          rgba[Index(w, h, at) * 4 + 3] := 0;
          assert rgba[..] == bytes[Index(w, h, at) * 4 + 3 := 0];
          changed := true;
        }
      }
      NextRow(s, rgba[..], w, h, pass, y, changed);
    }
    PassEnds(s, rgba[..], w, h, pass, changed);
  }

  lemma EatenInGrid(s: seq<Byte>, w: nat, h: nat, passes: nat)
    requires Raw(s, w, h)
    ensures forall p :: Eaten(s, w, h, passes, p) ==> Halo(s, w, h, p)
  {
  }

  // Moving past a pixel: the cleared set gains it exactly when it is eaten by the end of this pass.
  lemma VisitMoves(s: seq<Byte>, w: nat, h: nat, pass: nat, at: Point)
    requires Raw(s, w, h) && InGrid(w, h, at)
    ensures var c := EatenSoFar(s, w, h, pass, at);
            Clear(s, w, h, EatenSoFar(s, w, h, pass, Point(at.x + 1, at.y)))
            == if Eaten(s, w, h, pass + 1, at)
               then Clear(s, w, h, c)[Index(w, h, at) * 4 + 3 := 0] else Clear(s, w, h, c)
  {
    var c, d := EatenSoFar(s, w, h, pass, at), EatenSoFar(s, w, h, pass, Point(at.x + 1, at.y));
    MorePassesEatMore(s, w, h, pass, pass + 1);
    if Eaten(s, w, h, pass + 1, at) {
      ClearSame(s, w, h, d, c + iset{at});
      ClearOneMore(s, w, h, c, at);
    } else {
      assert at !in EatenBy(s, w, h, pass + 1);
      ClearSame(s, w, h, d, c);
    }
  }

  // The path behind a cleared pixel: light neutral pixels, all cleared, back to an edge or an entry transparency.
  lemma EatenAlongAPath(s: seq<Byte>, w: nat, h: nat, passes: nat, p: Point) returns (path: seq<Point>)
    requires Raw(s, w, h) && Eaten(s, w, h, passes, p)
    ensures |path| > 0 && path[|path| - 1] == p
    ensures forall k :: 0 <= k < |path| ==> Eaten(s, w, h, passes, path[k]) && IsFringe(ColourAt(s, w, h, path[k]))
    ensures forall k :: 0 < k < |path| ==> Adjacent(path[k - 1], path[k])
    ensures OnBorder(w, h, path[0])
      || exists q :: InGrid(w, h, q) && Adjacent(q, path[0]) && Transparent(s, w, h, q)
  {
    hide Halo;
    hide HasTransparentNeighbor;
    hide Raw;
    hide Adjacent;
    hide Before;
    path :| HaloPath(s, w, h, path) && path[|path| - 1] == p && Reversals(path) < passes;
    hide Reversals;
    forall k | 0 <= k < |path|
      ensures Eaten(s, w, h, passes, path[k])
    {
      PrefixReversals(path, k + 1);
      PrefixPath(s, w, h, path, k);
    }
    hide Eaten;
    PathColours(s, w, h, path);
    TransparentNeighbor(s, w, h, path[0]);
  }

  lemma PrefixPath(s: seq<Byte>, w: nat, h: nat, path: seq<Point>, k: nat)
    requires Raw(s, w, h) && HaloPath(s, w, h, path) && k < |path|
    ensures HaloPath(s, w, h, path[..k + 1]) && path[..k + 1][k] == path[k]
  {
    hide Halo;
    hide HasTransparentNeighbor;
    hide Raw;
    hide Adjacent;
  }

  lemma PathColours(s: seq<Byte>, w: nat, h: nat, path: seq<Point>)
    requires Raw(s, w, h) && HaloPath(s, w, h, path)
    ensures forall k :: 0 <= k < |path| ==> InGrid(w, h, path[k]) && IsFringe(ColourAt(s, w, h, path[k]))
  {
    hide HasTransparentNeighbor;
    hide Raw;
    hide Adjacent;
    hide InGrid;
    hide IsFringe;
    hide ColourAt;
    hide Transparent;
  }

  lemma {:induction false} PrefixReversals(path: seq<Point>, n: nat)
    requires 1 <= n <= |path|
    ensures Reversals(path[..n]) <= Reversals(path)
    decreases |path|
  {
    if n < |path| {
      PrefixReversals(path[..|path| - 1], n);
      assert path[..|path| - 1][..n] == path[..n];
    } else {
      assert path[..n] == path;
    }
  }

  // More transparency at entry never leaves more opaque pixels at exit.
  lemma FringeMonotone(s: seq<Byte>, t: seq<Byte>, w: nat, h: nat, passes: nat)
    requires Raw(s, w, h) && Raw(t, w, h)
    requires forall p :: InGrid(w, h, p) ==> ColourAt(s, w, h, p) == ColourAt(t, w, h, p)
    requires forall p :: InGrid(w, h, p) && Transparent(s, w, h, p) ==> Transparent(t, w, h, p)
    ensures forall p :: InGrid(w, h, p) && Transparent(Clear(s, w, h, EatenBy(s, w, h, passes)), w, h, p)
              ==> Transparent(Clear(t, w, h, EatenBy(t, w, h, passes)), w, h, p)
  {
    forall p | InGrid(w, h, p) && Transparent(Clear(s, w, h, EatenBy(s, w, h, passes)), w, h, p)
      ensures Transparent(Clear(t, w, h, EatenBy(t, w, h, passes)), w, h, p)
    {
      ClearAt(s, w, h, EatenBy(s, w, h, passes), p);
      ClearAt(t, w, h, EatenBy(t, w, h, passes), p);
      if !Transparent(s, w, h, p) {
        var path :| HaloPath(s, w, h, path) && path[|path| - 1] == p && Reversals(path) < passes;
        PathEatenInBoth(s, t, w, h, passes, path);
      }
    }
  }

  lemma {:induction false} PathEatenInBoth(s: seq<Byte>, t: seq<Byte>, w: nat, h: nat, passes: nat, path: seq<Point>)
    requires Raw(s, w, h) && Raw(t, w, h)
    requires forall p :: InGrid(w, h, p) ==> ColourAt(s, w, h, p) == ColourAt(t, w, h, p)
    requires forall p :: InGrid(w, h, p) && Transparent(s, w, h, p) ==> Transparent(t, w, h, p)
    requires HaloPath(s, w, h, path) && Reversals(path) < passes
    ensures Transparent(t, w, h, path[|path| - 1]) || Eaten(t, w, h, passes, path[|path| - 1])
    decreases |path|
  {
    var p := path[|path| - 1];
    TransparentNeighbor(s, w, h, p);
    TransparentNeighbor(t, w, h, p);
    if Transparent(t, w, h, p) {
    } else if HasTransparentNeighbor(t, w, h, p) {
      EatenSeed(t, w, h, passes, p);
    } else {
      var q := path[|path| - 2];
      assert Adjacent(q, p) && InGrid(w, h, q);
      PathEatenInBoth(s, t, w, h, if Before(p, q) then passes - 1 else passes, path[..|path| - 1]);
      EatenStep(t, w, h, passes, q, p);
    }
  }
}

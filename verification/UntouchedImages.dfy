// When removeSolidBackground leaves an image alone, told from its pixels.
module UntouchedImages {
  import opened Pixels
  import opened FloodFill
  import opened FringeHalo
  import opened BackgroundRemoval

  // What the mildest fill reaches is already fully transparent, and no light opaque pixel touches transparency.
  ghost predicate NothingToClear(s: seq<Byte>, w: nat, h: nat)
    requires Raw(s, w, h)
  {
    && (forall p :: InGrid(w, h, p) && p in EdgeBackdrop(s, w, h, References(s, w, h), Tolerance(0)) ==>
          AlphaAt(s, w, h, p) == 0)
    && (forall p :: InGrid(w, h, p) && Halo(s, w, h, p) ==> !HasTransparentNeighbor(s, w, h, p))
  }

  // An opaque border pixel that passes for backdrop at the k-th tolerance.
  ghost predicate FreshBorder(s: seq<Byte>, w: nat, h: nat, k: nat)
    requires Raw(s, w, h) && k < 3
  {
    exists p :: FreshAt(s, w, h, k, p)
  }

  ghost predicate FreshAt(s: seq<Byte>, w: nat, h: nat, k: nat, p: Point)
    requires Raw(s, w, h) && k < 3
  {
    OnBorder(w, h, p) && !Transparent(s, w, h, p)
    && IsNeutral(ColourAt(s, w, h, p), References(s, w, h), Tolerance(k))
  }

  // A larger tolerance beats doing nothing if it keeps 4% of the image and either opens up the border, or brings down
  // to 97% an image that is more opaque than that yet transparent somewhere at its edge.
  ghost predicate Beaten(s: seq<Byte>, w: nat, h: nat, k: nat)
    requires Raw(s, w, h) && k < 3
  {
    && TrialOpaque(s, w, h, k) >= 0.04
    && (FreshBorder(s, w, h, k)
        || (EdgeTransparency(s, w, h) > 0.0 && Opaque(s, w, h) > 0.97 && TrialOpaque(s, w, h, k) <= 0.97))
  }

  // ----- nothing to clear -----

  lemma NothingEaten(s: seq<Byte>, w: nat, h: nat, passes: nat)
    requires Raw(s, w, h)
    requires forall p :: InGrid(w, h, p) && Halo(s, w, h, p) ==> !HasTransparentNeighbor(s, w, h, p)
    ensures forall p :: !Eaten(s, w, h, passes, p)
  {
  }

  lemma ClearingNothing(s: seq<Byte>, w: nat, h: nat)
    requires Raw(s, w, h) && NothingToClear(s, w, h)
    ensures Trial(s, w, h, 0) == s
  {
    ClearedAlready(s, w, h, EdgeBackdrop(s, w, h, References(s, w, h), Tolerance(0)));
    NothingEaten(s, w, h, PASSES);
    ClearedAlready(s, w, h, EatenBy(s, w, h, PASSES));
  }

  lemma UnchangedHadNothing(s: seq<Byte>, w: nat, h: nat)
    requires Raw(s, w, h) && Trial(s, w, h, 0) == s
    ensures NothingToClear(s, w, h)
  {
    var e := EdgeBackdrop(s, w, h, References(s, w, h), Tolerance(0));
    var filled := Clear(s, w, h, e);
    forall p | InGrid(w, h, p) && p in e
      ensures AlphaAt(s, w, h, p) == 0
    {
      ClearAt(s, w, h, e, p);
      ClearAt(filled, w, h, EatenBy(filled, w, h, PASSES), p);
    }
    ClearedAlready(s, w, h, e);
    forall p | InGrid(w, h, p) && Halo(s, w, h, p)
      ensures !HasTransparentNeighbor(s, w, h, p)
    {
      if HasTransparentNeighbor(s, w, h, p) {
        EatenSeed(s, w, h, PASSES, p);
        ClearAt(s, w, h, EatenBy(s, w, h, PASSES), p);
      }
    }
  }

  // ----- the border after a trial -----

  lemma BorderIsNoHalo(s: seq<Byte>, w: nat, h: nat, p: Point)
    requires Raw(s, w, h) && NothingToClear(s, w, h) && OnBorder(w, h, p)
    ensures !Halo(s, w, h, p)
  {
    TransparentNeighbor(s, w, h, p);
  }

  lemma FilledBorder(s: seq<Byte>, w: nat, h: nat, refs: seq<Rgb>, tolerance: int, p: Point)
    requires Raw(s, w, h) && OnBorder(w, h, p)
    ensures p in EdgeBackdrop(s, w, h, refs, tolerance) <==> IsNeutral(ColourAt(s, w, h, p), refs, tolerance)
  {
    var b := Backdrop(s, w, h, refs, tolerance);
    if p in b {
      JoinedBorder(w, h, b, p);
    } else if Joined(w, h, b, p) {
      JoinedIsIn(w, h, b, p);
    }
  }

  // A pixel that was no halo before some others were cleared is not eaten afterwards.
  lemma NoHaloIsKept(s: seq<Byte>, w: nat, h: nat, c: iset<Point>, p: Point)
    requires Raw(s, w, h) && InGrid(w, h, p) && !Halo(s, w, h, p) && !Transparent(s, w, h, p)
    ensures !Eaten(Clear(s, w, h, c), w, h, PASSES, p)
  {
    ClearAt(s, w, h, c, p);
    EatenInGrid(Clear(s, w, h, c), w, h, PASSES);
  }

  // With no halo at the border to begin with, a trial opens a border pixel exactly when it passes for backdrop.
  lemma BorderAfterTrial(s: seq<Byte>, w: nat, h: nat, k: nat, p: Point)
    requires Raw(s, w, h) && k < 3 && NothingToClear(s, w, h) && OnBorder(w, h, p) && !Transparent(s, w, h, p)
    ensures Transparent(Trial(s, w, h, k), w, h, p) <==>
      IsNeutral(ColourAt(s, w, h, p), References(s, w, h), 48 + 24 * k)
  {
    var refs := References(s, w, h);
    var e := EdgeBackdrop(s, w, h, refs, Tolerance(k));
    var filled := Clear(s, w, h, e);
    BorderIsNoHalo(s, w, h, p);
    FilledBorder(s, w, h, refs, Tolerance(k), p);
    NoHaloIsKept(s, w, h, e, p);
    hide NothingToClear;
    hide Eaten;
    hide IsNeutral;
    hide References;
    hide Halo;
    ClearAt(s, w, h, e, p);
    ClearAt(filled, w, h, EatenBy(filled, w, h, PASSES), p);
  }

  lemma JoinedIsIn(w: nat, h: nat, b: iset<Point>, p: Point)
    requires Joined(w, h, b, p)
    ensures p in b
  {
  }

  lemma {:induction false} CountRisesStrictly(s: seq<Byte>, t: seq<Byte>, w: nat, h: nat, ps: seq<Point>)
    requires Raw(s, w, h) && Raw(t, w, h) && NoMoreOpaque(s, t, w, h)
    ensures CountTransparent(s, w, h, ps) < CountTransparent(t, w, h, ps) <==>
      exists p :: p in ps && InGrid(w, h, p) && !Transparent(s, w, h, p) && Transparent(t, w, h, p)
  {
    CountRises(s, t, w, h, ps);
    if ps != [] {
      var before, last := ps[..|ps| - 1], ps[|ps| - 1];
      assert ps == before + [last];
      CountRises(s, t, w, h, before);
      CountRisesStrictly(s, t, w, h, before);
      hide Transparent;
    }
  }

  lemma RatioStrict(a: nat, b: nat, n: nat)
    requires n > 0
    ensures Ratio(a, n) < Ratio(b, n) <==> a < b
  {
    if a < b {
      RatioMonotone(a, b, n);
      assert (b - a) as real / n as real > 0.0;
    } else {
      RatioMonotone(b, a, n);
    }
  }

  lemma FreshIsOpened(s: seq<Byte>, w: nat, h: nat, k: nat, p: Point)
    requires Raw(s, w, h) && k < 3 && NothingToClear(s, w, h)
    ensures FreshAt(s, w, h, k, p) <==>
      OnBorder(w, h, p) && !Transparent(s, w, h, p) && Transparent(Trial(s, w, h, k), w, h, p)
  {
    hide NothingToClear;
    hide Trial;
    hide References;
    hide Transparent;
    hide IsNeutral;
    hide ColourAt;
    if OnBorder(w, h, p) && !Transparent(s, w, h, p) {
      BorderAfterTrial(s, w, h, k, p);
    }
  }

  lemma EdgeOpensIff(s: seq<Byte>, w: nat, h: nat, k: nat)
    requires Raw(s, w, h) && k < 3 && NothingToClear(s, w, h)
    ensures EdgeTransparency(s, w, h) < EdgeTransparency(Trial(s, w, h, k), w, h) <==> FreshBorder(s, w, h, k)
  {
    hide NothingToClear;
    hide Trial;
    hide References;
    hide Transparent;
    hide CountTransparent;
    hide EdgeChecks;
    assert w >= 1 && h >= 1;
    hide Raw;
    hide FreshAt;
    hide NoMoreOpaque;
    var t, ps := Trial(s, w, h, k), EdgeChecks(w, h);
    ClearingNothing(s, w, h);
    OpaqueShareFalls(s, w, h, 0, k);
    CountRisesStrictly(s, t, w, h, ps);
    EdgeChecksAreTheBorder(w, h);
    hide OnBorder;
    RatioStrict(CountTransparent(s, w, h, ps), CountTransparent(t, w, h, ps), |ps|);
    forall p
      ensures FreshAt(s, w, h, k, p) <==>
        p in ps && InGrid(w, h, p) && !Transparent(s, w, h, p) && Transparent(t, w, h, p)
    {
      FreshIsOpened(s, w, h, k, p);
    }
  }

  lemma ScoreBeats(e: real, o: real, e': real, o': real)
    requires 0.0 <= e <= e' && o' <= o && o >= 0.04
    ensures Score(e', o') > Score(e, o) <==> o' >= 0.04 && (e < e' || (e > 0.0 && o > 0.97 && o' <= 0.97))
  {
  }

  lemma BeatenIff(s: seq<Byte>, w: nat, h: nat, k: nat)
    requires Raw(s, w, h) && k < 3 && NothingToClear(s, w, h) && Opaque(s, w, h) >= 0.04
    ensures TrialScores(s, w, h)[k] > ScoreOf(s, w, h) <==> Beaten(s, w, h, k)
  {
    ClearingNothing(s, w, h);
    OpaqueShareFalls(s, w, h, 0, k);
    var t := Trial(s, w, h, k);
    EdgeRises(s, t, w, h);
    EdgeOpensIff(s, w, h, k);
    hide Trial;
    hide EdgeTransparency;
    hide Opaque;
    hide FreshBorder;
    hide NothingToClear;
    ScoreBeats(EdgeTransparency(s, w, h), Opaque(s, w, h), EdgeTransparency(t, w, h), Opaque(t, w, h));
  }

  // The image is left alone exactly when the mildest trial eats over 96% of it, or there is nothing for it to clear
  // and neither larger tolerance beats that.
  lemma UntouchedIff(s: seq<Byte>, w: nat, h: nat, result: seq<Byte>)
    requires Raw(s, w, h) && Outcome(s, w, h, result)
    ensures result == s <==>
      TrialOpaque(s, w, h, 0) < 0.04
      || (NothingToClear(s, w, h) && !Beaten(s, w, h, 1) && !Beaten(s, w, h, 2))
    ensures AlphaAt(s, w, h, Point(0, 0)) != 0 ==> !NothingToClear(s, w, h)
  {
    KeptIff(s, w, h, result);
    hide Outcome;
    if Trial(s, w, h, 0) == s {
      UnchangedHadNothing(s, w, h);
    }
    if NothingToClear(s, w, h) {
      ClearingNothing(s, w, h);
      if TrialOpaque(s, w, h, 0) >= 0.04 {
        MildestWinsIff(s, w, h);
      }
    }
  }

  lemma FirstOfThree(scores: seq<real>)
    requires |scores| == 3
    ensures Wins(scores, 0) <==> scores[1] <= scores[0] && scores[2] <= scores[0]
  {
  }

  lemma MildestWinsIff(s: seq<Byte>, w: nat, h: nat)
    requires Raw(s, w, h) && NothingToClear(s, w, h) && Opaque(s, w, h) >= 0.04
    ensures Wins(TrialScores(s, w, h), 0) <==> !Beaten(s, w, h, 1) && !Beaten(s, w, h, 2)
  {
    ClearingNothing(s, w, h);
    BeatenIff(s, w, h, 1);
    BeatenIff(s, w, h, 2);
    hide Beaten;
    hide NothingToClear;
    hide ScoreOf;
    hide Trial;
    hide Wins;
    assert TrialScores(s, w, h)[0] == ScoreOf(s, w, h);
    FirstOfThree(TrialScores(s, w, h));
  }
}

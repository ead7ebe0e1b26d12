// floodFillBackground: a worklist fill of the neutral backdrop from all four image edges.
module FloodFill {
  import opened Pixels

  function Abs(a: int): nat {
    if a < 0 then -a else a
  }

  function ColourDistance(c: Rgb, d: Rgb): nat {
    Abs(c.r - d.r) + Abs(c.g - d.g) + Abs(c.b - d.b)
  }

  function Max3(c: Rgb): int {
    var m := if c.r >= c.g then c.r else c.g;
    if m >= c.b then m else c.b
  }

  function Min3(c: Rgb): int {
    var m := if c.r <= c.g then c.r else c.g;
    if m <= c.b then m else c.b
  }

  function Spread(c: Rgb): int {
    Max3(c) - Min3(c)
  }

  // The source compares the average of the channels; here it is a real, never rounded.
  function Average(c: Rgb): real {
    (c.r + c.g + c.b) as real / 3.0
  }

  predicate IsNeutral(c: Rgb, refs: seq<Rgb>, tolerance: int) {
    || (exists k :: 0 <= k < |refs| && ColourDistance(c, refs[k]) <= tolerance)
    || (Average(c) > 225.0 && Spread(c) < 50)
    || (Average(c) < 36.0 && Spread(c) < 40)
    || (Spread(c) < 24 && 165.0 < Average(c) < 245.0)
  }

  ghost function Backdrop(s: seq<Byte>, w: nat, h: nat, refs: seq<Rgb>, tolerance: int): iset<Point>
    requires Raw(s, w, h)
  {
    iset p | InGrid(w, h, p) && IsNeutral(ColourAt(s, w, h, p), refs, tolerance)
  }

  // A walk over 4-neighbours inside b that starts on the image border.
  ghost predicate BorderPath(w: nat, h: nat, b: iset<Point>, path: seq<Point>) {
    && |path| > 0
    && OnBorder(w, h, path[0])
    && (forall k :: 0 <= k < |path| ==> path[k] in b)
    && (forall k :: 0 < k < |path| ==> Adjacent(path[k - 1], path[k]))
  }

  ghost predicate Joined(w: nat, h: nat, b: iset<Point>, p: Point) {
    exists path :: BorderPath(w, h, b, path) && path[|path| - 1] == p
  }

  // The pixels joined to the image border by a path of neutral pixels.
  ghost function EdgeBackdrop(s: seq<Byte>, w: nat, h: nat, refs: seq<Rgb>, tolerance: int): iset<Point>
    requires Raw(s, w, h)
  {
    iset p | Joined(w, h, Backdrop(s, w, h, refs, tolerance), p)
  }

  lemma JoinedBorder(w: nat, h: nat, b: iset<Point>, p: Point)
    requires OnBorder(w, h, p) && p in b
    ensures Joined(w, h, b, p)
  {
    assert BorderPath(w, h, b, [p]);
  }

  lemma JoinedStep(w: nat, h: nat, b: iset<Point>, p: Point, q: Point)
    requires Joined(w, h, b, p) && Adjacent(p, q) && q in b
    ensures Joined(w, h, b, q)
  {
    var path :| BorderPath(w, h, b, path) && path[|path| - 1] == p;
    var longer := path + [q];
    assert BorderPath(w, h, b, longer) && longer[|longer| - 1] == q;
  }

  // A set that holds the neutral border and is closed under neutral neighbours holds every joined pixel.
  lemma {:induction false} PathStaysIn(w: nat, h: nat, b: iset<Point>, v: iset<Point>, path: seq<Point>)
    requires BorderPath(w, h, b, path)
    requires forall p :: OnBorder(w, h, p) && p in b ==> p in v
    requires forall p, q :: p in v && q in b && Adjacent(p, q) ==> q in v
    ensures path[|path| - 1] in v
  {
    if |path| > 1 {
      var shorter := path[..|path| - 1];
      PathStaysIn(w, h, b, v, shorter);
      assert Adjacent(path[|path| - 2], path[|path| - 1]);
    }
  }

  // The guard of the source's enqueue: off-image and already visited points are not queued.
  function Enqueue(queue: seq<Point>, visited: seq<bool>, w: nat, h: nat, p: Point): seq<Point>
    requires |visited| == w * h
  {
    if !InGrid(w, h, p) || visited[Index(w, h, p)] then queue else queue + [p]
  }

  function EnqueueAround(queue: seq<Point>, visited: seq<bool>, w: nat, h: nat, p: Point): (r: seq<Point>)
    requires |visited| == w * h
    ensures queue <= r && |r| <= |queue| + 4
    ensures forall q :: q in r ==> q in queue || (InGrid(w, h, q) && Adjacent(p, q))
    ensures forall q :: InGrid(w, h, q) && Adjacent(p, q) && !visited[Index(w, h, q)] ==> q in r
  {
    var q1 := Enqueue(queue, visited, w, h, Point(p.x + 1, p.y));
    var q2 := Enqueue(q1, visited, w, h, Point(p.x - 1, p.y));
    var q3 := Enqueue(q2, visited, w, h, Point(p.x, p.y + 1));
    var r := Enqueue(q3, visited, w, h, Point(p.x, p.y - 1));
    assert forall q :: Adjacent(p, q) ==> q in [Point(p.x + 1, p.y), Point(p.x - 1, p.y), Point(p.x, p.y + 1), Point(p.x, p.y - 1)];
    r
  }

  // The initial worklist: the border, each corner twice.
  method QueueBorder(w: nat, h: nat, visited: array<bool>) returns (queue: seq<Point>)
    requires w >= 1 && h >= 1 && visited.Length == w * h
    requires forall k :: 0 <= k < visited.Length ==> !visited[k]
    ensures forall p :: p in queue <==> OnBorder(w, h, p)
  {
    queue := [];
    for x := 0 to w
      invariant forall p :: p in queue <==> InGrid(w, h, p) && p.x < x && (p.y == 0 || p.y == h - 1)
    {
      queue := Enqueue(queue, visited[..], w, h, Point(x, 0));
      queue := Enqueue(queue, visited[..], w, h, Point(x, h - 1));
    }
    for y := 0 to h
      invariant forall p :: p in queue <==>
        && InGrid(w, h, p)
        && (p.y == 0 || p.y == h - 1 || (p.y < y && (p.x == 0 || p.x == w - 1)))
    {
      queue := Enqueue(queue, visited[..], w, h, Point(0, y));
      queue := Enqueue(queue, visited[..], w, h, Point(w - 1, y));
    }
  }

  // Everything still to be explored is in the queue.
  ghost predicate Frontier(w: nat, h: nat, b: iset<Point>, v: iset<Point>, queue: seq<Point>) {
    && (forall p :: OnBorder(w, h, p) && p in b ==> p in v || p in queue)
    && (forall p, q :: p in v && q in b && Adjacent(p, q) ==> q in v || q in queue)
    && (forall q :: q in queue ==> InGrid(w, h, q))
    && (forall q :: q in queue ==> OnBorder(w, h, q) || exists p :: p in v && Adjacent(p, q))
    && (forall p :: p in v ==> Joined(w, h, b, p) && InGrid(w, h, p) && p in b)
  }

  // A popped point that is visited or not neutral leaves the frontier complete.
  lemma FrontierDrop(w: nat, h: nat, b: iset<Point>, v: iset<Point>, queue: seq<Point>, rest: seq<Point>, p: Point)
    requires Frontier(w, h, b, v, queue) && queue == rest + [p]
    requires p in v || p !in b
    ensures Frontier(w, h, b, v, rest)
  {
    assert forall q :: q in queue <==> q in rest || q == p;
  }

  // A popped neutral point joins the visited set; its neighbours keep the frontier complete.
  lemma FrontierGrow(w: nat, h: nat, b: iset<Point>, v: iset<Point>, queue: seq<Point>, rest: seq<Point>,
                     p: Point, next: seq<Point>)
    requires Frontier(w, h, b, v, queue) && queue == rest + [p]
    requires p in b && (forall q :: q in b ==> InGrid(w, h, q))
    requires forall q :: q in rest ==> q in next
    requires forall q :: q in next ==> q in rest || (InGrid(w, h, q) && Adjacent(p, q))
    requires forall q :: InGrid(w, h, q) && Adjacent(p, q) ==> q in v || q == p || q in next
    ensures Frontier(w, h, b, v + iset{p}, next)
  {
    assert forall q :: q in queue <==> q in rest || q == p;
    assert p in queue;
    if OnBorder(w, h, p) {
      JoinedBorder(w, h, b, p);
    } else {
      var o :| o in v && Adjacent(o, p);
      JoinedStep(w, h, b, o, p);
    }
    var v' := v + iset{p};
    forall q | q in next
      ensures OnBorder(w, h, q) || exists o :: o in v' && Adjacent(o, q)
    {
      if q in rest && !OnBorder(w, h, q) {
        assert q in queue;
        var o :| o in v && Adjacent(o, q);
        assert o in v';
      } else if q !in rest {
        assert p in v' && Adjacent(p, q);
      }
    }
  }

  // The flags of the visited array, read as a set of pixels.
  ghost predicate Marks(w: nat, h: nat, visited: seq<bool>, v: iset<Point>) {
    && |visited| == w * h
    && forall p :: InGrid(w, h, p) ==> (p in v <==> visited[Index(w, h, p)])
  }

  lemma MarkOneMore(w: nat, h: nat, visited: seq<bool>, v: iset<Point>, p: Point)
    requires Marks(w, h, visited, v) && InGrid(w, h, p)
    ensures Marks(w, h, visited[Index(w, h, p) := true], v + iset{p})
  {
    forall q | InGrid(w, h, q) && Index(w, h, q) == Index(w, h, p)
      ensures q == p
    {
      PixelOfIndex(w, h, p);
      PixelOfIndex(w, h, q);
    }
  }

  ghost function Unvisited(visited: seq<bool>): nat {
    if visited == [] then 0 else Unvisited(visited[1..]) + (if visited[0] then 0 else 1)
  }

  lemma {:induction false} MarkingShrinksUnvisited(visited: seq<bool>, i: nat)
    requires i < |visited| && !visited[i]
    ensures Unvisited(visited[i := true]) == Unvisited(visited) - 1
  {
    if i == 0 {
      assert visited[0 := true][1..] == visited[1..];
    } else {
      assert visited[i := true][1..] == visited[1..][i - 1 := true];
      MarkingShrinksUnvisited(visited[1..], i - 1);
    }
  }

  // When nothing is left to explore, the visited pixels are exactly the joined ones.
  lemma FillDone(w: nat, h: nat, b: iset<Point>, v: iset<Point>)
    requires Frontier(w, h, b, v, [])
    ensures forall p :: p in v <==> Joined(w, h, b, p)
  {
    forall p | Joined(w, h, b, p)
      ensures p in v
    {
      var path :| BorderPath(w, h, b, path) && path[|path| - 1] == p;
      PathStaysIn(w, h, b, v, path);
    }
  }

  // The state of the fill: buffer, flags and worklist against the visited set v.
  ghost predicate Filling(s: seq<Byte>, rgba: seq<Byte>, w: nat, h: nat, b: iset<Point>,
                          visited: seq<bool>, v: iset<Point>, queue: seq<Point>)
    requires Raw(s, w, h)
  {
    rgba == Clear(s, w, h, v) && Marks(w, h, visited, v) && Frontier(w, h, b, v, queue)
  }

  lemma FillGrow(s: seq<Byte>, rgba: seq<Byte>, w: nat, h: nat, b: iset<Point>,
                 visited: seq<bool>, v: iset<Point>, queue: seq<Point>, p: Point)
    requires Raw(s, w, h) && Filling(s, rgba, w, h, b, visited, v, queue + [p])
    requires p in b && p !in v && forall q :: q in b ==> InGrid(w, h, q)
    ensures var i := Index(w, h, p);
            && i * 4 + 3 < |rgba| && i < |visited|
            && var visited' := visited[i := true];
            && Filling(s, rgba[i * 4 + 3 := 0], w, h, b, visited', v + iset{p}, EnqueueAround(queue, visited', w, h, p))
            && Unvisited(visited') == Unvisited(visited) - 1
  {
    var i := Index(w, h, p);
    ClearOneMore(s, w, h, v, p);
    MarkOneMore(w, h, visited, v, p);
    MarkingShrinksUnvisited(visited, i);
    var visited' := visited[i := true];
    var next := EnqueueAround(queue, visited', w, h, p);
    forall q | InGrid(w, h, q) && Adjacent(p, q)
      ensures q in v || q == p || q in next
    {
      assert q in v + iset{p} <==> visited'[Index(w, h, q)];
    }
    FrontierGrow(w, h, b, v, queue + [p], queue, p, next);
  }

  lemma FillDrop(s: seq<Byte>, rgba: seq<Byte>, w: nat, h: nat, b: iset<Point>,
                 visited: seq<bool>, v: iset<Point>, queue: seq<Point>, p: Point)
    requires Raw(s, w, h) && Filling(s, rgba, w, h, b, visited, v, queue + [p])
    requires p in v || p !in b
    ensures Filling(s, rgba, w, h, b, visited, v, queue)
  {
    FrontierDrop(w, h, b, v, queue + [p], queue, p);
  }

  // What a popped point looks like in the buffer and in the flags.
  lemma FillReads(s: seq<Byte>, rgba: seq<Byte>, w: nat, h: nat, b: iset<Point>,
                  visited: seq<bool>, v: iset<Point>, queue: seq<Point>, p: Point)
    requires Raw(s, w, h) && Filling(s, rgba, w, h, b, visited, v, queue + [p])
    ensures InGrid(w, h, p) && |visited| == w * h && Raw(rgba, w, h)
    ensures visited[Index(w, h, p)] <==> p in v
    ensures ColourAt(rgba, w, h, p) == ColourAt(s, w, h, p)
  {
    assert p in queue + [p];
    ClearAt(s, w, h, v, p);
  }

  lemma FillStart(s: seq<Byte>, w: nat, h: nat, b: iset<Point>, visited: seq<bool>, queue: seq<Point>)
    requires Raw(s, w, h) && |visited| == w * h && forall k :: 0 <= k < |visited| ==> !visited[k]
    requires forall p :: p in queue <==> OnBorder(w, h, p)
    ensures Filling(s, s, w, h, b, visited, iset{}, queue)
  {
    ClearNothing(s, w, h);
  }

  lemma FillEnds(s: seq<Byte>, rgba: seq<Byte>, w: nat, h: nat, refs: seq<Rgb>, tolerance: int,
                 visited: seq<bool>, v: iset<Point>)
    requires Raw(s, w, h) && Filling(s, rgba, w, h, Backdrop(s, w, h, refs, tolerance), visited, v, [])
    ensures rgba == Clear(s, w, h, EdgeBackdrop(s, w, h, refs, tolerance))
  {
    FillDone(w, h, Backdrop(s, w, h, refs, tolerance), v);
    ClearSame(s, w, h, v, EdgeBackdrop(s, w, h, refs, tolerance));
  }

  method FloodFillBackground(rgba: array<Byte>, w: nat, h: nat, refs: seq<Rgb>, tolerance: int)
    requires Raw(rgba[..], w, h)
    modifies rgba
    ensures rgba[..] == Clear(old(rgba[..]), w, h, EdgeBackdrop(old(rgba[..]), w, h, refs, tolerance))
  {
    ghost var s := rgba[..];
    ghost var b := Backdrop(s, w, h, refs, tolerance);
    ghost var v: iset<Point> := iset{};
    var visited := new bool[w * h](_ => false);
    var queue := QueueBorder(w, h, visited);
    FillStart(s, w, h, b, visited[..], queue);

    while |queue| > 0
      invariant Filling(s, rgba[..], w, h, b, visited[..], v, queue)
      decreases 5 * Unvisited(visited[..]) + |queue|
    {
      var p := queue[|queue| - 1];
      assert queue == queue[..|queue| - 1] + [p];
      queue := queue[..|queue| - 1];
      FillReads(s, rgba[..], w, h, b, visited[..], v, queue, p);
      if visited[Index(w, h, p)] || !IsNeutral(ColourAt(rgba[..], w, h, p), refs, tolerance) {
        FillDrop(s, rgba[..], w, h, b, visited[..], v, queue, p);
      } else {
        FillGrow(s, rgba[..], w, h, b, visited[..], v, queue, p);
        queue := ClearAndSpread(rgba, visited, w, h, p, queue);
        v := v + iset{p};
      }
    }
    assert queue == [];
    FillEnds(s, rgba[..], w, h, refs, tolerance, visited[..], v);
  }

  // Marks a neutral pixel, makes it transparent and queues its neighbours.
  method ClearAndSpread(rgba: array<Byte>, visited: array<bool>, w: nat, h: nat, p: Point, queue: seq<Point>)
    returns (next: seq<Point>)
    requires Raw(rgba[..], w, h) && visited.Length == w * h && InGrid(w, h, p)
    modifies rgba, visited
    ensures rgba[..] == old(rgba[..])[Index(w, h, p) * 4 + 3 := 0]
    ensures visited[..] == old(visited[..])[Index(w, h, p) := true]
    ensures next == EnqueueAround(queue, visited[..], w, h, p)
  {
    var i := Index(w, h, p);
    visited[i] := true;
    rgba[i * 4 + 3] := 0;
    next := EnqueueAround(queue, visited[..], w, h, p);
  }

  // A larger tolerance accepts more colours, so it never joins fewer pixels to the border.
  lemma ToleranceWidens(s: seq<Byte>, w: nat, h: nat, refs: seq<Rgb>, lo: int, hi: int)
    requires Raw(s, w, h) && lo <= hi
    ensures EdgeBackdrop(s, w, h, refs, lo) <= EdgeBackdrop(s, w, h, refs, hi)
  {
    var b, c := Backdrop(s, w, h, refs, lo), Backdrop(s, w, h, refs, hi);
    forall p | p in b
      ensures p in c
    {
      NeutralWidens(ColourAt(s, w, h, p), refs, lo, hi);
    }
    forall p | Joined(w, h, b, p)
      ensures Joined(w, h, c, p)
    {
      var path :| BorderPath(w, h, b, path) && path[|path| - 1] == p;
      assert BorderPath(w, h, c, path);
    }
  }

  lemma NeutralWidens(c: Rgb, refs: seq<Rgb>, lo: int, hi: int)
    requires lo <= hi && IsNeutral(c, refs, lo)
    ensures IsNeutral(c, refs, hi)
  {
  }
}

// buildJourneySessions: the merchant activity feed, newest first, cut into sessions of collapsed steps.
module Journey {

  // properties stands for the JSON text of the event's properties.
  datatype Event = Event(id: string, occurredAt: int, name: string, category: string, properties: string)

  datatype Step = Step(event: Event, count: nat)

  datatype Session = Session(id: string, startedAt: int, endedAt: int, steps: seq<Step>)

  const SESSION_GAP_MS := 30 * 60 * 1000

  function Identity(e: Event): string {
    e.name + ":" + e.category + ":" + e.properties
  }

  // The feed runs backwards in time, so the gap from one event to the next is the first minus the second.
  predicate Breaks(newer: Event, older: Event) {
    newer.occurredAt - older.occurredAt > SESSION_GAP_MS
  }

  // ----- groups -----

  // The sessions' events, each group newest first.
  function Groups(events: seq<Event>): (groups: seq<seq<Event>>)
    ensures events != [] ==> groups != []
    ensures forall k :: 0 <= k < |groups| ==> groups[k] != []
    ensures events != [] ==> groups[0][0] == events[0]
  {
    if events == [] then []
    else
      var rest := Groups(events[1..]);
      if |events| == 1 then [events]
      else Prepend(events[0], events[1], rest)
  }

  // A newer event before groups that start with the event next.
  function Prepend(e: Event, next: Event, groups: seq<seq<Event>>): seq<seq<Event>>
    requires groups != []
  {
    if Breaks(e, next) then [[e]] + groups else [[e] + groups[0]] + groups[1..]
  }

  // The groups of a feed whose first part is already gathered in current.
  function Continue(current: seq<Event>, rest: seq<Event>): seq<seq<Event>> {
    if current == [] then Groups(rest)
    else if rest == [] then [current]
    else if Breaks(current[|current| - 1], rest[0]) then [current] + Groups(rest)
    else [current + Groups(rest)[0]] + Groups(rest)[1..]
  }

  lemma ContinueOne(current: seq<Event>, e: Event, rest: seq<Event>)
    ensures Continue(current, [e] + rest) ==
      if current != [] && Breaks(current[|current| - 1], e) then [current] + Continue([e], rest)
      else Continue(current + [e], rest)
  {
    var all := [e] + rest;
    assert all[1..] == rest;
    GroupsOne(e, rest);
    if current == [] {
      assert current + [e] == [e];
    } else if !Breaks(current[|current| - 1], e) && rest != [] {
      assert (current + [e])[|current|] == e;
      if Breaks(e, rest[0]) {
        assert Groups(all) == [[e]] + Groups(rest);
      } else {
        assert current + ([e] + Groups(rest)[0]) == (current + [e]) + Groups(rest)[0];
      }
    }
  }

  lemma GroupsOne(e: Event, rest: seq<Event>)
    ensures Groups([e] + rest) == Continue([e], rest)
  {
    assert ([e] + rest)[1..] == rest;
    if rest == [] {
      assert [e] + rest == [e];
    }
  }

  // ----- steps -----

  // One more event: it joins the last step when it has the same identity.
  function AddStep(steps: seq<Step>, e: Event): seq<Step> {
    if steps != [] && Identity(steps[|steps| - 1].event) == Identity(e) then
      steps[|steps| - 1 := Step(steps[|steps| - 1].event, steps[|steps| - 1].count + 1)]
    else steps + [Step(e, 1)]
  }

  function Steps(chronological: seq<Event>): seq<Step> {
    if chronological == [] then []
    else AddStep(Steps(chronological[..|chronological| - 1]), chronological[|chronological| - 1])
  }

  function Reversed(s: seq<Event>): (r: seq<Event>)
    ensures |r| == |s|
  {
    seq(|s|, k requires 0 <= k < |s| => s[|s| - 1 - k])
  }

  function SessionOf(newestFirst: seq<Event>): Session
    requires newestFirst != []
  {
    var chronological := Reversed(newestFirst);
    Session(chronological[0].id, chronological[0].occurredAt,
            chronological[|chronological| - 1].occurredAt, Steps(chronological))
  }

  function Sessions(events: seq<Event>): (r: seq<Session>)
    ensures |r| == |Groups(events)|
  {
    seq(|Groups(events)|, k requires 0 <= k < |Groups(events)| => SessionOf(Groups(events)[k]))
  }

  // ----- the loops -----

  lemma Regroup(a: seq<seq<Event>>, g: seq<Event>, b: seq<seq<Event>>)
    ensures a + ([g] + b) == (a + [g]) + b
  {
  }

  lemma ContinueEnds(current: seq<Event>)
    ensures Continue(current, []) == if current == [] then [] else [current]
  {
  }

  method GroupEvents(events: seq<Event>) returns (groups: seq<seq<Event>>)
    ensures groups == Groups(events)
  {
    hide Breaks;
    hide Continue;
    ContinueEnds([]);
    StartsEmpty(events);
    groups := [];
    var current: seq<Event> := [];
    assert events[0..] == events;
    for i := 0 to |events|
      invariant groups + Continue(current, events[i..]) == Groups(events)
      invariant i > 0 ==> current != []
    {
      var event := events[i];
      assert events[i..] == [event] + events[i + 1..];
      ContinueOne(current, event, events[i + 1..]);
      if current != [] && Breaks(current[|current| - 1], event) {
        Regroup(groups, current, Continue([event], events[i + 1..]));
        groups := groups + [current];
        current := [];
        assert current + [event] == [event];
      }
      current := current + [event];
    }
    assert events[|events|..] == [];
    ContinueEnds(current);
    if |current| > 0 {
      groups := groups + [current];
    }
  }

  lemma StartsEmpty(events: seq<Event>)
    ensures Continue([], events) == Groups(events)
  {
  }

  method CollapseSteps(chronological: seq<Event>) returns (steps: seq<Step>)
    ensures steps == Steps(chronological)
  {
    steps := [];
    for i := 0 to |chronological|
      invariant steps == Steps(chronological[..i])
    {
      var event := chronological[i];
      assert chronological[..i + 1][..i] == chronological[..i];
      if |steps| > 0 && Identity(steps[|steps| - 1].event) == Identity(event) {
        var last := steps[|steps| - 1];
        steps := steps[|steps| - 1 := Step(last.event, last.count + 1)];
      } else {
        steps := steps + [Step(event, 1)];
      }
    }
    assert chronological[..|chronological|] == chronological;
  }

  method BuildJourneySessions(events: seq<Event>) returns (sessions: seq<Session>)
    ensures sessions == Sessions(events)
  {
    var groups := GroupEvents(events);
    sessions := [];
    for i := 0 to |groups|
      invariant sessions == Sessions(events)[..i]
    {
      var chronological := Reversed(groups[i]);
      var steps := CollapseSteps(chronological);
      sessions := sessions + [Session(chronological[0].id, chronological[0].occurredAt,
                                      chronological[|chronological| - 1].occurredAt, steps)];
    }
  }

  // ----- the groups partition the feed -----

  function Flatten(groups: seq<seq<Event>>): seq<Event> {
    if groups == [] then [] else groups[0] + Flatten(groups[1..])
  }

  // A non-empty group with no break inside.
  ghost predicate Whole(g: seq<Event>) {
    g != [] && forall k :: 0 < k < |g| ==> !Breaks(g[k - 1], g[k])
  }

  // Whole groups with a break between any two neighbours.
  ghost predicate CutAtBreaks(groups: seq<seq<Event>>) {
    groups != [] ==>
      && Whole(groups[0])
      && (|groups| > 1 ==> groups[1] != [] && Breaks(groups[0][|groups[0]| - 1], groups[1][0]))
      && CutAtBreaks(groups[1..])
  }

  lemma CutCons(g: seq<Event>, rest: seq<seq<Event>>)
    requires Whole(g) && CutAtBreaks(rest)
    requires rest != [] ==> rest[0] != [] && Breaks(g[|g| - 1], rest[0][0])
    ensures CutAtBreaks([g] + rest) && Flatten([g] + rest) == g + Flatten(rest)
  {
    hide Whole;
    hide Breaks;
    assert ([g] + rest)[1..] == rest;
  }

  lemma CutHead(groups: seq<seq<Event>>)
    requires groups != [] && CutAtBreaks(groups)
    ensures Whole(groups[0]) && CutAtBreaks(groups[1..])
    ensures Flatten(groups) == groups[0] + Flatten(groups[1..])
    ensures groups[1..] != [] ==> groups[1] != [] && Breaks(groups[0][|groups[0]| - 1], groups[1][0])
  {
    hide Whole;
    hide Breaks;
  }

  lemma WholeJoined(e: Event, g: seq<Event>)
    requires Whole(g) && !Breaks(e, g[0])
    ensures Whole([e] + g)
  {
    hide Breaks;
    forall k | 0 < k < |[e] + g|
      ensures !Breaks(([e] + g)[k - 1], ([e] + g)[k])
    {
      if k > 1 {
        assert !Breaks(g[k - 1 - 1], g[k - 1]);
      }
    }
  }

  lemma PrependPartition(e: Event, next: Event, groups: seq<seq<Event>>)
    requires groups != [] && CutAtBreaks(groups) && groups[0] != [] && groups[0][0] == next
    ensures Flatten(Prepend(e, next, groups)) == [e] + Flatten(groups) && CutAtBreaks(Prepend(e, next, groups))
  {
    hide Breaks;
    hide CutAtBreaks;
    hide Flatten;
    if Breaks(e, next) {
      CutCons([e], groups);
    } else {
      CutHead(groups);
      WholeJoined(e, groups[0]);
      var g, rest := [e] + groups[0], groups[1..];
      assert g[|g| - 1] == groups[0][|groups[0]| - 1];
      CutCons(g, rest);
      assert g + Flatten(rest) == [e] + (groups[0] + Flatten(rest));
    }
  }

  lemma {:induction false} GroupsPartition(events: seq<Event>)
    ensures Flatten(Groups(events)) == events && CutAtBreaks(Groups(events))
  {
    if |events| == 1 {
      assert Groups(events)[1..] == [] && Flatten(Groups(events)) == events + Flatten([]);
    } else if |events| > 1 {
      GroupsPartition(events[1..]);
      PrependPartition(events[0], events[1], Groups(events[1..]));
      assert events == [events[0]] + events[1..];
    }
  }

  predicate BreakAt(events: seq<Event>, k: nat) {
    0 < k < |events| && Breaks(events[k - 1], events[k])
  }

  // A cut's first group runs up to the first break.
  lemma FirstGroupEnds(a: seq<seq<Event>>)
    requires a != [] && CutAtBreaks(a)
    ensures var f := Flatten(a);
            && a[0] != [] && a[0] <= f
            && (forall k :: 0 < k < |a[0]| ==> !BreakAt(f, k))
            && (|a[0]| < |f| ==> BreakAt(f, |a[0]|))
  {
    if |a| > 1 {
      assert Flatten(a[1..])[0] == a[1][0];
    } else {
      assert Flatten(a[1..]) == [];
    }
  }

  // There is only one way to cut a feed at its breaks.
  lemma {:induction false} OnlyOneCut(a: seq<seq<Event>>, b: seq<seq<Event>>)
    requires CutAtBreaks(a) && CutAtBreaks(b) && Flatten(a) == Flatten(b)
    ensures a == b
  {
    if a == [] || b == [] {
      assert a != [] ==> Flatten(a) != [];
      assert b != [] ==> Flatten(b) != [];
    } else {
      var f := Flatten(a);
      FirstGroupEnds(a);
      FirstGroupEnds(b);
      CutHead(a);
      CutHead(b);
      assert Flatten(a[1..]) == f[|a[0]|..] && Flatten(b[1..]) == f[|b[0]|..];
      hide CutAtBreaks;
      hide Flatten;
      hide BreakAt;
      assert |a[0]| == |b[0]|;
      assert a[0] == f[..|a[0]|] == b[0];
      OnlyOneCut(a[1..], b[1..]);
      assert a == [a[0]] + a[1..] && b == [b[0]] + b[1..];
    }
  }

  // ----- an older page -----

  // Two runs of groups set side by side, their touching ends joined unless there is a break between them.
  function Merge(ga: seq<seq<Event>>, gb: seq<seq<Event>>, apart: bool): seq<seq<Event>>
    requires ga != [] && gb != []
  {
    if apart then ga + gb else ga[..|ga| - 1] + [ga[|ga| - 1] + gb[0]] + gb[1..]
  }

  lemma PrependMerge(e: Event, next: Event, ga: seq<seq<Event>>, gb: seq<seq<Event>>, apart: bool)
    requires ga != [] && gb != []
    ensures Prepend(e, next, Merge(ga, gb, apart)) == Merge(Prepend(e, next, ga), gb, apart)
  {
    if !apart && |ga| == 1 {
      assert [e] + (ga[0] + gb[0]) == ([e] + ga[0]) + gb[0];
    }
  }

  lemma MergeOne(a: seq<Event>, b: seq<Event>)
    requires |a| == 1 && b != []
    ensures Continue(a, b) == Merge(Groups(a), Groups(b), Breaks(a[0], b[0]))
  {
    hide Breaks;
    assert Groups(a) == [a] by {
      assert a == [a[0]];
    }
    hide Groups;
    assert [a][..0] == [] && [a][0] == a;
  }

  lemma GroupsMore(a: seq<Event>)
    requires |a| >= 2
    ensures Groups(a) == Prepend(a[0], a[1], Groups(a[1..]))
  {
    hide Prepend;
  }

  // Appending older events extends the last group or starts new ones; all groups before it stay as they are.
  lemma {:induction false} AppendOlder(a: seq<Event>, b: seq<Event>)
    requires a != [] && b != []
    ensures Groups(a + b) == Merge(Groups(a), Groups(b), Breaks(a[|a| - 1], b[0]))
  {
    hide Merge;
    hide Breaks;
    if |a| == 1 {
      assert a == [a[0]];
      GroupsOne(a[0], b);
      MergeOne(a, b);
      hide Groups;
    } else {
      var tail := a[1..];
      AppendOlder(tail, b);
      assert (a + b)[1..] == tail + b && (a + b)[0] == a[0] && (a + b)[1] == a[1];
      assert tail[|tail| - 1] == a[|a| - 1];
      GroupsMore(a);
      GroupsMore(a + b);
      hide Groups;
      PrependMerge(a[0], a[1], Groups(tail), Groups(b), Breaks(a[|a| - 1], b[0]));
    }
  }

  // Loading an older page leaves every session but the last unchanged.
  lemma OlderPageKeepsSessions(a: seq<Event>, b: seq<Event>)
    requires a != []
    ensures |Sessions(a)| >= 1 && |Sessions(a + b)| >= |Sessions(a)|
    ensures forall k :: 0 <= k < |Sessions(a)| - 1 ==> Sessions(a + b)[k] == Sessions(a)[k]
  {
    if b == [] {
      assert a + b == a;
    } else {
      AppendOlder(a, b);
      forall k | 0 <= k < |Sessions(a)| - 1
        ensures Sessions(a + b)[k] == Sessions(a)[k]
      {
        assert Groups(a + b)[k] == Groups(a)[k];
      }
    }
  }

  // ----- steps are a run-length encoding -----

  function Repeat(s: string, n: nat): seq<string> {
    seq(n, _ => s)
  }

  function Expand(steps: seq<Step>): seq<string> {
    if steps == [] then []
    else
      var last := steps[|steps| - 1];
      Expand(steps[..|steps| - 1]) + Repeat(Identity(last.event), last.count)
  }

  function Identities(events: seq<Event>): seq<string> {
    seq(|events|, k requires 0 <= k < |events| => Identity(events[k]))
  }

  // Steps are positive runs, and neighbours differ.
  ghost predicate RunLength(steps: seq<Step>) {
    && (forall k :: 0 <= k < |steps| ==> steps[k].count >= 1)
    && (forall k :: 0 < k < |steps| ==> Identity(steps[k - 1].event) != Identity(steps[k].event))
  }

  lemma AddStepExpands(steps: seq<Step>, e: Event)
    requires RunLength(steps)
    ensures Expand(AddStep(steps, e)) == Expand(steps) + [Identity(e)]
    ensures RunLength(AddStep(steps, e))
  {
    hide Identity;
    var more := AddStep(steps, e);
    if steps != [] && Identity(steps[|steps| - 1].event) == Identity(e) {
      var last := steps[|steps| - 1];
      assert more[..|steps| - 1] == steps[..|steps| - 1];
      assert Repeat(Identity(last.event), last.count + 1) == Repeat(Identity(last.event), last.count) + [Identity(e)];
    } else {
      assert more[..|steps|] == steps;
      assert Repeat(Identity(e), 1) == [Identity(e)];
    }
  }

  lemma {:induction false} StepsExpandBack(chronological: seq<Event>)
    ensures Expand(Steps(chronological)) == Identities(chronological)
    ensures RunLength(Steps(chronological))
  {
    hide Identity;
    hide AddStep;
    hide RunLength;
    if chronological == [] {
      NoSteps();
    } else {
      var before, e := chronological[..|chronological| - 1], chronological[|chronological| - 1];
      StepsExpandBack(before);
      AddStepExpands(Steps(before), e);
      hide Expand;
      assert Identities(chronological) == Identities(before) + [Identity(e)];
    }
  }

  lemma NoSteps()
    ensures RunLength([]) && Expand([]) == []
  {
  }

  // A session's step counts add up to the number of its events, so no event is lost or counted twice.
  ghost function Total(steps: seq<Step>): nat {
    if steps == [] then 0 else Total(steps[..|steps| - 1]) + steps[|steps| - 1].count
  }

  lemma {:induction false} ExpandLength(steps: seq<Step>)
    ensures |Expand(steps)| == Total(steps)
  {
    if steps != [] {
      ExpandLength(steps[..|steps| - 1]);
    }
  }

  lemma StepsCountEvents(chronological: seq<Event>)
    ensures Total(Steps(chronological)) == |chronological|
  {
    StepsExpandBack(chronological);
    ExpandLength(Steps(chronological));
  }
}

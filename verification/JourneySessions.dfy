// What a session of the journey tells of the feed it was cut from.
module JourneySessions {
  import opened Journey

  // The feed arrives newest first.
  ghost predicate NewestFirst(events: seq<Event>) {
    forall i, j :: 0 <= i < j < |events| ==> events[i].occurredAt >= events[j].occurredAt
  }

  // ----- one session -----

  // A session is named and starts by its oldest event and ends at its newest, nothing of it lies outside, and its steps
  // spelled out are its events from the oldest on.
  lemma SessionTells(g: seq<Event>)
    requires g != []
    ensures var s := SessionOf(g);
            && s.id == g[|g| - 1].id && s.startedAt == g[|g| - 1].occurredAt && s.endedAt == g[0].occurredAt
            && (NewestFirst(g) ==> forall e :: e in g ==> s.startedAt <= e.occurredAt <= s.endedAt)
            && |Expand(s.steps)| == |g| && forall i :: 0 <= i < |g| ==> Expand(s.steps)[i] == Identity(g[|g| - 1 - i])
  {
    hide Identity;
    var chronological := Reversed(g);
    StepsExpandBack(chronological);
    hide Steps;
    hide Expand;
  }

  // How many events the steps before step j stand for.
  function Offset(steps: seq<Step>, j: nat): nat
    requires j <= |steps|
  {
    if j == 0 then 0 else Offset(steps, j - 1) + steps[j - 1].count
  }

  ghost predicate Shows(step: Step, offset: nat, chronological: seq<Event>) {
    step.count >= 1 && offset < |chronological| && step.event == chronological[offset]
  }

  // Each step shows the event its run begins with.
  ghost predicate ShowFirsts(steps: seq<Step>, chronological: seq<Event>) {
    && Offset(steps, |steps|) == |chronological|
    && forall j :: 0 <= j < |steps| ==> Shows(steps[j], Offset(steps, j), chronological)
  }

  // A step shows the earliest event of its run.
  lemma {:induction false} StepShowsItsFirst(chronological: seq<Event>)
    ensures ShowFirsts(Steps(chronological), chronological)
  {
    hide ShowFirsts;
    hide AddStep;
    if chronological == [] {
      NothingShown();
    } else {
      var before, e := chronological[..|chronological| - 1], chronological[|chronological| - 1];
      StepShowsItsFirst(before);
      AddedShows(Steps(before), before, e);
      assert before + [e] == chronological;
    }
  }

  lemma NothingShown()
    ensures ShowFirsts([], [])
  {
  }

  lemma AddedShows(steps: seq<Step>, before: seq<Event>, e: Event)
    requires ShowFirsts(steps, before)
    ensures ShowFirsts(AddStep(steps, e), before + [e])
  {
    hide Identity;
    hide ShowFirsts;
    if |AddStep(steps, e)| > |steps| {
      NewStepShows(steps, before, e);
    } else {
      LongerStepShows(steps, before, e);
    }
  }

  lemma ShowsOn(step: Step, offset: nat, before: seq<Event>, e: Event)
    requires Shows(step, offset, before)
    ensures Shows(step, offset, before + [e]) && Shows(step.(count := step.count + 1), offset, before + [e])
  {
  }

  lemma NewShows(before: seq<Event>, e: Event)
    ensures Shows(Step(e, 1), |before|, before + [e])
  {
  }

  lemma OffsetSnoc(steps: seq<Step>, step: Step)
    ensures Offset(steps + [step], |steps| + 1) == Offset(steps, |steps|) + step.count
  {
    SameOffset(steps, steps + [step], |steps|);
  }

  lemma NewStepShows(steps: seq<Step>, before: seq<Event>, e: Event)
    requires ShowFirsts(steps, before)
    ensures ShowFirsts(steps + [Step(e, 1)], before + [e])
  {
    hide Offset;
    hide Shows;
    var step, n := Step(e, 1), |steps|;
    var more := steps + [step];
    OffsetSnoc(steps, step);
    NewShows(before, e);
    forall j | 0 <= j < |more|
      ensures Shows(more[j], Offset(more, j), before + [e])
    {
      SameOffset(steps, more, j);
      if j < n {
        assert more[j] == steps[j];
        ShowsOn(steps[j], Offset(steps, j), before, e);
      }
    }
  }

  lemma LongerStepShows(steps: seq<Step>, before: seq<Event>, e: Event)
    requires ShowFirsts(steps, before) && steps != []
    ensures var n := |steps| - 1;
            ShowFirsts(steps[n := Step(steps[n].event, steps[n].count + 1)], before + [e])
  {
    var n := |steps| - 1;
    var more := steps[n := Step(steps[n].event, steps[n].count + 1)];
    SameOffset(steps, more, n);
    assert Offset(more, n + 1) == Offset(more, n) + more[n].count;
    assert Offset(steps, n + 1) == Offset(steps, n) + steps[n].count;
    hide Offset;
    hide Shows;
    forall j | 0 <= j <= n
      ensures Shows(more[j], Offset(more, j), before + [e])
    {
      SameOffset(steps, more, j);
      assert more[j] == if j == n then steps[n].(count := steps[n].count + 1) else steps[j];
      ShowsOn(steps[j], Offset(steps, j), before, e);
    }
  }

  lemma {:induction false} SameOffset(a: seq<Step>, b: seq<Step>, j: nat)
    requires j <= |a| && j <= |b| && forall k :: 0 <= k < j ==> a[k] == b[k]
    ensures Offset(a, j) == Offset(b, j)
  {
    if j > 0 {
      SameOffset(a, b, j - 1);
    }
  }

  // ----- the sessions of a feed -----

  // Sessions lie more than half an hour apart, the newer before the older, and no pause inside one is longer.
  lemma SessionsApart(events: seq<Event>, k: nat)
    requires NewestFirst(events) && k < |Sessions(events)|
    ensures var g := Groups(events)[k];
            && Sessions(events)[k] == SessionOf(g) && NewestFirst(g)
            && (forall i :: 0 < i < |g| ==> g[i - 1].occurredAt - g[i].occurredAt <= 1_800_000)
            && (k + 1 < |Sessions(events)| ==>
                  Sessions(events)[k].startedAt - Sessions(events)[k + 1].endedAt > 1_800_000)
  {
    GroupsPartition(events);
    var groups := Groups(events);
    CutsStand(groups, k);
    SessionTells(groups[k]);
    if k + 1 < |groups| {
      SessionTells(groups[k + 1]);
    }
    hide CutAtBreaks;
    hide SessionOf;
    hide Groups;
  }

  lemma {:induction false} CutsStand(groups: seq<seq<Event>>, k: nat)
    requires CutAtBreaks(groups) && k < |groups| && NewestFirst(Flatten(groups))
    ensures Whole(groups[k]) && NewestFirst(groups[k])
    ensures k + 1 < |groups| ==> groups[k + 1] != [] && Breaks(groups[k][|groups[k]| - 1], groups[k + 1][0])
    decreases k
  {
    CutHead(groups);
    var f := Flatten(groups);
    assert f == groups[0] + Flatten(groups[1..]);
    hide CutAtBreaks;
    hide Flatten;
    hide Breaks;
    if k > 0 {
      assert forall i :: 0 <= i < |f| - |groups[0]| ==> Flatten(groups[1..])[i] == f[|groups[0]| + i];
      CutsStand(groups[1..], k - 1);
    } else {
      assert forall i :: 0 <= i < |groups[0]| ==> groups[0][i] == f[i];
    }
  }

  // ----- identities -----

  // For names and categories without a colon, two events collapse into one step exactly when all three parts agree.
  lemma IdentityTells(e: Event, f: Event)
    requires ':' !in e.name && ':' !in f.name && ':' !in e.category && ':' !in f.category
    ensures Identity(e) == Identity(f) <==> e.name == f.name && e.category == f.category && e.properties == f.properties
  {
    if Identity(e) == Identity(f) {
      var a, b := e.category + ":" + e.properties, f.category + ":" + f.properties;
      assert Identity(e) == e.name + ":" + a && Identity(f) == f.name + ":" + b;
      SameHead(e.name, a, f.name, b);
      SameHead(e.category, e.properties, f.category, f.properties);
    }
  }

  lemma SameHead(x: string, a: string, y: string, b: string)
    requires ':' !in x && ':' !in y && x + ":" + a == y + ":" + b
    ensures x == y && a == b
  {
    var s, t := x + ":" + a, y + ":" + b;
    assert s[..|x|] == x && t[..|y|] == y && s[|x|] == ':' && t[|y|] == ':';
    assert s[|x| + 1..] == a && t[|y| + 1..] == b;
  }
}

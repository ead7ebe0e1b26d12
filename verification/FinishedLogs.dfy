// The log that a whole interleaved run of lifecycle calls leaves behind: what each check saw, against where the event it
// led to stands in time.
module FinishedLogs {
  import opened Options
  import opened Lifecycle
  import opened LifecycleRaces

  // ----- the checks of a run -----

  ghost predicate SawChurned(steps: seq<RaceStep>, i: nat, appKey: string, shop: string)
    requires i < |steps|
  {
    Churned(Race(steps[..i]).events, appKey, shop)
  }

  // The time the call of check i writes.
  ghost function TimeOf(steps: seq<RaceStep>, i: nat): int
    requires i < |steps| && steps[i].Check?
  {
    var st := Race(steps[..i]);
    if steps[i].call in st.begun then st.begun[steps[i].call] else st.now + 1
  }

  ghost predicate Passes(steps: seq<RaceStep>, i: nat, appKey: string, shop: string) {
    && i < |steps| && steps[i].Check? && steps[i].appKey == appKey && steps[i].shop == shop
    && steps[i].call !in Race(steps[..i]).passed
    && (SawChurned(steps, i, appKey, shop) <==> steps[i].kind == Reinstall)
  }

  ghost predicate InsertedLater(steps: seq<RaceStep>, i: nat)
    requires i < |steps| && steps[i].Check?
  {
    exists j :: i < j < |steps| && steps[j] == Insert(steps[i].call)
  }

  // Check i passes, and its call has inserted by the end of the run.
  ghost predicate TakesEffect(steps: seq<RaceStep>, i: nat, appKey: string, shop: string) {
    Passes(steps, i, appKey, shop) && InsertedLater(steps, i)
  }

  // The times before t that the shop's calls have written by the end of the run.
  ghost function TimesWritten(steps: seq<RaceStep>, appKey: string, shop: string, t: int): set<int> {
    set i | 0 <= i < |steps| && TakesEffect(steps, i, appKey, shop) && TimeOf(steps, i) < t :: TimeOf(steps, i)
  }

  // The finished log alternates exactly when each check that led to an event had seen the shop churned if and only if an
  // odd number of the shop's events stand before that event in the end.
  lemma FinishedAlternatesIff(steps: seq<RaceStep>, appKey: string, shop: string)
    ensures AlternatesInTime(Race(steps).events, appKey, shop) <==>
      forall i: nat :: TakesEffect(steps, i, appKey, shop) ==>
        (SawChurned(steps, i, appKey, shop) <==> |TimesWritten(steps, appKey, shop, TimeOf(steps, i))| % 2 == 1)
  {
    hide AlternatesInTime;
    hide Race;
    hide TimeOf;
    hide InsertedLater;
    hide SawChurned;
    var events := Race(steps).events;
    RunTraced(steps, appKey, shop);
    RunHasDistinctTimes(steps);
    AlternatesByRank(events, appKey, shop);
    forall t
      ensures TimesBefore(events, appKey, shop, t) == TimesWritten(steps, appKey, shop, t)
    {
      TimesAgree(steps, appKey, shop, t);
    }
    forall i: nat | TakesEffect(steps, i, appKey, shop)
      ensures EventOf(RecordOf(steps, i)) in events
    {
      EffectIsLogged(steps, i, appKey, shop);
    }
    hide TimesBefore;
    hide TimesWritten;
    forall e | e in events && OfShop(e, appKey, shop)
      ensures exists i: nat :: TakesEffect(steps, i, appKey, shop) && e == EventOf(RecordOf(steps, i))
    {
      LoggedIsEffect(steps, e, appKey, shop);
    }
    hide Traced;
  }

  // However calls interleave, each event has its audit row, in the same order.
  lemma {:induction false} RowsFollowEvents(steps: seq<RaceStep>)
    ensures var st := Race(steps);
            |st.audit| == |st.events| && forall k :: 0 <= k < |st.events| ==> st.audit[k] == RowOf(st.events[k], k)
  {
    hide RowOf;
    hide Churned;
    if steps != [] {
      RowsFollowEvents(steps[..|steps| - 1]);
    }
  }

  // ----- alternation by rank -----

  ghost function TimesBefore(events: seq<Event>, appKey: string, shop: string, t: int): set<int> {
    set e | e in events && OfShop(e, appKey, shop) && e.occurredAt < t :: e.occurredAt
  }

  ghost predicate DistinctTimed(events: seq<Event>) {
    forall i, j :: 0 <= i < j < |events| ==> events[i].occurredAt != events[j].occurredAt
  }

  // An event is due when it is an uninstall at an even rank in time or a reinstall at an odd one.
  ghost predicate Due(events: seq<Event>, appKey: string, shop: string, e: Event) {
    e.kind == Reinstall <==> |TimesBefore(events, appKey, shop, e.occurredAt)| % 2 == 1
  }

  ghost predicate AllDue(events: seq<Event>, appKey: string, shop: string) {
    forall e :: e in events && OfShop(e, appKey, shop) ==> Due(events, appKey, shop, e)
  }

  lemma AlternatesByRank(events: seq<Event>, appKey: string, shop: string)
    requires DistinctTimed(events)
    ensures AlternatesInTime(events, appKey, shop) <==> AllDue(events, appKey, shop)
  {
    if AlternatesInTime(events, appKey, shop) {
      forall e | e in events && OfShop(e, appKey, shop)
        ensures Due(events, appKey, shop, e)
      {
        AlternatingIsDue(events, appKey, shop, e);
      }
    }
    if AllDue(events, appKey, shop) {
      DueAlternate(events, appKey, shop);
    }
  }

  lemma {:induction false} LastTime(times: set<int>, some: int) returns (t: int)
    requires some in times
    ensures t in times && forall x :: x in times ==> x <= t
    decreases |times|
  {
    if x :| x in times && x > some {
      t := LastTime(times - {some}, x);
      assert forall y :: y in times ==> y == some || y in times - {some};
    } else {
      t := some;
    }
  }

  ghost predicate Precedes(events: seq<Event>, appKey: string, shop: string, f: Event, e: Event) {
    f in events && OfShop(f, appKey, shop) && f.occurredAt < e.occurredAt
  }

  // The shop's event just before e, given that some event f is before e.
  lemma Predecessor(events: seq<Event>, appKey: string, shop: string, f: Event, e: Event) returns (g: Event)
    requires Precedes(events, appKey, shop, f, e)
    ensures Precedes(events, appKey, shop, g, e)
    ensures forall x :: Precedes(events, appKey, shop, x, e) ==> x.occurredAt <= g.occurredAt
    ensures |TimesBefore(events, appKey, shop, e.occurredAt)| == |TimesBefore(events, appKey, shop, g.occurredAt)| + 1
  {
    var times := TimesBefore(events, appKey, shop, e.occurredAt);
    var t := LastTime(times, f.occurredAt);
    g :| Precedes(events, appKey, shop, g, e) && g.occurredAt == t;
    forall x | Precedes(events, appKey, shop, x, e)
      ensures x.occurredAt <= t
    {
      assert x.occurredAt in times;
    }
    assert TimesBefore(events, appKey, shop, t) == times - {t};
  }

  lemma NothingBefore(events: seq<Event>, appKey: string, shop: string, e: Event)
    requires forall f :: !Precedes(events, appKey, shop, f, e)
    ensures TimesBefore(events, appKey, shop, e.occurredAt) == {}
  {
    forall x | x in events && OfShop(x, appKey, shop)
      ensures x.occurredAt >= e.occurredAt
    {
      assert !Precedes(events, appKey, shop, x, e);
    }
  }

  lemma FirstIsUninstall(events: seq<Event>, appKey: string, shop: string, e: Event)
    requires AlternatesInTime(events, appKey, shop) && e in events && OfShop(e, appKey, shop)
    requires forall f :: !Precedes(events, appKey, shop, f, e)
    ensures e.kind == Uninstall
  {
    assert forall f :: f in events && OfShop(f, appKey, shop) ==> !Precedes(events, appKey, shop, f, e);
  }

  lemma {:induction false} AlternatingIsDue(events: seq<Event>, appKey: string, shop: string, e: Event)
    requires AlternatesInTime(events, appKey, shop) && e in events && OfShop(e, appKey, shop)
    ensures Due(events, appKey, shop, e)
    decreases |TimesBefore(events, appKey, shop, e.occurredAt)|
  {
    hide AlternatesInTime;
    hide TimesBefore;
    if f :| Precedes(events, appKey, shop, f, e) {
      var g := Predecessor(events, appKey, shop, f, e);
      AlternatingIsDue(events, appKey, shop, g);
      NeighboursDiffer(events, appKey, shop, g, e);
    } else {
      NothingBefore(events, appKey, shop, e);
      FirstIsUninstall(events, appKey, shop, e);
    }
  }

  lemma NeighboursDiffer(events: seq<Event>, appKey: string, shop: string, g: Event, e: Event)
    requires AlternatesInTime(events, appKey, shop) && e in events && g in events
    requires OfShop(e, appKey, shop) && Precedes(events, appKey, shop, g, e)
    requires forall x :: Precedes(events, appKey, shop, x, e) ==> x.occurredAt <= g.occurredAt
    ensures g.kind != e.kind
  {
    forall x | x in events && OfShop(x, appKey, shop) && x.occurredAt < e.occurredAt
      ensures x.occurredAt <= g.occurredAt
    {
      assert Precedes(events, appKey, shop, x, e);
    }
    assert !Separated(events, appKey, shop, g, e);
  }

  lemma DueAlternate(events: seq<Event>, appKey: string, shop: string)
    requires DistinctTimed(events) && AllDue(events, appKey, shop)
    ensures AlternatesInTime(events, appKey, shop)
  {
    hide DistinctTimed;
    hide TimesBefore;
    forall e, f | e in events && f in events && OfShop(e, appKey, shop) && OfShop(f, appKey, shop)
                  && e.kind == f.kind && e.occurredAt < f.occurredAt
      ensures Separated(events, appKey, shop, e, f)
    {
      var g := Predecessor(events, appKey, shop, e, f);
      assert Due(events, appKey, shop, f) && Due(events, appKey, shop, g);
      assert g.kind != f.kind && e.occurredAt <= g.occurredAt by {
        assert Precedes(events, appKey, shop, e, f);
      }
      if g.occurredAt == e.occurredAt {
        SameTime(events, g, e);
      }
    }
    forall e | e in events && OfShop(e, appKey, shop) && e.kind == Reinstall
      ensures exists f :: f in events && OfShop(f, appKey, shop) && f.kind == Uninstall && f.occurredAt < e.occurredAt
    {
      assert Due(events, appKey, shop, e);
      if f :| Precedes(events, appKey, shop, f, e) {
        var g := Predecessor(events, appKey, shop, f, e);
        assert Due(events, appKey, shop, g);
      } else {
        NothingBefore(events, appKey, shop, e);
      }
    }
  }

  lemma SameTime(events: seq<Event>, x: Event, y: Event)
    requires DistinctTimed(events) && x in events && y in events && x.occurredAt == y.occurredAt
    ensures x == y
  {
    if x != y {
      DistinctTimes(events, x, y);
    }
  }

  // ----- every event goes back to a check -----

  ghost function RecordOf(steps: seq<RaceStep>, i: nat): Passed
    requires i < |steps| && steps[i].Check?
  {
    Passed(steps[i].kind, steps[i].appKey, steps[i].shop, TimeOf(steps, i))
  }

  // Where the call of a passed check stands: in the log, or still holding its record.
  ghost predicate Placed(steps: seq<RaceStep>, i: nat)
    requires i < |steps| && steps[i].Check?
  {
    var st, call := Race(steps), steps[i].call;
    if InsertedLater(steps, i) then EventOf(RecordOf(steps, i)) in st.events
    else call in st.passed && st.passed[call] == RecordOf(steps, i)
  }

  ghost predicate Holds(steps: seq<RaceStep>, i: nat, k: nat, appKey: string, shop: string) {
    Passes(steps, i, appKey, shop) && !InsertedLater(steps, i) && steps[i].call == k
  }

  ghost predicate Traced(steps: seq<RaceStep>, appKey: string, shop: string) {
    var st := Race(steps);
    && (forall i: nat :: Passes(steps, i, appKey, shop) ==> Placed(steps, i))
    && (forall k: nat :: k in st.passed && ForShop(st.passed[k], appKey, shop) ==>
          exists i: nat :: Holds(steps, i, k, appKey, shop))
    && (forall e :: e in st.events && OfShop(e, appKey, shop) ==>
          exists i: nat :: TakesEffect(steps, i, appKey, shop) && e == EventOf(RecordOf(steps, i)))
  }

  lemma EffectIsLogged(steps: seq<RaceStep>, i: nat, appKey: string, shop: string)
    requires Traced(steps, appKey, shop) && TakesEffect(steps, i, appKey, shop)
    ensures EventOf(RecordOf(steps, i)) in Race(steps).events
  {
    hide Race;
    hide TimeOf;
    hide SawChurned;
    assert Placed(steps, i);
  }

  lemma LoggedIsEffect(steps: seq<RaceStep>, e: Event, appKey: string, shop: string)
    requires Traced(steps, appKey, shop) && e in Race(steps).events && OfShop(e, appKey, shop)
    ensures exists i: nat :: TakesEffect(steps, i, appKey, shop) && e == EventOf(RecordOf(steps, i))
  {
    hide Race;
    hide TakesEffect;
    hide RecordOf;
    hide Passes;
  }

  lemma TimesAgree(steps: seq<RaceStep>, appKey: string, shop: string, t: int)
    requires Traced(steps, appKey, shop)
    ensures TimesBefore(Race(steps).events, appKey, shop, t) == TimesWritten(steps, appKey, shop, t)
  {
    hide Race;
    hide Traced;
    hide TimeOf;
    hide SawChurned;
    hide InsertedLater;
    var events := Race(steps).events;
    var before, written := TimesBefore(events, appKey, shop, t), TimesWritten(steps, appKey, shop, t);
    forall x | x in before
      ensures x in written
    {
      var e :| e in events && OfShop(e, appKey, shop) && e.occurredAt < t && e.occurredAt == x;
      LoggedIsEffect(steps, e, appKey, shop);
    }
    forall x | x in written
      ensures x in before
    {
      var i :| 0 <= i < |steps| && TakesEffect(steps, i, appKey, shop) && TimeOf(steps, i) < t && TimeOf(steps, i) == x;
      EffectIsLogged(steps, i, appKey, shop);
      assert EventOf(RecordOf(steps, i)).occurredAt == x;
    }
  }

  lemma {:induction false} RunHasDistinctTimes(steps: seq<RaceStep>)
    ensures Clocked(Race(steps)) && DistinctTimed(Race(steps).events)
  {
    hide Advance;
    if steps != [] {
      RunHasDistinctTimes(steps[..|steps| - 1]);
      StepKeepsClock(Race(steps[..|steps| - 1]), steps[|steps| - 1]);
    }
  }

  lemma {:induction false} RunTraced(steps: seq<RaceStep>, appKey: string, shop: string)
    ensures Traced(steps, appKey, shop)
  {
    if steps != [] {
      hide Traced;
      RunTraced(steps[..|steps| - 1], appKey, shop);
      StepTraced(steps, appKey, shop);
    }
  }

  // Looking at a check does not depend on what comes after it.
  lemma SameCheck(steps: seq<RaceStep>, i: nat, appKey: string, shop: string)
    requires steps != [] && i < |steps| - 1
    ensures var before := steps[..|steps| - 1];
            && (Passes(steps, i, appKey, shop) <==> Passes(before, i, appKey, shop))
            && (steps[i].Check? ==>
                  && RecordOf(steps, i) == RecordOf(before, i)
                  && (InsertedLater(steps, i) <==>
                        InsertedLater(before, i) || steps[|steps| - 1] == Insert(steps[i].call)))
  {
    hide Race;
    hide Churned;
    var n := |steps| - 1;
    assert steps[..i] == steps[..n][..i];
    if steps[i].Check? {
      if InsertedLater(steps[..n], i) {
        var j :| i < j < n && steps[..n][j] == Insert(steps[i].call);
        assert steps[j] == Insert(steps[i].call);
      }
      if InsertedLater(steps, i) {
        var j :| i < j < |steps| && steps[j] == Insert(steps[i].call);
        if j < n {
          assert steps[..n][j] == steps[j];
        }
      }
    }
  }

  lemma RecordStays(st: RaceState, step: RaceStep, k: nat)
    requires k in st.passed && step != Insert(k)
    ensures k in Advance(st, step).passed && Advance(st, step).passed[k] == st.passed[k]
  {
    hide Churned;
  }

  lemma EventsStayLogged(st: RaceState, step: RaceStep, e: Event)
    requires e in st.events
    ensures e in Advance(st, step).events
  {
    hide Churned;
  }

  lemma OldCheckPlaced(steps: seq<RaceStep>, i: nat, appKey: string, shop: string)
    requires steps != [] && i < |steps| - 1 && Traced(steps[..|steps| - 1], appKey, shop) && Passes(steps, i, appKey, shop)
    ensures Placed(steps, i)
  {
    hide Churned;
    hide Advance;
    hide RecordOf;
    hide InsertedLater;
    var before, step := steps[..|steps| - 1], steps[|steps| - 1];
    var st, call := Race(before), steps[i].call;
    assert Race(steps) == Advance(st, step);
    hide Race;
    SameCheck(steps, i, appKey, shop);
    assert Placed(before, i) && before[i] == steps[i];
    hide Traced;
    hide Passes;
    var record := RecordOf(before, i);
    if InsertedLater(before, i) {
      EventsStayLogged(st, step, EventOf(record));
    } else if step == Insert(call) {
      Inserted(st, call);
    } else {
      RecordStays(st, step, call);
    }
  }

  lemma NewCheckPlaced(steps: seq<RaceStep>, appKey: string, shop: string)
    requires steps != [] && Passes(steps, |steps| - 1, appKey, shop)
    ensures Placed(steps, |steps| - 1) && !InsertedLater(steps, |steps| - 1)
  {
    hide Churned;
    var i := |steps| - 1;
    assert Race(steps) == Advance(Race(steps[..i]), steps[i]);
    hide Race;
  }

  // A record is either kept or put there by the check of this step.
  lemma RecordFrom(st: RaceState, step: RaceStep, k: nat)
    requires k in Advance(st, step).passed
    ensures || (k in st.passed && Advance(st, step).passed[k] == st.passed[k] && step != Insert(k))
            || (step.Check? && step.call == k && k !in st.passed
                && (Churned(st.events, step.appKey, step.shop) <==> step.kind == Reinstall)
                && Advance(st, step).passed[k].appKey == step.appKey && Advance(st, step).passed[k].shop == step.shop)
  {
    hide Churned;
  }

  lemma RecordTraced(steps: seq<RaceStep>, k: nat, appKey: string, shop: string)
    requires steps != [] && Traced(steps[..|steps| - 1], appKey, shop)
    requires k in Race(steps).passed && ForShop(Race(steps).passed[k], appKey, shop)
    ensures exists i: nat :: Holds(steps, i, k, appKey, shop)
  {
    hide Churned;
    hide Advance;
    var n := |steps| - 1;
    var before, step := steps[..n], steps[n];
    var st := Race(before);
    assert Race(steps) == Advance(st, step);
    hide Race;
    RecordFrom(st, step, k);
    if k in st.passed && step != Insert(k) {
      var i: nat :| Holds(before, i, k, appKey, shop);
      SameCheck(steps, i, appKey, shop);
      assert before[i] == steps[i];
      assert Holds(steps, i, k, appKey, shop);
    } else {
      assert Passes(steps, n, appKey, shop);
      assert Holds(steps, n, k, appKey, shop);
    }
  }

  lemma EventTraced(steps: seq<RaceStep>, e: Event, appKey: string, shop: string)
    requires steps != [] && Traced(steps[..|steps| - 1], appKey, shop)
    requires e in Race(steps).events && OfShop(e, appKey, shop)
    ensures exists i: nat :: TakesEffect(steps, i, appKey, shop) && e == EventOf(RecordOf(steps, i))
  {
    hide Churned;
    hide Advance;
    hide RecordOf;
    hide InsertedLater;
    var n := |steps| - 1;
    var before, step := steps[..n], steps[n];
    var st := Race(before);
    assert Race(steps) == Advance(st, step);
    hide Race;
    if e in st.events {
      LoggedIsEffect(before, e, appKey, shop);
      var i: nat :| TakesEffect(before, i, appKey, shop) && e == EventOf(RecordOf(before, i));
      SameCheck(steps, i, appKey, shop);
    } else {
      NewEvent(st, step, e);
      var i: nat :| Holds(before, i, step.call, appKey, shop);
      assert Placed(before, i);
      SameCheck(steps, i, appKey, shop);
      assert before[i] == steps[i];
    }
  }

  lemma NewEvent(st: RaceState, step: RaceStep, e: Event)
    requires e in Advance(st, step).events && e !in st.events
    ensures step.Insert? && step.call in st.passed && e == EventOf(st.passed[step.call])
  {
    hide Churned;
  }

  lemma StepTraced(steps: seq<RaceStep>, appKey: string, shop: string)
    requires steps != [] && Traced(steps[..|steps| - 1], appKey, shop)
    ensures Traced(steps, appKey, shop)
  {
    hide Race;
    hide Placed;
    hide Holds;
    hide RecordOf;
    hide SawChurned;
    hide InsertedLater;
    forall i: nat | Passes(steps, i, appKey, shop)
      ensures Placed(steps, i)
    {
      if i < |steps| - 1 {
        OldCheckPlaced(steps, i, appKey, shop);
      } else {
        NewCheckPlaced(steps, appKey, shop);
      }
    }
    forall k: nat | k in Race(steps).passed && ForShop(Race(steps).passed[k], appKey, shop)
      ensures exists i: nat :: Holds(steps, i, k, appKey, shop)
    {
      RecordTraced(steps, k, appKey, shop);
    }
    forall e | e in Race(steps).events && OfShop(e, appKey, shop)
      ensures exists i: nat :: TakesEffect(steps, i, appKey, shop) && e == EventOf(RecordOf(steps, i))
    {
      EventTraced(steps, e, appKey, shop);
    }
  }
}

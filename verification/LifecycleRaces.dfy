// The lifecycle calls as they interleave: each takes its time, checks the latest event of its shop outside any
// transaction, and only later inserts. An uninstall takes its time as it checks; a rollup hands its reinstalls the time
// it began at.
module LifecycleRaces {
  import opened Options
  import opened Lifecycle

  // A call that passed its check and has not inserted yet; at is the time it will write.
  datatype Passed = Passed(kind: Kind, appKey: string, shop: string, at: int)

  datatype RaceState = RaceState(
    now: int, events: seq<Event>, audit: seq<AuditRow>, begun: map<nat, int>, passed: map<nat, Passed>)

  datatype RaceStep =
    | Begin(call: nat)
    | Check(call: nat, kind: Kind, appKey: string, shop: string)
    | Insert(call: nat)

  const Start := RaceState(0, [], [], map[], map[])

  function EventOf(p: Passed): Event {
    Event(p.appKey, p.shop, p.kind, p.at)
  }

  // Each step happens at a later instant than the one before. A check that fails ends its call.
  function Advance(st: RaceState, step: RaceStep): RaceState {
    var later := st.(now := st.now + 1);
    match step
    case Begin(call) => if call in st.passed then later else later.(begun := st.begun[call := later.now])
    case Check(call, kind, appKey, shop) =>
      if call in st.passed then later
      else
        var at := if call in st.begun then st.begun[call] else later.now;
        var ended := later.(begun := st.begun - {call});
        if Churned(st.events, appKey, shop) <==> kind == Reinstall then
          ended.(passed := st.passed[call := Passed(kind, appKey, shop, at)])
        else ended
    case Insert(call) =>
      if call in st.passed then
        later.(events := st.events + [EventOf(st.passed[call])],
               audit := st.audit + [RowOf(EventOf(st.passed[call]), |st.events|)],
               passed := st.passed - {call})
      else later
  }

  function Race(steps: seq<RaceStep>): RaceState {
    if steps == [] then Start else Advance(Race(steps[..|steps| - 1]), steps[|steps| - 1])
  }

  predicate OfShop(e: Event, appKey: string, shop: string) {
    e.appKey == appKey && e.shop == shop
  }

  predicate ForShop(p: Passed, appKey: string, shop: string) {
    p.appKey == appKey && p.shop == shop
  }

  // By time, the shop's events strictly alternate and start with an uninstall.
  ghost predicate AlternatesInTime(events: seq<Event>, appKey: string, shop: string) {
    && (forall e, f ::
          e in events && f in events && OfShop(e, appKey, shop) && OfShop(f, appKey, shop)
          && e.kind == f.kind && e.occurredAt < f.occurredAt ==>
            Separated(events, appKey, shop, e, f))
    && (forall e :: e in events && OfShop(e, appKey, shop) && e.kind == Reinstall ==>
          exists f :: f in events && OfShop(f, appKey, shop) && f.kind == Uninstall && f.occurredAt < e.occurredAt)
  }

  ghost predicate Separated(events: seq<Event>, appKey: string, shop: string, e: Event, f: Event) {
    exists g :: g in events && OfShop(g, appKey, shop) && g.kind != e.kind && e.occurredAt < g.occurredAt < f.occurredAt
  }

  // ----- the schedule -----

  predicate InsertsFor(st: RaceState, step: RaceStep, appKey: string, shop: string) {
    step.Insert? && step.call in st.passed && ForShop(st.passed[step.call], appKey, shop)
  }

  // When the shop's last insert was made, or 0.
  function LastInsert(steps: seq<RaceStep>, appKey: string, shop: string): int {
    if steps == [] then 0
    else
      var before := steps[..|steps| - 1];
      if InsertsFor(Race(before), steps[|steps| - 1], appKey, shop) then Race(steps).now
      else LastInsert(before, appKey, shop)
  }

  // Whenever a call inserts for the shop, its check came after the shop's previous insert: no two calls both pass
  // their checks before either inserts, and then both insert.
  predicate InsertsInTurn(steps: seq<RaceStep>, appKey: string, shop: string) {
    steps == [] ||
    var before, step := steps[..|steps| - 1], steps[|steps| - 1];
    InsertsInTurn(before, appKey, shop)
    && (InsertsFor(Race(before), step, appKey, shop) ==>
          Race(before).passed[step.call].at > LastInsert(before, appKey, shop))
  }

  // ----- what holds while inserts come in turn, and what holds ever after -----

  // Times are distinct and not in the future.
  ghost predicate Clocked(st: RaceState) {
    && (forall e :: e in st.events ==> e.occurredAt <= st.now)
    && (forall k :: k in st.begun ==> k !in st.passed && st.begun[k] <= st.now)
    && (forall e, k :: e in st.events && k in st.begun ==> e.occurredAt != st.begun[k])
    && (forall j, k :: j in st.passed && k in st.begun ==> st.passed[j].at != st.begun[k])
    && (forall j, k :: j in st.begun && k in st.begun && j != k ==> st.begun[j] != st.begun[k])
    && (forall k :: k in st.passed ==> st.passed[k].at <= st.now)
    && (forall i, j :: 0 <= i < j < |st.events| ==> st.events[i].occurredAt != st.events[j].occurredAt)
    && (forall e, k :: e in st.events && k in st.passed ==> e.occurredAt != st.passed[k].at)
    && (forall j, k :: j in st.passed && k in st.passed && j != k ==> st.passed[j].at != st.passed[k].at)
  }

  predicate Within(t: int, x: int, y: int) {
    x <= t <= y || y <= t <= x
  }

  // Every event and every passed call of the shop from x to y is of this kind.
  ghost predicate OneKind(st: RaceState, appKey: string, shop: string, x: int, y: int, kind: Kind) {
    && (forall e :: e in st.events && OfShop(e, appKey, shop) && Within(e.occurredAt, x, y) ==> e.kind == kind)
    && (forall k :: k in st.passed && ForShop(st.passed[k], appKey, shop) && Within(st.passed[k].at, x, y) ==>
          st.passed[k].kind == kind)
  }

  ghost predicate HasTwin(st: RaceState, appKey: string, shop: string, p: Passed) {
    exists e :: e in st.events && OfShop(e, appKey, shop) && e.kind == p.kind
                && OneKind(st, appKey, shop, p.at, e.occurredAt, p.kind)
  }

  // A call checked since the last insert is still due; one checked before it has a twin that inserted first.
  ghost predicate Awaits(st: RaceState, appKey: string, shop: string, last: int, p: Passed) {
    if p.at > last then Churned(st.events, appKey, shop) <==> p.kind == Reinstall
    else HasTwin(st, appKey, shop, p)
  }

  ghost predicate InOrder(st: RaceState, appKey: string, shop: string, last: int) {
    && AlternatesInTime(st.events, appKey, shop)
    && last <= st.now
    && (forall e :: e in st.events && OfShop(e, appKey, shop) ==> e.occurredAt <= last)
    && (forall k :: k in st.passed && ForShop(st.passed[k], appKey, shop) ==>
          Awaits(st, appKey, shop, last, st.passed[k]))
  }

  // Two events of one kind with nothing else between them, now or later.
  ghost predicate Broken(st: RaceState, appKey: string, shop: string) {
    exists e, f :: Doubled(st, appKey, shop, e, f)
  }

  ghost predicate Doubled(st: RaceState, appKey: string, shop: string, e: Event, f: Event) {
    && e in st.events && f in st.events && OfShop(e, appKey, shop) && OfShop(f, appKey, shop)
    && e.kind == f.kind && e.occurredAt < f.occurredAt
    && OneKind(st, appKey, shop, e.occurredAt, f.occurredAt, e.kind)
  }

  lemma BrokenDoesNotAlternate(st: RaceState, appKey: string, shop: string)
    requires Broken(st, appKey, shop)
    ensures !AlternatesInTime(st.events, appKey, shop)
  {
    var e, f :| Doubled(st, appKey, shop, e, f);
    assert !Separated(st.events, appKey, shop, e, f);
  }

  lemma InsertKeepsClock(st: RaceState, call: nat)
    requires Clocked(st) && call in st.passed
    ensures Clocked(Advance(st, Insert(call)))
  {
    var e := EventOf(st.passed[call]);
    var events := st.events + [e];
    var st' := Advance(st, Insert(call));
    Inserted(st, call);
    assert st'.begun == st.begun && st'.now == st.now + 1;
    hide Advance;
    forall i, j | 0 <= i < j < |events|
      ensures events[i].occurredAt != events[j].occurredAt
    {
      assert events[i] == st.events[i] && st.events[i] in st.events;
      if j < |st.events| {
        assert events[j] == st.events[j];
      }
    }
  }

  lemma LaterKeepsClock(st: RaceState)
    requires Clocked(st)
    ensures Clocked(st.(now := st.now + 1))
  {
  }

  lemma BeginKeepsClock(st: RaceState, call: nat)
    requires Clocked(st)
    ensures Clocked(Advance(st, Begin(call)))
  {
    hide Churned;
  }

  lemma CheckKeepsClock(st: RaceState, call: nat, kind: Kind, appKey: string, shop: string)
    requires Clocked(st)
    ensures Clocked(Advance(st, Check(call, kind, appKey, shop)))
  {
    hide Churned;
    hide Clocked;
    LaterKeepsClock(st);
    if call !in st.passed {
      var later := st.(now := st.now + 1);
      EndKeepsClock(later, call);
      var at := if call in st.begun then st.begun[call] else later.now;
      TimeIsNew(st, call);
      PassKeepsClock(later.(begun := st.begun - {call}), call, Passed(kind, appKey, shop, at));
    }
  }

  lemma EndKeepsClock(st: RaceState, call: nat)
    requires Clocked(st)
    ensures Clocked(st.(begun := st.begun - {call}))
  {
  }

  // The time a call takes is nobody else's.
  ghost predicate Unused(st: RaceState, call: nat, at: int) {
    && at <= st.now && call !in st.begun
    && (forall e :: e in st.events ==> e.occurredAt != at)
    && (forall k :: k in st.begun ==> st.begun[k] != at)
    && (forall k :: k in st.passed ==> st.passed[k].at != at)
  }

  lemma TimeIsNew(st: RaceState, call: nat)
    requires Clocked(st)
    ensures var later := st.(now := st.now + 1);
            Unused(later.(begun := st.begun - {call}), call, if call in st.begun then st.begun[call] else later.now)
  {
  }

  lemma PassKeepsClock(st: RaceState, call: nat, p: Passed)
    requires Clocked(st) && Unused(st, call, p.at) && call !in st.passed
    ensures Clocked(st.(passed := st.passed[call := p]))
  {
  }

  lemma StepKeepsClock(st: RaceState, step: RaceStep)
    requires Clocked(st)
    ensures Clocked(Advance(st, step))
  {
    hide Clocked;
    match step
    case Begin(call) => BeginKeepsClock(st, call);
    case Check(call, kind, appKey, shop) => CheckKeepsClock(st, call, kind, appKey, shop);
    case Insert(call) =>
      if call in st.passed {
        InsertKeepsClock(st, call);
      } else {
        LaterKeepsClock(st);
      }
  }

  // No later step puts anything else between them.
  lemma OneKindStays(st: RaceState, step: RaceStep, appKey: string, shop: string, x: int, y: int, kind: Kind)
    requires OneKind(st, appKey, shop, x, y, kind) && x <= st.now && y <= st.now && st.begun == map[]
    ensures OneKind(Advance(st, step), appKey, shop, x, y, kind)
  {
    hide Churned;
    if step.Insert? && step.call in st.passed {
      var e := EventOf(st.passed[step.call]);
      assert forall x :: x in st.events + [e] ==> x in st.events || x == e;
    }
  }

  lemma EventsStay(st: RaceState, step: RaceStep)
    ensures forall e :: e in st.events ==> e in Advance(st, step).events
  {
    hide Churned;
  }

  lemma BrokenStays(st: RaceState, step: RaceStep, appKey: string, shop: string)
    requires Clocked(st) && Broken(st, appKey, shop) && st.begun == map[]
    ensures Broken(Advance(st, step), appKey, shop)
  {
    var e, f :| Doubled(st, appKey, shop, e, f);
    OneKindStays(st, step, appKey, shop, e.occurredAt, f.occurredAt, e.kind);
    EventsStay(st, step);
    hide OneKind;
    hide Advance;
    assert Doubled(Advance(st, step), appKey, shop, e, f);
  }

  // ----- the latest event -----

  lemma {:induction false} LatestIsNewest(events: seq<Event>, appKey: string, shop: string)
    ensures var latest := Latest(events, appKey, shop);
            && (latest.Some? ==> latest.value in events && OfShop(latest.value, appKey, shop))
            && forall e :: e in events && OfShop(e, appKey, shop) ==>
                 latest.Some? && e.occurredAt <= latest.value.occurredAt
  {
    if events != [] {
      var before, last := events[..|events| - 1], events[|events| - 1];
      LatestIsNewest(before, appKey, shop);
      assert forall e :: e in events ==> e in before || e == last;
    }
  }

  lemma LatestAppend(events: seq<Event>, e: Event, appKey: string, shop: string)
    ensures !OfShop(e, appKey, shop) ==> Latest(events + [e], appKey, shop) == Latest(events, appKey, shop)
  {
    assert (events + [e])[..|events|] == events;
  }

  // ----- one step -----

  lemma DueAlternates(events: seq<Event>, e: Event, appKey: string, shop: string)
    requires AlternatesInTime(events, appKey, shop) && OfShop(e, appKey, shop)
    requires forall x :: x in events && OfShop(x, appKey, shop) ==> x.occurredAt < e.occurredAt
    requires forall i, j :: 0 <= i < j < |events| ==> events[i].occurredAt != events[j].occurredAt
    requires Churned(events, appKey, shop) <==> e.kind == Reinstall
    ensures AlternatesInTime(events + [e], appKey, shop)
  {
    LatestIsNewest(events, appKey, shop);
    var latest := Latest(events, appKey, shop);
    hide Latest;
    var more := events + [e];
    assert forall x :: x in more <==> x in events || x == e;
    forall x, y | x in more && y in more && OfShop(x, appKey, shop) && OfShop(y, appKey, shop)
                  && x.kind == y.kind && x.occurredAt < y.occurredAt
      ensures Separated(more, appKey, shop, x, y)
    {
      if y == e {
        assert x in events;
        DistinctTimes(events, x, latest.value);
        assert latest.value in more;
      } else {
        assert Separated(events, appKey, shop, x, y);
      }
    }
  }

  lemma DistinctTimes(events: seq<Event>, x: Event, y: Event)
    requires forall i, j :: 0 <= i < j < |events| ==> events[i].occurredAt != events[j].occurredAt
    requires x in events && y in events && x != y
    ensures x.occurredAt != y.occurredAt
  {
    var i :| 0 <= i < |events| && events[i] == x;
    var j :| 0 <= j < |events| && events[j] == y;
    if i < j {
      assert events[i].occurredAt != events[j].occurredAt;
    } else {
      assert events[j].occurredAt != events[i].occurredAt;
    }
  }

  lemma TwinStays(st: RaceState, step: RaceStep, appKey: string, shop: string, p: Passed)
    requires Clocked(st) && HasTwin(st, appKey, shop, p) && p.at <= st.now && st.begun == map[]
    ensures HasTwin(Advance(st, step), appKey, shop, p)
  {
    var e :| e in st.events && OfShop(e, appKey, shop) && e.kind == p.kind
             && OneKind(st, appKey, shop, p.at, e.occurredAt, p.kind);
    OneKindStays(st, step, appKey, shop, p.at, e.occurredAt, p.kind);
    EventsStay(st, step);
    hide OneKind;
    hide Advance;
  }

  lemma StillAwaits(st: RaceState, step: RaceStep, appKey: string, shop: string, last: int, p: Passed)
    requires Clocked(st) && !InsertsFor(st, step, appKey, shop) && p.at <= st.now && st.begun == map[]
    requires Awaits(st, appKey, shop, last, p)
    ensures Awaits(Advance(st, step), appKey, shop, last, p)
  {
    OtherEvents(st, step, appKey, shop);
    if p.at <= last {
      TwinStays(st, step, appKey, shop, p);
    }
    hide HasTwin;
    hide Churned;
    hide AlternatesInTime;
    hide Clocked;
    hide Advance;
  }

  lemma PassedFrom(st: RaceState, step: RaceStep, k: nat)
    requires k in Advance(st, step).passed && st.begun == map[]
    ensures var p := Advance(st, step).passed[k];
            || (k in st.passed && p == st.passed[k])
            || (p.at == st.now + 1 && (Churned(Advance(st, step).events, p.appKey, p.shop) <==> p.kind == Reinstall))
  {
    hide Churned;
  }

  lemma PassedByNow(st: RaceState, k: nat)
    requires Clocked(st) && k in st.passed
    ensures st.passed[k].at <= st.now
  {
  }

  // A step that inserts nothing for the shop.
  lemma OtherStepInTurn(st: RaceState, step: RaceStep, appKey: string, shop: string, last: int)
    requires Clocked(st) && InOrder(st, appKey, shop, last) && !InsertsFor(st, step, appKey, shop) && st.begun == map[]
    ensures InOrder(Advance(st, step), appKey, shop, last)
  {
    hide AlternatesInTime;
    hide Advance;
    hide HasTwin;
    hide Churned;
    hide Clocked;
    var st' := Advance(st, step);
    OtherEvents(st, step, appKey, shop);
    OneLater(st, step);
    forall k | k in st'.passed && ForShop(st'.passed[k], appKey, shop)
      ensures Awaits(st', appKey, shop, last, st'.passed[k])
    {
      PassedFrom(st, step, k);
      if k in st.passed && st'.passed[k] == st.passed[k] {
        PassedByNow(st, k);
        StillAwaits(st, step, appKey, shop, last, st.passed[k]);
      }
    }
  }

  lemma OtherEvents(st: RaceState, step: RaceStep, appKey: string, shop: string)
    requires !InsertsFor(st, step, appKey, shop)
    ensures var st' := Advance(st, step);
            && (forall e :: OfShop(e, appKey, shop) ==> (e in st'.events <==> e in st.events))
            && (Churned(st'.events, appKey, shop) <==> Churned(st.events, appKey, shop))
            && (AlternatesInTime(st'.events, appKey, shop) <==> AlternatesInTime(st.events, appKey, shop))
  {
    var st' := Advance(st, step);
    if step.Insert? && step.call in st.passed {
      var e := EventOf(st.passed[step.call]);
      LatestAppend(st.events, e, appKey, shop);
      assert forall x :: x in st'.events ==> x in st.events || x == e;
    }
    SameShopEvents(st.events, st'.events, appKey, shop);
    SameShopEvents(st'.events, st.events, appKey, shop);
    hide AlternatesInTime;
  }

  lemma SameShopEvents(a: seq<Event>, b: seq<Event>, appKey: string, shop: string)
    ensures (forall e :: OfShop(e, appKey, shop) ==> (e in a <==> e in b)) && AlternatesInTime(a, appKey, shop)
        ==> AlternatesInTime(b, appKey, shop)
  {
    if (forall e :: OfShop(e, appKey, shop) ==> (e in a <==> e in b)) && AlternatesInTime(a, appKey, shop) {
      forall e, f | e in b && f in b && OfShop(e, appKey, shop) && OfShop(f, appKey, shop)
                    && e.kind == f.kind && e.occurredAt < f.occurredAt
        ensures Separated(b, appKey, shop, e, f)
      {
        assert Separated(a, appKey, shop, e, f);
      }
    }
  }

  lemma Inserted(st: RaceState, call: nat)
    requires call in st.passed
    ensures var st', e := Advance(st, Insert(call)), EventOf(st.passed[call]);
            && st'.events == st.events + [e] && st'.passed == st.passed - {call}
            && forall x :: x in st'.events <==> x in st.events || x == e
  {
    hide Churned;
  }

  // Two calls that passed their checks after the last event do the same; the event of the one is the other's twin.
  lemma InsertGivesTwin(st: RaceState, call: nat, appKey: string, shop: string, last: int, k: nat)
    requires InOrder(st, appKey, shop, last) && InsertsFor(st, Insert(call), appKey, shop)
    requires k in st.passed && k != call && ForShop(st.passed[k], appKey, shop)
    requires st.passed[call].at > last && st.passed[k].at > last
    ensures HasTwin(Advance(st, Insert(call)), appKey, shop, st.passed[k])
  {
    hide AlternatesInTime;
    hide Churned;
    var st', p, q := Advance(st, Insert(call)), st.passed[call], st.passed[k];
    var e := EventOf(p);
    Inserted(st, call);
    hide Advance;
    assert Awaits(st, appKey, shop, last, p) && Awaits(st, appKey, shop, last, q);
    assert forall x :: x in st'.events && OfShop(x, appKey, shop) ==> x == e || x.occurredAt <= last;
    forall j | j in st'.passed && ForShop(st'.passed[j], appKey, shop) && Within(st'.passed[j].at, q.at, e.occurredAt)
      ensures st'.passed[j].kind == q.kind
    {
      assert Awaits(st, appKey, shop, last, st.passed[j]);
    }
    assert OneKind(st', appKey, shop, q.at, e.occurredAt, q.kind);
  }

  // An insert in turn: everyone else who had passed now has a twin.
  lemma InsertInTurn(st: RaceState, call: nat, appKey: string, shop: string, last: int)
    requires Clocked(st) && InOrder(st, appKey, shop, last) && InsertsFor(st, Insert(call), appKey, shop)
    requires st.begun == map[]
    requires st.passed[call].at > last
    ensures InOrder(Advance(st, Insert(call)), appKey, shop, st.now + 1)
  {
    hide AlternatesInTime;
    hide Churned;
    hide HasTwin;
    hide OneKind;
    var st' := Advance(st, Insert(call));
    var p := st.passed[call];
    var e := EventOf(p);
    Inserted(st, call);
    OneLater(st, Insert(call));
    hide Advance;
    DueAlternates(st.events, e, appKey, shop);
    forall k | k in st'.passed && ForShop(st'.passed[k], appKey, shop)
      ensures Awaits(st', appKey, shop, st.now + 1, st'.passed[k])
    {
      var q := st.passed[k];
      if q.at <= last {
        TwinStays(st, Insert(call), appKey, shop, q);
      } else {
        InsertGivesTwin(st, call, appKey, shop, last, k);
      }
    }
  }

  // An insert out of turn doubles its twin.
  lemma InsertOutOfTurn(st: RaceState, call: nat, appKey: string, shop: string, last: int)
    requires Clocked(st) && InOrder(st, appKey, shop, last) && InsertsFor(st, Insert(call), appKey, shop)
    requires st.begun == map[]
    requires st.passed[call].at <= last
    ensures Broken(Advance(st, Insert(call)), appKey, shop)
  {
    var st' := Advance(st, Insert(call));
    var p := st.passed[call];
    var e := EventOf(p);
    var f :| f in st.events && OfShop(f, appKey, shop) && f.kind == p.kind
             && OneKind(st, appKey, shop, p.at, f.occurredAt, p.kind);
    OneKindStays(st, Insert(call), appKey, shop, p.at, f.occurredAt, p.kind);
    assert e in st'.events && f in st'.events;
    if e.occurredAt < f.occurredAt {
      assert Doubled(st', appKey, shop, e, f);
    } else {
      assert Doubled(st', appKey, shop, f, e);
    }
  }

  // ----- every run -----

  // Every call takes its time as it checks.
  predicate Prompt(steps: seq<RaceStep>) {
    forall step :: step in steps ==> !step.Begin?
  }

  lemma {:induction false} RaceOutcome(steps: seq<RaceStep>, appKey: string, shop: string)
    requires Prompt(steps)
    ensures Clocked(Race(steps)) && Race(steps).begun == map[]
    ensures InsertsInTurn(steps, appKey, shop) ==>
              InOrder(Race(steps), appKey, shop, LastInsert(steps, appKey, shop))
    ensures !InsertsInTurn(steps, appKey, shop) ==> Broken(Race(steps), appKey, shop)
  {
    hide Advance;
    hide Clocked;
    hide Broken;
    if steps == [] {
      NothingYet(appKey, shop);
    } else {
      hide InOrder;
      var before, step := steps[..|steps| - 1], steps[|steps| - 1];
      var st, last := Race(before), LastInsert(before, appKey, shop);
      RaceOutcome(before, appKey, shop);
      StepKeepsClock(st, step);
      OneLater(st, step);
      NoneBegun(st, step);
      if !InsertsInTurn(before, appKey, shop) {
        BrokenStays(st, step, appKey, shop);
      } else if !InsertsFor(st, step, appKey, shop) {
        OtherStepInTurn(st, step, appKey, shop, last);
      } else if st.passed[step.call].at > last {
        InsertInTurn(st, step.call, appKey, shop, last);
      } else {
        InsertOutOfTurn(st, step.call, appKey, shop, last);
      }
    }
  }

  lemma NoneBegun(st: RaceState, step: RaceStep)
    requires st.begun == map[] && !step.Begin?
    ensures Advance(st, step).begun == map[]
  {
    hide Churned;
  }

  lemma OneLater(st: RaceState, step: RaceStep)
    ensures Advance(st, step).now == st.now + 1
  {
    hide Churned;
  }

  lemma NothingYet(appKey: string, shop: string)
    ensures Clocked(Start) && InOrder(Start, appKey, shop, 0)
  {
  }

  // In every interleaving of checks and inserts of such calls, a shop's log strictly alternates by time, starting with
  // an uninstall, exactly when each of its inserts was checked after the insert before it.
  lemma AlternatesIffInTurn(steps: seq<RaceStep>, appKey: string, shop: string)
    requires Prompt(steps)
    ensures AlternatesInTime(Race(steps).events, appKey, shop) <==> InsertsInTurn(steps, appKey, shop)
  {
    RaceOutcome(steps, appKey, shop);
    if !InsertsInTurn(steps, appKey, shop) {
      BrokenDoesNotAlternate(Race(steps), appKey, shop);
    }
  }

  // ----- calls that began before they checked -----

  predicate Newest(events: seq<Event>, appKey: string, shop: string, t: int) {
    forall e :: e in events && OfShop(e, appKey, shop) ==> e.occurredAt < t
  }

  // How many inserts for the shop fell between a call's check and the end of the run.
  function InsertsSince(steps: seq<RaceStep>, call: nat, appKey: string, shop: string): nat {
    if steps == [] then 0
    else
      var before, step := steps[..|steps| - 1], steps[|steps| - 1];
      if step.Check? && step.call == call && call !in Race(before).passed then 0
      else InsertsSince(before, call, appKey, shop) + if InsertsFor(Race(before), step, appKey, shop) then 1 else 0
  }

  // Whenever a call inserts for the shop, its time is later than every event of the shop, and an even number of
  // inserts for the shop fell between its check and its insert.
  ghost predicate TimelyInserts(steps: seq<RaceStep>, appKey: string, shop: string) {
    steps == [] ||
    var before, step := steps[..|steps| - 1], steps[|steps| - 1];
    TimelyInserts(before, appKey, shop)
    && (InsertsFor(Race(before), step, appKey, shop) ==>
          && Newest(Race(before).events, appKey, shop, Race(before).passed[step.call].at)
          && InsertsSince(before, step.call, appKey, shop) % 2 == 0)
  }

  ghost predicate AlternatesThroughout(steps: seq<RaceStep>, appKey: string, shop: string) {
    AlternatesInTime(Race(steps).events, appKey, shop)
    && (steps != [] ==> AlternatesThroughout(steps[..|steps| - 1], appKey, shop))
  }

  // The shop's event nearest after a time, and nearest before it.
  lemma {:induction false} NearestAfter(events: seq<Event>, appKey: string, shop: string, t: int) returns (y: Option<Event>)
    ensures y.Some? ==> y.value in events && OfShop(y.value, appKey, shop) && y.value.occurredAt > t
    ensures forall e :: e in events && OfShop(e, appKey, shop) && e.occurredAt > t ==>
              y.Some? && y.value.occurredAt <= e.occurredAt
  {
    if events == [] {
      y := None;
    } else {
      var before, last := events[..|events| - 1], events[|events| - 1];
      assert forall e :: e in events <==> e in before || e == last;
      y := NearestAfter(before, appKey, shop, t);
      if OfShop(last, appKey, shop) && last.occurredAt > t && (y.None? || last.occurredAt < y.value.occurredAt) {
        y := Some(last);
      }
    }
  }

  lemma {:induction false} NearestBefore(events: seq<Event>, appKey: string, shop: string, t: int) returns (z: Option<Event>)
    ensures z.Some? ==> z.value in events && OfShop(z.value, appKey, shop) && z.value.occurredAt < t
    ensures forall e :: e in events && OfShop(e, appKey, shop) && e.occurredAt < t ==>
              z.Some? && e.occurredAt <= z.value.occurredAt
  {
    if events == [] {
      z := None;
    } else {
      var before, last := events[..|events| - 1], events[|events| - 1];
      assert forall e :: e in events <==> e in before || e == last;
      z := NearestBefore(before, appKey, shop, t);
      if OfShop(last, appKey, shop) && last.occurredAt < t && (z.None? || last.occurredAt > z.value.occurredAt) {
        z := Some(last);
      }
    }
  }

  // An event put anywhere but at the end of an alternating log spoils it.
  lemma LateEventSpoils(events: seq<Event>, e: Event, appKey: string, shop: string)
    requires AlternatesInTime(events, appKey, shop) && OfShop(e, appKey, shop)
    requires forall x :: x in events ==> x.occurredAt != e.occurredAt
    requires !Newest(events, appKey, shop, e.occurredAt)
    ensures !AlternatesInTime(events + [e], appKey, shop)
  {
    var more := events + [e];
    assert forall x :: x in more <==> x in events || x == e;
    var y := NearestAfter(events, appKey, shop, e.occurredAt);
    var z := NearestBefore(events, appKey, shop, e.occurredAt);
    assert !Separated(more, appKey, shop, e, y.value);
    if z.Some? {
      assert !Separated(more, appKey, shop, z.value, e);
      assert !Separated(events, appKey, shop, z.value, y.value);
    }
  }

  lemma AppendAlternatesIff(events: seq<Event>, e: Event, appKey: string, shop: string)
    requires AlternatesInTime(events, appKey, shop) && OfShop(e, appKey, shop)
    requires forall x :: x in events ==> x.occurredAt != e.occurredAt
    requires forall i, j :: 0 <= i < j < |events| ==> events[i].occurredAt != events[j].occurredAt
    ensures AlternatesInTime(events + [e], appKey, shop) <==>
      Newest(events, appKey, shop, e.occurredAt) && (Churned(events, appKey, shop) <==> e.kind == Reinstall)
  {
    if !Newest(events, appKey, shop, e.occurredAt) {
      LateEventSpoils(events, e, appKey, shop);
    } else if Churned(events, appKey, shop) <==> e.kind == Reinstall {
      DueAlternates(events, e, appKey, shop);
    } else {
      UndueSpoils(events, e, appKey, shop);
    }
  }

  lemma UndueSpoils(events: seq<Event>, e: Event, appKey: string, shop: string)
    requires OfShop(e, appKey, shop) && Newest(events, appKey, shop, e.occurredAt)
    requires !(Churned(events, appKey, shop) <==> e.kind == Reinstall)
    ensures !AlternatesInTime(events + [e], appKey, shop)
  {
    var more := events + [e];
    assert forall x :: x in more <==> x in events || x == e;
    LatestIsNewest(events, appKey, shop);
    var latest := Latest(events, appKey, shop);
    hide Latest;
    if latest.Some? {
      assert latest.value in more && latest.value.kind == e.kind;
      assert !Separated(more, appKey, shop, latest.value, e);
    }
  }

  // ----- parities -----

  function EventsOf(events: seq<Event>, appKey: string, shop: string): nat {
    if events == [] then 0
    else EventsOf(events[..|events| - 1], appKey, shop)
         + if OfShop(events[|events| - 1], appKey, shop) then 1 else 0
  }

  // In an alternating log a shop is churned after an odd number of events; and what a call saw at its check is the
  // parity then.
  ghost predicate Parities(steps: seq<RaceStep>, appKey: string, shop: string) {
    var st := Race(steps);
    var n := EventsOf(st.events, appKey, shop);
    && (Churned(st.events, appKey, shop) <==> n % 2 == 1)
    && (forall k :: k in st.passed && ForShop(st.passed[k], appKey, shop) ==>
          SawParity(st.passed[k].kind, n, InsertsSince(steps, k, appKey, shop)))
  }

  predicate SawParity(kind: Kind, n: nat, since: nat) {
    kind == Reinstall <==> (n + since) % 2 == 1
  }

  lemma ParityShifts(kind: Kind, n: nat, since: nat)
    requires SawParity(kind, n, since)
    ensures SawParity(kind, n + 1, since + 1)
  {
    assert n + 1 + (since + 1) == n + since + 2;
  }

  // What a call saw is still due exactly after an even number of inserts.
  lemma DueAfterEven(kind: Kind, n: nat, since: nat, churned: bool)
    requires SawParity(kind, n, since) && (churned <==> n % 2 == 1)
    ensures since % 2 == 0 <==> (churned <==> kind == Reinstall)
  {
  }

  lemma CountAppend(events: seq<Event>, e: Event, appKey: string, shop: string)
    ensures EventsOf(events + [e], appKey, shop) == EventsOf(events, appKey, shop) + if OfShop(e, appKey, shop) then 1 else 0
  {
    assert (events + [e])[..|events|] == events;
  }

  lemma NewestIsLatest(events: seq<Event>, e: Event, appKey: string, shop: string)
    requires OfShop(e, appKey, shop) && Newest(events, appKey, shop, e.occurredAt)
    ensures Churned(events + [e], appKey, shop) <==> e.kind == Uninstall
  {
    LatestIsNewest(events, appKey, shop);
    assert (events + [e])[..|events|] == events;
  }

  // What a step does to the shop's events.
  lemma EventsAfter(st: RaceState, step: RaceStep, appKey: string, shop: string)
    ensures var st' := Advance(st, step);
            if InsertsFor(st, step, appKey, shop) then
              && st'.events == st.events + [EventOf(st.passed[step.call])]
              && EventsOf(st'.events, appKey, shop) == EventsOf(st.events, appKey, shop) + 1
            else
              EventsOf(st'.events, appKey, shop) == EventsOf(st.events, appKey, shop)
  {
    hide Churned;
    if step.Insert? && step.call in st.passed {
      CountAppend(st.events, EventOf(st.passed[step.call]), appKey, shop);
    }
  }

  lemma SinceGrows(steps: seq<RaceStep>, k: nat, appKey: string, shop: string)
    requires steps != []
    ensures var before, step := steps[..|steps| - 1], steps[|steps| - 1];
            InsertsSince(steps, k, appKey, shop) ==
              if step.Check? && step.call == k && k !in Race(before).passed then 0
              else InsertsSince(before, k, appKey, shop) + if InsertsFor(Race(before), step, appKey, shop) then 1 else 0
  {
  }

  predicate FreshCheck(st: RaceState, step: RaceStep, k: nat) {
    step.Check? && step.call == k && k !in st.passed
  }

  // A call that passes its check now saw the shop as it is.
  lemma SeesNow(st: RaceState, step: RaceStep, k: nat, appKey: string, shop: string, n: nat)
    requires k in Advance(st, step).passed && FreshCheck(st, step, k)
    requires ForShop(Advance(st, step).passed[k], appKey, shop) && n == EventsOf(st.events, appKey, shop)
    requires Churned(st.events, appKey, shop) <==> n % 2 == 1
    ensures EventsOf(Advance(st, step).events, appKey, shop) == n
    ensures SawParity(Advance(st, step).passed[k].kind, n, 0)
  {
    PassedBefore(st, step, k);
    EventsAfter(st, step, appKey, shop);
    hide Advance;
    hide Churned;
    hide EventsOf;
  }

  // One that had passed before sees one more insert, or none.
  lemma SeesOn(st: RaceState, step: RaceStep, k: nat, appKey: string, shop: string, n: nat, since: nat)
    requires k in Advance(st, step).passed && !FreshCheck(st, step, k)
    requires n == EventsOf(st.events, appKey, shop)
    requires k in st.passed ==> SawParity(st.passed[k].kind, n, since)
    ensures SawParity(Advance(st, step).passed[k].kind, EventsOf(Advance(st, step).events, appKey, shop),
                      since + if InsertsFor(st, step, appKey, shop) then 1 else 0)
  {
    PassedBefore(st, step, k);
    EventsAfter(st, step, appKey, shop);
    hide Advance;
    hide EventsOf;
    hide InsertsFor;
    hide SawParity;
    ParityShifts(st.passed[k].kind, n, since);
  }

  lemma StillSees(steps: seq<RaceStep>, appKey: string, shop: string, k: nat)
    requires steps != [] && Parities(steps[..|steps| - 1], appKey, shop)
    requires k in Race(steps).passed && ForShop(Race(steps).passed[k], appKey, shop)
    ensures SawParity(Race(steps).passed[k].kind, EventsOf(Race(steps).events, appKey, shop),
                      InsertsSince(steps, k, appKey, shop))
  {
    hide Advance;
    hide Churned;
    hide EventsOf;
    hide InsertsSince;
    hide InsertsFor;
    hide SawParity;
    hide AlternatesInTime;
    var before, step := steps[..|steps| - 1], steps[|steps| - 1];
    var st := Race(before);
    assert Race(steps) == Advance(st, step);
    SinceGrows(steps, k, appKey, shop);
    hide Race;
    var n, since := EventsOf(st.events, appKey, shop), InsertsSince(before, k, appKey, shop);
    assert Churned(st.events, appKey, shop) <==> n % 2 == 1;
    assert k in st.passed && ForShop(st.passed[k], appKey, shop) ==> SawParity(st.passed[k].kind, n, since);
    hide Parities;
    if FreshCheck(st, step, k) {
      SeesNow(st, step, k, appKey, shop, n);
    } else {
      KeptShop(st, step, k);
      SeesOn(st, step, k, appKey, shop, n, since);
    }
  }

  lemma KeptShop(st: RaceState, step: RaceStep, k: nat)
    requires k in Advance(st, step).passed && !FreshCheck(st, step, k)
    ensures k in st.passed && Advance(st, step).passed[k] == st.passed[k]
  {
    PassedBefore(st, step, k);
    hide Advance;
  }

  lemma PassedBefore(st: RaceState, step: RaceStep, k: nat)
    requires k in Advance(st, step).passed
    ensures var p := Advance(st, step).passed[k];
            if step.Check? && step.call == k && k !in st.passed then
              (Churned(st.events, p.appKey, p.shop) <==> p.kind == Reinstall) && !InsertsFor(st, step, p.appKey, p.shop)
            else k in st.passed && p == st.passed[k]
  {
    hide Churned;
  }

  lemma ParitiesStep(steps: seq<RaceStep>, appKey: string, shop: string)
    requires steps != [] && Parities(steps[..|steps| - 1], appKey, shop)
    requires var before, step := steps[..|steps| - 1], steps[|steps| - 1];
             InsertsFor(Race(before), step, appKey, shop) ==>
               && Newest(Race(before).events, appKey, shop, Race(before).passed[step.call].at)
               && (Churned(Race(before).events, appKey, shop) <==> Race(before).passed[step.call].kind == Reinstall)
    ensures Parities(steps, appKey, shop)
  {
    ShopParity(steps, appKey, shop);
    var st' := Race(steps);
    forall k | k in st'.passed && ForShop(st'.passed[k], appKey, shop)
      ensures SawParity(st'.passed[k].kind, EventsOf(st'.events, appKey, shop), InsertsSince(steps, k, appKey, shop))
    {
      StillSees(steps, appKey, shop, k);
    }
    hide Race;
    hide Churned;
    hide EventsOf;
    hide InsertsSince;
    hide SawParity;
  }

  lemma ShopParity(steps: seq<RaceStep>, appKey: string, shop: string)
    requires steps != [] && Parities(steps[..|steps| - 1], appKey, shop)
    requires var before, step := steps[..|steps| - 1], steps[|steps| - 1];
             InsertsFor(Race(before), step, appKey, shop) ==>
               && Newest(Race(before).events, appKey, shop, Race(before).passed[step.call].at)
               && (Churned(Race(before).events, appKey, shop) <==> Race(before).passed[step.call].kind == Reinstall)
    ensures Churned(Race(steps).events, appKey, shop) <==> EventsOf(Race(steps).events, appKey, shop) % 2 == 1
  {
    var before, step := steps[..|steps| - 1], steps[|steps| - 1];
    var st := Race(before);
    assert Race(steps) == Advance(st, step);
    EventsAfter(st, step, appKey, shop);
    if InsertsFor(st, step, appKey, shop) {
      NewestIsLatest(st.events, EventOf(st.passed[step.call]), appKey, shop);
    } else {
      OtherEvents(st, step, appKey, shop);
    }
    hide Race;
    hide Advance;
    hide Churned;
    hide EventsOf;
    hide AlternatesInTime;
    hide InsertsSince;
    hide SawParity;
  }

  lemma {:induction false} ThroughoutOutcome(steps: seq<RaceStep>, appKey: string, shop: string)
    ensures Clocked(Race(steps))
    ensures AlternatesThroughout(steps, appKey, shop) <==> TimelyInserts(steps, appKey, shop)
    ensures AlternatesThroughout(steps, appKey, shop) ==> Parities(steps, appKey, shop)
  {
    hide Advance;
    hide Clocked;
    hide Churned;
    hide EventsOf;
    if steps == [] {
      NothingYet(appKey, shop);
      EmptyParities(appKey, shop);
    } else {
      var before, step := steps[..|steps| - 1], steps[|steps| - 1];
      var st := Race(before);
      ThroughoutOutcome(before, appKey, shop);
      StepKeepsClock(st, step);
      hide AlternatesInTime;
      if AlternatesThroughout(before, appKey, shop) {
        if InsertsFor(st, step, appKey, shop) {
          InsertOutcome(before, step, appKey, shop);
          EventsAfter(st, step, appKey, shop);
        } else {
          OtherEvents(st, step, appKey, shop);
        }
        if AlternatesThroughout(steps, appKey, shop) {
          ParitiesStep(steps, appKey, shop);
        }
      }
    }
  }

  lemma EmptyParities(appKey: string, shop: string)
    ensures Parities([], appKey, shop)
  {
  }

  // One insert: the log still alternates exactly when the insert is timely, and then it was due.
  lemma InsertOutcome(before: seq<RaceStep>, step: RaceStep, appKey: string, shop: string)
    requires Clocked(Race(before)) && AlternatesInTime(Race(before).events, appKey, shop)
    requires Parities(before, appKey, shop) && InsertsFor(Race(before), step, appKey, shop)
    ensures var st := Race(before);
            var p := st.passed[step.call];
            && (AlternatesInTime(st.events + [EventOf(p)], appKey, shop) <==>
                  Newest(st.events, appKey, shop, p.at) && InsertsSince(before, step.call, appKey, shop) % 2 == 0)
            && (InsertsSince(before, step.call, appKey, shop) % 2 == 0 <==>
                  (Churned(st.events, appKey, shop) <==> p.kind == Reinstall))
  {
    var st := Race(before);
    var p := st.passed[step.call];
    var n, since := EventsOf(st.events, appKey, shop), InsertsSince(before, step.call, appKey, shop);
    assert SawParity(p.kind, n, since) && (Churned(st.events, appKey, shop) <==> n % 2 == 1);
    hide AlternatesInTime;
    hide Churned;
    hide Newest;
    hide EventsOf;
    hide InsertsSince;
    hide Race;
    hide Parities;
    DueAfterEven(p.kind, n, since, Churned(st.events, appKey, shop));
    hide SawParity;
    ClockedInsert(st, step.call);
    AppendAlternatesIff(st.events, EventOf(p), appKey, shop);
  }

  lemma ClockedInsert(st: RaceState, call: nat)
    requires Clocked(st) && call in st.passed
    ensures forall x :: x in st.events ==> x.occurredAt != EventOf(st.passed[call]).occurredAt
    ensures forall i, j :: 0 <= i < j < |st.events| ==> st.events[i].occurredAt != st.events[j].occurredAt
  {
  }

  // In every interleaving, calls that began before they checked included, a shop's log alternates at every moment
  // exactly when each insert's time is later than all the shop's events and an even number of the shop's inserts
  // fell between its check and it.
  lemma AlternatesThroughoutIff(steps: seq<RaceStep>, appKey: string, shop: string)
    ensures AlternatesThroughout(steps, appKey, shop) <==> TimelyInserts(steps, appKey, shop)
  {
    ThroughoutOutcome(steps, appKey, shop);
  }

  // Two uninstall calls for one shop that both check before either inserts: the uninstall is recorded twice.
  lemma RacingUninstallsRecordTwice(appKey: string, shop: string)
    ensures var steps := [Check(0, Uninstall, appKey, shop), Check(1, Uninstall, appKey, shop), Insert(0), Insert(1)];
            && Race(steps).events == [Event(appKey, shop, Uninstall, 1), Event(appKey, shop, Uninstall, 2)]
            && !AlternatesInTime(Race(steps).events, appKey, shop)
  {
    var a, b, c, d := Check(0, Uninstall, appKey, shop), Check(1, Uninstall, appKey, shop), Insert(0), Insert(1);
    RaceOfFour(a, b, c, d);
    var p, q := Passed(Uninstall, appKey, shop, 1), Passed(Uninstall, appKey, shop, 2);
    assert !Churned([], appKey, shop);
    var s1 := Advance(Start, a);
    assert s1 == RaceState(1, [], [], map[], map[0 := p]);
    var s2 := Advance(s1, b);
    assert s2 == RaceState(2, [], [], map[], map[0 := p, 1 := q]);
    var s3 := Advance(s2, c);
    assert s3.events == [EventOf(p)] && s3.passed == map[1 := q];
    var s4 := Advance(s3, d);
    assert s4.events == [EventOf(p), EventOf(q)];
    assert !Separated(s4.events, appKey, shop, EventOf(p), EventOf(q));
  }

  lemma RaceOfFour(a: RaceStep, b: RaceStep, c: RaceStep, d: RaceStep)
    ensures Race([a, b, c, d]) == Advance(Advance(Advance(Advance(Start, a), b), c), d)
  {
    hide Advance;
    assert [a, b, c, d][..3] == [a, b, c] && [a, b, c][..2] == [a, b] && [a, b][..1] == [a] && [a][..0] == [];
    var none: seq<RaceStep> := [];
    assert Race(none) == Start;
    assert Race([a]) == Advance(Race(none), a);
    assert Race([a, b]) == Advance(Race([a]), b);
    assert Race([a, b, c]) == Advance(Race([a, b]), c);
  }

  // A rollup that began before a shop was uninstalled and comes to it afterwards: its reinstall is recorded with a time
  // before the uninstall's, so the shop stays churned and its log begins with a reinstall.
  lemma OvertakenRollup(appKey: string, shop: string)
    ensures var steps := [Begin(0), Check(1, Uninstall, appKey, shop), Insert(1), Check(0, Reinstall, appKey, shop), Insert(0)];
            var events := Race(steps).events;
            && events == [Event(appKey, shop, Uninstall, 2), Event(appKey, shop, Reinstall, 1)]
            && Churned(events, appKey, shop) && !AlternatesInTime(events, appKey, shop)
  {
    var a, b, c := Begin(0), Check(1, Uninstall, appKey, shop), Insert(1);
    var d, e := Check(0, Reinstall, appKey, shop), Insert(0);
    RaceOfFour(a, b, c, d);
    assert [a, b, c, d, e][..4] == [a, b, c, d];
    assert Race([a, b, c, d, e]) == Advance(Race([a, b, c, d]), e);
    var p, q := Passed(Uninstall, appKey, shop, 2), Passed(Reinstall, appKey, shop, 1);
    assert !Churned([], appKey, shop);
    ChurnedByOne(EventOf(p), EventOf(q));
    hide Churned;
    var s1 := Advance(Start, a);
    assert s1 == RaceState(1, [], [], map[0 := 1], map[]);
    var s2 := Advance(s1, b);
    assert s2 == RaceState(2, [], [], map[0 := 1], map[1 := p]);
    var s3 := Advance(s2, c);
    assert s3.events == [EventOf(p)] && s3.begun == map[0 := 1] && s3.passed == map[];
    var s4 := Advance(s3, d);
    assert s4.events == [EventOf(p)] && s4.passed == map[0 := q];
    var s5 := Advance(s4, e);
    assert s5.events == [EventOf(p), EventOf(q)];
  }

  lemma ChurnedByOne(p: Event, q: Event)
    requires p.appKey == q.appKey && p.shop == q.shop && p.kind == Uninstall && q.occurredAt < p.occurredAt
    ensures Churned([p], p.appKey, p.shop) && Churned([p, q], p.appKey, p.shop)
  {
    assert [p, q][..1] == [p] && [p][..0] == [];
    assert Latest([p], p.appKey, p.shop) == Some(p);
  }
}

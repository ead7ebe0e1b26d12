// lifecycleService and growthMetricsService: uninstall and reinstall events, the churned set, and the rollup over it.
// Calls run one after another, each at a later instant than the one before.
module Lifecycle {
  import opened Options

  datatype Kind = Uninstall | Reinstall

  datatype Event = Event(appKey: string, shop: string, kind: Kind, occurredAt: int)

  datatype AuditRow = AuditRow(actor: string, appKey: string, shop: string, target: nat, before: Option<Kind>, after: Kind)

  datatype Metric = Nps | ChurnedMerchants | AtRiskMerchants

  datatype KpiRow = KpiRow(appKey: string, metric: Metric, value: real, asOf: int)

  // A shop the connector lists, and whether its refreshed health band is HEALTHY.
  datatype Listed = Listed(shop: string, healthy: bool)

  datatype State = State(now: int, events: seq<Event>, audit: seq<AuditRow>, kpis: seq<KpiRow>)

  const Initial := State(0, [], [], [])

  const SYSTEM_ACTOR := "system:webhook"
  const JOB_ACTOR := "system:growth-rollup"

  // findFirst ordered by occurredAt descending.
  function Latest(events: seq<Event>, appKey: string, shop: string): Option<Event> {
    if events == [] then None
    else
      var before := Latest(events[..|events| - 1], appKey, shop);
      var e := events[|events| - 1];
      if e.appKey == appKey && e.shop == shop && (before.None? || e.occurredAt >= before.value.occurredAt) then Some(e)
      else before
  }

  predicate Churned(events: seq<Event>, appKey: string, shop: string) {
    var latest := Latest(events, appKey, shop);
    latest.Some? && latest.value.kind == Uninstall
  }

  function InsertUninstall(st: State, appKey: string, shop: string): State {
    st.(events := st.events + [Event(appKey, shop, Uninstall, st.now)],
        audit := st.audit + [AuditRow(SYSTEM_ACTOR, appKey, shop, |st.events|, None, Uninstall)])
  }

  function InsertReinstall(st: State, appKey: string, shop: string): State {
    st.(events := st.events + [Event(appKey, shop, Reinstall, st.now)],
        audit := st.audit + [AuditRow(JOB_ACTOR, appKey, shop, |st.events|, Some(Uninstall), Reinstall)])
  }

  function RecordUninstall(st: State, appKey: string, shop: string): State {
    if Churned(st.events, appKey, shop) then st else InsertUninstall(st, appKey, shop)
  }

  function RecordReinstall(st: State, appKey: string, shop: string): State {
    if Churned(st.events, appKey, shop) then InsertReinstall(st, appKey, shop) else st
  }

  function ReinstallAll(st: State, appKey: string, shops: seq<string>): State {
    if shops == [] then st
    else RecordReinstall(ReinstallAll(st, appKey, shops[..|shops| - 1]), appKey, shops[|shops| - 1])
  }

  ghost function ChurnedSet(events: seq<Event>, appKey: string): set<string> {
    set e | e in events && Churned(events, appKey, e.shop) :: e.shop
  }

  function ShopsOf(listed: seq<Listed>): (shops: seq<string>)
    ensures |shops| == |listed|
  {
    seq(|listed|, k requires 0 <= k < |listed| => listed[k].shop)
  }

  function AtRisk(listed: seq<Listed>): nat {
    if listed == [] then 0 else AtRisk(listed[..|listed| - 1]) + if listed[|listed| - 1].healthy then 0 else 1
  }

  ghost function Rollup(st: State, appKey: string, listed: seq<Listed>, nps: real): State {
    var after := ReinstallAll(st, appKey, ShopsOf(listed));
    after.(kpis := after.kpis + [
      KpiRow(appKey, Nps, nps, st.now),
      KpiRow(appKey, ChurnedMerchants, |ChurnedSet(after.events, appKey)| as real, st.now),
      KpiRow(appKey, AtRiskMerchants, AtRisk(listed) as real, st.now)])
  }

  // ----- the services -----

  class LifecycleService {
    var now: int
    var events: seq<Event>
    var audit: seq<AuditRow>
    var kpis: seq<KpiRow>

    ghost function View(): State
      reads this
    {
      State(now, events, audit, kpis)
    }

    constructor ()
      ensures View() == Initial
    {
      now, events, audit, kpis := 0, [], [], [];
    }

    method RecordUninstallEvent(appKey: string, shop: string)
      modifies this
      ensures View() == RecordUninstall(old(View()), appKey, shop)
    {
      var latest := Latest(events, appKey, shop);
      if latest.Some? && latest.value.kind == Uninstall {
        return;
      }
      audit := audit + [AuditRow(SYSTEM_ACTOR, appKey, shop, |events|, None, Uninstall)];
      events := events + [Event(appKey, shop, Uninstall, now)];
    }

    method RecordReinstallEvent(appKey: string, shop: string) returns (recorded: bool)
      modifies this
      ensures View() == RecordReinstall(old(View()), appKey, shop)
      ensures recorded == Churned(old(events), appKey, shop)
    {
      var latest := Latest(events, appKey, shop);
      if latest.None? || latest.value.kind != Uninstall {
        return false;
      }
      audit := audit + [AuditRow(JOB_ACTOR, appKey, shop, |events|, Some(latest.value.kind), Reinstall)];
      events := events + [Event(appKey, shop, Reinstall, now)];
      recorded := true;
    }

    // The store returns the events newest first; the first kind seen for a shop is its latest.
    method ChurnedShops(appKey: string) returns (shops: seq<string>)
      ensures forall s :: s in shops <==> s in ChurnedSet(events, appKey)
      ensures |shops| == |ChurnedSet(events, appKey)|
    {
      var rows := NewestFirst(events);
      var seen: map<string, Kind> := map[];
      for i := 0 to |rows|
        invariant forall s :: s in seen <==> FirstOf(rows[..i], appKey, s).Some?
        invariant forall s :: s in seen ==> seen[s] == FirstOf(rows[..i], appKey, s).value.kind
      {
        var e := rows[i];
        assert rows[..i + 1] == rows[..i] + [e];
        forall s
          ensures FirstOf(rows[..i + 1], appKey, s) ==
            if FirstOf(rows[..i], appKey, s).None? && e.appKey == appKey && e.shop == s then Some(e)
            else FirstOf(rows[..i], appKey, s)
        {
          FirstOfAppend(rows[..i], e, appKey, s);
        }
        if e.appKey == appKey && e.shop !in seen {
          seen := seen[e.shop := e.kind];
        }
      }
      assert rows[..|rows|] == rows;
      forall s
        ensures s in ChurnedSet(events, appKey) <==> s in seen && seen[s] == Uninstall
      {
        FirstIsLatest(events, appKey, s);
        InChurnedSet(events, appKey, s);
      }
      shops := UninstalledIn(seen);
      DistinctIsSet(shops, ChurnedSet(events, appKey));
    }

    // The health of each shop and the NPS figure come from services of their own.
    method RunRollup(appKey: string, listed: seq<Listed>, nps: real)
      modifies this
      ensures View() == Rollup(old(View()), appKey, listed, nps)
    {
      ghost var st, shops := View(), ShopsOf(listed);
      var atRisk := 0;
      for i := 0 to |listed|
        invariant View() == ReinstallAll(st, appKey, shops[..i])
        invariant atRisk == AtRisk(listed[..i])
      {
        assert listed[..i + 1][..i] == listed[..i];
        if !listed[i].healthy {
          atRisk := atRisk + 1;
        }
        assert shops[..i + 1][..i] == shops[..i];
        var _ := RecordReinstallEvent(appKey, listed[i].shop);
      }
      assert shops[..|listed|] == shops && listed[..|listed|] == listed;
      OnlyEventsChange(st, appKey, shops);
      var churned := ChurnedShops(appKey);
      kpis := kpis + [KpiRow(appKey, Nps, nps, now), KpiRow(appKey, ChurnedMerchants, |churned| as real, now),
                      KpiRow(appKey, AtRiskMerchants, atRisk as real, now)];
    }
  }

  // Ordered by time, newest first; what the store does with equal times is not specified, here the later row comes
  // first.
  function NewestFirst(events: seq<Event>): seq<Event> {
    if events == [] then [] else PutByTime(events[|events| - 1], NewestFirst(events[..|events| - 1]))
  }

  function PutByTime(e: Event, rows: seq<Event>): seq<Event> {
    if rows == [] || rows[0].occurredAt <= e.occurredAt then [e] + rows else [rows[0]] + PutByTime(e, rows[1..])
  }

  function FirstOf(rows: seq<Event>, appKey: string, shop: string): Option<Event> {
    if rows == [] then None
    else if rows[0].appKey == appKey && rows[0].shop == shop then Some(rows[0])
    else FirstOf(rows[1..], appKey, shop)
  }

  // The shops of a map that are uninstalled, in whatever order the entries come.
  method UninstalledIn(kinds: map<string, Kind>) returns (shops: seq<string>)
    ensures forall s :: s in shops <==> s in kinds && kinds[s] == Uninstall
    ensures Distinct(shops)
  {
    shops := [];
    var todo := kinds.Keys;
    while todo != {}
      invariant todo <= kinds.Keys && Distinct(shops)
      invariant forall s :: s in shops <==> s in kinds && s !in todo && kinds[s] == Uninstall
    {
      var s :| s in todo;
      todo := todo - {s};
      if kinds[s] == Uninstall {
        shops := shops + [s];
      }
    }
  }

  ghost predicate TimeOrdered(events: seq<Event>) {
    forall i, j :: 0 <= i < j < |events| ==> events[i].occurredAt <= events[j].occurredAt
  }

  ghost predicate Distinct(s: seq<string>) {
    forall i, j :: 0 <= i < j < |s| ==> s[i] != s[j]
  }

  ghost predicate Descending(rows: seq<Event>) {
    forall i, j :: 0 <= i < j < |rows| ==> rows[i].occurredAt >= rows[j].occurredAt
  }

  lemma {:induction false} FirstOfAppend(rows: seq<Event>, e: Event, appKey: string, shop: string)
    ensures FirstOf(rows + [e], appKey, shop) ==
      if FirstOf(rows, appKey, shop).None? && e.appKey == appKey && e.shop == shop then Some(e)
      else FirstOf(rows, appKey, shop)
  {
    if rows != [] {
      assert (rows + [e])[1..] == rows[1..] + [e];
      FirstOfAppend(rows[1..], e, appKey, shop);
    } else {
      assert rows + [e] == [e] && [e][1..] == [];
    }
  }

  lemma {:induction false} PutKeepsOrder(e: Event, rows: seq<Event>)
    requires Descending(rows)
    ensures Descending(PutByTime(e, rows))
    ensures forall x :: x in PutByTime(e, rows) <==> x in rows || x == e
  {
    if rows != [] && rows[0].occurredAt > e.occurredAt {
      PutKeepsOrder(e, rows[1..]);
      var rest := PutByTime(e, rows[1..]);
      forall j | 0 <= j < |rest|
        ensures rest[j].occurredAt <= rows[0].occurredAt
      {
        assert rest[j] in rest;
      }
    }
  }

  // The first row of a shop after an event is put in its place.
  lemma {:induction false} FirstAfterPut(e: Event, rows: seq<Event>, appKey: string, shop: string)
    requires Descending(rows)
    ensures FirstOf(PutByTime(e, rows), appKey, shop) ==
      var first := FirstOf(rows, appKey, shop);
      if e.appKey == appKey && e.shop == shop && (first.None? || e.occurredAt >= first.value.occurredAt) then Some(e)
      else first
  {
    if rows == [] || rows[0].occurredAt <= e.occurredAt {
      assert ([e] + rows)[1..] == rows;
      FirstIsOlder(rows, appKey, shop);
    } else {
      var rest := PutByTime(e, rows[1..]);
      assert ([rows[0]] + rest)[1..] == rest;
      FirstAfterPut(e, rows[1..], appKey, shop);
    }
  }

  lemma {:induction false} FirstIsOlder(rows: seq<Event>, appKey: string, shop: string)
    requires Descending(rows)
    ensures FirstOf(rows, appKey, shop).Some? ==>
      rows != [] && FirstOf(rows, appKey, shop).value.occurredAt <= rows[0].occurredAt
  {
    if rows != [] && !(rows[0].appKey == appKey && rows[0].shop == shop) {
      FirstIsOlder(rows[1..], appKey, shop);
    }
  }

  lemma {:induction false} NewestFirstDescends(events: seq<Event>)
    ensures Descending(NewestFirst(events))
  {
    if events != [] {
      NewestFirstDescends(events[..|events| - 1]);
      PutKeepsOrder(events[|events| - 1], NewestFirst(events[..|events| - 1]));
    }
  }

  // Whatever order the events were written in, the first one met newest first is the latest.
  lemma {:induction false} FirstIsLatest(events: seq<Event>, appKey: string, shop: string)
    ensures FirstOf(NewestFirst(events), appKey, shop) == Latest(events, appKey, shop)
  {
    if events != [] {
      var before, e := events[..|events| - 1], events[|events| - 1];
      FirstIsLatest(before, appKey, shop);
      NewestFirstDescends(before);
      FirstAfterPut(e, NewestFirst(before), appKey, shop);
    }
  }

  lemma {:induction false} LatestIsFrom(events: seq<Event>, appKey: string, shop: string)
    ensures Latest(events, appKey, shop).Some? ==>
      var e := Latest(events, appKey, shop).value;
      e in events && e.appKey == appKey && e.shop == shop
  {
    if events != [] {
      LatestIsFrom(events[..|events| - 1], appKey, shop);
    }
  }

  // A churned shop is in the set whichever of its events brings it in.
  lemma InChurnedSet(events: seq<Event>, appKey: string, shop: string)
    ensures shop in ChurnedSet(events, appKey) <==> Churned(events, appKey, shop)
  {
    LatestIsFrom(events, appKey, shop);
  }

  lemma {:induction false} SetOfDistinct(s: seq<string>)
    requires Distinct(s)
    ensures |set x | x in s| == |s|
  {
    if s != [] {
      var before, last := s[..|s| - 1], s[|s| - 1];
      SetOfDistinct(before);
      assert (set x | x in s) == (set x | x in before) + {last};
    }
  }

  lemma DistinctIsSet(s: seq<string>, all: set<string>)
    requires Distinct(s) && forall x :: x in s <==> x in all
    ensures |s| == |all|
  {
    SetOfDistinct(s);
    assert (set x | x in s) == all;
  }

  // ----- every run -----

  datatype Op =
    | UninstallHook(appKey: string, shop: string)
    | RollupTick(appKey: string, listed: seq<Listed>, nps: real)

  // Each call runs at a later instant than the one before; wait says how much later beyond that.
  ghost function Apply(st: State, op: Op, wait: nat): State {
    var at := st.(now := st.now + 1 + wait);
    match op
    case UninstallHook(appKey, shop) => RecordUninstall(at, appKey, shop)
    case RollupTick(appKey, listed, nps) => Rollup(at, appKey, listed, nps)
  }

  ghost function Run(ops: seq<(Op, nat)>): State {
    if ops == [] then Initial
    else Apply(Run(ops[..|ops| - 1]), ops[|ops| - 1].0, ops[|ops| - 1].1)
  }

  function KindsOf(events: seq<Event>, appKey: string, shop: string): seq<Kind> {
    if events == [] then []
    else
      var e := events[|events| - 1];
      KindsOf(events[..|events| - 1], appKey, shop) + (if e.appKey == appKey && e.shop == shop then [e.kind] else [])
  }

  predicate Alternates(kinds: seq<Kind>) {
    forall k :: 0 <= k < |kinds| ==> kinds[k] == if k % 2 == 0 then Uninstall else Reinstall
  }

  function RowOf(e: Event, id: nat): AuditRow {
    if e.kind == Uninstall then AuditRow("system:webhook", e.appKey, e.shop, id, None, Uninstall)
    else AuditRow("system:growth-rollup", e.appKey, e.shop, id, Some(Uninstall), Reinstall)
  }

  ghost predicate ShopInv(events: seq<Event>, appKey: string, shop: string) {
    var kinds := KindsOf(events, appKey, shop);
    && Alternates(kinds)
    && (Churned(events, appKey, shop) <==> |kinds| % 2 == 1)
  }

  ghost predicate Inv(st: State) {
    && TimeOrdered(st.events)
    && (forall e :: e in st.events ==> e.occurredAt <= st.now)
    && (forall appKey, shop :: ShopInv(st.events, appKey, shop))
    && |st.audit| == |st.events|
    && (forall k :: 0 <= k < |st.events| ==> st.audit[k] == RowOf(st.events[k], k))
  }

  lemma AppendViews(events: seq<Event>, e: Event, appKey: string, shop: string)
    requires forall x :: x in events ==> x.occurredAt <= e.occurredAt
    ensures KindsOf(events + [e], appKey, shop)
         == KindsOf(events, appKey, shop) + (if e.appKey == appKey && e.shop == shop then [e.kind] else [])
    ensures Latest(events + [e], appKey, shop)
         == if e.appKey == appKey && e.shop == shop then Some(e) else Latest(events, appKey, shop)
  {
    assert (events + [e])[..|events|] == events;
    LatestIsFrom(events, appKey, shop);
  }

  // The kind that is due for a shop, recorded next.
  lemma DueKeepsShop(events: seq<Event>, e: Event, appKey: string, shop: string)
    requires forall x :: x in events ==> x.occurredAt <= e.occurredAt
    requires ShopInv(events, appKey, shop)
    requires Churned(events, e.appKey, e.shop) <==> e.kind == Reinstall
    ensures ShopInv(events + [e], appKey, shop)
  {
    AppendViews(events, e, appKey, shop);
    hide KindsOf;
    hide Latest;
  }

  lemma DueKeepsInv(st: State, st': State, e: Event)
    requires Inv(st) && (Churned(st.events, e.appKey, e.shop) <==> e.kind == Reinstall) && e.occurredAt == st.now
    requires st'.events == st.events + [e] && st'.audit == st.audit + [RowOf(e, |st.events|)] && st'.now == st.now
    ensures Inv(st')
  {
    hide Churned;
    hide Alternates;
    forall a, s
      ensures ShopInv(st'.events, a, s)
    {
      assert ShopInv(st.events, a, s);
      DueKeepsShop(st.events, e, a, s);
    }
    hide ShopInv;
    hide RowOf;
  }

  // Inserting the kind that is due keeps everything in order.
  lemma InsertKeepsInv(st: State, st': State, appKey: string, shop: string)
    requires Inv(st)
    requires || (Churned(st.events, appKey, shop) && st' == InsertReinstall(st, appKey, shop))
             || (!Churned(st.events, appKey, shop) && st' == InsertUninstall(st, appKey, shop))
    ensures Inv(st')
  {
    hide Inv;
    hide Churned;
    if Churned(st.events, appKey, shop) {
      DueKeepsInv(st, st', Event(appKey, shop, Reinstall, st.now));
    } else {
      DueKeepsInv(st, st', Event(appKey, shop, Uninstall, st.now));
    }
  }

  lemma {:induction false} ReinstallAllKeepsInv(st: State, appKey: string, shops: seq<string>)
    requires Inv(st)
    ensures Inv(ReinstallAll(st, appKey, shops)) && ReinstallAll(st, appKey, shops).now == st.now
  {
    hide Inv;
    if shops != [] {
      var before, shop := shops[..|shops| - 1], shops[|shops| - 1];
      ReinstallAllKeepsInv(st, appKey, before);
      var mid := ReinstallAll(st, appKey, before);
      if Churned(mid.events, appKey, shop) {
        InsertKeepsInv(mid, InsertReinstall(mid, appKey, shop), appKey, shop);
      }
    }
  }

  lemma LaterKeepsInv(st: State, later: State)
    requires Inv(st) && later.events == st.events && later.audit == st.audit && later.now >= st.now
    ensures Inv(later)
  {
  }

  lemma StepKeepsInv(st: State, op: Op, wait: nat)
    requires Inv(st)
    ensures Inv(Apply(st, op, wait))
  {
    hide Inv;
    hide Churned;
    var at := st.(now := st.now + 1 + wait);
    LaterKeepsInv(st, at);
    match op
    case UninstallHook(appKey, shop) =>
      if !Churned(at.events, appKey, shop) {
        InsertKeepsInv(at, InsertUninstall(at, appKey, shop), appKey, shop);
      }
    case RollupTick(appKey, listed, nps) =>
      ReinstallAllKeepsInv(at, appKey, ShopsOf(listed));
      hide ReinstallAll;
      LaterKeepsInv(ReinstallAll(at, appKey, ShopsOf(listed)), Rollup(at, appKey, listed, nps));
  }

  lemma {:induction false} RunKeepsInv(ops: seq<(Op, nat)>)
    ensures Inv(Run(ops))
  {
    hide Inv;
    hide Apply;
    if ops == [] {
      EmptyInv();
    } else {
      RunKeepsInv(ops[..|ops| - 1]);
      StepKeepsInv(Run(ops[..|ops| - 1]), ops[|ops| - 1].0, ops[|ops| - 1].1);
    }
  }

  lemma EmptyInv()
    ensures Inv(Initial)
  {
  }

  // Each shop's log strictly alternates, starting with an uninstall, and each event has its audit row.
  lemma LogAlternates(ops: seq<(Op, nat)>, appKey: string, shop: string)
    ensures Alternates(KindsOf(Run(ops).events, appKey, shop))
    ensures |Run(ops).audit| == |Run(ops).events|
    ensures forall k :: 0 <= k < |Run(ops).events| ==> Run(ops).audit[k] == RowOf(Run(ops).events[k], k)
  {
    RunKeepsInv(ops);
    assert ShopInv(Run(ops).events, appKey, shop);
  }

  // ----- the size of the churned set -----

  function Count(events: seq<Event>, appKey: string, kind: Kind): nat {
    if events == [] then 0
    else
      var e := events[|events| - 1];
      Count(events[..|events| - 1], appKey, kind) + (if e.appKey == appKey && e.kind == kind then 1 else 0)
  }

  // One event in turn adds its shop to the churned set or takes it out.
  lemma AppendChurned(events: seq<Event>, e: Event)
    requires forall x :: x in events ==> x.occurredAt <= e.occurredAt
    requires Churned(events, e.appKey, e.shop) <==> e.kind == Reinstall
    ensures var before, after := ChurnedSet(events, e.appKey), ChurnedSet(events + [e], e.appKey);
            if e.kind == Uninstall then e.shop !in before && after == before + {e.shop}
            else e.shop in before && after == before - {e.shop}
    ensures forall a :: a != e.appKey ==> ChurnedSet(events + [e], a) == ChurnedSet(events, a)
  {
    forall a, s
      ensures s in ChurnedSet(events + [e], a) <==>
        if a == e.appKey && s == e.shop then e.kind == Uninstall else s in ChurnedSet(events, a)
    {
      AppendViews(events, e, a, s);
      InChurnedSet(events, a, s);
      InChurnedSet(events + [e], a, s);
    }
    InChurnedSet(events, e.appKey, e.shop);
  }

  lemma CountAppend(events: seq<Event>, e: Event, appKey: string, kind: Kind)
    ensures Count(events + [e], appKey, kind)
         == Count(events, appKey, kind) + (if e.appKey == appKey && e.kind == kind then 1 else 0)
  {
    assert (events + [e])[..|events|] == events;
  }

  // An event log in which every event is the one due for its shop.
  ghost predicate InTurn(events: seq<Event>) {
    events != [] ==>
      var before, e := events[..|events| - 1], events[|events| - 1];
      && InTurn(before)
      && (Churned(before, e.appKey, e.shop) <==> e.kind == Reinstall)
      && (forall x :: x in before ==> x.occurredAt <= e.occurredAt)
  }

  lemma {:induction false} ChurnedIsDifference(events: seq<Event>, appKey: string)
    requires InTurn(events)
    ensures |ChurnedSet(events, appKey)| == Count(events, appKey, Uninstall) - Count(events, appKey, Reinstall)
  {
    if events != [] {
      var before, e := events[..|events| - 1], events[|events| - 1];
      assert before + [e] == events;
      ChurnedIsDifference(before, appKey);
      AppendChurned(before, e);
    }
  }

  lemma InTurnAppend(events: seq<Event>, e: Event)
    requires InTurn(events) && (Churned(events, e.appKey, e.shop) <==> e.kind == Reinstall)
    requires forall x :: x in events ==> x.occurredAt <= e.occurredAt
    ensures InTurn(events + [e])
  {
    hide Churned;
    assert (events + [e])[..|events|] == events;
  }

  // Every call appends only an event that is due.
  lemma {:induction false} ReinstallAllInTurn(st: State, appKey: string, shops: seq<string>)
    requires Inv(st) && InTurn(st.events)
    ensures InTurn(ReinstallAll(st, appKey, shops).events)
  {
    hide Inv;
    hide Churned;
    hide InTurn;
    if shops != [] {
      var before, shop := shops[..|shops| - 1], shops[|shops| - 1];
      ReinstallAllInTurn(st, appKey, before);
      ReinstallAllKeepsInv(st, appKey, before);
      var mid := ReinstallAll(st, appKey, before);
      if Churned(mid.events, appKey, shop) {
        NothingLater(mid);
        InTurnAppend(mid.events, Event(appKey, shop, Reinstall, mid.now));
      }
    }
  }

  lemma NothingLater(st: State)
    requires Inv(st)
    ensures forall x :: x in st.events ==> x.occurredAt <= st.now
  {
  }

  lemma {:induction false} RunInTurn(ops: seq<(Op, nat)>)
    ensures InTurn(Run(ops).events)
  {
    hide Inv;
    hide Churned;
    if ops != [] {
      var st, op, wait := Run(ops[..|ops| - 1]), ops[|ops| - 1].0, ops[|ops| - 1].1;
      RunInTurn(ops[..|ops| - 1]);
      RunKeepsInv(ops[..|ops| - 1]);
      hide InTurn;
      var at := st.(now := st.now + 1 + wait);
      LaterKeepsInv(st, at);
      NothingLater(at);
      match op {
        case UninstallHook(appKey, shop) =>
          if !Churned(at.events, appKey, shop) {
            InTurnAppend(at.events, Event(appKey, shop, Uninstall, at.now));
          }
        case RollupTick(appKey, listed, _) =>
          ReinstallAllInTurn(at, appKey, ShopsOf(listed));
          hide ReinstallAll;
      }
    }
  }

  // The churned merchants of an app number exactly its uninstalls minus its reinstalls.
  lemma ChurnedCountsUninstallsLessReinstalls(ops: seq<(Op, nat)>, appKey: string)
    ensures |ChurnedSet(Run(ops).events, appKey)|
         == Count(Run(ops).events, appKey, Uninstall) - Count(Run(ops).events, appKey, Reinstall)
  {
    RunInTurn(ops);
    ChurnedIsDifference(Run(ops).events, appKey);
  }

  // ----- the rollup -----

  ghost function SetOf(shops: seq<string>): set<string> {
    set s | s in shops
  }

  // A rollup takes exactly the listed shops out of the churned set.
  lemma {:induction false} ReinstallAllRemoves(st: State, appKey: string, shops: seq<string>)
    requires Inv(st)
    ensures ChurnedSet(ReinstallAll(st, appKey, shops).events, appKey) == ChurnedSet(st.events, appKey) - SetOf(shops)
  {
    if shops != [] {
      var before, shop := shops[..|shops| - 1], shops[|shops| - 1];
      ReinstallAllRemoves(st, appKey, before);
      ReinstallAllKeepsInv(st, appKey, before);
      var mid := ReinstallAll(st, appKey, before);
      assert SetOf(shops) == SetOf(before) + {shop};
      InChurnedSet(mid.events, appKey, shop);
      if Churned(mid.events, appKey, shop) {
        AppendChurned(mid.events, Event(appKey, shop, Reinstall, mid.now));
      }
    }
  }

  // What one rollup reports: the NPS figure, the churned shops that are not listed as active, and the listed shops
  // that are not healthy.
  lemma RollupReports(ops: seq<(Op, nat)>, appKey: string, listed: seq<Listed>, nps: real, wait: nat)
    ensures var st, after := Run(ops), Apply(Run(ops), RollupTick(appKey, listed, nps), wait);
            var left := ChurnedSet(st.events, appKey) - SetOf(ShopsOf(listed));
            && ChurnedSet(after.events, appKey) == left
            && after.kpis == st.kpis + [
                 KpiRow(appKey, Nps, nps, after.now), KpiRow(appKey, ChurnedMerchants, |left| as real, after.now),
                 KpiRow(appKey, AtRiskMerchants, AtRisk(listed) as real, after.now)]
  {
    RunKeepsInv(ops);
    var st := Run(ops);
    var at := st.(now := st.now + 1 + wait);
    hide Inv;
    hide Run;
    hide ChurnedSet;
    hide ReinstallAll;
    hide ShopsOf;
    hide AtRisk;
    LaterKeepsInv(st, at);
    ReinstallAllRemoves(at, appKey, ShopsOf(listed));
    OnlyEventsChange(at, appKey, ShopsOf(listed));
    assert Apply(st, RollupTick(appKey, listed, nps), wait) == Rollup(at, appKey, listed, nps);
  }

  lemma {:induction false} OnlyEventsChange(st: State, appKey: string, shops: seq<string>)
    ensures ReinstallAll(st, appKey, shops).kpis == st.kpis && ReinstallAll(st, appKey, shops).now == st.now
  {
    hide Churned;
    if shops != [] {
      OnlyEventsChange(st, appKey, shops[..|shops| - 1]);
    }
  }

  lemma {:induction false} NothingToReinstall(st: State, appKey: string, shops: seq<string>)
    requires forall s :: s in shops ==> !Churned(st.events, appKey, s)
    ensures ReinstallAll(st, appKey, shops) == st
  {
    hide Churned;
    if shops != [] {
      NothingToReinstall(st, appKey, shops[..|shops| - 1]);
    }
  }

  lemma NoneChurnedAfter(st: State, appKey: string, shops: seq<string>)
    requires Inv(st)
    ensures forall s :: s in shops ==> !Churned(ReinstallAll(st, appKey, shops).events, appKey, s)
  {
    hide Inv;
    hide Churned;
    ReinstallAllRemoves(st, appKey, shops);
    var events := ReinstallAll(st, appKey, shops).events;
    hide ReinstallAll;
    forall s | s in shops
      ensures !Churned(events, appKey, s)
    {
      InChurnedSet(events, appKey, s);
    }
  }

  // An insert for one app leaves the churned shops of every other app alone.
  lemma {:induction false} OtherAppsStay(st: State, appKey: string, shops: seq<string>, other: string)
    requires Inv(st) && other != appKey
    ensures ChurnedSet(ReinstallAll(st, appKey, shops).events, other) == ChurnedSet(st.events, other)
  {
    if shops != [] {
      var before, shop := shops[..|shops| - 1], shops[|shops| - 1];
      OtherAppsStay(st, appKey, before, other);
      ReinstallAllKeepsInv(st, appKey, before);
      var mid := ReinstallAll(st, appKey, before);
      hide ChurnedSet;
      if Churned(mid.events, appKey, shop) {
        AppendChurned(mid.events, Event(appKey, shop, Reinstall, mid.now));
      }
    }
  }

  // Only an uninstall hook of the shop itself makes it churned.
  lemma StaysActive(st: State, op: Op, wait: nat, appKey: string, shop: string)
    requires Inv(st) && !Churned(st.events, appKey, shop) && op != UninstallHook(appKey, shop)
    ensures !Churned(Apply(st, op, wait).events, appKey, shop)
  {
    var at := st.(now := st.now + 1 + wait);
    LaterKeepsInv(st, at);
    NothingLater(at);
    hide Inv;
    hide Churned;
    InChurnedSet(st.events, appKey, shop);
    match op
    case UninstallHook(a, s) =>
      var e := Event(a, s, Uninstall, at.now);
      if !Churned(at.events, a, s) {
        AppendChurned(at.events, e);
        InChurnedSet(at.events + [e], appKey, shop);
        hide ChurnedSet;
      }
    case RollupTick(a, listed, _) =>
      ReinstallAllRemoves(at, a, ShopsOf(listed));
      if a != appKey {
        OtherAppsStay(at, a, ShopsOf(listed), appKey);
      }
      InChurnedSet(ReinstallAll(at, a, ShopsOf(listed)).events, appKey, shop);
      hide ReinstallAll;
      hide ChurnedSet;
  }

  // Nothing in between uninstalls one of these shops.
  ghost predicate NoUninstallOf(ops: seq<(Op, nat)>, appKey: string, shops: seq<string>) {
    forall k :: 0 <= k < |ops| ==> !(ops[k].0.UninstallHook? && ops[k].0.appKey == appKey && ops[k].0.shop in shops)
  }

  lemma {:induction false} NoneChurnedLater(
      ops: seq<(Op, nat)>, appKey: string, listed: seq<Listed>, nps: real, wait: nat, more: seq<(Op, nat)>)
    requires NoUninstallOf(more, appKey, ShopsOf(listed))
    ensures forall s :: s in ShopsOf(listed) ==>
      !Churned(Run(ops + [(RollupTick(appKey, listed, nps), wait)] + more).events, appKey, s)
    decreases more
  {
    hide Inv;
    hide Churned;
    hide ShopsOf;
    var first := ops + [(RollupTick(appKey, listed, nps), wait)];
    if more == [] {
      assert first + more == first && first[..|first| - 1] == ops;
      hide ReinstallAll;
      RunKeepsInv(ops);
      var at := Run(ops).(now := Run(ops).now + 1 + wait);
      LaterKeepsInv(Run(ops), at);
      NoneChurnedAfter(at, appKey, ShopsOf(listed));
    } else {
      var n := |more| - 1;
      var before, op := more[..n], more[n];
      assert (first + more)[..|first + more| - 1] == first + before;
      NoneChurnedLater(ops, appKey, listed, nps, wait, before);
      RunKeepsInv(first + before);
      hide Apply;
      forall s | s in ShopsOf(listed)
        ensures !Churned(Run(first + more).events, appKey, s)
      {
        StaysActive(Run(first + before), op.0, op.1, appKey, s);
      }
    }
  }

  // A repeat of the rollup adds no event and no audit row when none of its shops was uninstalled in between,
  // whatever else happened: uninstalls of other shops or apps, and rollups of any lists.
  lemma RepeatedRollupAddsNothing(
      ops: seq<(Op, nat)>, appKey: string, listed: seq<Listed>, nps: real, wait: nat, more: seq<(Op, nat)>,
      again: seq<Listed>, nps': real, wait': nat)
    requires NoUninstallOf(more, appKey, ShopsOf(listed))
    requires forall s :: s in ShopsOf(again) ==> s in ShopsOf(listed)
    ensures var once := Run(ops + [(RollupTick(appKey, listed, nps), wait)] + more);
            var twice := Apply(once, RollupTick(appKey, again, nps'), wait');
            twice.events == once.events && twice.audit == once.audit
  {
    hide Churned;
    hide Run;
    hide ShopsOf;
    NoneChurnedLater(ops, appKey, listed, nps, wait, more);
    var once := Run(ops + [(RollupTick(appKey, listed, nps), wait)] + more);
    NothingToReinstall(once.(now := once.now + 1 + wait'), appKey, ShopsOf(again));
    hide ReinstallAll;
  }
}

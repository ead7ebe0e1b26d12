// The log of a shop told by the operations alone: which of them changed whether it is churned, and when.
module LifecycleFlips {
  import opened Options
  import opened Lifecycle

  function EventsOf(events: seq<Event>, appKey: string, shop: string): seq<Event> {
    if events == [] then []
    else
      var e := events[|events| - 1];
      EventsOf(events[..|events| - 1], appKey, shop) + (if e.appKey == appKey && e.shop == shop then [e] else [])
  }

  // A rollup of the app whose list has the shop.
  predicate Lists(op: Op, appKey: string, shop: string) {
    op.RollupTick? && op.appKey == appKey && exists k :: 0 <= k < |op.listed| && op.listed[k].shop == shop
  }

  // The last operation that concerns the shop is an uninstall hook.
  ghost predicate LastIsHook(ops: seq<(Op, nat)>, appKey: string, shop: string) {
    exists i ::
      && 0 <= i < |ops| && ops[i].0 == UninstallHook(appKey, shop)
      && forall k :: i < k < |ops| ==> !Lists(ops[k].0, appKey, shop)
  }

  // The instant of the last operation.
  function Clock(ops: seq<(Op, nat)>): int {
    if ops == [] then 0 else Clock(ops[..|ops| - 1]) + 1 + ops[|ops| - 1].1
  }

  // An event for each operation that changes what the last one concerning the shop is, at its instant.
  ghost function Flips(ops: seq<(Op, nat)>, appKey: string, shop: string): seq<Event> {
    if ops == [] then []
    else
      var before, op := ops[..|ops| - 1], ops[|ops| - 1].0;
      Flips(before, appKey, shop) +
        if op == UninstallHook(appKey, shop) && !LastIsHook(before, appKey, shop) then
          [Event(appKey, shop, Uninstall, Clock(ops))]
        else if Lists(op, appKey, shop) && LastIsHook(before, appKey, shop) then
          [Event(appKey, shop, Reinstall, Clock(ops))]
        else []
  }

  // A shop is churned exactly when the last operation concerning it is an uninstall hook, and its log is exactly the list
  // of the operations that changed that.
  lemma {:induction false} LogIsItsFlips(ops: seq<(Op, nat)>, appKey: string, shop: string)
    ensures Churned(Run(ops).events, appKey, shop) <==> LastIsHook(ops, appKey, shop)
    ensures EventsOf(Run(ops).events, appKey, shop) == Flips(ops, appKey, shop)
    ensures Run(ops).now == Clock(ops)
  {
    hide Apply;
    hide Churned;
    hide LastIsHook;
    hide Inv;
    hide StepTold;
    hide EventsOf;
    hide Lists;
    if ops == [] {
      NoOps(appKey, shop);
    } else {
      var before, op, wait := ops[..|ops| - 1], ops[|ops| - 1].0, ops[|ops| - 1].1;
      LogIsItsFlips(before, appKey, shop);
      RunKeepsInv(before);
      StepFlips(Run(before), op, wait, appKey, shop);
      assert Run(ops) == Apply(Run(before), op, wait);
      hide Run;
      LastStep(ops, appKey, shop);
      ToldStep(Run(before), Run(ops), op, Run(before).now + 1 + wait, appKey, shop);
    }
  }

  lemma ToldStep(st: State, st': State, op: Op, at: int, appKey: string, shop: string)
    requires StepTold(st, st', op, at, appKey, shop)
    ensures st'.now == at
    ensures Churned(st'.events, appKey, shop) <==>
      op == UninstallHook(appKey, shop) || (Churned(st.events, appKey, shop) && !Lists(op, appKey, shop))
    ensures EventsOf(st'.events, appKey, shop)
         == EventsOf(st.events, appKey, shop) +
            if op == UninstallHook(appKey, shop) && !Churned(st.events, appKey, shop) then
              [Event(appKey, shop, Uninstall, at)]
            else if Lists(op, appKey, shop) && Churned(st.events, appKey, shop) then [Event(appKey, shop, Reinstall, at)]
            else []
  {
    hide Churned;
    hide EventsOf;
    hide Lists;
  }

  lemma NoOps(appKey: string, shop: string)
    ensures !Churned([], appKey, shop) && !LastIsHook([], appKey, shop) && EventsOf([], appKey, shop) == []
  {
  }

  lemma LastStep(ops: seq<(Op, nat)>, appKey: string, shop: string)
    requires ops != []
    ensures var before, op := ops[..|ops| - 1], ops[|ops| - 1].0;
            LastIsHook(ops, appKey, shop) <==>
              op == UninstallHook(appKey, shop) || (LastIsHook(before, appKey, shop) && !Lists(op, appKey, shop))
  {
    var n := |ops| - 1;
    var before, op := ops[..n], ops[n].0;
    if op == UninstallHook(appKey, shop) {
      assert ops[n].0 == UninstallHook(appKey, shop);
    }
    if LastIsHook(before, appKey, shop) && !Lists(op, appKey, shop) {
      var i :| 0 <= i < n && before[i].0 == UninstallHook(appKey, shop)
               && forall k :: i < k < n ==> !Lists(before[k].0, appKey, shop);
      assert ops[i] == before[i];
      assert forall k :: i < k < n ==> ops[k] == before[k];
    }
    if LastIsHook(ops, appKey, shop) && op != UninstallHook(appKey, shop) {
      var i :| 0 <= i < |ops| && ops[i].0 == UninstallHook(appKey, shop)
               && forall k :: i < k < |ops| ==> !Lists(ops[k].0, appKey, shop);
      assert before[i] == ops[i];
      assert forall k :: i < k < n ==> ops[k] == before[k];
    }
  }

  lemma EventsAppend(events: seq<Event>, e: Event, appKey: string, shop: string)
    ensures EventsOf(events + [e], appKey, shop)
         == EventsOf(events, appKey, shop) + (if e.appKey == appKey && e.shop == shop then [e] else [])
  {
    assert (events + [e])[..|events|] == events;
  }

  lemma InsertFlips(st: State, e: Event, appKey: string, shop: string)
    requires Inv(st) && e.occurredAt == st.now
    ensures EventsOf(st.events + [e], appKey, shop)
         == EventsOf(st.events, appKey, shop) + (if e.appKey == appKey && e.shop == shop then [e] else [])
    ensures Churned(st.events + [e], appKey, shop) <==>
      if e.appKey == appKey && e.shop == shop then e.kind == Uninstall else Churned(st.events, appKey, shop)
  {
    NothingLater(st);
    hide Inv;
    AppendViews(st.events, e, appKey, shop);
    EventsAppend(st.events, e, appKey, shop);
    hide Latest;
    hide EventsOf;
  }

  // A list may hold a shop twice; it is reinstalled once.
  lemma {:induction false} ReinstallFlips(st: State, appKey: string, shops: seq<string>, a: string, s: string)
    requires Inv(st)
    ensures var st' := ReinstallAll(st, appKey, shops);
            var flips := a == appKey && s in shops && Churned(st.events, a, s);
            && (Churned(st'.events, a, s) <==> Churned(st.events, a, s) && !flips)
            && EventsOf(st'.events, a, s)
               == EventsOf(st.events, a, s) + (if flips then [Event(a, s, Reinstall, st.now)] else [])
  {
    hide Inv;
    hide Churned;
    hide EventsOf;
    if shops != [] {
      var before, shop := shops[..|shops| - 1], shops[|shops| - 1];
      ReinstallFlips(st, appKey, before, a, s);
      ReinstallAllKeepsInv(st, appKey, before);
      var mid := ReinstallAll(st, appKey, before);
      assert s in shops <==> s in before || s == shop;
      InsertFlips(mid, Event(appKey, shop, Reinstall, mid.now), a, s);
    }
  }

  // What one operation does to the log of a shop.
  ghost predicate StepTold(st: State, st': State, op: Op, at: int, appKey: string, shop: string) {
    && st'.now == at
    && (Churned(st'.events, appKey, shop) <==>
          op == UninstallHook(appKey, shop) || (Churned(st.events, appKey, shop) && !Lists(op, appKey, shop)))
    && EventsOf(st'.events, appKey, shop)
       == EventsOf(st.events, appKey, shop) +
          if op == UninstallHook(appKey, shop) && !Churned(st.events, appKey, shop) then [Event(appKey, shop, Uninstall, at)]
          else if Lists(op, appKey, shop) && Churned(st.events, appKey, shop) then [Event(appKey, shop, Reinstall, at)]
          else []
  }

  lemma StepFlips(st: State, op: Op, wait: nat, appKey: string, shop: string)
    requires Inv(st)
    ensures StepTold(st, Apply(st, op, wait), op, st.now + 1 + wait, appKey, shop)
  {
    var at := st.(now := st.now + 1 + wait);
    LaterKeepsInv(st, at);
    hide Inv;
    match op
    case UninstallHook(a, s) => HookFlips(st, a, s, wait, appKey, shop);
    case RollupTick(a, listed, nps) => RollupFlips(st, a, listed, nps, wait, appKey, shop);
  }

  lemma HookFlips(st: State, a: string, s: string, wait: nat, appKey: string, shop: string)
    requires Inv(st.(now := st.now + 1 + wait))
    ensures StepTold(st, Apply(st, UninstallHook(a, s), wait), UninstallHook(a, s), st.now + 1 + wait, appKey, shop)
  {
    hide Inv;
    hide Churned;
    hide EventsOf;
    var at := st.(now := st.now + 1 + wait);
    InsertFlips(at, Event(a, s, Uninstall, at.now), appKey, shop);
  }

  lemma RollupFlips(st: State, a: string, listed: seq<Listed>, nps: real, wait: nat, appKey: string, shop: string)
    requires Inv(st.(now := st.now + 1 + wait))
    ensures var op := RollupTick(a, listed, nps);
            StepTold(st, Apply(st, op, wait), op, st.now + 1 + wait, appKey, shop)
  {
    hide Inv;
    hide Churned;
    hide EventsOf;
    hide ReinstallAll;
    hide ChurnedSet;
    hide ShopsOf;
    hide AtRisk;
    var at := st.(now := st.now + 1 + wait);
    var shops := ShopsOf(listed);
    ReinstallFlips(at, a, shops, appKey, shop);
    OnlyEventsChange(at, a, shops);
    ListedShops(listed, shop);
    assert Apply(st, RollupTick(a, listed, nps), wait) == Rollup(at, a, listed, nps);
    assert Rollup(at, a, listed, nps).events == ReinstallAll(at, a, shops).events;
  }

  lemma ListedShops(listed: seq<Listed>, shop: string)
    ensures shop in ShopsOf(listed) <==> exists k :: 0 <= k < |listed| && listed[k].shop == shop
  {
    var shops := ShopsOf(listed);
    forall k | 0 <= k < |listed| && listed[k].shop == shop
      ensures shop in shops
    {
      assert shops[k] == shop;
    }
  }

  // At risk are the listed shops that are not healthy, each entry of the list once.
  lemma {:induction false} AtRiskCounts(listed: seq<Listed>)
    ensures AtRisk(listed) == |set k | 0 <= k < |listed| && !listed[k].healthy|
  {
    if listed != [] {
      var n := |listed| - 1;
      AtRiskCounts(listed[..n]);
      var before := set k | 0 <= k < n && !listed[..n][k].healthy;
      var all := set k | 0 <= k < |listed| && !listed[k].healthy;
      assert all == if listed[n].healthy then before else before + {n};
    }
  }
}

// The cache told by its log alone: what each caller gets and what each settlement does, without looking at the maps.
module BillingLog {
  import opened Options
  import opened BillingCache

  // Whose read this is, if it is under way.
  ghost predicate Underway(log: seq<Event>, shop: string, id: nat) {
    PhaseOf(log, shop).Reading? && PhaseOf(log, shop).id == id
  }

  // What a step adds to the log of a run.
  ghost predicate Tells(ttl: nat, log: seq<Event>, now: int, step: Step, log': seq<Event>) {
    match step
    case Tick(_) => log' == log
    // A caller is answered from a success younger than ttl, joins the read under way, or starts one under a new id.
    case Call(shop) =>
      (match PhaseOf(log, shop)
       case Reading(id, _) => log' == log + [Joined(shop, id, now)]
       case Fresh(at) =>
         if now < at + ttl then
           LastSuccess(log, shop).Some? && log' == log + [Hit(shop, now, LastSuccess(log, shop).value.0)]
         else StartsNew(log, now, shop, log')
       case _ => StartsNew(log, now, shop, log'))
    // A read under way settles once, for its own shop.
    case Succeed(id, value) =>
      && (forall shop :: Underway(log, shop, id) ==> log' == log + [Succeeded(shop, id, now, value)])
      && ((forall shop :: !Underway(log, shop, id)) ==> log' == log)
    case Fail(id) =>
      && (forall shop :: Underway(log, shop, id) ==> log' == log + [Failed(shop, id, now, Fallback(log, shop))])
      && ((forall shop :: !Underway(log, shop, id)) ==> log' == log)
  }

  ghost predicate StartsNew(log: seq<Event>, now: int, shop: string, log': seq<Event>) {
    exists id: nat :: log' == log + [Started(shop, id, now)] && forall e :: e in log && e.Started? ==> e.id < id
  }

  // After a failure: the latest success marked stale, or a record that makes nothing up.
  ghost function Fallback(log: seq<Event>, shop: string): Subscription {
    match LastSuccess(log, shop)
    case Some((value, _)) => value.(stale := true)
    case None => Subscription(shop, None, NoPlan, None, None, None, true)
  }

  // Every started read has an id below the next one.
  ghost predicate IdsBelow(st: State) {
    forall e :: e in st.log && e.Started? ==> e.id < st.nextId
  }

  lemma StepIsTold(ttl: nat, st: State, step: Step)
    requires Inv(ttl, st) && IdsBelow(st)
    ensures Tells(ttl, st.log, st.now, step, Apply(ttl, st, step).log) && IdsBelow(Apply(ttl, st, step))
    ensures Apply(ttl, st, step).now == if step.Tick? then st.now + step.ms else st.now
  {
    hide Lawful;
    match step
    case Tick(_) =>
    case Call(shop) => CallIsTold(ttl, st, shop);
    case Succeed(id, value) => SettledByOne(ttl, st, id);
    case Fail(id) =>
      SettledByOne(ttl, st, id);
      if id in st.pending {
        FailIsTold(ttl, st, id);
      }
  }

  lemma CallIsTold(ttl: nat, st: State, shop: string)
    requires Inv(ttl, st) && IdsBelow(st)
    ensures Tells(ttl, st.log, st.now, Call(shop), Apply(ttl, st, Call(shop)).log)
    ensures IdsBelow(Apply(ttl, st, Call(shop)))
  {
    hide Lawful;
    hide PhaseOf;
    hide LastSuccess;
    assert ShopInv(ttl, st, shop);
  }

  // A read is outstanding exactly for the shop whose log says so.
  lemma SettledByOne(ttl: nat, st: State, id: nat)
    requires Inv(ttl, st)
    ensures id in st.pending ==> Underway(st.log, st.pending[id].shop, id)
    ensures forall shop :: Underway(st.log, shop, id) ==> id in st.pending && st.pending[id].shop == shop
  {
    hide Lawful;
    hide PhaseOf;
    hide LastSuccess;
    if id in st.pending {
      assert ShopInv(ttl, st, st.pending[id].shop);
    }
    forall shop | Underway(st.log, shop, id)
      ensures id in st.pending && st.pending[id].shop == shop
    {
      assert ShopInv(ttl, st, shop);
    }
  }

  lemma FailIsTold(ttl: nat, st: State, id: nat)
    requires Inv(ttl, st) && id in st.pending
    ensures var r := st.pending[id]; FailureAnswer(r.shop, r.cached) == Fallback(st.log, r.shop)
  {
    hide Lawful;
    hide PhaseOf;
    hide LastSuccess;
    assert ShopInv(ttl, st, st.pending[id].shop);
  }

  // Over every run, each step adds to the log exactly what the log so far and the clock say.
  lemma RunIsTold(ttl: nat, steps: seq<Step>, n: nat)
    requires n < |steps|
    ensures var st, next := Run(ttl, steps[..n]), Run(ttl, steps[..n + 1]);
            && Tells(ttl, st.log, st.now, steps[n], next.log)
            && next.now == if steps[n].Tick? then st.now + steps[n].ms else st.now
    ensures IdsBelow(Run(ttl, steps[..n]))
  {
    hide Apply;
    hide Inv;
    hide Tells;
    IdsStayBelow(ttl, steps[..n]);
    RunKeepsInv(ttl, steps[..n]);
    StepIsTold(ttl, Run(ttl, steps[..n]), steps[n]);
    assert steps[..n + 1][..n] == steps[..n];
  }

  lemma {:induction false} IdsStayBelow(ttl: nat, steps: seq<Step>)
    ensures IdsBelow(Run(ttl, steps))
  {
    hide Apply;
    hide Inv;
    hide Tells;
    if steps != [] {
      IdsStayBelow(ttl, steps[..|steps| - 1]);
      RunKeepsInv(ttl, steps[..|steps| - 1]);
      StepIsTold(ttl, Run(ttl, steps[..|steps| - 1]), steps[|steps| - 1]);
    }
  }
}

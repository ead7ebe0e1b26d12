// BillingService.getSubscription: a TTL cache with one live read per shop and a stale answer when that read fails.
// The code between two awaits is atomic, so a run is a sequence of steps: a caller arrives, a read succeeds,
// a read fails, the clock ticks.
module BillingCache {
  import opened Options

  datatype Status = Active | Trial | Cancelled | NoPlan

  datatype Price = Price(amount: string, currencyCode: string)

  datatype Subscription = Subscription(
    shop: string, planName: Option<string>, status: Status, price: Option<Price>,
    currentPeriodStart: Option<string>, currentPeriodEnd: Option<string>, stale: bool)

  function Unavailable(shop: string): Subscription {
    Subscription(shop, None, NoPlan, None, None, None, true)
  }

  datatype Entry = Entry(state: Subscription, expiresAt: int)

  // The part of a call after its await: the shop read and the cache entry it captured before reading.
  datatype Read = Read(shop: string, cached: Option<Entry>)

  datatype Event =
    | Started(shop: string, id: nat, at: int)
    | Joined(shop: string, id: nat, at: int)
    | Hit(shop: string, at: int, answer: Subscription)
    | Succeeded(shop: string, id: nat, at: int, answer: Subscription)
    | Failed(shop: string, id: nat, at: int, answer: Subscription)

  datatype State = State(
    now: int, cache: map<string, Entry>, inflight: map<string, nat>, pending: map<nat, Read>, nextId: nat,
    log: seq<Event>)

  datatype Step = Call(shop: string) | Succeed(id: nat, fresh_: Subscription) | Fail(id: nat) | Tick(ms: nat)

  function Lookup(cache: map<string, Entry>, shop: string): Option<Entry> {
    if shop in cache then Some(cache[shop]) else None
  }

  function FailureAnswer(shop: string, cached: Option<Entry>): Subscription {
    match cached
    case Some(e) => e.state.(stale := true)
    case None => Unavailable(shop)
  }

  // One atomic step. A settlement of a read that is not outstanding is no step at all.
  function Apply(ttl: nat, st: State, step: Step): State {
    match step
    case Tick(ms) => st.(now := st.now + ms)
    case Call(shop) =>
      if shop in st.cache && st.cache[shop].expiresAt > st.now then
        st.(log := st.log + [Hit(shop, st.now, st.cache[shop].state)])
      else if shop in st.inflight then
        st.(log := st.log + [Joined(shop, st.inflight[shop], st.now)])
      else
        st.(inflight := st.inflight[shop := st.nextId],
            pending := st.pending[st.nextId := Read(shop, Lookup(st.cache, shop))],
            nextId := st.nextId + 1,
            log := st.log + [Started(shop, st.nextId, st.now)])
    case Succeed(id, value) =>
      if id !in st.pending then st
      else
        var shop := st.pending[id].shop;
        st.(cache := st.cache[shop := Entry(value, st.now + ttl)],
            inflight := st.inflight - {shop},
            pending := st.pending - {id},
            log := st.log + [Succeeded(shop, id, st.now, value)])
    case Fail(id) =>
      if id !in st.pending then st
      else
        var r := st.pending[id];
        st.(inflight := st.inflight - {r.shop},
            pending := st.pending - {id},
            log := st.log + [Failed(r.shop, id, st.now, FailureAnswer(r.shop, r.cached))])
  }

  const Initial := State(0, map[], map[], map[], 0, [])

  function Run(ttl: nat, steps: seq<Step>): State {
    if steps == [] then Initial
    else Apply(ttl, Run(ttl, steps[..|steps| - 1]), steps[|steps| - 1])
  }

  datatype Answer = Immediate(state: Subscription) | Await(id: nat)

  // The service object: its two maps, and around them the clock, the outstanding reads and what has happened.
  class BillingService {
    const ttl: nat
    var cache: map<string, Entry>
    var inflight: map<string, nat>
    var now: int
    var pending: map<nat, Read>
    var nextId: nat
    ghost var log: seq<Event>

    ghost function View(): State
      reads this
    {
      State(now, cache, inflight, pending, nextId, log)
    }

    constructor (ttl: nat)
      ensures this.ttl == ttl && View() == Initial
    {
      this.ttl := ttl;
      cache, inflight, now, pending, nextId, log := map[], map[], 0, map[], 0, [];
    }

    // getSubscription up to its await; Await names the shared read whose settlement answers the caller.
    method GetSubscription(shop: string) returns (answer: Answer)
      modifies this
      ensures View() == Apply(ttl, old(View()), Call(shop))
      ensures match answer
              case Immediate(state) => log[|log| - 1] == Hit(shop, now, state)
              case Await(id) => log[|log| - 1] in {Started(shop, id, now), Joined(shop, id, now)}
    {
      var cached := Lookup(cache, shop);
      if cached.Some? && cached.value.expiresAt > now {
        log := log + [Hit(shop, now, cached.value.state)];
        return Immediate(cached.value.state);
      }
      if shop in inflight {
        log := log + [Joined(shop, inflight[shop], now)];
        return Await(inflight[shop]);
      }
      var id := nextId;
      pending := pending[id := Read(shop, cached)];
      inflight := inflight[shop := id];
      nextId := nextId + 1;
      log := log + [Started(shop, id, now)];
      return Await(id);
    }

    // The continuation when the reader resolves: cache the value and clear the in-flight mark.
    method ReadSucceeded(id: nat, value: Subscription) returns (answer: Subscription)
      requires id in pending
      modifies this
      ensures View() == Apply(ttl, old(View()), Succeed(id, value))
      ensures answer == value
    {
      var shop := pending[id].shop;
      cache := cache[shop := Entry(value, now + ttl)];
      inflight := inflight - {shop};
      pending := pending - {id};
      log := log + [Succeeded(shop, id, now, value)];
      answer := value;
    }

    // The continuation when the reader rejects: no cache write, the captured entry answers.
    method ReadFailed(id: nat) returns (answer: Subscription)
      requires id in pending
      modifies this
      ensures View() == Apply(ttl, old(View()), Fail(id))
      ensures log[|log| - 1].Failed? && log[|log| - 1].answer == answer
    {
      var r := pending[id];
      if r.cached.Some? {
        answer := r.cached.value.state.(stale := true);
      } else {
        answer := Unavailable(r.shop);
      }
      inflight := inflight - {r.shop};
      pending := pending - {id};
      log := log + [Failed(r.shop, id, now, answer)];
    }
  }

  // ----- what the log of a run must look like -----

  // The latest of a shop's start, success and failure events.
  datatype Phase = Never | Reading(id: nat, at: int) | Fresh(at: int) | Broken

  ghost function PhaseOf(log: seq<Event>, shop: string): Phase {
    if log == [] then Never
    else
      var e := log[|log| - 1];
      if e.shop != shop || e.Hit? || e.Joined? then PhaseOf(log[..|log| - 1], shop)
      else if e.Started? then Reading(e.id, e.at)
      else if e.Succeeded? then Fresh(e.at)
      else Broken
  }

  // The most recent successful value for a shop, with its time.
  ghost function LastSuccess(log: seq<Event>, shop: string): Option<(Subscription, int)> {
    if log == [] then None
    else
      var e := log[|log| - 1];
      if e.shop == shop && e.Succeeded? then Some((e.answer, e.at)) else LastSuccess(log[..|log| - 1], shop)
  }

  // What the events before it must be for an event to be allowed.
  ghost predicate Allowed(ttl: nat, before: seq<Event>, e: Event) {
    var phase := PhaseOf(before, e.shop);
    var last := LastSuccess(before, e.shop);
    match e
    case Started(_, _, at) => phase.Never? || phase.Broken? || (phase.Fresh? && at >= phase.at + ttl)
    case Joined(_, id, _) => phase.Reading? && phase.id == id
    case Hit(_, at, answer) =>
      && last.Some? && answer == last.value.0
      && phase == Fresh(last.value.1)
      && last.value.1 <= at < last.value.1 + ttl
    case Succeeded(_, id, at, _) => phase.Reading? && phase.id == id && phase.at <= at
    case Failed(shop, id, at, answer) =>
      && phase.Reading? && phase.id == id && phase.at <= at
      && answer == (if last.Some? then last.value.0.(stale := true) else Unavailable(shop))
  }

  ghost predicate Lawful(ttl: nat, log: seq<Event>) {
    forall k {:trigger log[k]} :: 0 <= k < |log| ==> Allowed(ttl, log[..k], log[k])
  }

  // ----- the invariant every step keeps -----

  ghost predicate ShopInv(ttl: nat, st: State, shop: string) {
    var phase := PhaseOf(st.log, shop);
    var last := LastSuccess(st.log, shop);
    && (shop in st.inflight <==> phase.Reading?)
    && (phase.Reading? ==>
          && phase.id == st.inflight[shop] && phase.at <= st.now && phase.id in st.pending
          && st.pending[phase.id] == Read(shop, Lookup(st.cache, shop))
          && (shop in st.cache ==> st.cache[shop].expiresAt <= phase.at))
    && (shop in st.cache <==> last.Some?)
    && (last.Some? ==> st.cache[shop] == Entry(last.value.0, last.value.1 + ttl) && last.value.1 <= st.now)
    && (phase.Fresh? ==> last.Some? && phase.at == last.value.1)
    && (phase.Never? ==> last.None?)
    && (phase.Broken? && last.Some? ==> last.value.1 + ttl <= st.now)
  }

  ghost predicate Inv(ttl: nat, st: State) {
    && Lawful(ttl, st.log)
    && (forall shop :: ShopInv(ttl, st, shop))
    && (forall id :: id in st.pending ==>
          id < st.nextId && st.pending[id].shop in st.inflight && st.inflight[st.pending[id].shop] == id)
    && (forall e :: e in st.log ==> e.at <= st.now)
  }

  lemma LawfulAppend(ttl: nat, log: seq<Event>, e: Event)
    requires Lawful(ttl, log) && Allowed(ttl, log, e)
    ensures Lawful(ttl, log + [e])
  {
    var longer := log + [e];
    forall k | 0 <= k < |longer|
      ensures Allowed(ttl, longer[..k], longer[k])
    {
      assert longer[..k] == log[..k];
      if k == |log| {
        assert log[..k] == log;
      }
    }
  }

  lemma AppendViews(log: seq<Event>, e: Event, shop: string)
    ensures PhaseOf(log + [e], shop) ==
      if e.shop != shop || e.Hit? || e.Joined? then PhaseOf(log, shop)
      else if e.Started? then Reading(e.id, e.at)
      else if e.Succeeded? then Fresh(e.at)
      else Broken
    ensures LastSuccess(log + [e], shop) ==
      if e.shop == shop && e.Succeeded? then Some((e.answer, e.at)) else LastSuccess(log, shop)
  {
    assert (log + [e])[..|log|] == log;
  }

  lemma QuietKeepsShop(ttl: nat, st: State, e: Event, shop: string)
    requires ShopInv(ttl, st, shop) && (e.Hit? || e.Joined?)
    ensures ShopInv(ttl, st.(log := st.log + [e]), shop)
  {
    AppendViews(st.log, e, shop);
    hide PhaseOf;
    hide LastSuccess;
  }

  lemma StartKeepsShop(ttl: nat, st: State, caller: string, shop: string)
    requires ShopInv(ttl, st, shop) && ShopInv(ttl, st, caller)
    requires forall id :: id in st.pending ==> id < st.nextId
    requires !(caller in st.cache && st.cache[caller].expiresAt > st.now) && caller !in st.inflight
    ensures ShopInv(ttl, Apply(ttl, st, Call(caller)), shop)
  {
    hide PhaseOf;
    hide LastSuccess;
    AppendViews(st.log, Started(caller, st.nextId, st.now), shop);
  }

  lemma CallKeepsShop(ttl: nat, st: State, caller: string, shop: string)
    requires Inv(ttl, st)
    ensures ShopInv(ttl, Apply(ttl, st, Call(caller)), shop)
  {
    hide ShopInv;
    assert ShopInv(ttl, st, shop) && ShopInv(ttl, st, caller);
    assert forall id :: id in st.pending ==> id < st.nextId;
    hide Inv;
    if caller in st.cache && st.cache[caller].expiresAt > st.now {
      QuietKeepsShop(ttl, st, Hit(caller, st.now, st.cache[caller].state), shop);
    } else if caller in st.inflight {
      QuietKeepsShop(ttl, st, Joined(caller, st.inflight[caller], st.now), shop);
    } else {
      StartKeepsShop(ttl, st, caller, shop);
    }
  }

  lemma SucceedKeepsShop(ttl: nat, st: State, id: nat, value: Subscription, shop: string)
    requires Inv(ttl, st) && id in st.pending
    ensures ShopInv(ttl, Apply(ttl, st, Succeed(id, value)), shop)
  {
    var reader := st.pending[id].shop;
    assert ShopInv(ttl, st, shop) && ShopInv(ttl, st, reader);
    AppendViews(st.log, Succeeded(reader, id, st.now, value), shop);
  }

  lemma FailKeepsShop(ttl: nat, st: State, id: nat, shop: string)
    requires Inv(ttl, st) && id in st.pending
    ensures ShopInv(ttl, Apply(ttl, st, Fail(id)), shop)
  {
    var r := st.pending[id];
    assert ShopInv(ttl, st, shop) && ShopInv(ttl, st, r.shop);
    AppendViews(st.log, Failed(r.shop, id, st.now, FailureAnswer(r.shop, r.cached)), shop);
  }

  lemma StepKeepsShop(ttl: nat, st: State, step: Step, shop: string)
    requires Inv(ttl, st)
    ensures ShopInv(ttl, Apply(ttl, st, step), shop)
  {
    assert ShopInv(ttl, st, shop);
    match step
    case Tick(_) =>
    case Call(caller) => CallKeepsShop(ttl, st, caller, shop);
    case Succeed(id, value) => if id in st.pending { SucceedKeepsShop(ttl, st, id, value, shop); }
    case Fail(id) => if id in st.pending { FailKeepsShop(ttl, st, id, shop); }
  }

  lemma StepIsAllowed(ttl: nat, st: State, step: Step)
    requires Inv(ttl, st)
    ensures Lawful(ttl, Apply(ttl, st, step).log)
    ensures forall e :: e in Apply(ttl, st, step).log ==> e.at <= Apply(ttl, st, step).now
  {
    var st' := Apply(ttl, st, step);
    if |st'.log| > |st.log| {
      var e := st'.log[|st.log|];
      assert st'.log == st.log + [e];
      assert ShopInv(ttl, st, e.shop);
      LawfulAppend(ttl, st.log, e);
    }
  }

  lemma StepKeepsInv(ttl: nat, st: State, step: Step)
    requires Inv(ttl, st)
    ensures Inv(ttl, Apply(ttl, st, step))
  {
    StepIsAllowed(ttl, st, step);
    forall shop
      ensures ShopInv(ttl, Apply(ttl, st, step), shop)
    {
      StepKeepsShop(ttl, st, step, shop);
    }
    assert step.Call? ==> ShopInv(ttl, st, step.shop);
  }

  lemma {:induction false} RunKeepsInv(ttl: nat, steps: seq<Step>)
    ensures Inv(ttl, Run(ttl, steps))
  {
    if steps != [] {
      RunKeepsInv(ttl, steps[..|steps| - 1]);
      StepKeepsInv(ttl, Run(ttl, steps[..|steps| - 1]), steps[|steps| - 1]);
    }
  }

  // In every interleaving: a read starts only when none is outstanding for the shop and the last one failed or
  // its success is at least ttl old; a hit is the latest success and younger than ttl; a joined caller waits on
  // the read that is outstanding; and after a failure the answer is the latest success marked stale.
  lemma EveryRunIsLawful(ttl: nat, steps: seq<Step>)
    ensures Lawful(ttl, Run(ttl, steps).log)
  {
    RunKeepsInv(ttl, steps);
  }

  // Two outstanding reads are never for the same shop.
  lemma OneReadPerShop(ttl: nat, steps: seq<Step>, i: nat, j: nat)
    requires i in Run(ttl, steps).pending && j in Run(ttl, steps).pending
    requires Run(ttl, steps).pending[i].shop == Run(ttl, steps).pending[j].shop
    ensures i == j
  {
    RunKeepsInv(ttl, steps);
  }

  // ----- the rate limit -----

  ghost function Starts(log: seq<Event>, shop: string): nat {
    if log == [] then 0
    else
      var e := log[|log| - 1];
      Starts(log[..|log| - 1], shop) + (if e.shop == shop && e.Started? then 1 else 0)
  }

  ghost function Failures(log: seq<Event>, shop: string): nat {
    if log == [] then 0
    else
      var e := log[|log| - 1];
      Failures(log[..|log| - 1], shop) + (if e.shop == shop && e.Failed? then 1 else 0)
  }

  ghost function FirstStart(log: seq<Event>, shop: string): Option<int> {
    if log == [] then None
    else
      var before := FirstStart(log[..|log| - 1], shop);
      var e := log[|log| - 1];
      if before.None? && e.shop == shop && e.Started? then Some(e.at) else before
  }

  // One ttl for every read that is neither the first nor made up for by a failure.
  ghost function Spaced(ttl: nat, log: seq<Event>, shop: string): int {
    ttl * (Starts(log, shop) - 1 - Failures(log, shop))
  }

  lemma OneApart(ttl: nat, n: int)
    ensures ttl * (n + 1) == ttl * n + ttl && ttl * (n - 1) == ttl * n - ttl
  {
  }

  ghost predicate TimeOrdered(log: seq<Event>) {
    forall i, j :: 0 <= i < j < |log| ==> log[i].at <= log[j].at
  }

  // Reads that are neither the first nor follow a failure are at least ttl apart, so over a period the reads
  // of a shop number at most one, plus one per failure, plus one per elapsed ttl.
  ghost predicate Rate(ttl: nat, log: seq<Event>, shop: string, now: int) {
    var first := FirstStart(log, shop);
    var spaced := Spaced(ttl, log, shop);
    && (first.None? <==> Starts(log, shop) == 0)
    && (first.None? <==> PhaseOf(log, shop).Never?)
    && (first.Some? ==>
          && first.value <= now
          && match PhaseOf(log, shop)
             case Reading(_, at) => spaced <= at - first.value && at <= now
             case Fresh(at) => spaced <= at - first.value && at <= now
             case Broken => spaced + ttl <= now - first.value
             case Never => false)
  }

  lemma AppendCounts(log: seq<Event>, e: Event, shop: string)
    ensures Starts(log + [e], shop) == Starts(log, shop) + (if e.shop == shop && e.Started? then 1 else 0)
    ensures Failures(log + [e], shop) == Failures(log, shop) + (if e.shop == shop && e.Failed? then 1 else 0)
    ensures FirstStart(log + [e], shop) ==
      if FirstStart(log, shop).None? && e.shop == shop && e.Started? then Some(e.at) else FirstStart(log, shop)
  {
    assert (log + [e])[..|log|] == log;
  }

  lemma RateAppend(ttl: nat, log: seq<Event>, e: Event, shop: string, now: int)
    requires Rate(ttl, log, shop, now) && Allowed(ttl, log, e) && now <= e.at
    ensures Rate(ttl, log + [e], shop, e.at)
  {
    AppendViews(log, e, shop);
    AppendCounts(log, e, shop);
    OneApart(ttl, Starts(log, shop) - 1 - Failures(log, shop));
  }

  lemma LawfulPrefix(ttl: nat, log: seq<Event>)
    requires Lawful(ttl, log) && log != []
    ensures Lawful(ttl, log[..|log| - 1]) && Allowed(ttl, log[..|log| - 1], log[|log| - 1])
  {
    hide Allowed;
    var before := log[..|log| - 1];
    forall k | 0 <= k < |before|
      ensures Allowed(ttl, before[..k], before[k])
    {
      assert before[..k] == log[..k] && before[k] == log[k];
    }
  }

  lemma NoReads(ttl: nat, shop: string, now: int)
    ensures Rate(ttl, [], shop, now)
  {
  }

  lemma OrderedPrefix(log: seq<Event>)
    requires TimeOrdered(log) && log != []
    ensures var before := log[..|log| - 1];
            TimeOrdered(before) && (before != [] ==> before[|before| - 1].at <= log[|log| - 1].at)
  {
  }

  lemma {:induction false} LawfulRate(ttl: nat, log: seq<Event>, shop: string)
    requires Lawful(ttl, log) && TimeOrdered(log) && log != []
    ensures Rate(ttl, log, shop, log[|log| - 1].at)
  {
    hide Allowed;
    hide Rate;
    hide Lawful;
    hide TimeOrdered;
    var before, e := log[..|log| - 1], log[|log| - 1];
    assert log == before + [e];
    LawfulPrefix(ttl, log);
    OrderedPrefix(log);
    if before != [] {
      LawfulRate(ttl, before, shop);
      RateAppend(ttl, before, e, shop, before[|before| - 1].at);
    } else {
      NoReads(ttl, shop, e.at);
      RateAppend(ttl, before, e, shop, e.at);
    }
  }

  lemma StepKeepsTimeOrder(ttl: nat, st: State, step: Step)
    requires TimeOrdered(st.log) && forall e :: e in st.log ==> e.at <= st.now
    ensures TimeOrdered(Apply(ttl, st, step).log)
  {
  }

  lemma {:induction false} RunTimeOrdered(ttl: nat, steps: seq<Step>)
    ensures TimeOrdered(Run(ttl, steps).log)
  {
    if steps != [] {
      var st := Run(ttl, steps[..|steps| - 1]);
      RunTimeOrdered(ttl, steps[..|steps| - 1]);
      RunKeepsInv(ttl, steps[..|steps| - 1]);
      assert forall e :: e in st.log ==> e.at <= st.now;
      hide Inv;
      hide TimeOrdered;
      StepKeepsTimeOrder(ttl, st, steps[|steps| - 1]);
      hide Apply;
    }
  }

  // A burst hits the reader at most once per ttl, failures aside: over any run, the reads of a shop beyond the
  // first and beyond one per failure each account for a full ttl since the first.
  lemma ReaderRateLimited(ttl: nat, steps: seq<Step>, shop: string)
    requires Starts(Run(ttl, steps).log, shop) >= 1
    ensures var st := Run(ttl, steps);
            && FirstStart(st.log, shop).Some?
            && Spaced(ttl, st.log, shop) <= st.now - FirstStart(st.log, shop).value
  {
    RunKeepsInv(ttl, steps);
    RunTimeOrdered(ttl, steps);
    var st := Run(ttl, steps);
    LawfulRate(ttl, st.log, shop);
    assert st.log[|st.log| - 1] in st.log;
  }
}

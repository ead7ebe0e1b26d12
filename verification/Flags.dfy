// featureFlagService and featureFlagEval: flags, per-shop overrides, and what a shop sees.
// Each mutation is one transaction that also appends its audit row.
module Flags {
  import opened Options

  type Percent = p: int | 0 <= p < 100

  // The stable hash bucket of a shop on a flag: any fixed function into 0..99.
  type Bucket = (string, string, string) -> Percent

  datatype Flag = Flag(id: nat, description: Option<string>, defaultEnabled: bool, rolloutPercentage: Option<int>)

  datatype AuditRow =
    | CreateRow(appKey: string, id: nat, key: string, defaultEnabled: bool, rollout: Option<int>)
    | UpdateRow(appKey: string, id: nat, wasEnabled: bool, wasRollout: Option<int>, defaultEnabled: bool, rollout: Option<int>)
    | DeleteRow(appKey: string, id: nat, key: string)
    | SetRow(appKey: string, key: string, shop: string, enabled: bool)
    | ClearRow(appKey: string, key: string, shop: string)

  datatype State = State(
    flags: map<(string, string), Flag>, overrides: map<(string, string, string), bool>, nextId: nat,
    audit: seq<AuditRow>)

  const Initial := State(map[], map[], 0, [])

  datatype Patch = Patch(
    description: Option<Option<string>>, defaultEnabled: Option<bool>, rolloutPercentage: Option<Option<int>>)

  datatype Step =
    | Create(appKey: string, key: string, description: Option<string>, enabled: bool, rollout: Option<int>)
    | Update(appKey: string, key: string, patch: Patch)
    | Remove(appKey: string, key: string)
    | SetOverride(appKey: string, key: string, shop: string, on: bool)
    | ClearOverride(appKey: string, key: string, shop: string)

  function Or<T>(o: Option<T>, otherwise: T): T {
    match o
    case Some(v) => v
    case None => otherwise
  }

  function Patched(f: Flag, p: Patch): Flag {
    f.(description := Or(p.description, f.description),
       defaultEnabled := Or(p.defaultEnabled, f.defaultEnabled),
       rolloutPercentage := Or(p.rolloutPercentage, f.rolloutPercentage))
  }

  // The unique key on (app, flag key) refuses a second create; update and remove need the flag; overrides do not.
  function Apply(st: State, step: Step): State {
    match step
    case Create(appKey, key, description, enabled, rollout) =>
      if (appKey, key) in st.flags then st
      else
        st.(flags := st.flags[(appKey, key) := Flag(st.nextId, description, enabled, rollout)],
            nextId := st.nextId + 1,
            audit := st.audit + [CreateRow(appKey, st.nextId, key, enabled, rollout)])
    case Update(appKey, key, patch) =>
      if (appKey, key) !in st.flags then st
      else
        var was := st.flags[(appKey, key)];
        var now := Patched(was, patch);
        st.(flags := st.flags[(appKey, key) := now],
            audit := st.audit + [UpdateRow(appKey, was.id, was.defaultEnabled, was.rolloutPercentage,
                                           now.defaultEnabled, now.rolloutPercentage)])
    case Remove(appKey, key) =>
      if (appKey, key) !in st.flags then st
      else
        st.(flags := st.flags - {(appKey, key)},
            overrides := WithoutFlag(st.overrides, appKey, key),
            audit := st.audit + [DeleteRow(appKey, st.flags[(appKey, key)].id, key)])
    case SetOverride(appKey, key, shop, on) =>
      st.(overrides := st.overrides[(appKey, key, shop) := on],
          audit := st.audit + [SetRow(appKey, key, shop, on)])
    case ClearOverride(appKey, key, shop) =>
      st.(overrides := st.overrides - {(appKey, key, shop)},
          audit := st.audit + [ClearRow(appKey, key, shop)])
  }

  function WithoutFlag(overrides: map<(string, string, string), bool>, appKey: string, key: string)
    : map<(string, string, string), bool>
  {
    map o | o in overrides && !(o.0 == appKey && o.1 == key) :: overrides[o]
  }

  function Run(steps: seq<Step>): State {
    if steps == [] then Initial else Apply(Run(steps[..|steps| - 1]), steps[|steps| - 1])
  }

  // ----- evaluation -----

  // An explicit override wins; else a positive percentage decides by bucket; else the default.
  function IsEnabled(bucket: Bucket, appKey: string, key: string, defaultEnabled: bool, rollout: Option<int>,
                     override_: Option<bool>, shop: string): bool
  {
    if override_.Some? then override_.value
    else if rollout.Some? && rollout.value > 0 then bucket(appKey, key, shop) < rollout.value
    else defaultEnabled
  }

  function OverrideOf(st: State, appKey: string, key: string, shop: string): Option<bool> {
    if (appKey, key, shop) in st.overrides then Some(st.overrides[(appKey, key, shop)]) else None
  }

  function Evaluate(bucket: Bucket, st: State, appKey: string, shop: string): map<string, bool> {
    map k | k in st.flags && k.0 == appKey ::
      k.1 := IsEnabled(bucket, appKey, k.1, st.flags[k].defaultEnabled, st.flags[k].rolloutPercentage,
                       OverrideOf(st, appKey, k.1, shop), shop)
  }

  datatype Error = FlagNotFound | DuplicateKey

  datatype Result = Done | Failed(error: Error)

  // ----- the service -----

  class FeatureFlagService {
    const bucket: Bucket
    var flags: map<(string, string), Flag>
    var overrides: map<(string, string, string), bool>
    var nextId: nat
    var audit: seq<AuditRow>

    ghost function View(): State
      reads this
    {
      State(flags, overrides, nextId, audit)
    }

    constructor (bucket: Bucket)
      ensures this.bucket == bucket && View() == Initial
    {
      this.bucket := bucket;
      flags, overrides, nextId, audit := map[], map[], 0, [];
    }

    method CreateFlag(appKey: string, key: string, description: Option<string>, enabled: bool, rollout: Option<int>)
      returns (r: Result)
      modifies this
      ensures View() == Apply(old(View()), Create(appKey, key, description, enabled, rollout))
      ensures r == if (appKey, key) in old(flags) then Failed(DuplicateKey) else Done
    {
      if (appKey, key) in flags {
        return Failed(DuplicateKey);
      }
      flags := flags[(appKey, key) := Flag(nextId, description, enabled, rollout)];
      audit := audit + [CreateRow(appKey, nextId, key, enabled, rollout)];
      nextId := nextId + 1;
      r := Done;
    }

    method UpdateFlag(appKey: string, key: string, patch: Patch) returns (r: Result)
      modifies this
      ensures View() == Apply(old(View()), Update(appKey, key, patch))
      ensures r == if (appKey, key) in old(flags) then Done else Failed(FlagNotFound)
    {
      if (appKey, key) !in flags {
        return Failed(FlagNotFound);
      }
      var was := flags[(appKey, key)];
      var now := was;
      if patch.description.Some? {
        now := now.(description := patch.description.value);
      }
      if patch.defaultEnabled.Some? {
        now := now.(defaultEnabled := patch.defaultEnabled.value);
      }
      if patch.rolloutPercentage.Some? {
        now := now.(rolloutPercentage := patch.rolloutPercentage.value);
      }
      flags := flags[(appKey, key) := now];
      audit := audit + [UpdateRow(appKey, was.id, was.defaultEnabled, was.rolloutPercentage,
                                  now.defaultEnabled, now.rolloutPercentage)];
      r := Done;
    }

    method RemoveFlag(appKey: string, key: string) returns (r: Result)
      modifies this
      ensures View() == Apply(old(View()), Remove(appKey, key))
      ensures r == if (appKey, key) in old(flags) then Done else Failed(FlagNotFound)
    {
      if (appKey, key) !in flags {
        return Failed(FlagNotFound);
      }
      var id := flags[(appKey, key)].id;
      flags := flags - {(appKey, key)};
      overrides := WithoutFlag(overrides, appKey, key);
      audit := audit + [DeleteRow(appKey, id, key)];
      r := Done;
    }

    method SetShopOverride(appKey: string, key: string, shop: string, on: bool)
      modifies this
      ensures View() == Apply(old(View()), SetOverride(appKey, key, shop, on))
    {
      overrides := overrides[(appKey, key, shop) := on];
      audit := audit + [SetRow(appKey, key, shop, on)];
    }

    method ClearShopOverride(appKey: string, key: string, shop: string)
      modifies this
      ensures View() == Apply(old(View()), ClearOverride(appKey, key, shop))
    {
      overrides := overrides - {(appKey, key, shop)};
      audit := audit + [ClearRow(appKey, key, shop)];
    }

    // Whatever order the store returns the flags in.
    method EvaluateForShop(appKey: string, shop: string) returns (out: map<string, bool>)
      ensures out == Evaluate(bucket, View(), appKey, shop)
    {
      hide IsEnabled;
      var todo := set k | k in flags && k.0 == appKey;
      ghost var all := todo;
      out := map[];
      while todo != {}
        invariant todo <= all
        invariant forall key :: key in out <==> (appKey, key) in all && (appKey, key) !in todo
        invariant forall key :: key in out ==>
          out[key] == IsEnabled(bucket, appKey, key, flags[(appKey, key)].defaultEnabled,
                                flags[(appKey, key)].rolloutPercentage,
                                if (appKey, key, shop) in overrides then Some(overrides[(appKey, key, shop)]) else None, shop)
      {
        var k :| k in todo;
        todo := todo - {k};
        var f := flags[k];
        var o := if (appKey, k.1, shop) in overrides then Some(overrides[(appKey, k.1, shop)]) else None;
        out := out[k.1 := IsEnabled(bucket, appKey, k.1, f.defaultEnabled, f.rolloutPercentage, o, shop)];
        assert k == (appKey, k.1);
      }
      EvaluateKeys(bucket, State(flags, overrides, nextId, audit), appKey, shop);
      hide Evaluate;
      assert forall key :: key in out <==> (appKey, key) in all;
      assert out == Evaluate(bucket, View(), appKey, shop);
    }
  }

  lemma EvaluateKeys(bucket: Bucket, st: State, appKey: string, shop: string)
    ensures var e := Evaluate(bucket, st, appKey, shop);
            && (forall key :: key in e <==> (appKey, key) in st.flags)
            && forall key :: key in e ==>
                 e[key] == IsEnabled(bucket, appKey, key, st.flags[(appKey, key)].defaultEnabled,
                                     st.flags[(appKey, key)].rolloutPercentage, OverrideOf(st, appKey, key, shop), shop)
  {
    var e := Evaluate(bucket, st, appKey, shop);
    forall key
      ensures key in e <==> (appKey, key) in st.flags
    {
      if (appKey, key) in st.flags {
        assert (appKey, key).1 == key;
      }
    }
  }

  // ----- the history -----

  // What the audit trail alone says about a flag: created and not deleted since, with its last settings.
  datatype Known = Known(id: nat, defaultEnabled: bool, rollout: Option<int>)

  function FlagRow(before: Option<Known>, row: AuditRow, appKey: string, key: string): Option<Known> {
    match row
    case CreateRow(a, id, k, enabled, rollout) =>
      if a == appKey && k == key then Some(Known(id, enabled, rollout)) else before
    case UpdateRow(a, id, _, _, enabled, rollout) =>
      if before.Some? && a == appKey && before.value.id == id then Some(Known(id, enabled, rollout)) else before
    case DeleteRow(a, _, k) => if a == appKey && k == key then None else before
    case _ => before
  }

  function OverrideRow(before: Option<bool>, row: AuditRow, appKey: string, key: string, shop: string): Option<bool> {
    match row
    case SetRow(a, k, s, on) => if a == appKey && k == key && s == shop then Some(on) else before
    case ClearRow(a, k, s) => if a == appKey && k == key && s == shop then None else before
    case DeleteRow(a, _, k) => if a == appKey && k == key then None else before
    case _ => before
  }

  ghost function FlagIn(rows: seq<AuditRow>, appKey: string, key: string): Option<Known> {
    if rows == [] then None
    else FlagRow(FlagIn(rows[..|rows| - 1], appKey, key), rows[|rows| - 1], appKey, key)
  }

  // The last row about the override: a set that no clear and no deletion of the flag came after.
  ghost function OverrideIn(rows: seq<AuditRow>, appKey: string, key: string, shop: string): Option<bool> {
    if rows == [] then None
    else OverrideRow(OverrideIn(rows[..|rows| - 1], appKey, key, shop), rows[|rows| - 1], appKey, key, shop)
  }

  function KnownOf(f: Flag): Known {
    Known(f.id, f.defaultEnabled, f.rolloutPercentage)
  }

  ghost predicate FlagInv(st: State, appKey: string, key: string) {
    FlagIn(st.audit, appKey, key)
      == if (appKey, key) in st.flags then Some(KnownOf(st.flags[(appKey, key)])) else None
  }

  ghost predicate OverrideInv(st: State, appKey: string, key: string, shop: string) {
    OverrideIn(st.audit, appKey, key, shop) == OverrideOf(st, appKey, key, shop)
  }

  ghost predicate Inv(st: State) {
    && (forall appKey, key :: FlagInv(st, appKey, key))
    && (forall appKey, key, shop :: OverrideInv(st, appKey, key, shop))
    && DistinctIds(st)
  }

  ghost predicate DistinctIds(st: State) {
    && (forall k :: k in st.flags ==> st.flags[k].id < st.nextId)
    && (forall j, k :: j in st.flags && k in st.flags && st.flags[j].id == st.flags[k].id ==> j == k)
  }

  lemma AppendViews(rows: seq<AuditRow>, row: AuditRow, appKey: string, key: string, shop: string)
    ensures FlagIn(rows + [row], appKey, key) == FlagRow(FlagIn(rows, appKey, key), row, appKey, key)
    ensures OverrideIn(rows + [row], appKey, key, shop)
         == OverrideRow(OverrideIn(rows, appKey, key, shop), row, appKey, key, shop)
  {
    assert (rows + [row])[..|rows|] == rows;
    hide FlagRow;
    hide OverrideRow;
  }

  // The audit row of a step, if it goes through.
  lemma StepAppends(st: State, step: Step)
    ensures var st' := Apply(st, step);
            st' == st || (|st'.audit| == |st.audit| + 1 && st'.audit == st.audit + [st'.audit[|st.audit|]])
  {
    hide WithoutFlag;
    hide Patched;
  }

  lemma StepKeepsFlag(st: State, step: Step, appKey: string, key: string)
    requires FlagInv(st, appKey, key) && DistinctIds(st)
    ensures FlagInv(Apply(st, step), appKey, key)
  {
    hide WithoutFlag;
    hide Patched;
    hide FlagIn;
    hide OverrideIn;
    StepAppends(st, step);
    var st' := Apply(st, step);
    if st' != st {
      AppendViews(st.audit, st'.audit[|st.audit|], appKey, key, "");
      hide OverrideRow;
      match step
      case Update(a, k, patch) =>
        PatchKeepsId(st.flags[(a, k)], patch);
      case Create(a, k, _, _, _) =>
        hide DistinctIds;
      case Remove(a, k) =>
        hide DistinctIds;
      case _ =>
        hide DistinctIds;
    }
  }

  lemma PatchKeepsId(f: Flag, patch: Patch)
    ensures Patched(f, patch).id == f.id
  {
  }

  lemma WithoutFlagAt(overrides: map<(string, string, string), bool>, a: string, k: string, o: (string, string, string))
    ensures o in WithoutFlag(overrides, a, k) <==> o in overrides && !(o.0 == a && o.1 == k)
    ensures o in WithoutFlag(overrides, a, k) ==> WithoutFlag(overrides, a, k)[o] == overrides[o]
  {
  }

  lemma StepKeepsOverride(st: State, step: Step, appKey: string, key: string, shop: string)
    requires OverrideInv(st, appKey, key, shop)
    ensures OverrideInv(Apply(st, step), appKey, key, shop)
  {
    hide WithoutFlag;
    hide Patched;
    hide FlagIn;
    hide OverrideIn;
    hide FlagRow;
    StepAppends(st, step);
    var st' := Apply(st, step);
    if st' != st {
      AppendViews(st.audit, st'.audit[|st.audit|], appKey, key, shop);
      match step
      case Remove(a, k) =>
        WithoutFlagAt(st.overrides, a, k, (appKey, key, shop));
      case _ =>
    }
  }

  lemma StepKeepsIds(st: State, step: Step)
    requires DistinctIds(st)
    ensures DistinctIds(Apply(st, step))
  {
    hide WithoutFlag;
  }

  lemma {:induction false} RunKeepsInv(steps: seq<Step>)
    ensures Inv(Run(steps))
  {
    hide Apply;
    hide FlagInv;
    hide OverrideInv;
    hide DistinctIds;
    if steps == [] {
      EmptyInv();
    } else {
      var st, step := Run(steps[..|steps| - 1]), steps[|steps| - 1];
      RunKeepsInv(steps[..|steps| - 1]);
      forall a, k
        ensures FlagInv(Apply(st, step), a, k)
      {
        assert FlagInv(st, a, k);
        StepKeepsFlag(st, step, a, k);
      }
      forall a, k, s
        ensures OverrideInv(Apply(st, step), a, k, s)
      {
        assert OverrideInv(st, a, k, s);
        StepKeepsOverride(st, step, a, k, s);
      }
      StepKeepsIds(st, step);
    }
  }

  lemma EmptyInv()
    ensures Inv(Initial)
  {
  }

  // After any run, what a shop sees of a flag is what the audit trail says: the last surviving override, else the
  // bucket against the last percentage, else the last default; and it sees exactly the flags the trail knows.
  lemma EvaluationFollowsHistory(bucket: Bucket, steps: seq<Step>, appKey: string, key: string, shop: string)
    ensures var e, rows := Evaluate(bucket, Run(steps), appKey, shop), Run(steps).audit;
            var known := FlagIn(rows, appKey, key);
            && (key in e <==> known.Some?)
            && (key in e ==>
                  e[key] == IsEnabled(bucket, appKey, key, known.value.defaultEnabled, known.value.rollout,
                                      OverrideIn(rows, appKey, key, shop), shop))
  {
    hide Apply;
    hide IsEnabled;
    RunKeepsInv(steps);
    var st := Run(steps);
    assert FlagInv(st, appKey, key) && OverrideInv(st, appKey, key, shop);
    hide Evaluate;
    EvaluateKeys(bucket, st, appKey, shop);
  }

  // An override set before its flag exists survives until the flag is created, and then applies.
  lemma OverrideOutlivesMissingFlag(bucket: Bucket, appKey: string, key: string, shop: string, on: bool, enabled: bool, rollout: Option<int>)
    ensures var st := Run([SetOverride(appKey, key, shop, on), Create(appKey, key, None, enabled, rollout)]);
            key in Evaluate(bucket, st, appKey, shop) && Evaluate(bucket, st, appKey, shop)[key] == on
  {
    var s1, s2 := SetOverride(appKey, key, shop, on), Create(appKey, key, None, enabled, rollout);
    assert [s1, s2][..1] == [s1] && [s1][..0] == [];
    var st := Run([s1, s2]);
    assert st == Apply(Apply(Initial, s1), s2) by {
      hide Apply;
      var none: seq<Step> := [];
      assert Run(none) == Initial;
      assert Run([s1]) == Apply(Run(none), s1);
    }
    EvaluateKeys(bucket, st, appKey, shop);
    hide Evaluate;
  }

  // ----- the ramp -----

  ghost predicate OnlyAdds(bucket: Bucket, appKey: string, key: string, enabled: bool, p: Option<int>, q: Option<int>) {
    forall shop :: IsEnabled(bucket, appKey, key, enabled, p, None, shop)
               ==> IsEnabled(bucket, appKey, key, enabled, q, None, shop)
  }

  // A percentage that decides by bucket; null and anything up to 0 leave it to the default.
  predicate Ramps(p: Option<int>) {
    p.Some? && p.value > 0
  }

  // Raising a percentage, from null or from a number, only adds shops exactly when the ramp had already started, or
  // is not started by this change, or the flag is off by default, or the new percentage reaches every shop's bucket.
  lemma RampOnlyAddsIff(bucket: Bucket, appKey: string, key: string, enabled: bool, p: Option<int>, q: Option<int>)
    requires Ramps(p) ==> Ramps(q) && p.value <= q.value
    ensures OnlyAdds(bucket, appKey, key, enabled, p, q) <==>
      Ramps(p) || !Ramps(q) || !enabled || forall shop :: bucket(appKey, key, shop) < q.value
  {
    if !Ramps(p) && Ramps(q) && enabled && !(forall shop :: bucket(appKey, key, shop) < q.value) {
      var shop :| bucket(appKey, key, shop) >= q.value;
      assert IsEnabled(bucket, appKey, key, enabled, p, None, shop);
      assert !IsEnabled(bucket, appKey, key, enabled, q, None, shop);
    }
    if Ramps(q) && forall shop :: bucket(appKey, key, shop) < q.value {
      forall shop
        ensures IsEnabled(bucket, appKey, key, enabled, p, None, shop)
            ==> IsEnabled(bucket, appKey, key, enabled, q, None, shop)
      {
        assert bucket(appKey, key, shop) < q.value;
      }
    }
  }
}

// What a shop sees of a flag, told by the steps of the run alone.
module FlagHistory {
  import opened Options
  import opened Flags

  // ----- the schedule of one flag -----

  // Created, and not removed since.
  ghost predicate Lives(steps: seq<Step>, appKey: string, key: string) {
    exists c ::
      && 0 <= c < |steps| && steps[c].Create? && steps[c].appKey == appKey && steps[c].key == key
      && forall k :: c < k < |steps| ==> steps[k] != Remove(appKey, key)
  }

  datatype Setting = Description | Default | Percentage

  datatype Value = Text(text: Option<string>) | On(on: bool) | Share(share: Option<int>)

  function SettingOf(f: Flag, which: Setting): Value {
    match which
    case Description => Text(f.description)
    case Default => On(f.defaultEnabled)
    case Percentage => Share(f.rolloutPercentage)
  }

  // The value a step gives this setting of the flag, if it is about it. A create gives all three.
  function Gives(step: Step, appKey: string, key: string, which: Setting): Option<Value> {
    if !(step.Create? || step.Update?) || step.appKey != appKey || step.key != key then None
    else
      match (step, which)
      case (Create(_, _, text, _, _), Description) => Some(Text(text))
      case (Create(_, _, _, on, _), Default) => Some(On(on))
      case (Create(_, _, _, _, share), Percentage) => Some(Share(share))
      case (Update(_, _, Patch(Some(text), _, _)), Description) => Some(Text(text))
      case (Update(_, _, Patch(_, Some(on), _)), Default) => Some(On(on))
      case (Update(_, _, Patch(_, _, Some(share))), Percentage) => Some(Share(share))
      case _ => None
  }

  // A create takes effect on a flag that is not there, an update on one that is.
  ghost predicate Sets(steps: seq<Step>, i: nat, appKey: string, key: string, which: Setting) {
    && i < |steps| && Gives(steps[i], appKey, key, which).Some?
    && (steps[i].Update? <==> Lives(steps[..i], appKey, key))
  }

  ghost predicate LastSets(steps: seq<Step>, i: nat, appKey: string, key: string, which: Setting) {
    Sets(steps, i, appKey, key, which) && forall k: nat :: i < k ==> !Sets(steps, k, appKey, key, which)
  }

  // Step k puts an end to the override: another set or a clear of it, or the removal of the flag while it is there.
  ghost predicate Replaces(steps: seq<Step>, k: nat, appKey: string, key: string, shop: string) {
    && k < |steps|
    && match steps[k]
       case SetOverride(a, f, s, _) => a == appKey && f == key && s == shop
       case ClearOverride(a, f, s) => a == appKey && f == key && s == shop
       case Remove(a, f) => a == appKey && f == key && Lives(steps[..k], appKey, key)
       case _ => false
  }

  ghost predicate OverrideStands(steps: seq<Step>, o: nat, appKey: string, key: string, shop: string) {
    && o < |steps| && steps[o].SetOverride?
    && steps[o].appKey == appKey && steps[o].key == key && steps[o].shop == shop
    && forall k: nat :: o < k ==> !Replaces(steps, k, appKey, key, shop)
  }

  // A shop sees the flags that were created and not removed since. Of each it sees the standing override; without one, the
  // percentage last set decides by bucket if it is positive, and otherwise the default last set.
  lemma SeenBySteps(bucket: Bucket, steps: seq<Step>, appKey: string, key: string, shop: string)
      returns (d: nat, p: nat)
    ensures var e := Evaluate(bucket, Run(steps), appKey, shop);
            && (key in e <==> Lives(steps, appKey, key))
            && (key in e ==>
                  && LastSets(steps, d, appKey, key, Default) && LastSets(steps, p, appKey, key, Percentage)
                  && (forall o: nat :: OverrideStands(steps, o, appKey, key, shop) ==> e[key] == steps[o].on)
                  && ((forall o: nat :: !OverrideStands(steps, o, appKey, key, shop)) ==>
                        e[key] == match Gives(steps[p], appKey, key, Percentage)
                                  case Some(Share(Some(share))) =>
                                    if share > 0 then bucket(appKey, key, shop) < share
                                    else Gives(steps[d], appKey, key, Default) == Some(On(true))
                                  case _ => Gives(steps[d], appKey, key, Default) == Some(On(true))))
  {
    d, p := 0, 0;
    var st := Run(steps);
    FlagTold(steps, appKey, key, Default);
    FlagTold(steps, appKey, key, Percentage);
    OverrideTold(steps, appKey, key, shop);
    EvaluateKeys(bucket, st, appKey, shop);
    hide Evaluate;
    hide Run;
    hide OverrideStands;
    if Lives(steps, appKey, key) {
      hide Lives;
      d :| LastSets(steps, d, appKey, key, Default);
      p :| LastSets(steps, p, appKey, key, Percentage);
      assert SettingOf(st.flags[(appKey, key)], Default) == Gives(steps[d], appKey, key, Default).value;
      assert SettingOf(st.flags[(appKey, key)], Percentage) == Gives(steps[p], appKey, key, Percentage).value;
      hide LastSets;
      hide Gives;
    }
  }

  // ----- one more step -----

  lemma LivesStep(steps: seq<Step>, appKey: string, key: string)
    requires steps != []
    ensures var before, step := steps[..|steps| - 1], steps[|steps| - 1];
            Lives(steps, appKey, key) <==>
              || (step.Create? && step.appKey == appKey && step.key == key)
              || (Lives(before, appKey, key) && step != Remove(appKey, key))
  {
    var n := |steps| - 1;
    var before, step := steps[..n], steps[n];
    if Lives(before, appKey, key) && step != Remove(appKey, key) {
      var c :| 0 <= c < n && before[c].Create? && before[c].appKey == appKey && before[c].key == key
               && forall k :: c < k < n ==> before[k] != Remove(appKey, key);
      assert steps[c] == before[c];
      assert forall k :: c < k < n ==> steps[k] == before[k];
    }
    if Lives(steps, appKey, key) {
      var c :| 0 <= c < |steps| && steps[c].Create? && steps[c].appKey == appKey && steps[c].key == key
               && forall k :: c < k < |steps| ==> steps[k] != Remove(appKey, key);
      if c < n {
        assert before[c] == steps[c];
        assert forall k :: c < k < n ==> before[k] == steps[k];
      }
    }
  }

  lemma SetsStep(steps: seq<Step>, i: nat, appKey: string, key: string, which: Setting)
    requires steps != [] && i < |steps| - 1
    ensures Sets(steps, i, appKey, key, which) <==> Sets(steps[..|steps| - 1], i, appKey, key, which)
  {
    hide Gives;
    hide Lives;
    assert steps[..|steps| - 1][..i] == steps[..i];
  }

  lemma LastSetsStep(steps: seq<Step>, i: nat, appKey: string, key: string, which: Setting)
    requires steps != []
    ensures var n := |steps| - 1;
            LastSets(steps, i, appKey, key, which) <==>
              if Sets(steps, n, appKey, key, which) then i == n else LastSets(steps[..n], i, appKey, key, which)
  {
    var n := |steps| - 1;
    forall k: nat | k < n
      ensures Sets(steps, k, appKey, key, which) <==> Sets(steps[..n], k, appKey, key, which)
    {
      SetsStep(steps, k, appKey, key, which);
    }
    assert forall k: nat :: Sets(steps, k, appKey, key, which) ==> k <= n;
    assert forall k: nat :: Sets(steps[..n], k, appKey, key, which) ==> k < n;
    hide Sets;
  }

  lemma FlagStep(st: State, step: Step, appKey: string, key: string, which: Setting)
    ensures var st', there := Apply(st, step), (appKey, key) in st.flags;
            && ((appKey, key) in st'.flags <==>
                  || (step.Create? && step.appKey == appKey && step.key == key)
                  || (there && step != Remove(appKey, key)))
            && ((appKey, key) in st'.flags ==>
                  SettingOf(st'.flags[(appKey, key)], which) ==
                    if Gives(step, appKey, key, which).Some? && (step.Update? <==> there) then
                      Gives(step, appKey, key, which).value
                    else if there then SettingOf(st.flags[(appKey, key)], which)
                    else SettingOf(st'.flags[(appKey, key)], which))
  {
    hide WithoutFlag;
  }

  lemma {:induction false} FlagTold(steps: seq<Step>, appKey: string, key: string, which: Setting)
    ensures var st := Run(steps);
            && ((appKey, key) in st.flags <==> Lives(steps, appKey, key))
            && (Lives(steps, appKey, key) ==> exists i: nat :: LastSets(steps, i, appKey, key, which))
            && (forall i: nat :: Lives(steps, appKey, key) && LastSets(steps, i, appKey, key, which) ==>
                  SettingOf(st.flags[(appKey, key)], which) == Gives(steps[i], appKey, key, which).value)
  {
    hide Apply;
    if steps != [] {
      var n := |steps| - 1;
      var before, step := steps[..n], steps[n];
      FlagTold(before, appKey, key, which);
      FlagStep(Run(before), step, appKey, key, which);
      LivesStep(steps, appKey, key);
      hide Lives;
      forall i: nat
        ensures LastSets(steps, i, appKey, key, which) <==>
          if Sets(steps, n, appKey, key, which) then i == n else LastSets(before, i, appKey, key, which)
      {
        LastSetsStep(steps, i, appKey, key, which);
      }
      assert forall i: nat :: LastSets(before, i, appKey, key, which) ==> i < n && before[i] == steps[i];
      assert step.Create? && step.appKey == appKey && step.key == key ==> Gives(step, appKey, key, which).Some?;
      hide LastSets;
      hide Gives;
      hide SettingOf;
    }
  }

  lemma ReplacesStep(steps: seq<Step>, k: nat, appKey: string, key: string, shop: string)
    requires steps != [] && k < |steps| - 1
    ensures Replaces(steps, k, appKey, key, shop) <==> Replaces(steps[..|steps| - 1], k, appKey, key, shop)
  {
    hide Lives;
    assert steps[..|steps| - 1][..k] == steps[..k];
  }

  lemma StandsStep(steps: seq<Step>, o: nat, appKey: string, key: string, shop: string)
    requires steps != []
    ensures var n := |steps| - 1;
            OverrideStands(steps, o, appKey, key, shop) <==>
              || (o == n && steps[n].SetOverride?
                  && steps[n].appKey == appKey && steps[n].key == key && steps[n].shop == shop)
              || (OverrideStands(steps[..n], o, appKey, key, shop) && !Replaces(steps, n, appKey, key, shop))
  {
    var n := |steps| - 1;
    forall k: nat | k < n
      ensures Replaces(steps, k, appKey, key, shop) <==> Replaces(steps[..n], k, appKey, key, shop)
    {
      ReplacesStep(steps, k, appKey, key, shop);
    }
    assert forall k: nat :: Replaces(steps, k, appKey, key, shop) ==> k <= n;
    assert forall k: nat :: Replaces(steps[..n], k, appKey, key, shop) ==> k < n;
    hide Replaces;
  }

  lemma OverrideStep(st: State, step: Step, appKey: string, key: string, shop: string)
    ensures OverrideOf(Apply(st, step), appKey, key, shop) ==
      match step
      case SetOverride(a, f, s, on) =>
        if a == appKey && f == key && s == shop then Some(on) else OverrideOf(st, appKey, key, shop)
      case ClearOverride(a, f, s) =>
        if a == appKey && f == key && s == shop then None else OverrideOf(st, appKey, key, shop)
      case Remove(a, f) =>
        if a == appKey && f == key && (appKey, key) in st.flags then None else OverrideOf(st, appKey, key, shop)
      case _ => OverrideOf(st, appKey, key, shop)
  {
    hide Patched;
    if step.Remove? {
      WithoutFlagAt(st.overrides, step.appKey, step.key, (appKey, key, shop));
    }
    hide WithoutFlag;
  }

  lemma {:induction false} OverrideTold(steps: seq<Step>, appKey: string, key: string, shop: string)
    ensures var now := OverrideOf(Run(steps), appKey, key, shop);
            && (now.Some? <==> exists o: nat :: OverrideStands(steps, o, appKey, key, shop))
            && forall o: nat :: OverrideStands(steps, o, appKey, key, shop) ==> now == Some(steps[o].on)
  {
    hide Apply;
    if steps != [] {
      var n := |steps| - 1;
      var before, step := steps[..n], steps[n];
      OverrideTold(before, appKey, key, shop);
      OverrideStep(Run(before), step, appKey, key, shop);
      FlagTold(before, appKey, key, Default);
      assert Run(steps) == Apply(Run(before), step);
      hide Run;
      hide OverrideOf;
      hide Lives;
      forall o: nat
        ensures OverrideStands(steps, o, appKey, key, shop) <==>
          || (o == n && step.SetOverride? && step.appKey == appKey && step.key == key && step.shop == shop)
          || (OverrideStands(before, o, appKey, key, shop) && !Replaces(steps, n, appKey, key, shop))
      {
        StandsStep(steps, o, appKey, key, shop);
      }
      assert forall o: nat :: OverrideStands(before, o, appKey, key, shop) ==> o < n && before[o] == steps[o];
      hide OverrideStands;
    }
  }

  // ----- the trail -----

  // The row of an update names the settings that the trail before it gives the flag.
  lemma {:induction false} UpdateRowsTellBefore(steps: seq<Step>, r: nat)
    requires r < |Run(steps).audit| && Run(steps).audit[r].UpdateRow?
    ensures var rows := Run(steps).audit;
            exists key :: FlagIn(rows[..r], rows[r].appKey, key)
                       == Some(Known(rows[r].id, rows[r].wasEnabled, rows[r].wasRollout))
  {
    hide FlagIn;
    var before, step := steps[..|steps| - 1], steps[|steps| - 1];
    var st := Run(before);
    hide Apply;
    RunKeepsInv(before);
    StepAppends(st, step);
    if r < |st.audit| {
      UpdateRowsTellBefore(before, r);
      assert Run(steps).audit[..r] == st.audit[..r];
    } else {
      assert Run(steps).audit[..r] == st.audit;
      NewRowTellsBefore(st, step);
    }
  }

  lemma NewRowTellsBefore(st: State, step: Step)
    requires Inv(st) && |Apply(st, step).audit| == |st.audit| + 1 && Apply(st, step).audit[|st.audit|].UpdateRow?
    ensures var row := Apply(st, step).audit[|st.audit|];
            exists key :: FlagIn(st.audit, row.appKey, key) == Some(Known(row.id, row.wasEnabled, row.wasRollout))
  {
    hide FlagIn;
    hide WithoutFlag;
    hide Patched;
    assert step.Update? && FlagInv(st, step.appKey, step.key);
  }
}

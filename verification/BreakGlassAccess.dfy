// Who passes the choke point, told by the steps of the run alone: a request, an approval where the scope asks for one, and
// nothing that ended the grant since.
module BreakGlassAccess {
  import opened Options
  import opened BreakGlass
  import Text

  // ----- the schedule of one grant -----

  // Step i is the request that created the grant.
  ghost predicate RequestedAt(cfg: Config, steps: seq<Step>, i: nat, id: nat) {
    i < |steps| && steps[i].Request? && Text.Trim(steps[i].reason) != "" && |Run(cfg, steps[..i]).grants| == id
  }

  predicate Decides(step: Step, appKey: string, id: nat) {
    (step.Approve? || step.Deny? || step.Revoke?) && step.appKey == appKey && step.id == id
  }

  // Step j put the grant of request i in force: the request itself, or, where its scope needs approval, the first decision
  // on it, an approval.
  predicate InForceFrom(cfg: Config, steps: seq<Step>, i: nat, j: nat, id: nat)
    requires i < |steps| && steps[i].Request?
  {
    if (steps[i].scope == PiiReveal && cfg.piiRequiresApproval)
       || (steps[i].scope == Impersonation && cfg.impersonationRequiresApproval)
    then
      && i < j < |steps| && steps[j].Approve? && Decides(steps[j], steps[i].appKey, id)
      && forall k :: i < k < j ==> !Decides(steps[k], steps[i].appKey, id)
    else j == i
  }

  // Step k ends the grant if it is active: a revoke, or a sweep that comes to it.
  ghost predicate Stops(cfg: Config, steps: seq<Step>, k: nat, appKey: string, id: nat)
    requires k < |steps|
  {
    match steps[k]
    case Revoke(_, a, g) => a == appKey && g == id
    case SweepUpdate(s) =>
      var sweeps := Run(cfg, steps[..k]).sweeps;
      s < |sweeps| && sweeps[s] != [] && sweeps[s][0] == id
    case _ => false
  }

  ghost predicate Unstopped(cfg: Config, steps: seq<Step>, j: nat, appKey: string, id: nat) {
    forall k :: j < k < |steps| ==> !Stops(cfg, steps, k, appKey, id)
  }

  // In force since step j and not stopped.
  ghost predicate Stands(cfg: Config, steps: seq<Step>, i: nat, j: nat, id: nat)
    requires i < |steps| && steps[i].Request?
  {
    InForceFrom(cfg, steps, i, j, id) && Unstopped(cfg, steps, j, steps[i].appKey, id)
  }

  // An absent or empty shop is not compared, and a request for no shop in particular is good for every shop.
  predicate ShopFits(asked: Option<string>, granted: Option<string>) {
    asked in {None, Some("")} || granted in {None, asked}
  }

  // The grant passes for this actor, scope and shop exactly when the run holds the request of that actor for that app and
  // scope which created it, the request or its approval put it in force less than a ttl ago, and nothing has stopped it.
  lemma PassesIff(
      cfg: Config, steps: seq<Step>, appKey: string, actor: string, scope: Scope, shop: Option<string>, id: nat)
    ensures Covers(Run(cfg, steps), appKey, actor, scope, shop, id) <==>
      exists i: nat, j: nat ::
        && RequestedAt(cfg, steps, i, id)
        && steps[i].appKey == appKey && steps[i].actor == actor && steps[i].scope == scope
        && ShopFits(shop, steps[i].targetShop)
        && Stands(cfg, steps, i, j, id) && j < |steps|
        && Run(cfg, steps).now < Run(cfg, steps[..j]).now + cfg.ttl
  {
    hide Text.Trim;
    hide Stands;
    hide Run;
    hide StatusTold;
    var st := Run(cfg, steps);
    if id < |st.grants| {
      var i := CreatedBy(cfg, steps, id);
      FieldsAreRequested(cfg, steps, i, id);
      var r := steps[i];
      forall k | RequestedAt(cfg, steps, k, id)
        ensures k == i
      {
        OneRequest(cfg, steps, i, k, id);
      }
      ActiveIff(cfg, steps, i, id);
      PassesByStatus(cfg, steps, i, id);
    } else {
      forall i | RequestedAt(cfg, steps, i, id)
        ensures false
      {
        FieldsAreRequested(cfg, steps, i, id);
      }
    }
  }

  lemma PassesByStatus(cfg: Config, steps: seq<Step>, i: nat, id: nat)
    requires RequestedAt(cfg, steps, i, id) && id < |Run(cfg, steps).grants| && StatusTold(cfg, steps, i, id)
    ensures Usable(Run(cfg, steps), id) <==>
      exists j: nat :: Stands(cfg, steps, i, j, id) && j < |steps| && Run(cfg, steps).now < Run(cfg, steps[..j]).now + cfg.ttl
  {
    hide Text.Trim;
    hide Stands;
    hide Run;
  }

  // ----- one step of one grant -----

  lemma NewGrantStep(cfg: Config, st: State, step: Step)
    requires step.Request? && Text.Trim(step.reason) != ""
    ensures var st' := Apply(cfg, st, step);
            && |st'.grants| == |st.grants| + 1
            && var g := st'.grants[|st.grants|];
               && g.appKey == step.appKey && g.actorUserId == step.actor && g.scope == step.scope
               && g.targetShop == step.targetShop && g.expiresAt == st.now + cfg.ttl
               && g.status == if (step.scope == PiiReveal && cfg.piiRequiresApproval)
                                 || (step.scope == Impersonation && cfg.impersonationRequiresApproval) then Requested else Active
  {
    hide Text.Trim;
  }

  lemma NoGrantStep(cfg: Config, st: State, step: Step)
    requires !(step.Request? && Text.Trim(step.reason) != "")
    ensures |Apply(cfg, st, step).grants| == |st.grants|
  {
    hide Text.Trim;
  }

  lemma FieldsStay(cfg: Config, st: State, step: Step, id: nat)
    requires id < |st.grants|
    ensures var st' := Apply(cfg, st, step);
            && id < |st'.grants|
            && var g, g' := st.grants[id], st'.grants[id];
               && g'.appKey == g.appKey && g'.actorUserId == g.actorUserId && g'.scope == g.scope
               && g'.targetShop == g.targetShop
  {
    hide Text.Trim;
  }

  lemma RequestedStep(cfg: Config, st: State, step: Step, id: nat)
    requires Inv(st) && id < |st.grants| && st.grants[id].status == Requested
    ensures var g, st' := st.grants[id], Apply(cfg, st, step);
            && id < |st'.grants|
            && var g' := st'.grants[id];
               && (g'.status == Requested <==> !Decides(step, g.appKey, id))
               && (g'.status == Active <==> Decides(step, g.appKey, id) && step.Approve?)
               && (g'.status == Active ==> g'.expiresAt == st.now + cfg.ttl && g'.approverUserId == Some(step.actor))
  {
    hide Text.Trim;
  }

  lemma ActiveStep(cfg: Config, st: State, step: Step, id: nat)
    requires Inv(st) && id < |st.grants| && st.grants[id].status == Active
    ensures var g, st' := st.grants[id], Apply(cfg, st, step);
            && id < |st'.grants|
            && var g' := st'.grants[id];
               && g'.expiresAt == g.expiresAt && g'.status != Requested
               && (g'.status == Active <==>
                     !match step
                      case Revoke(_, a, k) => a == g.appKey && k == id
                      case SweepUpdate(s) => s < |st.sweeps| && st.sweeps[s] != [] && st.sweeps[s][0] == id
                      case _ => false)
  {
    hide Text.Trim;
  }

  // ----- where a grant comes from -----

  lemma {:induction false} GrantsGrow(cfg: Config, steps: seq<Step>, n: nat)
    requires n <= |steps|
    ensures |Run(cfg, steps[..n]).grants| <= |Run(cfg, steps).grants|
  {
    hide Apply;
    if n == |steps| {
      assert steps[..n] == steps;
    } else {
      var m := |steps| - 1;
      GrantsGrow(cfg, steps[..m], n);
      assert steps[..m][..n] == steps[..n];
      RunKeepsInv(cfg, steps[..m]);
      GrantsStay(cfg, Run(cfg, steps[..m]), steps[m]);
    }
  }

  lemma GrantsStay(cfg: Config, st: State, step: Step)
    ensures |Apply(cfg, st, step).grants| >= |st.grants|
  {
    hide Text.Trim;
  }

  lemma OneRequest(cfg: Config, steps: seq<Step>, i: nat, k: nat, id: nat)
    requires RequestedAt(cfg, steps, i, id) && RequestedAt(cfg, steps, k, id)
    ensures i == k
  {
    hide Text.Trim;
    hide Apply;
    if i < k {
      RequestFills(cfg, steps, i, k, id);
    } else if k < i {
      RequestFills(cfg, steps, k, i, id);
    }
  }

  lemma RequestFills(cfg: Config, steps: seq<Step>, i: nat, k: nat, id: nat)
    requires RequestedAt(cfg, steps, i, id) && i < k <= |steps|
    ensures |Run(cfg, steps[..k]).grants| > id
  {
    hide Text.Trim;
    assert steps[..i + 1][..i] == steps[..i] && steps[..k][..i + 1] == steps[..i + 1];
    assert Run(cfg, steps[..i + 1]) == Apply(cfg, Run(cfg, steps[..i]), steps[i]);
    hide Run;
    NewGrantStep(cfg, Run(cfg, steps[..i]), steps[i]);
    hide Apply;
    GrantsGrow(cfg, steps[..k], i + 1);
  }

  lemma {:induction false} CreatedBy(cfg: Config, steps: seq<Step>, id: nat) returns (i: nat)
    requires id < |Run(cfg, steps).grants|
    ensures RequestedAt(cfg, steps, i, id)
  {
    hide Text.Trim;
    hide Apply;
    var m := |steps| - 1;
    var st := Run(cfg, steps[..m]);
    if id < |st.grants| {
      i := CreatedBy(cfg, steps[..m], id);
      assert steps[..m][..i] == steps[..i];
    } else {
      i := m;
      if steps[m].Request? && Text.Trim(steps[m].reason) != "" {
        NewGrantStep(cfg, st, steps[m]);
      } else {
        NoGrantStep(cfg, st, steps[m]);
      }
    }
  }

  lemma {:induction false} FieldsAreRequested(cfg: Config, steps: seq<Step>, i: nat, id: nat)
    requires RequestedAt(cfg, steps, i, id)
    ensures id < |Run(cfg, steps).grants|
    ensures var g := Run(cfg, steps).grants[id];
            && g.appKey == steps[i].appKey && g.actorUserId == steps[i].actor && g.scope == steps[i].scope
            && g.targetShop == steps[i].targetShop
  {
    hide Text.Trim;
    hide Apply;
    var m := |steps| - 1;
    var st := Run(cfg, steps[..m]);
    if i == m {
      NewGrantStep(cfg, st, steps[m]);
    } else {
      assert steps[..m][..i] == steps[..i];
      FieldsAreRequested(cfg, steps[..m], i, id);
      FieldsStay(cfg, st, steps[m], id);
    }
  }

  // ----- its status -----

  // No decision on the request yet.
  predicate Undecided(steps: seq<Step>, i: nat, id: nat)
    requires i < |steps| && steps[i].Request?
  {
    forall k :: i < k < |steps| ==> !Decides(steps[k], steps[i].appKey, id)
  }

  ghost predicate StatusTold(cfg: Config, steps: seq<Step>, i: nat, id: nat)
    requires RequestedAt(cfg, steps, i, id) && id < |Run(cfg, steps).grants|
  {
    var g := Run(cfg, steps).grants[id];
    && (g.status == Requested <==> !InForceFrom(cfg, steps, i, i, id) && Undecided(steps, i, id))
    && (g.status == Active <==> exists j: nat :: Stands(cfg, steps, i, j, id))
    && (forall j: nat :: Stands(cfg, steps, i, j, id) ==> j < |steps| && g.expiresAt == Run(cfg, steps[..j]).now + cfg.ttl)
  }

  lemma StatusAtOnce(cfg: Config, steps: seq<Step>, id: nat)
    requires steps != [] && RequestedAt(cfg, steps, |steps| - 1, id) && id < |Run(cfg, steps).grants|
    ensures StatusTold(cfg, steps, |steps| - 1, id)
  {
    hide Text.Trim;
    hide Apply;
    hide Stands;
    var m := |steps| - 1;
    assert Run(cfg, steps) == Apply(cfg, Run(cfg, steps[..m]), steps[m]);
    hide Run;
    NewGrantStep(cfg, Run(cfg, steps[..m]), steps[m]);
    StandsAtOnce(cfg, steps, id);
    assert InForceFrom(cfg, steps, m, m, id) ==> Stands(cfg, steps, m, m, id);
    hide Decides;
  }

  lemma {:induction false} ActiveIff(cfg: Config, steps: seq<Step>, i: nat, id: nat)
    requires RequestedAt(cfg, steps, i, id) && id < |Run(cfg, steps).grants|
    ensures StatusTold(cfg, steps, i, id)
    decreases |steps|
  {
    hide Text.Trim;
    hide Apply;
    hide StatusTold;
    var m := |steps| - 1;
    if i == m {
      StatusAtOnce(cfg, steps, id);
    } else {
      assert steps[..m][..i] == steps[..i];
      FieldsAreRequested(cfg, steps[..m], i, id);
      ActiveIff(cfg, steps[..m], i, id);
      StatusStep(cfg, steps, i, id);
    }
  }

  lemma StandsAtOnce(cfg: Config, steps: seq<Step>, id: nat)
    requires steps != [] && steps[|steps| - 1].Request?
    ensures var m := |steps| - 1;
            forall j: nat :: Stands(cfg, steps, m, j, id) <==> j == m && InForceFrom(cfg, steps, m, m, id)
  {
    hide Run;
    hide Stops;
    hide Decides;
  }

  lemma StandsWithin(cfg: Config, steps: seq<Step>, i: nat, j: nat, id: nat)
    requires i < |steps| && steps[i].Request?
    ensures Stands(cfg, steps, i, j, id) ==> j < |steps|
  {
    hide Unstopped;
    hide Decides;
  }

  lemma StopsNow(cfg: Config, steps: seq<Step>, appKey: string, id: nat)
    requires steps != []
    ensures var m := |steps| - 1;
            var st := Run(cfg, steps[..m]);
            Stops(cfg, steps, m, appKey, id) <==>
              match steps[m]
              case Revoke(_, a, k) => a == appKey && k == id
              case SweepUpdate(s) => s < |st.sweeps| && st.sweeps[s] != [] && st.sweeps[s][0] == id
              case _ => false
  {
    hide Run;
  }

  lemma StatusStep(cfg: Config, steps: seq<Step>, i: nat, id: nat)
    requires i < |steps| - 1 && RequestedAt(cfg, steps, i, id) && RequestedAt(cfg, steps[..|steps| - 1], i, id)
    requires id < |Run(cfg, steps).grants| && id < |Run(cfg, steps[..|steps| - 1]).grants|
    requires Run(cfg, steps[..|steps| - 1]).grants[id].appKey == steps[i].appKey
    requires StatusTold(cfg, steps[..|steps| - 1], i, id)
    ensures StatusTold(cfg, steps, i, id)
  {
    hide Text.Trim;
    hide Apply;
    hide Stands;
    hide Stops;
    hide Decides;
    hide Undecided;
    hide InForceFrom;
    assert steps[i].Request?;
    hide RequestedAt;
    var m := |steps| - 1;
    var before, st, step := steps[..m], Run(cfg, steps[..m]), steps[m];
    assert Run(cfg, steps) == Apply(cfg, st, step);
    hide Run;
    RunKeepsInv(cfg, before);
    var g := st.grants[id];
    forall j: nat
      ensures Stands(cfg, steps, i, j, id) <==>
        || (Stands(cfg, before, i, j, id) && !Stops(cfg, steps, m, g.appKey, id))
        || (j == m && InForceFrom(cfg, steps, i, m, id))
      ensures Stands(cfg, before, i, j, id) ==> before[..j] == steps[..j]
    {
      StandsStep(cfg, steps, i, j, id);
      StandsWithin(cfg, before, i, j, id);
    }
    UndecidedStep(steps, i, id);
    InForceNow(cfg, steps, i, id);
    StopsNow(cfg, steps, g.appKey, id);
    if g.status == Requested {
      RequestedStep(cfg, st, step, id);
    } else if g.status == Active {
      ActiveStep(cfg, st, step, id);
    } else {
      StepOfGrant(cfg, st, step, id);
    }
  }

  // The last step puts a grant in force when it is the first decision on it and an approval.
  lemma InForceNow(cfg: Config, steps: seq<Step>, i: nat, id: nat)
    requires i < |steps| - 1 && steps[i].Request?
    ensures var m := |steps| - 1;
            && (InForceFrom(cfg, steps, i, i, id) <==> InForceFrom(cfg, steps[..m], i, i, id))
            && (InForceFrom(cfg, steps, i, m, id) <==>
                  && !InForceFrom(cfg, steps, i, i, id) && Undecided(steps[..m], i, id)
                  && steps[m].Approve? && Decides(steps[m], steps[i].appKey, id))
  {
    hide Decides;
    var m := |steps| - 1;
    assert forall k :: 0 <= k < m ==> steps[..m][k] == steps[k];
  }

  lemma UndecidedStep(steps: seq<Step>, i: nat, id: nat)
    requires i < |steps| - 1 && steps[i].Request?
    ensures var m := |steps| - 1;
            && (Undecided(steps, i, id) <==> Undecided(steps[..m], i, id) && !Decides(steps[m], steps[i].appKey, id))
  {
    hide Decides;
    var m := |steps| - 1;
    assert forall k :: 0 <= k < m ==> steps[..m][k] == steps[k];
  }

  lemma InForceStep(cfg: Config, steps: seq<Step>, i: nat, j: nat, id: nat)
    requires i < |steps| - 1 && steps[i].Request?
    ensures InForceFrom(cfg, steps, i, j, id) ==> j < |steps|
    ensures InForceFrom(cfg, steps[..|steps| - 1], i, j, id) ==> j < |steps| - 1
    ensures j < |steps| - 1 ==>
      (InForceFrom(cfg, steps, i, j, id) <==> InForceFrom(cfg, steps[..|steps| - 1], i, j, id))
  {
    hide Decides;
  }

  lemma StopsStep(cfg: Config, steps: seq<Step>, k: nat, appKey: string, id: nat)
    requires k < |steps| - 1
    ensures Stops(cfg, steps, k, appKey, id) <==> Stops(cfg, steps[..|steps| - 1], k, appKey, id)
  {
    hide Run;
    assert steps[..|steps| - 1][..k] == steps[..k];
  }

  lemma StandsStep(cfg: Config, steps: seq<Step>, i: nat, j: nat, id: nat)
    requires i < |steps| - 1 && steps[i].Request?
    ensures var m := |steps| - 1;
            Stands(cfg, steps, i, j, id) <==>
              || (Stands(cfg, steps[..m], i, j, id) && !Stops(cfg, steps, m, steps[i].appKey, id))
              || (j == m && InForceFrom(cfg, steps, i, m, id))
  {
    hide Run;
    hide Decides;
    hide InForceFrom;
    hide Stops;
    var m := |steps| - 1;
    InForceStep(cfg, steps, i, j, id);
    forall k | 0 <= k < m
      ensures Stops(cfg, steps, k, steps[i].appKey, id) <==> Stops(cfg, steps[..m], k, steps[i].appKey, id)
    {
      StopsStep(cfg, steps, k, steps[i].appKey, id);
    }
  }

  // ----- who approved, and who is on record -----

  // Step j is the first decision on the request, by this actor and no revoke.
  predicate DecidedBy(cfg: Config, steps: seq<Step>, i: nat, j: nat, id: nat, actor: string)
    requires i < |steps| && steps[i].Request?
  {
    && !InForceFrom(cfg, steps, i, i, id) && i < j < |steps|
    && (steps[j].Approve? || steps[j].Deny?) && Decides(steps[j], steps[i].appKey, id) && steps[j].actor == actor
    && forall k :: i < k < j ==> !Decides(steps[k], steps[i].appKey, id)
  }

  lemma ApproverStep(cfg: Config, st: State, step: Step, id: nat)
    requires id < |st.grants|
    ensures var g, st' := st.grants[id], Apply(cfg, st, step);
            && id < |st'.grants|
            && st'.grants[id].approverUserId ==
                 if g.status == Requested && (step.Approve? || step.Deny?) && Decides(step, g.appKey, id) then Some(step.actor)
                 else g.approverUserId
  {
    hide Text.Trim;
  }

  lemma DecidedStep(cfg: Config, steps: seq<Step>, i: nat, id: nat, actor: string)
    requires i < |steps| - 1 && steps[i].Request?
    ensures var m := |steps| - 1;
            (exists j: nat :: DecidedBy(cfg, steps, i, j, id, actor)) <==>
              || (exists j: nat :: DecidedBy(cfg, steps[..m], i, j, id, actor))
              || (!InForceFrom(cfg, steps[..m], i, i, id) && Undecided(steps[..m], i, id)
                  && (steps[m].Approve? || steps[m].Deny?) && Decides(steps[m], steps[i].appKey, id) && steps[m].actor == actor)
  {
    hide Decides;
    var m := |steps| - 1;
    var before := steps[..m];
    assert forall k :: 0 <= k < m ==> before[k] == steps[k];
    forall j: nat | j < m
      ensures DecidedBy(cfg, steps, i, j, id, actor) <==> DecidedBy(cfg, before, i, j, id, actor)
    {
    }
    assert DecidedBy(cfg, steps, i, m, id, actor) <==>
      (!InForceFrom(cfg, before, i, i, id) && Undecided(before, i, id)
       && (steps[m].Approve? || steps[m].Deny?) && Decides(steps[m], steps[i].appKey, id) && steps[m].actor == actor);
    hide DecidedBy;
    hide InForceFrom;
    hide Undecided;
    OnlyWithin(cfg, steps, i, id, actor);
    OnlyWithin(cfg, before, i, id, actor);
  }

  lemma OnlyWithin(cfg: Config, steps: seq<Step>, i: nat, id: nat, actor: string)
    requires i < |steps| && steps[i].Request?
    ensures forall j: nat :: DecidedBy(cfg, steps, i, j, id, actor) ==> j < |steps|
  {
    hide Decides;
  }

  // A grant's approver is whoever took the first decision on its request, approving or denying it, and stays so.
  lemma {:induction false} ApproverTold(cfg: Config, steps: seq<Step>, i: nat, id: nat, actor: string)
    requires RequestedAt(cfg, steps, i, id) && id < |Run(cfg, steps).grants|
    ensures Run(cfg, steps).grants[id].approverUserId == Some(actor) <==> exists j: nat :: DecidedBy(cfg, steps, i, j, id, actor)
    decreases |steps|
  {
    hide Text.Trim;
    hide Apply;
    var m := |steps| - 1;
    if i == m {
      NewApprover(cfg, Run(cfg, steps[..m]), steps[m]);
      NoneDecided(cfg, steps, m, id, actor);
      assert Run(cfg, steps) == Apply(cfg, Run(cfg, steps[..m]), steps[m]);
      hide Run;
      hide DecidedBy;
    } else {
      var before := steps[..m];
      assert before[..i] == steps[..i];
      FieldsAreRequested(cfg, before, i, id);
      ApproverTold(cfg, before, i, id, actor);
      ActiveIff(cfg, before, i, id);
      ApproverStep(cfg, Run(cfg, before), steps[m], id);
      DecidedStep(cfg, steps, i, id, actor);
      assert Run(cfg, steps) == Apply(cfg, Run(cfg, before), steps[m]);
      hide Run;
      hide Decides;
      hide DecidedBy;
      hide InForceFrom;
      hide Undecided;
      hide Stands;
    }
  }

  lemma NewApprover(cfg: Config, st: State, step: Step)
    requires step.Request? && Text.Trim(step.reason) != ""
    ensures var grants := Apply(cfg, st, step).grants;
            && |grants| == |st.grants| + 1
            && grants[|st.grants|].approverUserId.None? && grants[|st.grants|].reason == Text.Trim(step.reason)
  {
    hide Text.Trim;
  }

  lemma NoneDecided(cfg: Config, steps: seq<Step>, last: nat, id: nat, actor: string)
    requires |steps| == last + 1 && steps[last].Request?
    ensures forall j: nat :: !DecidedBy(cfg, steps, last, j, id, actor)
  {
  }

  function ActorOf(step: Step): string
    requires !step.SweepRead? && !step.Tick?
  {
    if step.SweepUpdate? then "system:ops-rollup" else step.actor
  }

  // What a row says the step did.
  predicate Says(row: AuditRow, step: Step) {
    match step
    case Request(_, _, _, _, _) => row.action == if row.after == Active then ActivatedRow else RequestedRow
    case Approve(_, _, _) => row.action == ApprovedRow && row.after == Active
    case Deny(_, _, _) => row.action == DeniedRow && row.after == Denied
    case Revoke(_, _, _) => row.action == RevokedRow && row.after == Revoked
    case SweepUpdate(_) => row.action == ExpiredRow && row.after == Expired
    case _ => false
  }

  // The row fits the step that wrote it and the grant it is about.
  predicate Names(st: State, row: AuditRow, step: Step) {
    && Says(row, step) && row.actorUserId == ActorOf(step)
    && row.target < |st.grants| && row.appKey == st.grants[row.target].appKey
    && row.merchantShop == st.grants[row.target].targetShop
  }

  // Each row names what the step that wrote it did, its actor, and the app and shop of its grant.
  lemma {:induction false} RowsNameTheirSteps(cfg: Config, steps: seq<Step>, k: nat) returns (i: nat)
    requires k < |Run(cfg, steps).audit|
    ensures i < |steps| && |Run(cfg, steps[..i]).audit| == k && Names(Run(cfg, steps), Run(cfg, steps).audit[k], steps[i])
  {
    hide Text.Trim;
    hide Apply;
    hide Names;
    var m := |steps| - 1;
    var before := steps[..m];
    var st := Run(cfg, before);
    assert Run(cfg, steps) == Apply(cfg, st, steps[m]);
    if k < |st.audit| {
      i := RowsNameTheirSteps(cfg, before, k);
      hide Run;
      NamesOn(cfg, st, steps[m], st.audit[k], before[i]);
      RowsStay(cfg, st, steps[m], k);
      assert steps[..i] == before[..i] && steps[i] == before[i];
    } else {
      i := m;
      hide Run;
      RowOfStep(cfg, st, steps[m]);
    }
  }

  lemma NamesOn(cfg: Config, st: State, step: Step, row: AuditRow, writer: Step)
    requires Names(st, row, writer)
    ensures Names(Apply(cfg, st, step), row, writer)
  {
    hide Says;
    FieldsStay(cfg, st, step, row.target);
    hide Apply;
  }

  lemma RowsStay(cfg: Config, st: State, step: Step, k: nat)
    requires k < |st.audit|
    ensures k < |Apply(cfg, st, step).audit| && Apply(cfg, st, step).audit[k] == st.audit[k]
  {
    hide Text.Trim;
  }

  lemma RowOfStep(cfg: Config, st: State, step: Step)
    requires |Apply(cfg, st, step).audit| > |st.audit|
    ensures var st' := Apply(cfg, st, step);
            |st'.audit| == |st.audit| + 1 && Names(st', st'.audit[|st.audit|], step)
  {
    hide Text.Trim;
  }
}

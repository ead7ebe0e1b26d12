// breakGlassService: time-boxed elevated-access grants, their audit rows, and a sweep that can be overtaken.
// Each database transaction is one atomic step. The sweep is its snapshot read followed by one step per grant,
// and any other step may fall between them.
module BreakGlass {
  import opened Options
  import Text

  datatype Scope = PiiReveal | Impersonation

  datatype Status = Requested | Approved | Active | Denied | Revoked | Expired

  datatype Grant = Grant(
    appKey: string, actorUserId: string, scope: Scope, targetShop: Option<string>, reason: string,
    status: Status, approverUserId: Option<string>, expiresAt: int)

  datatype Action = RequestedRow | ActivatedRow | ApprovedRow | DeniedRow | RevokedRow | ExpiredRow

  datatype AuditRow = AuditRow(
    actorUserId: string, appKey: string, merchantShop: Option<string>, action: Action, target: nat,
    before: Option<Status>, after: Status)

  datatype Config = Config(ttl: nat, piiRequiresApproval: bool, impersonationRequiresApproval: bool)

  function ScopeRequiresApproval(cfg: Config, scope: Scope): bool {
    if scope == PiiReveal then cfg.piiRequiresApproval else cfg.impersonationRequiresApproval
  }

  // Grants are never deleted, so a grant's id is its position. A sweep in progress is the ids still to update.
  datatype State = State(now: int, grants: seq<Grant>, audit: seq<AuditRow>, sweeps: seq<seq<nat>>)

  const Initial := State(0, [], [], [])

  datatype Step =
    | Request(actor: string, appKey: string, scope: Scope, targetShop: Option<string>, reason: string)
    | Approve(actor: string, appKey: string, id: nat)
    | Deny(actor: string, appKey: string, id: nat)
    | Revoke(actor: string, appKey: string, id: nat)
    | SweepRead(appKey: string, picked: seq<nat>)
    | SweepUpdate(sweep: nat)
    | Tick(ms: nat)

  datatype Error = NotFound | InvalidState | ReasonRequired

  datatype Result<+T> = Ok(value: T) | Err(error: Error)

  // ----- the transitions -----

  datatype Transition = Transition(from: set<Status>, to: Status, action: Action, approves: bool, renews: bool)

  const APPROVE := Transition({Requested}, Active, ApprovedRow, true, true)
  const DENY := Transition({Requested}, Denied, DeniedRow, true, false)
  const REVOKE := Transition({Requested, Approved, Active}, Revoked, RevokedRow, false, false)

  function CheckTransition(st: State, appKey: string, id: nat, t: Transition): Option<Error> {
    if id >= |st.grants| || st.grants[id].appKey != appKey then Some(NotFound)
    else if st.grants[id].status !in t.from then Some(InvalidState)
    else None
  }

  function Move(cfg: Config, st: State, actor: string, appKey: string, id: nat, t: Transition): State {
    if CheckTransition(st, appKey, id, t).Some? then st
    else
      var g := st.grants[id];
      st.(grants := st.grants[id := g.(
            status := t.to,
            approverUserId := if t.approves then Some(actor) else g.approverUserId,
            expiresAt := if t.renews then st.now + cfg.ttl else g.expiresAt)],
          audit := st.audit + [AuditRow(actor, appKey, g.targetShop, t.action, id, Some(g.status), t.to)])
  }

  predicate Expirable(st: State, appKey: string, id: nat) {
    && id < |st.grants|
    && st.grants[id].appKey == appKey && st.grants[id].status == Active && st.grants[id].expiresAt <= st.now
  }

  const SWEEP_LIMIT := 1000

  // What the unordered, limited snapshot query may return.
  ghost predicate Snapshot(st: State, appKey: string, picked: seq<nat>) {
    && |picked| <= SWEEP_LIMIT
    && (forall i, j :: 0 <= i < j < |picked| ==> picked[i] != picked[j])
    && (forall i :: 0 <= i < |picked| ==> Expirable(st, appKey, picked[i]))
    && (|picked| < SWEEP_LIMIT ==> forall id :: Expirable(st, appKey, id) ==> id in picked)
  }

  const SYSTEM_ACTOR := "system:ops-rollup"

  // The sweep writes its status without looking at the current one.
  function Expire(st: State, id: nat): State
    requires id < |st.grants|
  {
    var g := st.grants[id];
    st.(grants := st.grants[id := g.(status := Expired)],
        audit := st.audit + [AuditRow(SYSTEM_ACTOR, g.appKey, g.targetShop, ExpiredRow, id, Some(Active), Expired)])
  }

  function NewGrant(cfg: Config, st: State, r: Step): Grant
    requires r.Request?
  {
    Grant(r.appKey, r.actor, r.scope, r.targetShop, Text.Trim(r.reason),
          if ScopeRequiresApproval(cfg, r.scope) then Requested else Active, None, st.now + cfg.ttl)
  }

  ghost function Apply(cfg: Config, st: State, step: Step): State {
    match step
    case Tick(ms) => st.(now := st.now + ms)
    case Request(actor, appKey, scope, targetShop, reason) =>
      if Text.Trim(reason) == "" then st
      else
        var g := NewGrant(cfg, st, step);
        st.(grants := st.grants + [g],
            audit := st.audit + [AuditRow(actor, appKey, targetShop,
              if g.status == Requested then RequestedRow else ActivatedRow, |st.grants|, None, g.status)])
    case Approve(actor, appKey, id) => Move(cfg, st, actor, appKey, id, APPROVE)
    case Deny(actor, appKey, id) => Move(cfg, st, actor, appKey, id, DENY)
    case Revoke(actor, appKey, id) => Move(cfg, st, actor, appKey, id, REVOKE)
    case SweepRead(appKey, picked) =>
      if Snapshot(st, appKey, picked) then st.(sweeps := st.sweeps + [picked]) else st
    case SweepUpdate(k) =>
      if k < |st.sweeps| && st.sweeps[k] != [] && st.sweeps[k][0] < |st.grants| then
        Expire(st, st.sweeps[k][0]).(sweeps := st.sweeps[k := st.sweeps[k][1..]])
      else st
  }

  ghost function Run(cfg: Config, steps: seq<Step>): State {
    if steps == [] then Initial
    else Apply(cfg, Run(cfg, steps[..|steps| - 1]), steps[|steps| - 1])
  }

  // The rest of a run, from a state reached so far.
  ghost function Resume(cfg: Config, st: State, steps: seq<Step>): State
    decreases steps
  {
    if steps == [] then st else Resume(cfg, Apply(cfg, st, steps[0]), steps[1..])
  }

  lemma {:induction false} RunThenResume(cfg: Config, steps: seq<Step>, more: seq<Step>)
    ensures Run(cfg, steps + more) == Resume(cfg, Run(cfg, steps), more)
    decreases more
  {
    hide Apply;
    if more == [] {
      assert steps + more == steps;
    } else {
      RunOneMore(cfg, steps, more[0]);
      RunThenResume(cfg, steps + [more[0]], more[1..]);
      assert steps + more == steps + [more[0]] + more[1..];
    }
  }

  lemma RunOneMore(cfg: Config, steps: seq<Step>, step: Step)
    ensures Run(cfg, steps + [step]) == Apply(cfg, Run(cfg, steps), step)
  {
    hide Apply;
    assert (steps + [step])[..|steps|] == steps;
  }

  // ----- the service -----

  class BreakGlassService {
    const cfg: Config
    var now: int
    var grants: seq<Grant>
    var audit: seq<AuditRow>
    var sweeps: seq<seq<nat>>

    function View(): State
      reads this
    {
      State(now, grants, audit, sweeps)
    }

    constructor (cfg: Config)
      ensures this.cfg == cfg && View() == Initial
    {
      this.cfg := cfg;
      now, grants, audit, sweeps := 0, [], [], [];
    }

    method RequestGrant(actor: string, appKey: string, scope: Scope, targetShop: Option<string>, reason: string)
      returns (r: Result<nat>)
      modifies this
      ensures View() == Apply(cfg, old(View()), Request(actor, appKey, scope, targetShop, reason))
      ensures r == if Text.Trim(reason) == "" then Err(ReasonRequired) else Ok(old(|grants|))
    {
      hide Text.Trim;
      var trimmed := Text.Trim(reason);
      if trimmed == "" {
        return Err(ReasonRequired);
      }
      var needsApproval := ScopeRequiresApproval(cfg, scope);
      var status := if needsApproval then Requested else Active;
      var id := |grants|;
      grants := grants + [Grant(appKey, actor, scope, targetShop, trimmed, status, None, now + cfg.ttl)];
      audit := audit + [AuditRow(actor, appKey, targetShop, if needsApproval then RequestedRow else ActivatedRow,
                                 id, None, status)];
      r := Ok(id);
    }

    // approve, deny and revoke.
    method ChangeStatus(actor: string, appKey: string, id: nat, t: Transition) returns (r: Result<Grant>)
      modifies this
      ensures View() == Move(cfg, old(View()), actor, appKey, id, t)
      ensures r == match CheckTransition(old(View()), appKey, id, t)
                   case Some(e) => Err(e)
                   case None => Ok(grants[id])
    {
      if id >= |grants| || grants[id].appKey != appKey {
        return Err(NotFound);
      }
      var g := grants[id];
      if g.status !in t.from {
        return Err(InvalidState);
      }
      var updated := g.(status := t.to);
      if t.approves {
        updated := updated.(approverUserId := Some(actor));
      }
      if t.renews {
        updated := updated.(expiresAt := now + cfg.ttl);
      }
      grants := grants[id := updated];
      audit := audit + [AuditRow(actor, appKey, g.targetShop, t.action, id, Some(g.status), t.to)];
      r := Ok(updated);
    }

    // The enforcement choke point: the covering grant that lives longest, or an error when there is none.
    method RequireActiveGrant(appKey: string, actorUserId: string, scope: Scope, targetShop: Option<string>)
      returns (r: Option<nat>)
      ensures r.None? <==> forall id: nat :: !Covers(View(), appKey, actorUserId, scope, targetShop, id)
      ensures r.Some? ==>
        && Covers(View(), appKey, actorUserId, scope, targetShop, r.value)
        && forall id: nat :: Covers(View(), appKey, actorUserId, scope, targetShop, id)
             ==> grants[id].expiresAt <= grants[r.value].expiresAt
    {
      r := None;
      for i := 0 to |grants|
        invariant r.None? ==> forall id: nat :: id < i ==> !Covers(View(), appKey, actorUserId, scope, targetShop, id)
        invariant r.Some? ==>
          && r.value < i && Covers(View(), appKey, actorUserId, scope, targetShop, r.value)
          && forall id: nat :: id < i && Covers(View(), appKey, actorUserId, scope, targetShop, id)
               ==> grants[id].expiresAt <= grants[r.value].expiresAt
      {
        if Covers(View(), appKey, actorUserId, scope, targetShop, i)
           && (r.None? || grants[i].expiresAt > grants[r.value].expiresAt) {
          r := Some(i);
        }
      }
    }

    // The snapshot of a sweep: at most 1000 matching grants, in whatever order the store returns them.
    method BeginSweep(appKey: string, picked: seq<nat>) returns (sweep: nat)
      requires Snapshot(View(), appKey, picked)
      modifies this
      ensures View() == Apply(cfg, old(View()), SweepRead(appKey, picked))
      ensures sweep == old(|sweeps|)
    {
      sweep := |sweeps|;
      sweeps := sweeps + [picked];
    }

    // One per-grant update of a sweep.
    method ContinueSweep(sweep: nat)
      requires sweep < |sweeps| && sweeps[sweep] != [] && sweeps[sweep][0] < |grants|
      modifies this
      ensures View() == Apply(cfg, old(View()), SweepUpdate(sweep))
    {
      var id := sweeps[sweep][0];
      var g := grants[id];
      grants := grants[id := g.(status := Expired)];
      audit := audit + [AuditRow(SYSTEM_ACTOR, g.appKey, g.targetShop, ExpiredRow, id, Some(Active), Expired)];
      sweeps := sweeps[sweep := sweeps[sweep][1..]];
    }
  }

  // The where clause of the choke point. An absent or empty shop argument adds no shop filter at all.
  predicate Covers(st: State, appKey: string, actorUserId: string, scope: Scope, targetShop: Option<string>, id: nat) {
    && id < |st.grants|
    && var g := st.grants[id];
       && g.appKey == appKey && g.actorUserId == actorUserId && g.scope == scope
       && Usable(st, id)
       && (targetShop.None? || targetShop.value == "" || g.targetShop == targetShop || g.targetShop.None?)
  }

  // A grant that can satisfy the choke point now, for somebody.
  predicate Usable(st: State, id: nat) {
    id < |st.grants| && st.grants[id].status == Active && st.grants[id].expiresAt > st.now
  }

  // ----- the life of a grant -----

  function Rank(s: Status): nat {
    match s
    case Requested => 0
    case Approved => 0
    case Active => 1
    case Denied => 2
    case Revoked => 2
    case Expired => 2
  }

  // What holds of every reachable state: a snapshot id was active when read, so it is active, revoked or expired now.
  ghost predicate Inv(st: State) {
    && (forall id :: 0 <= id < |st.grants| ==> st.grants[id].status != Approved)
    && (forall k, i :: 0 <= k < |st.sweeps| && 0 <= i < |st.sweeps[k]| ==>
          && st.sweeps[k][i] < |st.grants|
          && st.grants[st.sweeps[k][i]].status in {Active, Revoked, Expired})
  }

  lemma StepKeepsInv(cfg: Config, st: State, step: Step)
    requires Inv(st)
    ensures Inv(Apply(cfg, st, step))
  {
    hide Text.Trim;
  }

  lemma {:induction false} RunKeepsInv(cfg: Config, steps: seq<Step>)
    ensures Inv(Run(cfg, steps))
  {
    if steps != [] {
      RunKeepsInv(cfg, steps[..|steps| - 1]);
      StepKeepsInv(cfg, Run(cfg, steps[..|steps| - 1]), steps[|steps| - 1]);
    }
  }

  // One step of one grant: no status ever falls in rank, activation comes only from REQUESTED and sets the
  // expiry to now plus the ttl, and the expiry is otherwise untouched.
  lemma StepOfGrant(cfg: Config, st: State, step: Step, id: nat)
    requires Inv(st) && id < |st.grants|
    ensures var st' := Apply(cfg, st, step);
            && id < |st'.grants| && st.now <= st'.now
            && var g, g' := st.grants[id], st'.grants[id];
               && Rank(g.status) <= Rank(g'.status)
               && (g'.status == Active ==> if g.status == Active then g'.expiresAt == g.expiresAt
                                           else g'.expiresAt == st.now + cfg.ttl && st'.now == st.now)
  {
    hide Text.Trim;
  }

  // A grant that this step creates.
  lemma StepOfNewGrant(cfg: Config, st: State, step: Step, id: nat)
    requires |st.grants| <= id < |Apply(cfg, st, step).grants|
    ensures var st' := Apply(cfg, st, step);
            st'.now == st.now && st'.grants[id].expiresAt == st.now + cfg.ttl
  {
    hide Text.Trim;
  }

  // The instant a grant first became active in a run.
  ghost function ActivatedAt(cfg: Config, steps: seq<Step>, id: nat): Option<int> {
    if steps == [] then None
    else
      var before := ActivatedAt(cfg, steps[..|steps| - 1], id);
      var st := Run(cfg, steps);
      if before.None? && id < |st.grants| && st.grants[id].status == Active then Some(st.now) else before
  }

  lemma {:induction false} ActiveGrantExpiresTtlAfterActivation(cfg: Config, steps: seq<Step>, id: nat)
    requires id < |Run(cfg, steps).grants|
    ensures var st := Run(cfg, steps);
            var act := ActivatedAt(cfg, steps, id);
            && (st.grants[id].status == Active ==>
                  act.Some? && act.value <= st.now && st.grants[id].expiresAt == act.value + cfg.ttl)
            && (st.grants[id].status == Requested ==> act.None?)
  {
    hide Apply;
    var before, step := steps[..|steps| - 1], steps[|steps| - 1];
    var st := Run(cfg, before);
    RunKeepsInv(cfg, before);
    if id < |st.grants| {
      ActiveGrantExpiresTtlAfterActivation(cfg, before, id);
      StepOfGrant(cfg, st, step, id);
    } else {
      NotYetThere(cfg, before, id);
      StepOfNewGrant(cfg, st, step, id);
    }
  }

  lemma {:induction false} NotYetThere(cfg: Config, steps: seq<Step>, id: nat)
    requires id >= |Run(cfg, steps).grants|
    ensures ActivatedAt(cfg, steps, id).None?
  {
    if steps != [] {
      var st := Run(cfg, steps[..|steps| - 1]);
      RunKeepsInv(cfg, steps[..|steps| - 1]);
      if id < |st.grants| {
        StepOfGrant(cfg, st, steps[|steps| - 1], id);
      }
      NotYetThere(cfg, steps[..|steps| - 1], id);
    }
  }

  // Later states of the same run.
  lemma {:induction false} Onward(cfg: Config, st: State, more: seq<Step>, id: nat)
    requires Inv(st) && id < |st.grants|
    ensures var st' := Resume(cfg, st, more);
            && Inv(st') && id < |st'.grants| && st.now <= st'.now
            && Rank(st.grants[id].status) <= Rank(st'.grants[id].status)
            && (st.grants[id].status == Active && st'.grants[id].status == Active ==>
                  st.grants[id].expiresAt == st'.grants[id].expiresAt)
    decreases more
  {
    if more != [] {
      StepKeepsInv(cfg, st, more[0]);
      StepOfGrant(cfg, st, more[0], id);
      Onward(cfg, Apply(cfg, st, more[0]), more[1..], id);
    }
  }

  // Usable before and usable after means usable in between, whatever else happened: one unbroken interval.
  lemma UsableIsAnInterval(cfg: Config, a: seq<Step>, b: seq<Step>, c: seq<Step>, id: nat)
    requires Usable(Run(cfg, a), id) && Usable(Run(cfg, a + b + c), id)
    ensures Usable(Run(cfg, a + b), id)
  {
    RunThenResume(cfg, a, b);
    RunThenResume(cfg, a + b, c);
    RunKeepsInv(cfg, a);
    Onward(cfg, Run(cfg, a), b, id);
    Onward(cfg, Run(cfg, a + b), c, id);
  }

  // The interval starts at the activation and is shorter than the ttl.
  lemma UsableWithinTtl(cfg: Config, steps: seq<Step>, id: nat)
    requires Usable(Run(cfg, steps), id)
    ensures var act := ActivatedAt(cfg, steps, id);
            act.Some? && act.value <= Run(cfg, steps).now < act.value + cfg.ttl
  {
    ActiveGrantExpiresTtlAfterActivation(cfg, steps, id);
  }

  // The activation instant, once set, is never set again.
  lemma {:induction false} ActivatedOnce(cfg: Config, steps: seq<Step>, more: seq<Step>, id: nat)
    requires ActivatedAt(cfg, steps, id).Some?
    ensures ActivatedAt(cfg, steps + more, id) == ActivatedAt(cfg, steps, id)
  {
    if more == [] {
      assert steps + more == steps;
    } else {
      ActivatedOnce(cfg, steps, more[..|more| - 1], id);
      assert (steps + more)[..|steps + more| - 1] == steps + more[..|more| - 1];
    }
  }

  // A denied, revoked or expired grant authorizes nothing ever again.
  lemma ClosedForGood(cfg: Config, steps: seq<Step>, more: seq<Step>, id: nat)
    requires id < |Run(cfg, steps).grants| && Run(cfg, steps).grants[id].status in {Denied, Revoked, Expired}
    ensures !Usable(Run(cfg, steps + more), id)
  {
    RunThenResume(cfg, steps, more);
    RunKeepsInv(cfg, steps);
    Onward(cfg, Run(cfg, steps), more, id);
  }

  // ----- the audit trail -----

  // The status of every grant, rebuilt from the audit rows alone.
  ghost function Replay(rows: seq<AuditRow>): map<nat, Status> {
    if rows == [] then map[]
    else Replay(rows[..|rows| - 1])[rows[|rows| - 1].target := rows[|rows| - 1].after]
  }

  ghost function Replaced(rows: seq<AuditRow>, id: nat): Option<Status> {
    if id in Replay(rows) then Some(Replay(rows)[id]) else None
  }

  ghost predicate AuditMatches(st: State) {
    forall id :: if 0 <= id < |st.grants| then id in Replay(st.audit) && Replay(st.audit)[id] == st.grants[id].status
                 else id !in Replay(st.audit)
  }

  lemma ReplayAppend(rows: seq<AuditRow>, row: AuditRow)
    ensures Replay(rows + [row]) == Replay(rows)[row.target := row.after]
  {
    assert (rows + [row])[..|rows|] == rows;
  }

  // A row says the truth about the status it replaced, or it is a sweep row that came too late.
  ghost predicate RowFair(rows: seq<AuditRow>, row: AuditRow) {
    var was := Replaced(rows, row.target);
    var late := row.action == ExpiredRow && was in {Some(Revoked), Some(Expired)};
    if late then row.before == Some(Active) else row.before == was
  }

  ghost predicate AuditFair(rows: seq<AuditRow>) {
    forall k {:trigger rows[k]} :: 0 <= k < |rows| ==> RowFair(rows[..k], rows[k])
  }

  lemma FairAppend(rows: seq<AuditRow>, row: AuditRow)
    requires AuditFair(rows) && RowFair(rows, row)
    ensures AuditFair(rows + [row])
  {
    var longer := rows + [row];
    forall k | 0 <= k < |longer|
      ensures RowFair(longer[..k], longer[k])
    {
      assert longer[..k] == rows[..k];
      if k == |rows| {
        assert rows[..k] == rows;
      }
    }
  }

  // One more row, and the status it announces.
  lemma RowKeepsAudit(st: State, st': State, row: AuditRow)
    requires AuditMatches(st) && AuditFair(st.audit) && RowFair(st.audit, row)
    requires st'.audit == st.audit + [row] && row.target <= |st.grants|
    requires |st'.grants| == if row.target == |st.grants| then |st.grants| + 1 else |st.grants|
    requires st'.grants[row.target].status == row.after
    requires forall id :: 0 <= id < |st.grants| && id != row.target ==> st'.grants[id].status == st.grants[id].status
    ensures AuditMatches(st') && AuditFair(st'.audit)
  {
    ReplayAppend(st.audit, row);
    FairAppend(st.audit, row);
  }

  lemma StepKeepsAudit(cfg: Config, st: State, step: Step)
    requires Inv(st) && AuditMatches(st) && AuditFair(st.audit)
    ensures AuditMatches(Apply(cfg, st, step)) && AuditFair(Apply(cfg, st, step).audit)
  {
    hide Text.Trim;
    var st' := Apply(cfg, st, step);
    if st'.audit != st.audit {
      var row := st'.audit[|st.audit|];
      assert st'.audit == st.audit + [row];
      assert row.target < |st.grants| ==> Replaced(st.audit, row.target) == Some(st.grants[row.target].status);
      assert row.target == |st.grants| ==> Replaced(st.audit, row.target) == None;
      RowKeepsAudit(st, st', row);
    }
  }

  lemma {:induction false} RunKeepsAudit(cfg: Config, steps: seq<Step>)
    ensures AuditMatches(Run(cfg, steps)) && AuditFair(Run(cfg, steps).audit)
  {
    if steps != [] {
      RunKeepsInv(cfg, steps[..|steps| - 1]);
      RunKeepsAudit(cfg, steps[..|steps| - 1]);
      StepKeepsAudit(cfg, Run(cfg, steps[..|steps| - 1]), steps[|steps| - 1]);
    }
  }

  // Replaying the rows in commit order rebuilds every grant's current status, in every interleaving.
  lemma AuditRebuildsStatuses(cfg: Config, steps: seq<Step>)
    ensures forall id :: id in Replay(Run(cfg, steps).audit) <==> 0 <= id < |Run(cfg, steps).grants|
    ensures forall id :: 0 <= id < |Run(cfg, steps).grants| ==>
      Replay(Run(cfg, steps).audit)[id] == Run(cfg, steps).grants[id].status
  {
    RunKeepsAudit(cfg, steps);
  }

  // A row's `before` is the status it replaced exactly when it is not a sweep row overtaken by a revoke or by
  // another sweep.
  lemma BeforeIsTrueUnlessOvertaken(cfg: Config, steps: seq<Step>, k: nat)
    requires k < |Run(cfg, steps).audit|
    ensures var rows := Run(cfg, steps).audit;
            var was := Replaced(rows[..k], rows[k].target);
            rows[k].before == was <==> !(rows[k].action == ExpiredRow && was in {Some(Revoked), Some(Expired)})
  {
    RunKeepsAudit(cfg, steps);
    var rows := Run(cfg, steps).audit;
    assert RowFair(rows[..k], rows[k]);
  }

  // ----- overtaken sweeps -----

  // A step that ends an active grant: a revoke that goes through, or the update of a sweep that comes to it.
  ghost predicate Ends(st: State, step: Step, id: nat) {
    match step
    case Revoke(_, appKey, g) => g == id && CheckTransition(st, appKey, id, REVOKE).None?
    case SweepUpdate(k) => k < |st.sweeps| && st.sweeps[k] != [] && st.sweeps[k][0] == id && id < |st.grants|
    case _ => false
  }

  ghost predicate EndedIn(cfg: Config, st: State, steps: seq<Step>, id: nat)
    decreases steps
  {
    steps != [] && (Ends(st, steps[0], id) || EndedIn(cfg, Apply(cfg, st, steps[0]), steps[1..], id))
  }

  lemma ActiveStep(cfg: Config, st: State, step: Step, id: nat)
    requires id < |st.grants| && st.grants[id].status == Active
    ensures var st' := Apply(cfg, st, step);
            id < |st'.grants| && (st'.grants[id].status == Active <==> !Ends(st, step, id))
  {
    hide Text.Trim;
  }

  // An active grant stays active exactly until such a step.
  lemma {:induction false} ActiveUntilEnded(cfg: Config, st: State, steps: seq<Step>, id: nat)
    requires Inv(st) && id < |st.grants| && st.grants[id].status == Active
    ensures var st' := Resume(cfg, st, steps);
            id < |st'.grants| && (st'.grants[id].status == Active <==> !EndedIn(cfg, st, steps, id))
    decreases steps
  {
    hide Apply;
    hide Ends;
    hide Inv;
    if steps != [] {
      var next := Apply(cfg, st, steps[0]);
      ActiveStep(cfg, st, steps[0], id);
      StepKeepsInv(cfg, st, steps[0]);
      if Ends(st, steps[0], id) {
        StepOfGrant(cfg, st, steps[0], id);
        EndedAfterEnds(st, next, steps[0], id);
        Onward(cfg, next, steps[1..], id);
      } else {
        ActiveUntilEnded(cfg, next, steps[1..], id);
      }
    }
  }

  lemma EndedAfterEnds(st: State, next: State, step: Step, id: nat)
    requires id < |st.grants| && id < |next.grants| && st.grants[id].status == Active
    requires next.grants[id].status != Active && Rank(st.grants[id].status) <= Rank(next.grants[id].status)
    ensures Rank(next.grants[id].status) == 2
  {
  }

  lemma SweepRowOf(cfg: Config, st: State, sweep: nat, id: nat)
    requires sweep < |st.sweeps| && st.sweeps[sweep] != [] && st.sweeps[sweep][0] == id && id < |st.grants|
    ensures var g := st.grants[id];
            Apply(cfg, st, SweepUpdate(sweep)).audit
            == st.audit + [AuditRow(SYSTEM_ACTOR, g.appKey, g.targetShop, ExpiredRow, id, Some(Active), Expired)]
  {
  }

  // A sweep's row for a grant is false exactly when a revoke of the grant, or another sweep's update of it, took
  // effect between this sweep's snapshot and its update.
  lemma SweepRowFalseIff(
      cfg: Config, steps: seq<Step>, appKey: string, picked: seq<nat>, between: seq<Step>, id: nat)
    requires Snapshot(Run(cfg, steps), appKey, picked) && id in picked
    requires var st := Run(cfg, steps + [SweepRead(appKey, picked)] + between);
             var k := |Run(cfg, steps).sweeps|;
             k < |st.sweeps| && st.sweeps[k] != [] && st.sweeps[k][0] == id && id < |st.grants|
    ensures var taken := Run(cfg, steps + [SweepRead(appKey, picked)]);
            var st := Run(cfg, steps + [SweepRead(appKey, picked)] + between);
            var rows := Apply(cfg, st, SweepUpdate(|Run(cfg, steps).sweeps|)).audit;
            && |rows| == |st.audit| + 1 && rows[..|st.audit|] == st.audit && rows[|st.audit|].target == id
            && (rows[|st.audit|].before != Replaced(st.audit, id) <==> EndedIn(cfg, taken, between, id))
  {
    var first := steps + [SweepRead(appKey, picked)];
    var before, taken, st := Run(cfg, steps), Run(cfg, first), Run(cfg, first + between);
    RunOneMore(cfg, steps, SweepRead(appKey, picked));
    SnapshotIsActive(cfg, before, appKey, picked, id);
    RunKeepsInv(cfg, first);
    RunKeepsAudit(cfg, first + between);
    RunThenResume(cfg, first, between);
    SweepRowOf(cfg, st, |before.sweeps|, id);
    hide Apply;
    hide Run;
    hide Snapshot;
    hide Inv;
    hide Resume;
    hide EndedIn;
    ActiveUntilEnded(cfg, taken, between, id);
    assert Replaced(st.audit, id) == Some(st.grants[id].status);
  }

  lemma SnapshotIsActive(cfg: Config, st: State, appKey: string, picked: seq<nat>, id: nat)
    requires Snapshot(st, appKey, picked) && id in picked
    ensures var taken := Apply(cfg, st, SweepRead(appKey, picked));
            id < |taken.grants| && taken.grants[id].status == Active
  {
    hide Text.Trim;
    var i :| 0 <= i < |picked| && picked[i] == id;
    assert Expirable(st, appKey, picked[i]);
  }

  const AUTO := Config(10, false, false)
  const GRANT := Grant("a", "u", PiiReveal, None, "r", Active, None, 10)
  const MADE := AuditRow("u", "a", None, ActivatedRow, 0, None, Active)
  const TAKEN := AuditRow("u", "a", None, RevokedRow, 0, Some(Active), Revoked)
  const LATE := AuditRow(SYSTEM_ACTOR, "a", None, ExpiredRow, 0, Some(Active), Expired)

  lemma FirstStep()
    ensures Apply(AUTO, Initial, Request("u", "a", PiiReveal, None, "r")) == State(0, [GRANT], [MADE], [])
  {
    assert Text.Trim("r") == "r";
  }

  lemma SweepStep()
    ensures Apply(AUTO, State(10, [GRANT], [MADE], []), SweepRead("a", [0])) == State(10, [GRANT], [MADE], [[0]])
  {
    hide Text.Trim;
    assert Snapshot(State(10, [GRANT], [MADE], []), "a", [0]);
  }

  lemma LateSteps()
    ensures Apply(AUTO, State(0, [GRANT], [MADE], []), Tick(10)) == State(10, [GRANT], [MADE], [])
    ensures Apply(AUTO, State(10, [GRANT], [MADE], [[0]]), Revoke("u", "a", 0))
         == State(10, [GRANT.(status := Revoked)], [MADE, TAKEN], [[0]])
    ensures Apply(AUTO, State(10, [GRANT.(status := Revoked)], [MADE, TAKEN], [[0]]), SweepUpdate(0))
         == State(10, [GRANT.(status := Expired)], [MADE, TAKEN, LATE], [[]])
  {
    hide Text.Trim;
    var was := State(10, [GRANT.(status := Revoked)], [MADE, TAKEN], [[0]]);
    assert was.sweeps[0][1..] == [];
    assert was.sweeps[0 := was.sweeps[0][1..]] == [[]];
  }

  // A run in which a revoke falls between a sweep's snapshot and its update: the sweep rewrites REVOKED as
  // EXPIRED, and its row claims the grant was still ACTIVE.
  lemma RevokeOvertaken() returns (steps: seq<Step>, k: nat)
    ensures var rows := Run(AUTO, steps).audit;
            k < |rows| && rows[k].before == Some(Active) && Replaced(rows[..k], rows[k].target) == Some(Revoked)
  {
    var s1 := Request("u", "a", PiiReveal, None, "r");
    hide Apply;
    FirstStep();
    SweepStep();
    LateSteps();
    RunOneMore(AUTO, [], s1);
    RunOneMore(AUTO, [] + [s1], Tick(10));
    RunOneMore(AUTO, [] + [s1] + [Tick(10)], SweepRead("a", [0]));
    RunOneMore(AUTO, [] + [s1] + [Tick(10)] + [SweepRead("a", [0])], Revoke("u", "a", 0));
    RunOneMore(AUTO, [] + [s1] + [Tick(10)] + [SweepRead("a", [0])] + [Revoke("u", "a", 0)], SweepUpdate(0));
    steps, k := [] + [s1] + [Tick(10)] + [SweepRead("a", [0])] + [Revoke("u", "a", 0)] + [SweepUpdate(0)], 2;
    var rows := Run(AUTO, steps).audit;
    assert rows == [MADE, TAKEN, LATE];
    ReplayAppend([MADE], TAKEN);
    assert [MADE] + [TAKEN] == rows[..2];
  }

  // No other step falls between a sweep's snapshot and its last update.
  ghost predicate UninterruptedSweeps(cfg: Config, steps: seq<Step>) {
    forall k {:trigger steps[k]} :: 0 <= k < |steps| ==> steps[k].SweepUpdate? || Idle(Run(cfg, steps[..k]))
  }

  ghost predicate Idle(st: State) {
    forall i :: 0 <= i < |st.sweeps| ==> st.sweeps[i] == []
  }

  // At most one sweep is under way, and the ids it still has to update are distinct and active.
  ghost predicate Undisturbed(st: State) {
    && (forall i, j :: 0 <= i < |st.sweeps| && 0 <= j < |st.sweeps| && st.sweeps[i] != [] && st.sweeps[j] != [] ==> i == j)
    && (forall i, k :: 0 <= i < |st.sweeps| && 0 <= k < |st.sweeps[i]| ==>
          st.sweeps[i][k] < |st.grants| && st.grants[st.sweeps[i][k]].status == Active)
    && (forall i, k, l :: 0 <= i < |st.sweeps| && 0 <= k < l < |st.sweeps[i]| ==> st.sweeps[i][k] != st.sweeps[i][l])
  }

  ghost predicate AuditExact(rows: seq<AuditRow>) {
    forall k {:trigger rows[k]} :: 0 <= k < |rows| ==> rows[k].before == Replaced(rows[..k], rows[k].target)
  }

  lemma UndisturbedStep(cfg: Config, st: State, step: Step)
    requires Undisturbed(st) && (step.SweepUpdate? || Idle(st))
    ensures Undisturbed(Apply(cfg, st, step))
  {
    hide Text.Trim;
    var st' := Apply(cfg, st, step);
    if step.SweepUpdate? && st' != st {
      assert forall k :: 0 <= k < |st'.sweeps[step.sweep]| ==> st'.sweeps[step.sweep][k] == st.sweeps[step.sweep][k + 1];
    }
  }

  lemma ExactAppend(rows: seq<AuditRow>, row: AuditRow)
    requires AuditExact(rows) && row.before == Replaced(rows, row.target)
    ensures AuditExact(rows + [row])
  {
    var longer := rows + [row];
    forall k | 0 <= k < |longer|
      ensures longer[k].before == Replaced(longer[..k], longer[k].target)
    {
      assert longer[..k] == rows[..k];
      if k == |rows| {
        assert rows[..k] == rows;
      }
    }
  }

  lemma ExactStep(cfg: Config, st: State, step: Step)
    requires AuditMatches(st) && Undisturbed(st) && AuditExact(st.audit)
    ensures AuditExact(Apply(cfg, st, step).audit)
  {
    hide Text.Trim;
    var st' := Apply(cfg, st, step);
    if st'.audit != st.audit {
      var row := st'.audit[|st.audit|];
      assert st'.audit == st.audit + [row];
      assert row.target < |st.grants| ==> Replaced(st.audit, row.target) == Some(st.grants[row.target].status);
      assert row.target == |st.grants| ==> Replaced(st.audit, row.target) == None;
      ExactAppend(st.audit, row);
    }
  }

  // So when sweeps run uninterrupted, every row of the trail tells the truth.
  lemma {:induction false} UninterruptedIsExact(cfg: Config, steps: seq<Step>)
    requires UninterruptedSweeps(cfg, steps)
    ensures Undisturbed(Run(cfg, steps)) && AuditExact(Run(cfg, steps).audit)
  {
    if steps != [] {
      var before, step := steps[..|steps| - 1], steps[|steps| - 1];
      assert steps == before + [step];
      forall k | 0 <= k < |before|
        ensures before[k].SweepUpdate? || Idle(Run(cfg, before[..k]))
      {
        assert before[..k] == steps[..k] && before[k] == steps[k];
      }
      UninterruptedIsExact(cfg, before);
      RunKeepsAudit(cfg, before);
      UndisturbedStep(cfg, Run(cfg, before), step);
      ExactStep(cfg, Run(cfg, before), step);
    }
  }

  // An id of a sweep is still waiting in it or no longer active.
  ghost predicate Waiting(st: State, k: nat, id: nat) {
    && k < |st.sweeps| && id < |st.grants| && Rank(st.grants[id].status) >= 1
    && (id in st.sweeps[k] || st.grants[id].status != Active)
  }

  lemma WaitingStep(cfg: Config, st: State, step: Step, k: nat, id: nat)
    requires Inv(st) && Waiting(st, k, id)
    ensures Waiting(Apply(cfg, st, step), k, id)
  {
    hide Text.Trim;
    StepOfGrant(cfg, st, step, id);
    if step.SweepUpdate? && step.sweep == k && st.sweeps[k] != [] {
      assert st.sweeps[k] == [st.sweeps[k][0]] + st.sweeps[k][1..];
    }
  }

  lemma {:induction false} StaysWaiting(cfg: Config, st: State, more: seq<Step>, k: nat, id: nat)
    requires Inv(st) && Waiting(st, k, id)
    ensures Waiting(Resume(cfg, st, more), k, id)
    decreases more
  {
    if more != [] {
      StepKeepsInv(cfg, st, more[0]);
      WaitingStep(cfg, st, more[0], k, id);
      StaysWaiting(cfg, Apply(cfg, st, more[0]), more[1..], k, id);
    }
  }

  lemma SnapshotTaken(cfg: Config, st: State, appKey: string, picked: seq<nat>, id: nat)
    requires Snapshot(st, appKey, picked) && |picked| < SWEEP_LIMIT && Expirable(st, appKey, id)
    ensures Waiting(Apply(cfg, st, SweepRead(appKey, picked)), |st.sweeps|, id)
  {
    hide Text.Trim;
  }

  // A finished sweep that was not cut off at the limit leaves no grant active that had expired at its snapshot.
  lemma FinishedSweepCatchesAll(cfg: Config, steps: seq<Step>, appKey: string, picked: seq<nat>, more: seq<Step>, id: nat)
    requires Snapshot(Run(cfg, steps), appKey, picked) && |picked| < SWEEP_LIMIT
    requires Expirable(Run(cfg, steps), appKey, id)
    requires var st := Run(cfg, steps + [SweepRead(appKey, picked)] + more);
             var k := |Run(cfg, steps).sweeps|;
             k < |st.sweeps| && st.sweeps[k] == []
    ensures var st := Run(cfg, steps + [SweepRead(appKey, picked)] + more);
            id < |st.grants| && st.grants[id].status != Active
  {
    hide Apply;
    var st := Run(cfg, steps);
    RunOneMore(cfg, steps, SweepRead(appKey, picked));
    SnapshotTaken(cfg, st, appKey, picked, id);
    RunKeepsInv(cfg, steps + [SweepRead(appKey, picked)]);
    RunThenResume(cfg, steps + [SweepRead(appKey, picked)], more);
    StaysWaiting(cfg, Run(cfg, steps + [SweepRead(appKey, picked)]), more, |Run(cfg, steps).sweeps|, id);
  }
}

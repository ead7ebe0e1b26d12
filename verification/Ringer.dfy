// chatAudio: the call ringer. Its module variables, one record per call of startCallRinger, and its timers.
module Ringer {
  import opened Options

  // What a caller's onStop does when it is called: nothing to the ringer, or start another one.
  datatype OnStop =
    | Quiet
    | Restarts(durationMs: int, audio: bool, next: OnStop)

  datatype Timer = Burst(delay: int) | End(delay: int)

  // One call of startCallRinger. `timers` are those still pending, in the order they fire.
  datatype Call = Call(
    durationMs: int, audio: bool, onStop: OnStop, isStopped: bool, timers: seq<Timer>, played: nat, stops: nat)

  datatype State = State(soundEnabled: bool, active: Option<nat>, calls: seq<Call>)

  const CADENCE := 3000
  const DEFAULT_DURATION := 30000

  // ceil(durationMs / CADENCE), never negative.
  function Rings(durationMs: int): nat {
    if durationMs <= 0 then 0 else (durationMs + CADENCE - 1) / CADENCE
  }

  function BurstTimers(durationMs: int, n: nat): (r: seq<Timer>)
    ensures |r| <= n
  {
    if n == 0 then []
    else
      BurstTimers(durationMs, n - 1)
      + if (n - 1) * CADENCE < durationMs then [Burst((n - 1) * CADENCE)] else []
  }

  // Without an audio context only the final timer is set.
  function Schedule(durationMs: int, audio: bool): seq<Timer> {
    (if audio then BurstTimers(durationMs, Rings(durationMs)) else []) + [End(durationMs)]
  }

  // The bursts of a ringer are every multiple of the cadence below its duration, in order.
  lemma {:induction false} BurstsAre(durationMs: int, n: nat)
    requires n <= Rings(durationMs)
    ensures BurstTimers(durationMs, n) == seq(n, (i: nat) => Burst(i * 3000))
    ensures forall i: nat :: i * 3000 < durationMs <==> i < Rings(durationMs)
  {
    if n > 0 {
      BurstsAre(durationMs, n - 1);
    }
  }

  // ----- the steps -----

  function Size(onStop: OnStop): nat {
    match onStop
    case Quiet => 1
    case Restarts(_, _, next) => 1 + Size(next)
  }

  // What the callbacks of the live ringers can still do.
  function Load(calls: seq<Call>): nat {
    if calls == [] then 0
    else Load(calls[..|calls| - 1]) + Weight(calls[|calls| - 1])
  }

  function Weight(c: Call): nat {
    if c.isStopped then 0 else Size(c.onStop)
  }

  lemma LoadAppend(calls: seq<Call>, c: Call)
    ensures Load(calls + [c]) == Load(calls) + Weight(c)
  {
    assert (calls + [c])[..|calls|] == calls;
  }

  lemma {:induction false} LoadUpdate(calls: seq<Call>, id: nat, c: Call)
    requires id < |calls|
    ensures Load(calls[id := c]) == Load(calls) - Weight(calls[id]) + Weight(c)
  {
    var n := |calls| - 1;
    if id == n {
      assert calls[id := c][..n] == calls[..n];
    } else {
      assert calls[id := c][..n] == calls[..n][id := c];
      LoadUpdate(calls[..n], id, c);
    }
  }

  function Ended(c: Call): Call {
    c.(isStopped := true, timers := [], stops := c.stops + 1)
  }

  function Started(durationMs: int, audio: bool, onStop: OnStop): Call {
    Call(durationMs, audio, onStop, false, Schedule(durationMs, audio), 0, 0)
  }

  // A call made while the sound is off: it never rings, and its handle does nothing.
  function Muted(durationMs: int, audio: bool, onStop: OnStop): Call {
    Call(durationMs, audio, onStop, true, [], 0, 1)
  }

  // ----- what every state keeps -----

  // A live ringer has rung a first part of its schedule and waits for the rest, the final timer last; an ended one
  // waits for nothing and called its onStop once.
  ghost predicate CallOk(c: Call) {
    var schedule := Schedule(c.durationMs, c.audio);
    && c.played < |schedule|
    && c.timers == (if c.isStopped then [] else schedule[c.played..])
    && c.stops == (if c.isStopped then 1 else 0)
  }

  ghost predicate Valid(st: State) {
    && (st.active.Some? ==> st.active.value < |st.calls| && !st.calls[st.active.value].isStopped)
    && forall id :: 0 <= id < |st.calls| ==> CallOk(st.calls[id])
  }

  // Calls are only added, and a call only changes by ending.
  ghost predicate Settles(before: seq<Call>, after: seq<Call>) {
    && |before| <= |after|
    && forall id :: 0 <= id < |before| ==>
         after[id] == before[id] || (!before[id].isStopped && after[id] == Ended(before[id]))
  }

  lemma SettlesOn(a: seq<Call>, b: seq<Call>, c: seq<Call>)
    requires Settles(a, b) && Settles(b, c)
    ensures Settles(a, c)
  {
    forall id | 0 <= id < |a|
      ensures c[id] == a[id] || (!a[id].isStopped && c[id] == Ended(a[id]))
    {
      assert b[id] == a[id] || b[id] == Ended(a[id]);
    }
  }

  lemma EndedOk(c: Call)
    requires CallOk(c) && !c.isStopped
    ensures CallOk(Ended(c)) && Weight(Ended(c)) == 0 && Weight(c) == Size(c.onStop)
  {
  }

  lemma NewOk(durationMs: int, audio: bool, onStop: OnStop)
    ensures CallOk(Started(durationMs, audio, onStop)) && Weight(Started(durationMs, audio, onStop)) == Size(onStop)
    ensures CallOk(Muted(durationMs, audio, onStop)) && Weight(Muted(durationMs, audio, onStop)) == 0
  {
  }

  function WithEnded(st: State, id: nat): State
    requires id < |st.calls|
  {
    State(st.soundEnabled, if st.active == Some(id) then None else st.active, st.calls[id := Ended(st.calls[id])])
  }

  lemma EndingIsValid(st: State, id: nat)
    requires Valid(st) && id < |st.calls| && !st.calls[id].isStopped
    ensures Valid(WithEnded(st, id))
  {
    EndedOk(st.calls[id]);
    hide CallOk;
  }

  lemma EndingSettles(st: State, id: nat)
    requires id < |st.calls| && !st.calls[id].isStopped
    ensures Settles(st.calls, WithEnded(st, id).calls)
  {
    hide Ended;
  }

  lemma EndingKeeps(st: State, id: nat)
    requires Valid(st) && id < |st.calls| && !st.calls[id].isStopped
    ensures var r := WithEnded(st, id);
            Valid(r) && Settles(st.calls, r.calls) && Load(r.calls) == Load(st.calls) - Size(st.calls[id].onStop)
  {
    EndingIsValid(st, id);
    EndingSettles(st, id);
    LoadUpdate(st.calls, id, Ended(st.calls[id]));
    hide Valid;
    hide Settles;
    hide Load;
    hide Size;
  }

  function WithNew(st: State, durationMs: int, audio: bool, onStop: OnStop): State {
    if st.soundEnabled then
      State(true, Some(|st.calls|), st.calls + [Started(durationMs, audio, onStop)])
    else
      State(false, st.active, st.calls + [Muted(durationMs, audio, onStop)])
  }

  lemma AddingKeeps(st: State, durationMs: int, audio: bool, onStop: OnStop)
    requires Valid(st)
    ensures var r := WithNew(st, durationMs, audio, onStop);
            && Valid(r) && Settles(st.calls, r.calls)
            && Load(r.calls) == Load(st.calls) + if st.soundEnabled then Size(onStop) else 0
  {
    NewOk(durationMs, audio, onStop);
    LoadAppend(st.calls, Started(durationMs, audio, onStop));
    LoadAppend(st.calls, Muted(durationMs, audio, onStop));
    hide CallOk;
    hide Load;
  }

  // cleanup
  function Cleanup(st: State, id: nat): (r: State)
    requires Valid(st) && id < |st.calls|
    ensures Valid(r) && Settles(st.calls, r.calls) && Load(r.calls) <= Load(st.calls)
    ensures r.calls[id].isStopped && r.soundEnabled == st.soundEnabled
    decreases Load(st.calls), 1
  {
    hide CallOk;
    hide Load;
    if st.calls[id].isStopped then st
    else
      EndingKeeps(st, id);
      var r := Notify(WithEnded(st, id), st.calls[id].onStop);
      SettlesOn(st.calls, WithEnded(st, id).calls, r.calls);
      r
  }

  // onStop
  function Notify(st: State, onStop: OnStop): (r: State)
    requires Valid(st)
    ensures Valid(r) && Settles(st.calls, r.calls) && Load(r.calls) <= Load(st.calls) + Size(onStop)
    ensures r.soundEnabled == st.soundEnabled
    decreases Load(st.calls) + Size(onStop), 0
  {
    match onStop
    case Quiet => st
    case Restarts(durationMs, audio, next) => Start(st, durationMs, audio, next)
  }

  // stopCallRinger
  function Stop(st: State): (r: State)
    requires Valid(st)
    ensures Valid(r) && Settles(st.calls, r.calls) && Load(r.calls) <= Load(st.calls)
    ensures r.soundEnabled == st.soundEnabled
    decreases Load(st.calls), 2
  {
    if st.active.Some? then Cleanup(st.(active := None), st.active.value) else st
  }

  // startCallRinger
  function Start(st: State, durationMs: int, audio: bool, onStop: OnStop): (r: State)
    requires Valid(st)
    ensures Valid(r) && Settles(st.calls, r.calls) && Load(r.calls) <= Load(st.calls) + Size(onStop)
    ensures r.soundEnabled == st.soundEnabled
    decreases Load(st.calls) + Size(onStop), 3
  {
    hide CallOk;
    hide Load;
    var quiet := Stop(st);
    AddingKeeps(quiet, durationMs, audio, onStop);
    var added := WithNew(quiet, durationMs, audio, onStop);
    SettlesOn(st.calls, quiet.calls, added.calls);
    if quiet.soundEnabled then added
    else
      var r := Notify(added, onStop);
      SettlesOn(st.calls, added.calls, r.calls);
      r
  }

  // setSoundEnabled
  function SetSound(st: State, on: bool): State
    requires Valid(st)
  {
    if on then st.(soundEnabled := true) else Stop(st.(soundEnabled := false))
  }

  function Rung(c: Call): Call
    requires c.timers != []
  {
    c.(timers := c.timers[1..], played := c.played + 1)
  }

  // The earliest pending timer of one ringer fires.
  function Fire(st: State, id: nat): (r: State)
    requires Valid(st)
    ensures Valid(r)
  {
    if id >= |st.calls| || st.calls[id].timers == [] then st
    else if st.calls[id].timers[0].Burst? then
      RungOk(st.calls[id]);
      st.(calls := st.calls[id := Rung(st.calls[id])])
    else Cleanup(st, id)
  }

  lemma RungOk(c: Call)
    requires CallOk(c) && c.timers != [] && c.timers[0].Burst?
    ensures CallOk(Rung(c))
  {
  }

  datatype Step =
    | StartCall(durationMs: int, audio: bool, onStop: OnStop)
    | StopCall
    | SetSoundEnabled(on: bool)
    | CallHandle(id: nat)
    | TimerFires(id: nat)

  function Apply(st: State, step: Step): (r: State)
    requires Valid(st)
    ensures Valid(r)
  {
    match step
    case StartCall(durationMs, audio, onStop) => Start(st, durationMs, audio, onStop)
    case StopCall => Stop(st)
    case SetSoundEnabled(on) => SetSound(st, on)
    case CallHandle(id) => if id < |st.calls| then Cleanup(st, id) else st
    case TimerFires(id) => Fire(st, id)
  }

  function Run(soundSaved: bool, steps: seq<Step>): (r: State)
    ensures Valid(r)
  {
    if steps == [] then State(soundSaved, None, [])
    else Apply(Run(soundSaved, steps[..|steps| - 1]), steps[|steps| - 1])
  }

  // ----- the module itself -----

  class ChatAudio {
    var soundEnabled: bool
    var active: Option<nat>
    var calls: seq<Call>

    ghost function View(): State
      reads this
    {
      State(soundEnabled, active, calls)
    }

    constructor (soundSaved: bool)
      ensures View() == Run(soundSaved, [])
    {
      soundEnabled, active, calls := soundSaved, None, [];
    }

    method CleanupCall(id: nat)
      requires Valid(View()) && id < |calls|
      modifies this
      ensures View() == Cleanup(old(View()), id)
      decreases Load(calls), 1
    {
      hide CallOk;
      hide Load;
      hide Settles;
      hide Notify;
      if calls[id].isStopped {
        return;
      }
      EndingKeeps(View(), id);
      var onStop := calls[id].onStop;
      calls := calls[id := calls[id].(isStopped := true, timers := [])];
      if active == Some(id) {
        active := None;
      }
      calls := calls[id := calls[id].(stops := calls[id].stops + 1)];
      assert View() == WithEnded(old(View()), id) by {
        assert calls == old(calls)[id := Ended(old(calls)[id])];
      }
      CallBack(onStop);
    }

    method CallBack(onStop: OnStop)
      requires Valid(View())
      modifies this
      ensures View() == Notify(old(View()), onStop)
      decreases Load(calls) + Size(onStop), 0
    {
      match onStop
      case Quiet =>
      case Restarts(durationMs, audio, next) =>
        var handle := StartCallRinger(Some(durationMs), audio, next);
    }

    method StopCallRinger()
      requires Valid(View())
      modifies this
      ensures View() == Stop(old(View()))
      decreases Load(calls), 2
    {
      if active.Some? {
        var id := active.value;
        active := None;
        CleanupCall(id);
      }
    }

    static method SetTimers(durationMs: int, audio: bool) returns (timers: seq<Timer>)
      ensures timers == Schedule(durationMs, audio)
    {
      timers := [];
      if audio {
        var totalRings := Rings(durationMs);
        for i := 0 to totalRings
          invariant timers == BurstTimers(durationMs, i)
        {
          if i * CADENCE < durationMs {
            timers := timers + [Burst(i * CADENCE)];
          }
        }
      }
      timers := timers + [End(durationMs)];
    }

    method StartCallRinger(duration: Option<int>, audio: bool, onStop: OnStop) returns (handle: nat)
      requires Valid(View())
      modifies this
      ensures View() == Start(old(View()), if duration.Some? then duration.value else 30000, audio, onStop)
      ensures handle == |Stop(old(View())).calls|
      decreases Load(calls) + Size(onStop), 3
    {
      hide CallOk;
      hide Load;
      hide Cleanup;
      hide Settles;
      hide Schedule;
      hide BurstTimers;
      StopCallRinger();
      handle := |calls|;
      var durationMs := if duration.Some? then duration.value else DEFAULT_DURATION;
      ghost var quiet := View();
      AddingKeeps(quiet, durationMs, audio, onStop);
      if !soundEnabled {
        calls := calls + [Call(durationMs, audio, onStop, true, [], 0, 1)];
        assert View() == WithNew(quiet, durationMs, audio, onStop);
        CallBack(onStop);
        return;
      }
      var timers := SetTimers(durationMs, audio);
      calls := calls + [Call(durationMs, audio, onStop, false, timers, 0, 0)];
      active := Some(handle);
      assert View() == WithNew(quiet, durationMs, audio, onStop);
    }

    method SetSoundEnabledTo(on: bool)
      requires Valid(View())
      modifies this
      ensures View() == SetSound(old(View()), on)
    {
      soundEnabled := on;
      if !on {
        StopCallRinger();
      }
    }

    method FireTimer(id: nat)
      requires Valid(View())
      modifies this
      ensures View() == Fire(old(View()), id)
    {
      if id >= |calls| || calls[id].timers == [] {
        return;
      }
      if calls[id].timers[0].End? {
        CleanupCall(id);
        return;
      }
      var c := calls[id];
      c := c.(timers := c.timers[1..]);
      if !c.isStopped {
        c := c.(played := c.played + 1);
      }
      calls := calls[id := c];
    }

    // True only if a ringer rings; and, while no ringer is orphaned, whenever one does.
    method IsRingerActive() returns (b: bool)
      requires Valid(View())
      ensures b ==> AnyLive(View())
      ensures Single(View()) ==> (b <==> AnyLive(View()))
    {
      b := active.Some?;
      if b {
        assert !calls[active.value].isStopped;
      }
    }
  }

  // ----- over every run -----

  // Whatever the callbacks start: an ended ringer ran its onStop once and has no timer left, a live one has not run
  // it and its final timer is still to come, and the ringer a stop would reach is live.
  lemma EndedExactlyOnce(soundSaved: bool, steps: seq<Step>, id: nat)
    requires id < |Run(soundSaved, steps).calls|
    ensures var st := Run(soundSaved, steps);
            var c := st.calls[id];
            && c.stops == (if c.isStopped then 1 else 0)
            && (c.isStopped <==> c.timers == [])
            && (!c.isStopped ==> c.timers[|c.timers| - 1] == End(c.durationMs))
            && (st.active.Some? ==> st.active.value < |st.calls| && !st.calls[st.active.value].isStopped)
  {
    assert CallOk(Run(soundSaved, steps).calls[id]);
  }

  ghost predicate Frozen(before: seq<Call>, after: seq<Call>) {
    && |before| <= |after|
    && forall id :: 0 <= id < |before| && before[id].isStopped ==> after[id] == before[id]
  }

  lemma StepFreezes(st: State, step: Step)
    requires Valid(st)
    ensures Frozen(st.calls, Apply(st, step).calls)
  {
    hide Cleanup;
    hide Start;
    hide Stop;
    if step.TimerFires? && step.id < |st.calls| {
      assert CallOk(st.calls[step.id]);
    }
  }

  // Once ended, a ringer never changes again: no burst after its stop, no second onStop, no timer.
  lemma {:induction false} StoppedForGood(soundSaved: bool, steps: seq<Step>, k: nat)
    requires k <= |steps|
    ensures Frozen(Run(soundSaved, steps[..k]).calls, Run(soundSaved, steps).calls)
  {
    hide Apply;
    var n := |steps|;
    if k == n {
      assert steps[..k] == steps;
    } else {
      assert steps[..n - 1][..k] == steps[..k];
      StoppedForGood(soundSaved, steps[..n - 1], k);
      StepFreezes(Run(soundSaved, steps[..n - 1]), steps[n - 1]);
    }
  }

  // A ringer that its own final timer ends has rung once per cadence of its duration.
  lemma RungInFull(st: State, id: nat)
    requires Valid(st) && id < |st.calls| && !st.calls[id].isStopped
    ensures var c, after := st.calls[id], Fire(st, id).calls[id];
            after.isStopped ==> after.played == if c.audio then Rings(c.durationMs) else 0
  {
    var c := st.calls[id];
    assert CallOk(c);
    BurstsAre(c.durationMs, Rings(c.durationMs));
    var schedule := Schedule(c.durationMs, c.audio);
    assert c.timers[0] == schedule[c.played];
    if c.timers[0].End? {
      assert c.played == |schedule| - 1;
    }
  }

  // Each timer of a live ringer but the last sounds a burst and leaves it ringing; the last ends it, at its duration.
  lemma LastTimerEnds(st: State, id: nat)
    requires Valid(st) && id < |st.calls| && !st.calls[id].isStopped
    ensures var c, after := st.calls[id], Fire(st, id).calls[id];
            && c.timers != [] && c.timers[|c.timers| - 1] == End(c.durationMs)
            && (after.isStopped <==> |c.timers| == 1)
            && (|c.timers| > 1 ==> after == c.(timers := c.timers[1..], played := c.played + 1))
  {
    var c := st.calls[id];
    assert CallOk(c);
    BurstsAre(c.durationMs, Rings(c.durationMs));
    var schedule := Schedule(c.durationMs, c.audio);
    assert forall k :: 0 <= k < |schedule| ==> (schedule[k].End? <==> k == |schedule| - 1);
    assert c.timers[0] == schedule[c.played];
  }

  // A handle ends its own ringer, a stop the active one, and the switch is left as it is set; muting also stops.
  lemma StopsEnd(st: State, id: nat)
    requires Valid(st)
    ensures id < |st.calls| ==> Apply(st, CallHandle(id)).calls[id].isStopped
    ensures st.active.Some? ==> Apply(st, StopCall).calls[st.active.value].isStopped
    ensures Apply(st, SetSoundEnabled(true)) == st.(soundEnabled := true)
    ensures !Apply(st, SetSoundEnabled(false)).soundEnabled
    ensures st.active.Some? ==> Apply(st, SetSoundEnabled(false)).calls[st.active.value].isStopped
  {
    hide CallOk;
    hide Load;
    hide Settles;
    hide Notify;
  }

  // A start adds a record of what it was asked for, after whatever the stop before it starts. With the sound on it waits
  // for its whole schedule and is the active ringer; with the sound off it never rings, and its onStop has been called.
  lemma StartRecords(st: State, durationMs: int, audio: bool, onStop: OnStop)
    requires Valid(st)
    ensures var after, id := Start(st, durationMs, audio, onStop), |Stop(st).calls|;
            && id < |after.calls|
            && var c := after.calls[id];
               && c.durationMs == durationMs && c.audio == audio && c.onStop == onStop && c.played == 0
               && (c.isStopped <==> !st.soundEnabled)
               && (st.soundEnabled ==>
                     after.active == Some(id) && c.stops == 0
                     && c.timers == (if audio then BurstTimers(durationMs, Rings(durationMs)) else []) + [End(durationMs)])
               && (!st.soundEnabled ==> c.stops == 1 && c.timers == [])
  {
    hide CallOk;
    hide Load;
    hide Cleanup;
    hide Stop;
  }

  // ----- one ringer at a time -----

  ghost predicate AnyLive(st: State) {
    exists id :: 0 <= id < |st.calls| && !st.calls[id].isStopped
  }

  ghost predicate Single(st: State) {
    forall id :: 0 <= id < |st.calls| && !st.calls[id].isStopped ==> st.active == Some(id) && st.soundEnabled
  }

  lemma NewIsSingle(st: State, durationMs: int, audio: bool, onStop: OnStop)
    requires Single(st) && st.active.None?
    ensures var r := WithNew(st, durationMs, audio, onStop);
            Single(r) && r.soundEnabled == st.soundEnabled && (r.active.Some? <==> st.soundEnabled)
  {
    assert Started(durationMs, audio, onStop).isStopped == false;
    assert Muted(durationMs, audio, onStop).isStopped;
  }

  lemma {:induction false} IdleNotifyIsSingle(st: State, onStop: OnStop)
    requires Valid(st) && Single(st) && st.active.None?
    ensures Single(Notify(st, onStop))
    ensures Notify(st, onStop).active.Some? <==> onStop.Restarts? && st.soundEnabled
    decreases onStop
  {
    hide CallOk;
    hide Load;
    hide Settles;
    hide Single;
    hide WithNew;
    match onStop
    case Quiet =>
    case Restarts(durationMs, audio, next) =>
      assert Stop(st) == st;
      NewIsSingle(st, durationMs, audio, next);
      if !st.soundEnabled {
        AddingKeeps(st, durationMs, audio, next);
        IdleNotifyIsSingle(WithNew(st, durationMs, audio, next), next);
      }
  }

  ghost predicate OnlyLive(st: State, id: nat) {
    forall j :: 0 <= j < |st.calls| && !st.calls[j].isStopped ==> j == id
  }

  lemma CleanupOfOnly(st: State, id: nat)
    requires Valid(st) && id < |st.calls| && !st.calls[id].isStopped && OnlyLive(st, id)
    ensures Single(Cleanup(st, id))
    ensures Cleanup(st, id).active.Some? <==> st.calls[id].onStop.Restarts? && st.soundEnabled
  {
    hide CallOk;
    hide Load;
    hide Settles;
    EndingKeeps(st, id);
    assert Single(WithEnded(st, id)) by {
      assert Ended(st.calls[id]).isStopped;
    }
    hide Single;
    IdleNotifyIsSingle(WithEnded(st, id), st.calls[id].onStop);
  }

  lemma StopIsSingle(st: State)
    requires Valid(st) && (Single(st) || Single(st.(soundEnabled := true)))
    ensures Single(Stop(st))
    ensures Stop(st).active.Some? <==>
      st.active.Some? && st.calls[st.active.value].onStop.Restarts? && st.soundEnabled
  {
    hide CallOk;
    hide Load;
    hide Settles;
    hide Cleanup;
    if st.active.Some? {
      CleanupOfOnly(st.(active := None), st.active.value);
    }
  }

  lemma BurstKeepsSingle(st: State, id: nat)
    requires Single(st) && id < |st.calls| && st.calls[id].timers != []
    ensures Single(st.(calls := st.calls[id := Rung(st.calls[id])]))
  {
  }

  lemma HandleKeepsSingle(st: State, id: nat)
    requires Valid(st) && Single(st) && id < |st.calls|
    ensures Single(Cleanup(st, id))
    ensures st.active != Some(id) ==> Cleanup(st, id) == st
  {
    hide CallOk;
    hide Load;
    hide Settles;
    if !st.calls[id].isStopped {
      CleanupOfOnly(st, id);
    } else {
      hide Single;
    }
  }

  lemma StartIsSingleIff(st: State, durationMs: int, audio: bool, onStop: OnStop)
    requires Valid(st) && Single(st)
    ensures Single(Start(st, durationMs, audio, onStop)) <==>
      !(st.active.Some? && st.calls[st.active.value].onStop.Restarts?)
  {
    hide CallOk;
    hide Load;
    hide Settles;
    hide Stop;
    StopIsSingle(st);
    var quiet := Stop(st);
    AddingKeeps(quiet, durationMs, audio, onStop);
    var added := WithNew(quiet, durationMs, audio, onStop);
    if quiet.active.None? {
      NewIsSingle(quiet, durationMs, audio, onStop);
      if !quiet.soundEnabled {
        hide Single;
        IdleNotifyIsSingle(added, onStop);
      }
    } else {
      var a := quiet.active.value;
      assert quiet.soundEnabled;
      assert !added.calls[a].isStopped && added.active != Some(a);
    }
  }

  // The step that leaves two ringers: a start while the active ringer's onStop starts one itself.
  ghost predicate RestartsUnderStart(st: State, step: Step)
    requires Valid(st)
  {
    step.StartCall? && st.active.Some? && st.calls[st.active.value].onStop.Restarts?
  }

  lemma SingleKeptIff(st: State, step: Step)
    requires Valid(st) && Single(st)
    ensures Single(Apply(st, step)) <==> !RestartsUnderStart(st, step)
  {
    hide CallOk;
    hide Load;
    hide Settles;
    hide Single;
    hide Start;
    hide Stop;
    hide Cleanup;
    match step
    case StartCall(durationMs, audio, onStop) => StartIsSingleIff(st, durationMs, audio, onStop);
    case StopCall => StopIsSingle(st);
    case SetSoundEnabled(on) => SwitchIsSingle(st, on);
    case CallHandle(id) =>
      if id < |st.calls| {
        HandleKeepsSingle(st, id);
      }
    case TimerFires(id) =>
      if id < |st.calls| {
        HandleKeepsSingle(st, id);
        if st.calls[id].timers != [] {
          BurstKeepsSingle(st, id);
        }
      }
  }

  lemma SwitchIsSingle(st: State, on: bool)
    requires Valid(st) && Single(st)
    ensures Single(SetSound(st, on))
  {
    hide Stop;
    hide CallOk;
    if !on {
      var off := st.(soundEnabled := false);
      if st.active.Some? {
        assert off.(soundEnabled := true) == st;
      }
      StopIsSingle(off);
    }
  }

  // After every prefix of the run.
  ghost predicate SingleThroughout(soundSaved: bool, steps: seq<Step>) {
    Single(Run(soundSaved, steps)) && (steps != [] ==> SingleThroughout(soundSaved, steps[..|steps| - 1]))
  }

  // At every step of the run.
  ghost predicate NeverRestartsUnderStart(soundSaved: bool, steps: seq<Step>) {
    steps == [] ||
    var before := steps[..|steps| - 1];
    NeverRestartsUnderStart(soundSaved, before)
    && !RestartsUnderStart(Run(soundSaved, before), steps[|steps| - 1])
  }

  // At most one ringer is live at every moment of a run, and it is the active one, exactly when no start of the run
  // finds an active ringer whose onStop starts another.
  lemma {:induction false} OneRingerIff(soundSaved: bool, steps: seq<Step>)
    ensures SingleThroughout(soundSaved, steps) <==> NeverRestartsUnderStart(soundSaved, steps)
  {
    hide RestartsUnderStart;
    hide Single;
    hide Valid;
    hide Apply;
    if steps == [] {
      EmptyIsSingle(soundSaved);
    } else {
      var n := |steps| - 1;
      OneRingerIff(soundSaved, steps[..n]);
      if SingleThroughout(soundSaved, steps[..n]) {
        SingleKeptIff(Run(soundSaved, steps[..n]), steps[n]);
      }
    }
  }

  ghost predicate AllQuiet(calls: seq<Call>) {
    forall id :: 0 <= id < |calls| ==> calls[id].onStop.Quiet?
  }

  ghost predicate QuietStep(step: Step) {
    step.StartCall? ==> step.onStop.Quiet?
  }

  lemma QuietCleanup(st: State, id: nat)
    requires Valid(st) && AllQuiet(st.calls) && id < |st.calls|
    ensures AllQuiet(Cleanup(st, id).calls)
  {
    hide CallOk;
    hide Load;
    hide Settles;
    if !st.calls[id].isStopped {
      EndingKeeps(st, id);
      assert Notify(WithEnded(st, id), Quiet) == WithEnded(st, id);
    }
  }

  lemma QuietStop(st: State)
    requires Valid(st) && AllQuiet(st.calls)
    ensures AllQuiet(Stop(st).calls)
  {
    hide CallOk;
    hide Cleanup;
    hide AllQuiet;
    if st.active.Some? {
      QuietCleanup(st.(active := None), st.active.value);
    }
  }

  lemma QuietStart(st: State, durationMs: int, audio: bool)
    requires Valid(st) && AllQuiet(st.calls)
    ensures AllQuiet(Start(st, durationMs, audio, Quiet).calls)
  {
    hide CallOk;
    hide Load;
    hide Settles;
    hide Stop;
    QuietStop(st);
    AddingKeeps(Stop(st), durationMs, audio, Quiet);
    assert Notify(WithNew(Stop(st), durationMs, audio, Quiet), Quiet) == WithNew(Stop(st), durationMs, audio, Quiet);
  }

  lemma QuietStepKeeps(st: State, step: Step)
    requires Valid(st) && AllQuiet(st.calls) && QuietStep(step)
    ensures AllQuiet(Apply(st, step).calls)
  {
    hide CallOk;
    hide Stop;
    hide Start;
    hide Cleanup;
    match step
    case StartCall(durationMs, audio, _) => QuietStart(st, durationMs, audio);
    case StopCall => QuietStop(st);
    case SetSoundEnabled(on) => QuietStop(st.(soundEnabled := false));
    case CallHandle(id) =>
      if id < |st.calls| {
        QuietCleanup(st, id);
      }
    case TimerFires(id) =>
      if id < |st.calls| {
        QuietCleanup(st, id);
      }
  }

  // So callbacks that start nothing, as the source's own, never leave two ringers.
  lemma {:induction false} QuietCallbacksRingOne(soundSaved: bool, steps: seq<Step>)
    requires forall step :: step in steps ==> QuietStep(step)
    ensures SingleThroughout(soundSaved, steps)
    ensures AllQuiet(Run(soundSaved, steps).calls)
  {
    hide Apply;
    hide Single;
    hide AllQuiet;
    hide Valid;
    if steps == [] {
      EmptyIsSingle(soundSaved);
      assert AllQuiet(Run(soundSaved, steps).calls) by {
        NoneIsQuiet();
      }
    } else {
      var n := |steps| - 1;
      QuietCallbacksRingOne(soundSaved, steps[..n]);
      var st := Run(soundSaved, steps[..n]);
      QuietStepKeeps(st, steps[n]);
      SingleKeptIff(st, steps[n]);
      QuietNeverRestarts(st, steps[n]);
    }
  }

  lemma NoneIsQuiet()
    ensures AllQuiet([])
  {
  }

  lemma QuietNeverRestarts(st: State, step: Step)
    requires Valid(st) && AllQuiet(st.calls)
    ensures !RestartsUnderStart(st, step)
  {
  }

  lemma EmptyIsSingle(soundSaved: bool)
    ensures Single(Run(soundSaved, []))
  {
  }

  // While that holds, isRingerActive tells whether anything rings, and an old handle does nothing.
  lemma OldHandleIsHarmless(st: State, id: nat)
    requires Valid(st) && Single(st)
    ensures st.active.Some? <==> AnyLive(st)
    ensures st.active != Some(id) ==> Apply(st, CallHandle(id)) == st
  {
    if id < |st.calls| {
      HandleKeepsSingle(st, id);
    }
  }

  lemma StartIdle(st: State, durationMs: int, audio: bool, onStop: OnStop)
    requires Valid(st) && st.active.None? && st.soundEnabled
    ensures Start(st, durationMs, audio, onStop) == WithNew(st, durationMs, audio, onStop)
  {
  }

  lemma StopActive(st: State, id: nat)
    requires Valid(st) && st.active == Some(id)
    ensures Valid(WithEnded(st, id)) && Stop(st) == Notify(WithEnded(st, id), st.calls[id].onStop)
  {
    hide CallOk;
    EndingKeeps(st, id);
  }

  // A start over a ringer whose onStop restarts: the restarted ringer rings on, and no stop reaches it.
  lemma TwoAtOnce(d1: int, d2: int, d3: int)
    ensures var first := StartCall(d1, true, Restarts(d2, true, Quiet));
            var st := Run(true, [first, StartCall(d3, true, Quiet), StopCall]);
            && |st.calls| == 3 && st.active.None?
            && !st.calls[1].isStopped && st.calls[1].durationMs == d2
  {
    var s1, s2, s3 := StartCall(d1, true, Restarts(d2, true, Quiet)), StartCall(d3, true, Quiet), StopCall;
    RunOfThree(true, s1, s2, s3);
    hide CallOk;
    hide Load;
    hide Settles;
    hide Start;
    hide Stop;
    hide Schedule;
    var empty := State(true, None, []);
    StartIdle(empty, d1, true, Restarts(d2, true, Quiet));
    var a := Apply(empty, s1);
    StopActive(a, 0);
    var ended := WithEnded(a, 0);
    StartIdle(ended, d2, true, Quiet);
    assert Stop(a) == WithNew(ended, d2, true, Quiet);
    var b := Apply(a, s2);
    StartOverActive(a, d3, true, Quiet);
    assert b == WithNew(Stop(a), d3, true, Quiet);
    StopActive(b, 2);
  }

  lemma StartOverActive(st: State, durationMs: int, audio: bool, onStop: OnStop)
    requires Valid(st) && st.soundEnabled
    ensures Start(st, durationMs, audio, onStop) == WithNew(Stop(st), durationMs, audio, onStop)
  {
    hide Stop;
    hide CallOk;
  }

  lemma RunOfThree(soundSaved: bool, s1: Step, s2: Step, s3: Step)
    ensures Run(soundSaved, [s1, s2, s3]) == Apply(Apply(Apply(State(soundSaved, None, []), s1), s2), s3)
  {
    hide Apply;
    hide Valid;
    assert [s1, s2, s3][..2] == [s1, s2] && [s1, s2][..1] == [s1] && [s1][..0] == [];
    var none: seq<Step> := [];
    assert Run(soundSaved, none) == State(soundSaved, None, []);
    assert Run(soundSaved, [s1]) == Apply(Run(soundSaved, none), s1);
    assert Run(soundSaved, [s1, s2]) == Apply(Run(soundSaved, [s1]), s2);
  }
}

// What the store holds of a conversation, told by the operations alone, when calls run one after another; and, when they
// overlap, whose time its last activity is.
module ConversationLog {
  import opened Options
  import opened Conversations

  // ----- the operations of a run -----

  function Clock(ops: seq<Op>): int {
    if ops == [] then 0
    else
      Clock(ops[..|ops| - 1]) +
        match ops[|ops| - 1]
        case Edit(Tick(ms)) => ms
        case _ => 0
  }

  // The app and shop of each conversation created so far.
  function Created(ops: seq<Op>): seq<(string, string)> {
    if ops == [] then []
    else
      Created(ops[..|ops| - 1]) +
        match ops[|ops| - 1]
        case Edit(Create(appKey, shop)) => [(appKey, shop)]
        case _ => []
  }

  // The messages posted to conversations that were there, each with its time.
  function Posted(ops: seq<Op>): seq<Message> {
    if ops == [] then []
    else
      var before := ops[..|ops| - 1];
      Posted(before) +
        match ops[|ops| - 1]
        case Post(input) => if input.conversationId < |Created(before)| then [Message(input, Clock(before))] else []
        case _ => []
  }

  // The time of the last message of a conversation.
  function LastTime(messages: seq<Message>, id: nat): Option<int> {
    if messages == [] then None
    else
      var m := messages[|messages| - 1];
      if m.input.conversationId == id then Some(m.createdAt) else LastTime(messages[..|messages| - 1], id)
  }

  // The status last set since the conversation is there.
  function StatusSet(ops: seq<Op>, id: nat): Status {
    if ops == [] then Open
    else
      match ops[|ops| - 1]
      case Edit(SetStatus(_, k, status)) =>
        if k == id && id < |Created(ops[..|ops| - 1])| then status else StatusSet(ops[..|ops| - 1], id)
      case _ => StatusSet(ops[..|ops| - 1], id)
  }

  // How many merchant messages were posted since the conversation was last marked read.
  function Unread(ops: seq<Op>, id: nat): nat {
    if ops == [] then 0
    else
      var before := ops[..|ops| - 1];
      match ops[|ops| - 1]
      case Post(input) =>
        Unread(before, id) + if input.conversationId == id < |Created(before)| && input.sender == Merchant then 1 else 0
      case Edit(MarkRead(k)) => if k == id then 0 else Unread(before, id)
      case _ => Unread(before, id)
  }

  // The time of the conversation's first message by an agent that is not internal.
  function FirstAnswer(messages: seq<Message>, id: nat): Option<int> {
    if messages == [] then None
    else
      var before, m := FirstAnswer(messages[..|messages| - 1], id), messages[|messages| - 1];
      if before.None? && m.input.conversationId == id && m.input.sender == Agent && !m.input.internal then Some(m.createdAt)
      else before
  }

  // The due time and SLA state last set; the first answer, if it comes in time and not after a breach, meets the SLA.
  function Sla(ops: seq<Op>, id: nat): (Option<int>, SlaState) {
    if ops == [] then (None, OnTrack)
    else
      var before := ops[..|ops| - 1];
      var (due, state) := Sla(before, id);
      match ops[|ops| - 1]
      case Edit(SetSla(k, newDue, newState)) => if k == id < |Created(before)| then (newDue, newState) else (due, state)
      case Post(_) =>
        if FirstAnswer(Posted(before), id).None? && FirstAnswer(Posted(ops), id).Some?
           && due.Some? && Clock(before) <= due.value && state in {OnTrack, Breaching}
        then (due, Met) else (due, state)
      case _ => (due, state)
  }

  // A row for each set that changes the status.
  function StatusRows(ops: seq<Op>): seq<StatusRow> {
    if ops == [] then []
    else
      var before := ops[..|ops| - 1];
      StatusRows(before) +
        match ops[|ops| - 1]
        case Edit(SetStatus(actor, id, status)) =>
          if id < |Created(before)| && StatusSet(before, id) != status then
            [StatusRow(actor, Created(before)[id].1, id, StatusSet(before, id), status)]
          else []
        case _ => []
  }

  function Done(ops: seq<Op>): State {
    RunOps(Initial, ops)
  }

  function OneOp(st: State, op: Op): State {
    match op
    case Post(input) => Persist(st, input, 0)
    case Edit(step) => if IsEdit(step) then Apply(st, step) else st
  }

  // ----- what the store holds -----

  ghost predicate ConversationTold(st: State, ops: seq<Op>, id: nat)
    requires id < |st.conversations| && id < |Created(ops)|
  {
    var c := st.conversations[id];
    && (c.appKey, c.shop) == Created(ops)[id]
    && c.status == StatusSet(ops, id)
    && c.lastMessageAt == LastTime(Posted(ops), id)
    && c.unreadCount == Unread(ops, id)
    && c.firstReplyAt == FirstAnswer(Posted(ops), id)
    && (c.firstResponseDueAt, c.slaState) == Sla(ops, id)
  }

  ghost predicate Told(st: State, ops: seq<Op>) {
    && st.now == Clock(ops) && st.calls == map[]
    && |st.conversations| == |Created(ops)|
    && st.messages == Posted(ops)
    && st.audit == StatusRows(ops)
    && forall id :: 0 <= id < |st.conversations| ==> ConversationTold(st, ops, id)
  }

  // The messages are those posted, in order and with their times; every conversation has its app and shop, the status last
  // set, the time of its last message and the number of merchant messages since it was marked read; and the trail has a row for each change of status.
  lemma {:induction false} StoreIsTold(ops: seq<Op>)
    ensures Told(Done(ops), ops)
  {
    hide Told;
    if ops == [] {
      NothingTold();
    } else {
      var n := |ops| - 1;
      StoreIsTold(ops[..n]);
      OneMoreOp(Initial, ops[..n], ops[n]);
      assert ops[..n] + [ops[n]] == ops;
      OpIsTold(Done(ops[..n]), ops);
    }
  }

  lemma NothingTold()
    ensures Told(Initial, [])
  {
  }

  lemma {:induction false} OneMoreOp(st: State, ops: seq<Op>, op: Op)
    ensures RunOps(st, ops + [op]) == OneOp(RunOps(st, ops), op)
    decreases ops
  {
    hide Apply;
    hide Persist;
    if ops == [] {
      assert ops + [op] == [op] && [op][1..] == [];
    } else {
      assert (ops + [op])[0] == ops[0] && (ops + [op])[1..] == ops[1..] + [op];
      OneMoreOp(OneOp(st, ops[0]), ops[1..], op);
    }
  }

  lemma OpIsTold(st: State, ops: seq<Op>)
    requires ops != [] && Told(st, ops[..|ops| - 1])
    ensures Told(OneOp(st, ops[|ops| - 1]), ops)
  {
    match ops[|ops| - 1]
    case Post(input) => PostIsTold(st, ops, input);
    case Edit(step) => EditIsTold(st, ops, step);
  }

  lemma LastTimeAppend(messages: seq<Message>, m: Message, id: nat)
    ensures LastTime(messages + [m], id)
         == if m.input.conversationId == id then Some(m.createdAt) else LastTime(messages, id)
  {
    assert (messages + [m])[..|messages|] == messages;
  }

  lemma FirstAnswerAppend(messages: seq<Message>, m: Message, id: nat)
    ensures FirstAnswer(messages + [m], id) ==
      if FirstAnswer(messages, id).None? && m.input.conversationId == id && m.input.sender == Agent && !m.input.internal
      then Some(m.createdAt) else FirstAnswer(messages, id)
  {
    assert (messages + [m])[..|messages|] == messages;
  }

  // A post's part in what the operations say.
  lemma PostsSay(ops: seq<Op>, input: Input, id: nat)
    requires ops != [] && ops[|ops| - 1] == Post(input)
    ensures var before := ops[..|ops| - 1];
            && Created(ops) == Created(before) && Clock(ops) == Clock(before) && StatusRows(ops) == StatusRows(before)
            && StatusSet(ops, id) == StatusSet(before, id)
            && Posted(ops) == Posted(before) +
                 (if input.conversationId < |Created(before)| then [Message(input, Clock(before))] else [])
  {
  }

  lemma PostIsTold(st: State, ops: seq<Op>, input: Input)
    requires ops != [] && ops[|ops| - 1] == Post(input) && Told(st, ops[..|ops| - 1])
    ensures Told(Persist(st, input, 0), ops)
  {
    hide ConversationTold;
    hide Posted;
    hide Created;
    hide StatusRows;
    hide Clock;
    var before, st' := ops[..|ops| - 1], Persist(st, input, 0);
    PostsSay(ops, input, 0);
    if input.conversationId < |st.conversations| {
      assert st'.messages == st.messages + [Message(input, st.now)] && st'.calls == map[];
    } else {
      assert st' == st;
    }
    forall id | 0 <= id < |st'.conversations|
      ensures ConversationTold(st', ops, id)
    {
      PostedConversation(st, ops, input, id);
    }
  }

  lemma PostedConversation(st: State, ops: seq<Op>, input: Input, id: nat)
    requires ops != [] && ops[|ops| - 1] == Post(input) && Told(st, ops[..|ops| - 1]) && id < |st.conversations|
    ensures id < |Created(ops)| && id < |Persist(st, input, 0).conversations|
    ensures ConversationTold(Persist(st, input, 0), ops, id)
  {
    hide Posted;
    hide Created;
    hide StatusSet;
    hide StatusRows;
    hide LastTime;
    hide FirstAnswer;
    hide Clock;
    var before, m := ops[..|ops| - 1], Message(input, st.now);
    PostsSay(ops, input, id);
    assert ConversationTold(st, before, id);
    LastTimeAppend(st.messages, m, id);
    FirstAnswerAppend(st.messages, m, id);
    assert Posted(before) + [] == Posted(before);
  }

  lemma EditIsTold(st: State, ops: seq<Op>, step: Step)
    requires ops != [] && ops[|ops| - 1] == Edit(step) && Told(st, ops[..|ops| - 1])
    ensures Told(OneOp(st, Edit(step)), ops)
  {
    hide ConversationTold;
    var before, st' := ops[..|ops| - 1], OneOp(st, Edit(step));
    assert Posted(ops) == Posted(before) && st'.messages == st.messages;
    forall id | 0 <= id < |st'.conversations|
      ensures id < |Created(ops)| && ConversationTold(st', ops, id)
    {
      EditedConversation(st, ops, step, id);
    }
    if step.SetStatus? && step.id < |st.conversations| {
      StatusTold(st, before, step.id);
    }
  }

  lemma StatusTold(st: State, ops: seq<Op>, id: nat)
    requires Told(st, ops) && id < |st.conversations|
    ensures id < |Created(ops)| && st.conversations[id].shop == Created(ops)[id].1
    ensures st.conversations[id].status == StatusSet(ops, id)
  {
    assert ConversationTold(st, ops, id);
  }

  // An edit makes no message, and its part in what the operations say of a conversation.
  lemma EditsSay(ops: seq<Op>, step: Step, id: nat)
    requires ops != [] && ops[|ops| - 1] == Edit(step)
    ensures var before := ops[..|ops| - 1];
            && Posted(ops) == Posted(before)
            && Created(ops) == Created(before) + (if step.Create? then [(step.appKey, step.shop)] else [])
            && StatusSet(ops, id) == (if step.SetStatus? && step.id == id < |Created(before)| then step.status
                                      else StatusSet(before, id))
            && Unread(ops, id) == (if step == MarkRead(id) then 0 else Unread(before, id))
            && Sla(ops, id) == (if step.SetSla? && step.id == id < |Created(before)| then (step.due, step.slaState)
                                else Sla(before, id))
  {
  }

  lemma EditedConversation(st: State, ops: seq<Op>, step: Step, id: nat)
    requires ops != [] && ops[|ops| - 1] == Edit(step) && Told(st, ops[..|ops| - 1])
    requires id < |OneOp(st, Edit(step)).conversations|
    ensures id < |Created(ops)| && ConversationTold(OneOp(st, Edit(step)), ops, id)
  {
    hide Posted;
    hide Created;
    hide StatusSet;
    hide StatusRows;
    hide Unread;
    hide Sla;
    hide LastTime;
    hide FirstAnswer;
    hide Clock;
    var before := ops[..|ops| - 1];
    EditsSay(ops, step, id);
    if id < |st.conversations| {
      assert ConversationTold(st, before, id);
    } else {
      NoStatusYet(before, id);
      NoneLast(before, id);
      NoneUnread(before, id);
      NoSlaYet(before, id);
    }
  }

  lemma {:induction false} NoStatusYet(ops: seq<Op>, id: nat)
    requires id >= |Created(ops)|
    ensures StatusSet(ops, id) == Open
  {
    if ops != [] {
      NoStatusYet(ops[..|ops| - 1], id);
    }
  }

  lemma {:induction false} NoneUnread(ops: seq<Op>, id: nat)
    requires id >= |Created(ops)|
    ensures Unread(ops, id) == 0
  {
    if ops != [] {
      NoneUnread(ops[..|ops| - 1], id);
    }
  }

  lemma {:induction false} NoSlaYet(ops: seq<Op>, id: nat)
    requires id >= |Created(ops)|
    ensures Sla(ops, id) == (None, OnTrack) && FirstAnswer(Posted(ops), id).None?
  {
    if ops != [] {
      var before := ops[..|ops| - 1];
      NoSlaYet(before, id);
      if Posted(ops) != Posted(before) {
        var m := Posted(ops)[|Posted(before)|];
        FirstAnswerAppend(Posted(before), m, id);
        assert Posted(ops) == Posted(before) + [m];
      }
    }
  }

  lemma {:induction false} NoneLast(ops: seq<Op>, id: nat)
    requires id >= |Created(ops)|
    ensures LastTime(Posted(ops), id).None?
  {
    if ops != [] {
      var before := ops[..|ops| - 1];
      NoneLast(before, id);
      if Posted(ops) != Posted(before) {
        var m := Posted(ops)[|Posted(before)|];
        LastTimeAppend(Posted(before), m, id);
        assert Posted(ops) == Posted(before) + [m];
      }
    }
  }

  // ----- overlapping calls -----

  // Step i commits a message of the conversation.
  ghost predicate Commits(st: State, steps: seq<Step>, i: nat, id: nat) {
    && i < |steps| && steps[i].Commit?
    && var at := Run(st, steps[..i]);
       && steps[i].call in at.calls && at.calls[steps[i].call].decided.Some?
       && at.calls[steps[i].call].message.input.conversationId == id < |at.conversations|
  }

  // In any interleaving, the last activity is the creation time of the message committed last, whichever was created last.
  lemma {:induction false} LastActivityIsLastCommit(steps: seq<Step>, id: nat)
    requires id < |Run(Initial, steps).conversations|
    ensures var last := Run(Initial, steps).conversations[id].lastMessageAt;
            && (last.None? <==> forall i: nat :: !Commits(Initial, steps, i, id))
            && (last.Some? ==>
                  exists i: nat ::
                    && Commits(Initial, steps, i, id) && (forall k: nat :: i < k ==> !Commits(Initial, steps, k, id))
                    && last.value == Run(Initial, steps[..i]).calls[steps[i].call].message.createdAt)
  {
    hide Apply;
    if steps != [] {
      var n := |steps| - 1;
      var before, step := steps[..n], steps[n];
      var st := Run(Initial, before);
      OneMoreStep(Initial, before, step);
      assert before + [step] == steps;
      forall i: nat
        ensures Commits(Initial, steps, i, id) <==> Commits(Initial, before, i, id) || (i == n && Commits(Initial, steps, n, id))
        ensures Commits(Initial, before, i, id) ==> i < n && steps[..i] == before[..i] && steps[i] == before[i]
      {
        if i < n {
          assert steps[..i] == before[..i];
        }
      }
      assert steps[..n] == before;
      ActivityStep(st, step, id);
      if id < |st.conversations| {
        LastActivityIsLastCommit(before, id);
      } else {
        NoCommitYet(before, id);
      }
      hide Commits;
      hide Run;
      if Commits(Initial, steps, n, id) {
        assert forall k: nat :: n < k ==> !Commits(Initial, steps, k, id);
      }
    }
  }

  lemma {:induction false} OneMoreStep(st: State, steps: seq<Step>, step: Step)
    ensures Run(st, steps + [step]) == Apply(Run(st, steps), step)
    decreases steps
  {
    hide Apply;
    if steps == [] {
      assert steps + [step] == [step] && [step][1..] == [];
    } else {
      assert (steps + [step])[0] == steps[0] && (steps + [step])[1..] == steps[1..] + [step];
      OneMoreStep(Apply(st, steps[0]), steps[1..], step);
    }
  }

  lemma ActivityStep(st: State, step: Step, id: nat)
    requires id < |Apply(st, step).conversations|
    ensures Apply(st, step).conversations[id].lastMessageAt ==
      if id >= |st.conversations| then None
      else if step.Commit? && step.call in st.calls && st.calls[step.call].decided.Some?
              && st.calls[step.call].message.input.conversationId == id
      then Some(st.calls[step.call].message.createdAt)
      else st.conversations[id].lastMessageAt
  {
  }

  lemma {:induction false} NoCommitYet(steps: seq<Step>, id: nat)
    requires id >= |Run(Initial, steps).conversations|
    ensures forall i: nat :: !Commits(Initial, steps, i, id)
  {
    forall i: nat | i < |steps|
      ensures id >= |Run(Initial, steps[..i]).conversations|
    {
      ConversationsGrow(Initial, steps, i);
    }
  }

  lemma {:induction false} ConversationsGrow(st: State, steps: seq<Step>, n: nat)
    requires n <= |steps|
    ensures |Run(st, steps[..n]).conversations| <= |Run(st, steps).conversations|
    decreases |steps|
  {
    hide Apply;
    if n < |steps| {
      var m := |steps| - 1;
      ConversationsGrow(st, steps[..m], n);
      OneMoreStep(st, steps[..m], steps[m]);
      assert steps[..m] + [steps[m]] == steps && steps[..m][..n] == steps[..n];
      GrowStep(Run(st, steps[..m]), steps[m]);
    } else {
      assert steps[..n] == steps;
    }
  }

  lemma GrowStep(st: State, step: Step)
    ensures |Apply(st, step).conversations| >= |st.conversations|
  {
  }
}

// conversationService: messages, unread counts and first-reply stamping.
// persistMessage is three awaits: insert the message, for a reply look at the conversation, then update it.
// A run interleaves those steps of any number of calls with everything else that touches a conversation.
module Conversations {
  import opened Options

  datatype Sender = Merchant | Agent | System

  datatype Status = Open | Snoozed | Closed

  datatype SlaState = OnTrack | Breaching | Breached | Met

  // What a caller hands to persistMessage; token stands for the id the store generates.
  datatype Input = Input(
    conversationId: nat, sender: Sender, senderId: string, body: string, internal: bool,
    attachmentUrl: Option<string>, token: string)

  datatype Message = Message(input: Input, createdAt: int)

  datatype Conversation = Conversation(
    appKey: string, shop: string, status: Status, unreadCount: nat, firstReplyAt: Option<int>,
    firstResponseDueAt: Option<int>, slaState: SlaState, lastMessageAt: Option<int>)

  // What the look at the conversation decided to write besides lastMessageAt.
  datatype Decision = Decision(stamp: bool, met: bool)

  datatype PendingCall = PendingCall(message: Message, decided: Option<Decision>)

  // Conversations are never deleted here, so an id is a position. readMark is how many messages there were when
  // the conversation was last marked read.
  datatype State = State(
    now: int, conversations: seq<Conversation>, messages: seq<Message>, calls: map<nat, PendingCall>,
    readMark: map<nat, nat>, audit: seq<StatusRow>)

  // The audit row of a status change.
  datatype StatusRow = StatusRow(actor: Actor, merchantShop: string, target: nat, before: Status, after: Status)

  datatype Actor = Actor(userId: string, appKey: string)

  const Initial := State(0, [], [], map[], map[], [])

  datatype Step =
    | Create(appKey: string, shop: string)
    | Insert(call: nat, input: Input)
    | Look(call: nat)
    | Commit(call: nat)
    | MarkRead(id: nat)
    | SetStatus(actor: Actor, id: nat, status: Status)
    | SetSla(id: nat, due: Option<int>, slaState: SlaState)
    | Tick(ms: nat)

  predicate IsReply(m: Input) {
    m.sender == Agent && !m.internal
  }

  // An internal note by an agent or by the system. (Nothing stops a caller passing internal with MERCHANT.)
  predicate IsNote(m: Input) {
    m.internal && m.sender != Merchant
  }

  function Decide(c: Conversation, m: Message): Decision {
    var stamp := c.firstReplyAt.None?;
    Decision(stamp,
             stamp && c.firstResponseDueAt.Some? && m.createdAt <= c.firstResponseDueAt.value
             && c.slaState in {OnTrack, Breaching})
  }

  function Updated(c: Conversation, m: Message, d: Decision): Conversation {
    c.(lastMessageAt := Some(m.createdAt),
       unreadCount := if m.input.sender == Merchant then c.unreadCount + 1 else c.unreadCount,
       firstReplyAt := if d.stamp then Some(m.createdAt) else c.firstReplyAt,
       slaState := if d.met then Met else c.slaState)
  }

  function ApplyInsert(st: State, call: nat, input: Input): State {
    if call in st.calls || input.conversationId >= |st.conversations| then st
    else
      var m := Message(input, st.now);
      st.(messages := st.messages + [m],
          calls := st.calls[call := PendingCall(m, if IsReply(input) then None else Some(Decision(false, false)))])
  }

  function ApplyLook(st: State, call: nat): State {
    if call !in st.calls || st.calls[call].decided.Some?
       || st.calls[call].message.input.conversationId >= |st.conversations| then st
    else
      var m := st.calls[call].message;
      st.(calls := st.calls[call := PendingCall(m, Some(Decide(st.conversations[m.input.conversationId], m)))])
  }

  function ApplyCommit(st: State, call: nat): State {
    if call !in st.calls || st.calls[call].decided.None?
       || st.calls[call].message.input.conversationId >= |st.conversations| then st
    else
      var m, d := st.calls[call].message, st.calls[call].decided.value;
      var id := m.input.conversationId;
      st.(conversations := st.conversations[id := Updated(st.conversations[id], m, d)],
          calls := st.calls - {call})
  }

  function Apply(st: State, step: Step): State {
    match step
    case Tick(ms) => st.(now := st.now + ms)
    case Create(appKey, shop) =>
      st.(conversations := st.conversations + [Conversation(appKey, shop, Open, 0, None, None, OnTrack, None)])
    case Insert(call, input) => ApplyInsert(st, call, input)
    case Look(call) => ApplyLook(st, call)
    case Commit(call) => ApplyCommit(st, call)
    case MarkRead(id) =>
      if id < |st.conversations| then
        st.(conversations := st.conversations[id := st.conversations[id].(unreadCount := 0)],
            readMark := st.readMark[id := |st.messages|])
      else st
    case SetStatus(actor, id, status) =>
      if id < |st.conversations| && st.conversations[id].status != status then
        var c := st.conversations[id];
        st.(conversations := st.conversations[id := c.(status := status)],
            audit := st.audit + [StatusRow(actor, c.shop, id, c.status, status)])
      else st
    case SetSla(id, due, slaState) =>
      if id < |st.conversations| then
        st.(conversations := st.conversations[id := st.conversations[id].(firstResponseDueAt := due, slaState := slaState)])
      else st
  }

  function Run(st: State, steps: seq<Step>): State
    decreases steps
  {
    if steps == [] then st else Run(Apply(st, steps[0]), steps[1..])
  }

  // One whole call with nothing in between.
  function Persist(st: State, input: Input, call: nat): State {
    ApplyCommit(ApplyLook(ApplyInsert(st, call, input), call), call)
  }

  function History(messages: seq<Message>, id: nat): seq<Message> {
    if messages == [] then []
    else
      var m := messages[|messages| - 1];
      History(messages[..|messages| - 1], id) + (if m.input.conversationId == id then [m] else [])
  }

  function MerchantHistory(messages: seq<Message>, id: nat): seq<Message> {
    if messages == [] then []
    else
      var m := messages[|messages| - 1];
      MerchantHistory(messages[..|messages| - 1], id)
      + (if m.input.conversationId == id && !m.input.internal then [m] else [])
  }

  // The merchant's history is the agents' history without the internal messages.
  lemma {:induction false} MerchantSeesTheRest(messages: seq<Message>, id: nat)
    ensures MerchantHistory(messages, id) == NotInternal(History(messages, id))
  {
    if messages != [] {
      var before, m := messages[..|messages| - 1], messages[|messages| - 1];
      MerchantSeesTheRest(before, id);
      if m.input.conversationId == id {
        assert (History(before, id) + [m])[..|History(before, id)|] == History(before, id);
      } else {
        assert History(before, id) + [] == History(before, id);
        assert MerchantHistory(before, id) + [] == MerchantHistory(before, id);
      }
    }
  }

  function NotInternal(messages: seq<Message>): seq<Message> {
    if messages == [] then []
    else
      var m := messages[|messages| - 1];
      NotInternal(messages[..|messages| - 1]) + (if m.input.internal then [] else [m])
  }

  // ----- the service -----

  class ConversationService {
    var now: int
    var conversations: seq<Conversation>
    var messages: seq<Message>
    var calls: map<nat, PendingCall>
    var readMark: map<nat, nat>
    var audit: seq<StatusRow>

    ghost function View(): State
      reads this
    {
      State(now, conversations, messages, calls, readMark, audit)
    }

    constructor ()
      ensures View() == Initial
    {
      now, conversations, messages, calls, readMark, audit := 0, [], [], map[], map[], [];
    }

    // An undisturbed call. The message is returned, or nothing when the conversation does not exist.
    method PersistMessage(input: Input, ghost call: nat) returns (r: Option<Message>)
      requires call !in calls
      modifies this
      ensures View() == Persist(old(View()), input, call)
      ensures r == if input.conversationId < |old(conversations)| then Some(Message(input, now)) else None
    {
      var id := input.conversationId;
      if id >= |conversations| {
        return None;
      }
      var m := Message(input, now);
      messages := messages + [m];
      var c := conversations[id];
      var updated := c.(lastMessageAt := Some(m.createdAt));
      if input.sender == Merchant {
        updated := updated.(unreadCount := c.unreadCount + 1);
      }
      if input.sender == Agent && !input.internal && c.firstReplyAt.None? {
        updated := updated.(firstReplyAt := Some(m.createdAt));
        if c.firstResponseDueAt.Some? && m.createdAt <= c.firstResponseDueAt.value
           && (c.slaState == OnTrack || c.slaState == Breaching) {
          updated := updated.(slaState := Met);
        }
      }
      conversations := conversations[id := updated];
      ghost var begun := ApplyInsert(old(View()), call, input);
      assert calls == begun.calls - {call};
      return Some(m);
    }

    method PostInternalNote(conversationId: nat, agent: string, body: string, url: Option<string>, token: string, ghost call: nat)
      returns (r: Option<Message>)
      requires call !in calls
      modifies this
      ensures View() == Persist(old(View()), Input(conversationId, Agent, agent, body, true, url, token), call)
    {
      r := PersistMessage(Input(conversationId, Agent, agent, body, true, url, token), call);
    }

    method MarkAsRead(id: nat) returns (found: bool)
      modifies this
      ensures View() == Apply(old(View()), MarkRead(id)) && found == (id < |conversations|)
    {
      found := id < |conversations|;
      if found {
        conversations := conversations[id := conversations[id].(unreadCount := 0)];
        readMark := readMark[id := |messages|];
      }
    }

    // An unchanged status means no write and no audit row.
    method UpdateStatus(actor: Actor, id: nat, status: Status) returns (found: bool)
      modifies this
      ensures View() == Apply(old(View()), SetStatus(actor, id, status)) && found == (id < |conversations|)
    {
      found := id < |conversations|;
      if !found || conversations[id].status == status {
        return;
      }
      var beforeStatus := conversations[id].status;
      conversations := conversations[id := conversations[id].(status := status)];
      audit := audit + [StatusRow(actor, conversations[id].shop, id, beforeStatus, status)];
    }

    method AgentView(id: nat) returns (r: seq<Message>)
      ensures r == History(messages, id)
    {
      r := [];
      for i := 0 to |messages|
        invariant r == History(messages[..i], id)
      {
        assert messages[..i + 1][..i] == messages[..i];
        if messages[i].input.conversationId == id {
          r := r + [messages[i]];
        }
      }
      assert messages[..|messages|] == messages;
    }

    method MerchantView(id: nat) returns (r: seq<Message>)
      ensures r == MerchantHistory(messages, id)
    {
      r := [];
      for i := 0 to |messages|
        invariant r == MerchantHistory(messages[..i], id)
      {
        assert messages[..i + 1][..i] == messages[..i];
        if messages[i].input.conversationId == id && !messages[i].input.internal {
          r := r + [messages[i]];
        }
      }
      assert messages[..|messages|] == messages;
    }
  }

  // ----- internal notes are invisible to the merchant's side -----

  // The messages that are not notes.
  ghost function Spoken(messages: seq<Message>): seq<Message> {
    if messages == [] then []
    else
      var m := messages[|messages| - 1];
      Spoken(messages[..|messages| - 1]) + (if IsNote(m.input) then [] else [m])
  }

  ghost function SpokenCalls(calls: map<nat, PendingCall>): map<nat, PendingCall> {
    map k | k in calls && !IsNote(calls[k].message.input) :: calls[k]
  }

  ghost function Quiet(conversations: seq<Conversation>): (r: seq<Conversation>)
    ensures |r| == |conversations|
  {
    seq(|conversations|, i requires 0 <= i < |conversations| => conversations[i].(lastMessageAt := None))
  }

  // The state with its notes, and the activity time they bump, taken away.
  ghost function Muted(st: State): State {
    State(st.now, Quiet(st.conversations), Spoken(st.messages), SpokenCalls(st.calls), map[], st.audit)
  }

  // A step that belongs to a note, given the state it is taken in.
  predicate NoteStep(st: State, step: Step) {
    match step
    case Insert(_, input) => IsNote(input)
    case Look(call) => call in st.calls && IsNote(st.calls[call].message.input)
    case Commit(call) => call in st.calls && IsNote(st.calls[call].message.input)
    case _ => false
  }

  // The run without the steps of its notes.
  ghost function WithoutNotes(st: State, steps: seq<Step>): seq<Step>
    decreases steps
  {
    if steps == [] then []
    else
      var rest := WithoutNotes(Apply(st, steps[0]), steps[1..]);
      if NoteStep(st, steps[0]) then rest else [steps[0]] + rest
  }

  // Each insert of the run uses a call id that no pending call has.
  ghost predicate FreshCalls(st: State, steps: seq<Step>)
    decreases steps
  {
    steps != [] ==> (steps[0].Insert? ==> steps[0].call !in st.calls) && FreshCalls(Apply(st, steps[0]), steps[1..])
  }

  // A note decides nothing.
  ghost predicate NotesInert(st: State) {
    forall k :: k in st.calls && IsNote(st.calls[k].message.input) ==> st.calls[k].decided == Some(Decision(false, false))
  }

  ghost predicate NoNotes(st: State) {
    forall k :: k in st.calls ==> !IsNote(st.calls[k].message.input)
  }

  lemma SpokenAppend(messages: seq<Message>, m: Message)
    ensures Spoken(messages + [m]) == Spoken(messages) + (if IsNote(m.input) then [] else [m])
  {
    assert (messages + [m])[..|messages|] == messages;
  }

  lemma SpokenCallsInsert(calls: map<nat, PendingCall>, call: nat, pc: PendingCall)
    requires call in calls ==> IsNote(calls[call].message.input) == IsNote(pc.message.input)
    ensures SpokenCalls(calls[call := pc]) ==
      if IsNote(pc.message.input) then SpokenCalls(calls) else SpokenCalls(calls)[call := pc]
  {
  }

  lemma SpokenCallsRemove(calls: map<nat, PendingCall>, call: nat)
    requires call in calls
    ensures SpokenCalls(calls - {call}) ==
      if IsNote(calls[call].message.input) then SpokenCalls(calls) else SpokenCalls(calls) - {call}
  {
  }

  lemma QuietUpdate(conversations: seq<Conversation>, id: nat, c: Conversation)
    requires id < |conversations|
    ensures Quiet(conversations[id := c]) == Quiet(conversations)[id := c.(lastMessageAt := None)]
  {
  }

  lemma NoteStepIsMute(st: State, step: Step)
    requires NotesInert(st) && NoteStep(st, step)
    ensures Muted(Apply(st, step)) == Muted(st)
  {
    hide Quiet;
    hide SpokenCalls;
    var st' := Apply(st, step);
    if step.Insert? {
      if st' != st {
        SpokenAppend(st.messages, Message(step.input, st.now));
        SpokenCallsInsert(st.calls, step.call, st'.calls[step.call]);
      }
    } else if step.Commit? && st' != st {
      SpokenCallsRemove(st.calls, step.call);
      var id := st.calls[step.call].message.input.conversationId;
      QuietUpdate(st.conversations, id, st'.conversations[id]);
      QuietUpdate(st.conversations, id, st.conversations[id]);
      assert st.conversations[id := st.conversations[id]] == st.conversations;
    }
  }

  // A step of anything else acts on the muted state alone.
  lemma InsertAgrees(a: State, b: State, call: nat, input: Input)
    requires Muted(a) == Muted(b) && call !in a.calls && call !in b.calls && !IsNote(input)
    ensures Muted(ApplyInsert(a, call, input)) == Muted(ApplyInsert(b, call, input))
  {
    SameConversation(a, b, input.conversationId);
    hide Quiet;
    hide SpokenCalls;
    var a', b' := ApplyInsert(a, call, input), ApplyInsert(b, call, input);
    var m := Message(input, a.now);
    if input.conversationId < |a.conversations| {
      SpokenAppend(a.messages, m);
      SpokenAppend(b.messages, m);
      SpokenCallsInsert(a.calls, call, a'.calls[call]);
      SpokenCallsInsert(b.calls, call, b'.calls[call]);
    }
  }

  lemma SameCall(a: State, b: State, call: nat)
    requires Muted(a) == Muted(b)
    requires call in a.calls ==> !IsNote(a.calls[call].message.input)
    requires call in b.calls ==> !IsNote(b.calls[call].message.input)
    ensures call in a.calls <==> call in b.calls
    ensures call in a.calls ==> a.calls[call] == b.calls[call]
  {
    assert call in SpokenCalls(a.calls) <==> call in SpokenCalls(b.calls);
    if call in a.calls {
      assert SpokenCalls(a.calls)[call] == SpokenCalls(b.calls)[call];
    }
  }

  lemma SameConversation(a: State, b: State, id: nat)
    requires Muted(a) == Muted(b)
    ensures |a.conversations| == |b.conversations|
    ensures id < |a.conversations| ==>
      a.conversations[id].(lastMessageAt := None) == b.conversations[id].(lastMessageAt := None)
  {
    assert |Quiet(a.conversations)| == |Quiet(b.conversations)|;
    if id < |a.conversations| {
      assert Quiet(a.conversations)[id] == Quiet(b.conversations)[id];
    }
  }

  lemma LookAgrees(a: State, b: State, call: nat)
    requires Muted(a) == Muted(b) && !NoteStep(a, Look(call)) && !NoteStep(b, Look(call))
    ensures Muted(ApplyLook(a, call)) == Muted(ApplyLook(b, call))
  {
    SameCall(a, b, call);
    if call in a.calls {
      SameConversation(a, b, a.calls[call].message.input.conversationId);
    }
    hide Quiet;
    hide SpokenCalls;
    var a', b' := ApplyLook(a, call), ApplyLook(b, call);
    if a' != a {
      SpokenCallsInsert(a.calls, call, a'.calls[call]);
      SpokenCallsInsert(b.calls, call, b'.calls[call]);
    }
  }

  lemma CommitAgrees(a: State, b: State, call: nat)
    requires Muted(a) == Muted(b) && !NoteStep(a, Commit(call)) && !NoteStep(b, Commit(call))
    ensures Muted(ApplyCommit(a, call)) == Muted(ApplyCommit(b, call))
  {
    SameCall(a, b, call);
    if call in a.calls && a.calls[call].decided.Some? {
      var id := a.calls[call].message.input.conversationId;
      SameConversation(a, b, id);
      hide Quiet;
      hide SpokenCalls;
      var a', b' := ApplyCommit(a, call), ApplyCommit(b, call);
      if id < |a.conversations| {
        SpokenCallsRemove(a.calls, call);
        SpokenCallsRemove(b.calls, call);
        QuietUpdate(a.conversations, id, a'.conversations[id]);
        QuietUpdate(b.conversations, id, b'.conversations[id]);
      }
    }
  }

  lemma EditAgrees(a: State, b: State, step: Step)
    requires Muted(a) == Muted(b) && (step.MarkRead? || step.SetStatus? || step.SetSla?)
    ensures Muted(Apply(a, step)) == Muted(Apply(b, step))
  {
    SameConversation(a, b, step.id);
    if step.id < |a.conversations| {
      QuietUpdate(a.conversations, step.id, Apply(a, step).conversations[step.id]);
      QuietUpdate(b.conversations, step.id, Apply(b, step).conversations[step.id]);
    }
  }

  lemma CreateAgrees(a: State, b: State, step: Step)
    requires Muted(a) == Muted(b) && step.Create?
    ensures Muted(Apply(a, step)) == Muted(Apply(b, step))
  {
    var fresh_ := [Conversation(step.appKey, step.shop, Open, 0, None, None, OnTrack, None)];
    assert Quiet(a.conversations + fresh_) == Quiet(a.conversations) + fresh_;
    assert Quiet(b.conversations + fresh_) == Quiet(b.conversations) + fresh_;
  }

  lemma OtherStepAgrees(a: State, b: State, step: Step)
    requires Muted(a) == Muted(b) && !NoteStep(a, step) && !NoteStep(b, step)
    requires step.Insert? ==> step.call !in a.calls && step.call !in b.calls
    ensures Muted(Apply(a, step)) == Muted(Apply(b, step))
  {
    hide Muted;
    match step
    case Insert(call, input) => InsertAgrees(a, b, call, input);
    case Look(call) => LookAgrees(a, b, call);
    case Commit(call) => CommitAgrees(a, b, call);
    case Create(_, _) => CreateAgrees(a, b, step);
    case Tick(ms) => TickAgrees(a, b, ms);
    case _ => EditAgrees(a, b, step);
  }

  lemma TickAgrees(a: State, b: State, ms: nat)
    requires Muted(a) == Muted(b)
    ensures Muted(Apply(a, Tick(ms))) == Muted(Apply(b, Tick(ms)))
  {
  }

  lemma StepKeepsNotesInert(st: State, step: Step)
    requires NotesInert(st)
    ensures NotesInert(Apply(st, step))
  {
  }

  // b has no notes and otherwise agrees with a: whatever is not a note step keeps both facts.
  lemma Simulated(a: State, b: State, step: Step)
    requires Muted(a) == Muted(b) && NoNotes(b) && !NoteStep(a, step)
    requires step.Insert? ==> step.call !in a.calls
    ensures Muted(Apply(a, step)) == Muted(Apply(b, step)) && NoNotes(Apply(b, step))
    ensures step.Insert? ==> step.call !in b.calls
    ensures !NoteStep(b, step)
  {
    assert b.calls == SpokenCalls(b.calls);
    OtherStepAgrees(a, b, step);
  }

  lemma {:induction false} NotesLeaveNoTraceFrom(a: State, b: State, steps: seq<Step>)
    requires Muted(a) == Muted(b) && NotesInert(a) && NoNotes(b) && FreshCalls(a, steps)
    ensures Muted(Run(a, steps)) == Muted(Run(b, WithoutNotes(a, steps)))
    decreases steps
  {
    hide Muted;
    hide Apply;
    if steps != [] {
      StepKeepsNotesInert(a, steps[0]);
      if NoteStep(a, steps[0]) {
        NoteStepIsMute(a, steps[0]);
        NotesLeaveNoTraceFrom(Apply(a, steps[0]), b, steps[1..]);
      } else {
        Simulated(a, b, steps[0]);
        NotesLeaveNoTraceFrom(Apply(a, steps[0]), Apply(b, steps[0]), steps[1..]);
        var rest := WithoutNotes(Apply(a, steps[0]), steps[1..]);
        assert ([steps[0]] + rest)[1..] == rest;
      }
    }
  }

  // What the merchant's side can see of a conversation.
  ghost predicate SameToMerchant(a: State, b: State, id: nat) {
    && MerchantHistory(a.messages, id) == MerchantHistory(b.messages, id)
    && (id < |a.conversations| <==> id < |b.conversations|)
    && (id < |a.conversations| ==>
          var c, d := a.conversations[id], b.conversations[id];
          c.unreadCount == d.unreadCount && c.firstReplyAt == d.firstReplyAt && c.slaState == d.slaState
          && c.status == d.status && c.firstResponseDueAt == d.firstResponseDueAt)
  }

  lemma {:induction false} SpokenKeepsMerchantHistory(messages: seq<Message>, id: nat)
    ensures MerchantHistory(Spoken(messages), id) == MerchantHistory(messages, id)
  {
    if messages != [] {
      var before, m := messages[..|messages| - 1], messages[|messages| - 1];
      SpokenKeepsMerchantHistory(before, id);
      if IsNote(m.input) {
        assert MerchantHistory(before, id) + [] == MerchantHistory(before, id);
        assert Spoken(before) + [] == Spoken(before);
      } else {
        assert (Spoken(before) + [m])[..|Spoken(before)|] == Spoken(before);
      }
    }
  }

  lemma MutedIsEnough(a: State, b: State, id: nat)
    requires Muted(a) == Muted(b)
    ensures SameToMerchant(a, b, id)
  {
    SpokenKeepsMerchantHistory(a.messages, id);
    SpokenKeepsMerchantHistory(b.messages, id);
    SameConversation(a, b, id);
  }

  // Two runs, in any interleaving, that differ only in the steps of internal notes show the merchant's side the
  // same history, unread count, first reply and SLA state for every conversation.
  lemma NotesAreInvisible(steps1: seq<Step>, steps2: seq<Step>, id: nat)
    requires FreshCalls(Initial, steps1) && FreshCalls(Initial, steps2)
    requires WithoutNotes(Initial, steps1) == WithoutNotes(Initial, steps2)
    ensures SameToMerchant(Run(Initial, steps1), Run(Initial, steps2), id)
  {
    NotesLeaveNoTraceFrom(Initial, Initial, steps1);
    NotesLeaveNoTraceFrom(Initial, Initial, steps2);
    MutedIsEnough(Run(Initial, steps1), Run(Initial, steps2), id);
  }

  // The exception the code leaves open: an internal message, which the merchant's history never shows, bumps the
  // unread count exactly when its sender is MERCHANT.
  lemma InternalCountsIffMerchant(st: State, input: Input, call: nat)
    requires input.conversationId < |st.conversations| && input.internal && call !in st.calls
    ensures var st', id := Persist(st, input, call), input.conversationId;
            && MerchantHistory(st'.messages, id) == MerchantHistory(st.messages, id)
            && (st'.conversations[id].unreadCount != st.conversations[id].unreadCount <==> input.sender == Merchant)
  {
    var m := Message(input, st.now);
    assert (st.messages + [m])[..|st.messages|] == st.messages;
  }

  // ----- what the counters mean -----

  // Merchant messages of a conversation among messages[from..].
  ghost function MerchantMessages(messages: seq<Message>, id: nat, from: nat): nat {
    if |messages| <= from then 0
    else
      var m := messages[|messages| - 1].input;
      MerchantMessages(messages[..|messages| - 1], id, from)
      + (if m.conversationId == id && m.sender == Merchant then 1 else 0)
  }

  // The creation time of the first reply in a conversation.
  ghost function FirstReply(messages: seq<Message>, id: nat): Option<int> {
    if messages == [] then None
    else
      var before := FirstReply(messages[..|messages| - 1], id);
      var m := messages[|messages| - 1];
      if before.None? && m.input.conversationId == id && IsReply(m.input) then Some(m.createdAt) else before
  }

  ghost function MarkOf(st: State, id: nat): nat {
    if id in st.readMark then st.readMark[id] else 0
  }

  // A call is pending between its insert and its commit.
  ghost predicate ReplyPending(st: State, id: nat, call: nat) {
    call in st.calls && st.calls[call].message.input.conversationId == id && IsReply(st.calls[call].message.input)
  }

  // Replies to one conversation never overlap: a reply is inserted only when no other is pending there.
  ghost predicate RepliesInTurn(st: State, steps: seq<Step>)
    decreases steps
  {
    steps != [] ==>
      && (steps[0].Insert? && IsReply(steps[0].input) ==>
            forall k :: !ReplyPending(st, steps[0].input.conversationId, k))
      && RepliesInTurn(Apply(st, steps[0]), steps[1..])
  }

  // The stamp is the first reply's time; while a reply is pending it may still owe its own stamp.
  ghost predicate StampInv(st: State, id: nat)
    requires id < |st.conversations|
  {
    var stamp := st.conversations[id].firstReplyAt;
    var first := FirstReply(st.messages, id);
    && (forall k, l :: ReplyPending(st, id, k) && ReplyPending(st, id, l) ==> k == l)
    && (stamp.Some? ==> stamp == first)
    && (stamp.None? && first.Some? ==> exists k :: ReplyPending(st, id, k))
    && (forall k :: ReplyPending(st, id, k) ==>
          var pc := st.calls[k];
          && (stamp.None? ==> first == Some(pc.message.createdAt))
          && (pc.decided.Some? ==> pc.decided.value.stamp == stamp.None?))
  }

  ghost predicate CallsInv(st: State) {
    && (forall k :: k in st.calls ==> st.calls[k].message.input.conversationId < |st.conversations|)
    && (forall k :: k in st.calls && !IsReply(st.calls[k].message.input) ==>
          st.calls[k].decided == Some(Decision(false, false)))
    && (forall id :: id >= |st.conversations| ==> FirstReply(st.messages, id).None?)
  }

  lemma FirstReplyAppend(messages: seq<Message>, m: Message, id: nat)
    ensures FirstReply(messages + [m], id) ==
      if FirstReply(messages, id).None? && m.input.conversationId == id && IsReply(m.input) then Some(m.createdAt)
      else FirstReply(messages, id)
  {
    assert (messages + [m])[..|messages|] == messages;
  }

  lemma StepKeepsCallsInv(st: State, step: Step)
    requires CallsInv(st)
    ensures CallsInv(Apply(st, step)) && |Apply(st, step).conversations| >= |st.conversations|
  {
    if step.Insert? {
      forall id: nat
        ensures FirstReply(st.messages + [Message(step.input, st.now)], id)
          == if FirstReply(st.messages, id).None? && step.input.conversationId == id && IsReply(step.input)
             then Some(st.now) else FirstReply(st.messages, id)
      {
        FirstReplyAppend(st.messages, Message(step.input, st.now), id);
      }
    }
  }

  lemma InsertKeepsStamp(st: State, call: nat, input: Input, id: nat)
    requires CallsInv(st) && id < |st.conversations| && StampInv(st, id)
    requires call !in st.calls
    requires IsReply(input) ==> forall k :: !ReplyPending(st, input.conversationId, k)
    ensures StampInv(ApplyInsert(st, call, input), id)
  {
    var st' := ApplyInsert(st, call, input);
    var m := Message(input, st.now);
    FirstReplyAppend(st.messages, m, id);
    if st' != st {
      forall k
        ensures ReplyPending(st', id, k) <==> ReplyPending(st, id, k) || (k == call && input.conversationId == id && IsReply(input))
      {
      }
      if input.conversationId == id && IsReply(input) {
        assert ReplyPending(st', id, call);
      } else if exists k :: ReplyPending(st, id, k) {
        var k :| ReplyPending(st, id, k);
        assert ReplyPending(st', id, k);
      }
    }
  }

  lemma LookKeepsStamp(st: State, call: nat, id: nat)
    requires CallsInv(st) && id < |st.conversations| && StampInv(st, id)
    ensures StampInv(ApplyLook(st, call), id)
  {
    var st' := ApplyLook(st, call);
    forall k
      ensures ReplyPending(st', id, k) <==> ReplyPending(st, id, k)
    {
    }
    if exists k :: ReplyPending(st, id, k) {
      var k :| ReplyPending(st, id, k);
      assert ReplyPending(st', id, k);
    }
  }

  lemma CommitKeepsStamp(st: State, call: nat, id: nat)
    requires CallsInv(st) && id < |st.conversations| && StampInv(st, id)
    ensures StampInv(ApplyCommit(st, call), id)
  {
    var st' := ApplyCommit(st, call);
    if st' != st {
      forall k
        ensures ReplyPending(st', id, k) <==> ReplyPending(st, id, k) && k != call
      {
      }
      if ReplyPending(st, id, call) {
        assert forall k :: !ReplyPending(st', id, k);
      } else if exists k :: ReplyPending(st, id, k) {
        var k :| ReplyPending(st, id, k);
        assert ReplyPending(st', id, k);
      }
    }
  }

  lemma EditKeepsStamp(st: State, step: Step, id: nat)
    requires id < |st.conversations| && StampInv(st, id)
    requires step.MarkRead? || step.SetStatus? || step.SetSla? || step.Tick? || step.Create?
    ensures StampInv(Apply(st, step), id)
  {
    var st' := Apply(st, step);
    forall k
      ensures ReplyPending(st', id, k) <==> ReplyPending(st, id, k)
    {
    }
    if exists k :: ReplyPending(st, id, k) {
      var k :| ReplyPending(st, id, k);
      assert ReplyPending(st', id, k);
    }
  }

  lemma StepKeepsStamp(st: State, step: Step, id: nat)
    requires CallsInv(st) && id < |st.conversations| && StampInv(st, id)
    requires step.Insert? ==> step.call !in st.calls
    requires step.Insert? && IsReply(step.input) ==> forall k :: !ReplyPending(st, step.input.conversationId, k)
    ensures id < |Apply(st, step).conversations| && StampInv(Apply(st, step), id)
  {
    hide StampInv;
    StepKeepsCallsInv(st, step);
    match step
    case Insert(call, input) => InsertKeepsStamp(st, call, input, id);
    case Look(call) => LookKeepsStamp(st, call, id);
    case Commit(call) => CommitKeepsStamp(st, call, id);
    case _ => EditKeepsStamp(st, step, id);
  }

  lemma NewConversationStamp(st: State, step: Step, id: nat)
    requires CallsInv(st) && |st.conversations| <= id < |Apply(st, step).conversations|
    ensures StampInv(Apply(st, step), id)
  {
    assert forall k :: !ReplyPending(Apply(st, step), id, k);
  }

  // Where replies to a conversation take turns, the stamp is set exactly once: after any run it is the time of the
  // conversation's first reply, unless that reply's own call has not finished yet.
  lemma {:induction false} StampIsFirstReply(st: State, steps: seq<Step>, id: nat)
    requires CallsInv(st) && (id < |st.conversations| ==> StampInv(st, id))
    requires FreshCalls(st, steps) && RepliesInTurn(st, steps)
    ensures var st' := Run(st, steps);
            id < |st'.conversations| ==>
              var stamp, first := st'.conversations[id].firstReplyAt, FirstReply(st'.messages, id);
              && (stamp.Some? ==> stamp == first)
              && ((forall k :: !ReplyPending(st', id, k)) ==> stamp == first)
    decreases steps
  {
    hide Apply;
    if steps != [] {
      var st' := Apply(st, steps[0]);
      StepKeepsCallsInv(st, steps[0]);
      if id < |st.conversations| {
        StepKeepsStamp(st, steps[0], id);
      } else if id < |st'.conversations| {
        NewConversationStamp(st, steps[0], id);
      }
      StampIsFirstReply(st', steps[1..], id);
    }
  }

  lemma StampIsFirstReplyFromTheStart(steps: seq<Step>, id: nat)
    requires FreshCalls(Initial, steps) && RepliesInTurn(Initial, steps)
    ensures var st := Run(Initial, steps);
            id < |st.conversations| && (forall k :: !ReplyPending(st, id, k)) ==>
              st.conversations[id].firstReplyAt == FirstReply(st.messages, id)
  {
    StampIsFirstReply(Initial, steps, id);
  }

  // The stamp of a conversation is set at most once, provided replies take turns.
  lemma {:induction false} StampNeverChanges(st: State, steps: seq<Step>, id: nat)
    requires CallsInv(st) && id < |st.conversations| && StampInv(st, id)
    requires FreshCalls(st, steps) && RepliesInTurn(st, steps)
    requires st.conversations[id].firstReplyAt.Some?
    ensures id < |Run(st, steps).conversations|
    ensures Run(st, steps).conversations[id].firstReplyAt == st.conversations[id].firstReplyAt
    decreases steps
  {
    hide Apply;
    if steps != [] {
      StepKeepsCallsInv(st, steps[0]);
      StepKeepsStamp(st, steps[0], id);
      SetStampStays(st, steps[0], id);
      StampNeverChanges(Apply(st, steps[0]), steps[1..], id);
    }
  }

  lemma SetStampStays(st: State, step: Step, id: nat)
    requires CallsInv(st) && id < |st.conversations| && StampInv(st, id) && st.conversations[id].firstReplyAt.Some?
    ensures id < |Apply(st, step).conversations|
    ensures Apply(st, step).conversations[id].firstReplyAt == st.conversations[id].firstReplyAt
  {
    if step.Commit? && step.call in st.calls && st.calls[step.call].message.input.conversationId == id {
      assert IsReply(st.calls[step.call].message.input) ==> ReplyPending(st, id, step.call);
    }
  }

  // Both replies inserted, the second some time after the first, and both having looked.
  ghost function BothLooked(st: State, m1: Input, m2: Input, wait: nat): State {
    Apply(Apply(Apply(Apply(Apply(st, Insert(0, m1)), Tick(wait)), Insert(1, m2)), Look(0)), Look(1))
  }

  lemma BothDecideToStamp(st: State, m1: Input, m2: Input, id: nat, wait: nat)
    requires st.calls == map[] && id < |st.conversations| && st.conversations[id].firstReplyAt.None?
    requires IsReply(m1) && IsReply(m2) && m1.conversationId == id && m2.conversationId == id
    ensures var a, b := Message(m1, st.now), Message(m2, st.now + wait);
            var c := st.conversations[id];
            BothLooked(st, m1, m2, wait)
            == st.(now := st.now + wait, messages := st.messages + [a] + [b],
                   calls := map[0 := PendingCall(a, Some(Decide(c, a))), 1 := PendingCall(b, Some(Decide(c, b)))])
  {
  }

  // Two replies that overlap both see no stamp, and the later commit overwrites the earlier one: the stamp
  // changes once set and ends up as the time of a reply that was not the first.
  lemma OverlappingRepliesRestamp(st: State, m1: Input, m2: Input, id: nat, wait: nat)
    requires st.calls == map[] && id < |st.conversations| && wait > 0
    requires st.conversations[id].firstReplyAt.None? && FirstReply(st.messages, id).None?
    requires IsReply(m1) && IsReply(m2) && m1.conversationId == id && m2.conversationId == id
    ensures var before := Apply(BothLooked(st, m1, m2, wait), Commit(0));
            var after := Apply(before, Commit(1));
            && id < |before.conversations| && id < |after.conversations|
            && before.conversations[id].firstReplyAt == Some(st.now)
            && after.conversations[id].firstReplyAt == Some(st.now + wait)
            && FirstReply(after.messages, id) == Some(st.now)
  {
    BothDecideToStamp(st, m1, m2, id, wait);
    hide BothLooked;
    FirstReplyAppend(st.messages, Message(m1, st.now), id);
    FirstReplyAppend(st.messages + [Message(m1, st.now)], Message(m2, st.now + wait), id);
  }

  // A step that changes the stamp a conversation already has.
  ghost predicate StampHolds(st: State, step: Step, id: nat) {
    id < |st.conversations| && st.conversations[id].firstReplyAt.Some? ==>
      var st' := Apply(st, step);
      id < |st'.conversations| && st'.conversations[id].firstReplyAt == st.conversations[id].firstReplyAt
  }

  ghost predicate StampAlwaysHolds(st: State, steps: seq<Step>, id: nat)
    decreases steps
  {
    steps == [] || (StampHolds(st, steps[0], id) && StampAlwaysHolds(Apply(st, steps[0]), steps[1..], id))
  }

  // The schedule of the replies to a conversation: who has looked before any reply was committed there (`early`,
  // while `open`), and when those of them that commit in the run were created.
  ghost predicate ReplyLook(st: State, step: Step, id: nat) {
    step.Look? && ReplyPending(st, id, step.call)
  }

  ghost predicate ReplyCommit(st: State, step: Step, id: nat) {
    step.Commit? && ReplyPending(st, id, step.call) && st.calls[step.call].decided.Some?
  }

  ghost function NextEarly(st: State, step: Step, id: nat, early: set<nat>, open: bool): set<nat> {
    if ReplyCommit(st, step, id) then early - {step.call}
    else if open && ReplyLook(st, step, id) then early + {step.call}
    else early
  }

  ghost function CommittedEarly(st: State, step: Step, id: nat, early: set<nat>): seq<int> {
    if ReplyCommit(st, step, id) && step.call in early then [st.calls[step.call].message.createdAt] else []
  }

  ghost function EarlyTimes(st: State, steps: seq<Step>, id: nat, early: set<nat>, open: bool): seq<int>
    decreases steps
  {
    if steps == [] then []
    else
      CommittedEarly(st, steps[0], id, early)
      + EarlyTimes(Apply(st, steps[0]), steps[1..], id, NextEarly(st, steps[0], id, early, open),
                   open && !ReplyCommit(st, steps[0], id))
  }

  ghost predicate OneTime(times: seq<int>) {
    forall i, j :: 0 <= i < |times| && 0 <= j < |times| ==> times[i] == times[j]
  }

  ghost predicate AllAt(times: seq<int>, t: int) {
    forall i :: 0 <= i < |times| ==> times[i] == t
  }

  // While no reply has committed there is no stamp, and those who looked all decided to stamp; afterwards there is
  // one, and exactly the early ones still carry that decision.
  ghost predicate EarlyInv(st: State, id: nat, early: set<nat>, open: bool) {
    && (forall k :: k in early ==> ReplyPending(st, id, k))
    && (forall k :: ReplyPending(st, id, k) ==>
          (k in early <==> st.calls[k].decided.Some? && st.calls[k].decided.value.stamp))
    && (open ==> forall k :: ReplyPending(st, id, k) && st.calls[k].decided.Some? ==> k in early)
    && (open <==> (id < |st.conversations| ==> st.conversations[id].firstReplyAt.None?))
  }

  lemma EarlyInvInsert(st: State, call: nat, input: Input, id: nat, early: set<nat>, open: bool)
    requires CallsInv(st) && EarlyInv(st, id, early, open)
    ensures EarlyInv(ApplyInsert(st, call, input), id, early, open)
  {
    forall k | ReplyPending(ApplyInsert(st, call, input), id, k) && k != call
      ensures ReplyPending(st, id, k)
    {
    }
  }

  lemma EarlyInvLook(st: State, call: nat, id: nat, early: set<nat>, open: bool)
    requires CallsInv(st) && EarlyInv(st, id, early, open)
    ensures EarlyInv(ApplyLook(st, call), id, NextEarly(st, Look(call), id, early, open), open)
  {
    var st' := ApplyLook(st, call);
    assert st'.conversations == st.conversations;
    assert forall k :: ReplyPending(st', id, k) <==> ReplyPending(st, id, k);
  }

  lemma EarlyInvCommit(st: State, call: nat, id: nat, early: set<nat>, open: bool)
    requires CallsInv(st) && EarlyInv(st, id, early, open)
    ensures EarlyInv(ApplyCommit(st, call), id, NextEarly(st, Commit(call), id, early, open),
                     open && !ReplyCommit(st, Commit(call), id))
  {
    var st' := ApplyCommit(st, call);
    assert forall k :: ReplyPending(st', id, k) ==> ReplyPending(st, id, k) && st'.calls[k] == st.calls[k];
  }

  lemma EarlyInvStep(st: State, step: Step, id: nat, early: set<nat>, open: bool)
    requires CallsInv(st) && EarlyInv(st, id, early, open)
    ensures EarlyInv(Apply(st, step), id, NextEarly(st, step, id, early, open), open && !ReplyCommit(st, step, id))
  {
    match step
    case Insert(call, input) =>
      EarlyInvInsert(st, call, input, id, early, open);
      hide EarlyInv;
    case Look(call) =>
      EarlyInvLook(st, call, id, early, open);
      hide EarlyInv;
    case Commit(call) =>
      EarlyInvCommit(st, call, id, early, open);
      hide EarlyInv;
    case _ =>
      hide CallsInv;
      assert Apply(st, step).calls == st.calls;
      assert forall k :: ReplyPending(Apply(st, step), id, k) <==> ReplyPending(st, id, k);
  }

  // What one step does to the stamp, in terms of the schedule.
  lemma StampStep(st: State, step: Step, id: nat, early: set<nat>, open: bool)
    requires CallsInv(st) && EarlyInv(st, id, early, open)
    ensures var st', times := Apply(st, step), CommittedEarly(st, step, id, early);
            && (open && ReplyCommit(st, step, id) ==>
                  |times| == 1 && id < |st'.conversations| && st'.conversations[id].firstReplyAt == Some(times[0]))
            && (open ==> StampHolds(st, step, id) && (!ReplyCommit(st, step, id) ==> times == []))
            && (!open ==>
                  && id < |st.conversations| && id < |st'.conversations|
                  && (times == [] ==> st'.conversations[id].firstReplyAt == st.conversations[id].firstReplyAt)
                  && (times != [] ==> |times| == 1 && st'.conversations[id].firstReplyAt == Some(times[0])))
  {
  }

  lemma TimesAppend(a: seq<int>, b: seq<int>, t: int)
    requires |a| <= 1
    ensures AllAt(a + b, t) <==> AllAt(a, t) && AllAt(b, t)
    ensures |a| == 1 ==> (OneTime(a + b) <==> AllAt(b, a[0]))
    ensures a == [] ==> a + b == b
  {
    if AllAt(a + b, t) {
      assert forall i :: 0 <= i < |a| ==> (a + b)[i] == a[i];
      assert forall i :: 0 <= i < |b| ==> (a + b)[|a| + i] == b[i];
    }
    if |a| == 1 && OneTime(a + b) {
      assert (a + b)[0] == a[0];
      assert forall i :: 0 <= i < |b| ==> (a + b)[1 + i] == b[i];
    }
  }

  // Once there is a stamp, it holds exactly when whoever looked too early was created at that very time.
  lemma {:induction false} StampHoldsIff(st: State, steps: seq<Step>, id: nat, early: set<nat>)
    requires CallsInv(st) && EarlyInv(st, id, early, false)
    ensures StampAlwaysHolds(st, steps, id) <==>
      AllAt(EarlyTimes(st, steps, id, early, false), st.conversations[id].firstReplyAt.value)
    decreases steps
  {
    assert id < |st.conversations| && st.conversations[id].firstReplyAt.Some?;
    hide Apply;
    hide CallsInv;
    hide EarlyInv;
    if steps != [] {
      var st', next := Apply(st, steps[0]), NextEarly(st, steps[0], id, early, false);
      StampStep(st, steps[0], id, early, false);
      EarlyInvStep(st, steps[0], id, early, false);
      StepKeepsCallsInv(st, steps[0]);
      StampHoldsIff(st', steps[1..], id, next);
      var times := CommittedEarly(st, steps[0], id, early);
      hide NextEarly;
      hide CommittedEarly;
      TimesAppend(times, EarlyTimes(st', steps[1..], id, next, false), st.conversations[id].firstReplyAt.value);
    }
  }

  lemma {:induction false} StampedOnceFrom(st: State, steps: seq<Step>, id: nat, early: set<nat>)
    requires CallsInv(st) && EarlyInv(st, id, early, true)
    ensures StampAlwaysHolds(st, steps, id) <==> OneTime(EarlyTimes(st, steps, id, early, true))
    decreases steps
  {
    hide Apply;
    hide CallsInv;
    hide EarlyInv;
    if steps != [] {
      var st', next := Apply(st, steps[0]), NextEarly(st, steps[0], id, early, true);
      StampStep(st, steps[0], id, early, true);
      EarlyInvStep(st, steps[0], id, early, true);
      StepKeepsCallsInv(st, steps[0]);
      var times := CommittedEarly(st, steps[0], id, early);
      if ReplyCommit(st, steps[0], id) {
        StampHoldsIff(st', steps[1..], id, next);
        hide NextEarly;
        hide CommittedEarly;
        TimesAppend(times, EarlyTimes(st', steps[1..], id, next, false), times[0]);
      } else {
        StampedOnceFrom(st', steps[1..], id, next);
        hide NextEarly;
        hide CommittedEarly;
        TimesAppend(times, EarlyTimes(st', steps[1..], id, next, true), 0);
      }
    }
  }

  // In any interleaving, a conversation's stamp never changes once set exactly when all replies that look before the
  // first reply is committed there, and are themselves committed in the run, were created at the same time.
  lemma StampedOnceIff(steps: seq<Step>, id: nat)
    ensures StampAlwaysHolds(Initial, steps, id) <==> OneTime(EarlyTimes(Initial, steps, id, {}, true))
  {
    StampedOnceFrom(Initial, steps, id, {});
  }

  // ----- calls run one after another -----

  datatype Op =
    | Post(input: Input)
    | Edit(step: Step)

  predicate IsEdit(step: Step) {
    step.Create? || step.MarkRead? || step.SetStatus? || step.SetSla? || step.Tick?
  }

  function RunOps(st: State, ops: seq<Op>): State
    decreases ops
  {
    if ops == [] then st
    else
      var next := match ops[0]
        case Post(input) => Persist(st, input, 0)
        case Edit(step) => if IsEdit(step) then Apply(st, step) else st;
      RunOps(next, ops[1..])
  }

  // Nothing pending, and every counter says what it should.
  ghost predicate Settled(st: State) {
    && st.calls == map[]
    && (forall id :: 0 <= id < |st.conversations| ==>
          && MarkOf(st, id) <= |st.messages|
          && st.conversations[id].unreadCount == MerchantMessages(st.messages, id, MarkOf(st, id))
          && st.conversations[id].firstReplyAt == FirstReply(st.messages, id))
    && (forall m :: m in st.messages ==> m.input.conversationId < |st.conversations|)
    && (forall id :: id in st.readMark ==> id < |st.conversations|)
  }

  lemma MerchantMessagesAppend(messages: seq<Message>, m: Message, id: nat, from: nat)
    requires from <= |messages|
    ensures MerchantMessages(messages + [m], id, from) == MerchantMessages(messages, id, from)
      + (if m.input.conversationId == id && m.input.sender == Merchant then 1 else 0)
  {
    assert (messages + [m])[..|messages|] == messages;
  }

  lemma {:induction false} NoMessagesYet(messages: seq<Message>, id: nat, from: nat)
    requires forall m :: m in messages ==> m.input.conversationId != id
    ensures MerchantMessages(messages, id, from) == 0 && FirstReply(messages, id).None?
  {
    if messages != [] {
      assert messages[|messages| - 1] in messages;
      NoMessagesYet(messages[..|messages| - 1], id, from);
    }
  }

  lemma PersistSettled(st: State, input: Input)
    requires Settled(st)
    ensures Settled(Persist(st, input, 0))
  {
    var st' := Persist(st, input, 0);
    if st' != st {
      var m := Message(input, st.now);
      assert st'.calls == map[];
      assert st'.messages == st.messages + [m];
      forall id | 0 <= id < |st'.conversations|
        ensures st'.conversations[id].unreadCount == MerchantMessages(st'.messages, id, MarkOf(st', id))
        ensures st'.conversations[id].firstReplyAt == FirstReply(st'.messages, id)
      {
        MerchantMessagesAppend(st.messages, m, id, MarkOf(st, id));
        FirstReplyAppend(st.messages, m, id);
      }
    }
  }

  lemma EditSettled(st: State, step: Step)
    requires Settled(st) && IsEdit(step)
    ensures Settled(Apply(st, step))
  {
    var st' := Apply(st, step);
    forall id | 0 <= id < |st'.conversations|
      ensures MarkOf(st', id) <= |st'.messages|
      ensures st'.conversations[id].unreadCount == MerchantMessages(st'.messages, id, MarkOf(st', id))
      ensures st'.conversations[id].firstReplyAt == FirstReply(st'.messages, id)
    {
      if id < |st.conversations| {
        assert MarkOf(st, id) <= |st.messages|;
      } else {
        assert id !in st.readMark;
        assert MarkOf(st', id) == 0;
        assert forall m :: m in st.messages ==> m.input.conversationId != id;
        NoMessagesYet(st.messages, id, MarkOf(st', id));
      }
    }
  }

  // unreadCount is the number of merchant messages since the last markRead, and firstReplyAt the first reply's time.
  lemma {:induction false} CountersTellTheTruth(st: State, ops: seq<Op>)
    requires Settled(st)
    ensures Settled(RunOps(st, ops))
    decreases ops
  {
    if ops != [] {
      match ops[0] {
        case Post(input) => PersistSettled(st, input);
        case Edit(step) => if IsEdit(step) { EditSettled(st, step); }
      }
      hide Settled;
      hide Persist;
      hide Apply;
      var next := match ops[0]
        case Post(input) => Persist(st, input, 0)
        case Edit(step) => if IsEdit(step) then Apply(st, step) else st;
      CountersTellTheTruth(next, ops[1..]);
    }
  }

  lemma CountersTellTheTruthFromTheStart(ops: seq<Op>, id: nat)
    requires id < |RunOps(Initial, ops).conversations|
    ensures var st := RunOps(Initial, ops);
            && MarkOf(st, id) <= |st.messages|
            && st.conversations[id].unreadCount == MerchantMessages(st.messages, id, MarkOf(st, id))
            && st.conversations[id].firstReplyAt == FirstReply(st.messages, id)
  {
    assert Settled(Initial);
    CountersTellTheTruth(Initial, ops);
  }

  // A call changes the SLA state exactly when its message is the conversation's first reply and in time, and then to MET.
  lemma MetExactlyOnTimelyFirstReply(st: State, input: Input)
    requires Settled(st) && input.conversationId < |st.conversations|
    ensures var id := input.conversationId;
            var c, c' := st.conversations[id], Persist(st, input, 0).conversations[id];
            && (c'.slaState != c.slaState <==>
                  && IsReply(input) && FirstReply(st.messages, id).None?
                  && c.firstResponseDueAt.Some? && st.now <= c.firstResponseDueAt.value
                  && c.slaState in {OnTrack, Breaching})
            && (c'.slaState != c.slaState ==> c'.slaState == Met)
  {
  }
}

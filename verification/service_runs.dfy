/** The message and chat services running concurrently. A service call is a few checks, each one
    query, followed by transactions; a step below is one of them, so a run interleaves any number
    of calls at every point where the services let go of the database. A call may also end at any
    point, which is what an exception or a lost connection looks like from here. */
module ServiceRuns {
  import opened Wrappers
  import opened SymbolicCrypto
  import opened Sequences
  import opened Tables
  import opened Queries

  type CallId = nat

  /** What a call that is under way still holds in its local variables. */
  datatype Call =
    | Sending(chat: ChatId, sender: UserId)                    // SendChatMessage, checks passed
    | Stored(message: Message)                                 // SendChatMessage, Add committed
    | Updated(message: Message)                                // SendChatMessage, UpdateLastMessage committed
    | Reading(id: MessageId, sender: UserId, reader: UserId)   // MarkAsRead, message found
    | Delivering(user: UserId, todo: seq<Message>)             // GetUndelivered, list fetched
    | DeletingMessage(id: MessageId, requester: UserId)
    | DeletingChat(chat: ChatId, requester: UserId)

  /** How the last lookup of a send ended: with the users to notify, or without a chat, which the
      code then dereferences all the same. */
  datatype Lookup = Recipients(users: set<UserId>) | EmptyOptional

  /** `usedMessages` and `usedChats` are all ids generated so far; a generated id is always new. */
  datatype System = System(
    tables: Tables, usedMessages: set<MessageId>, usedChats: set<ChatId>, calls: map<CallId, Call>,
    lookups: map<MessageId, Lookup>)

  datatype Step =
    | Register(user: UserId, publicKey: Term)
    | CreateChat(chat: ChatId, at: Time, members: seq<UserId>)
    | StartSend(call: CallId, chat: ChatId, sender: UserId)
    | StoreMessage(call: CallId, message: Message, keys: map<UserId, Term>, order: seq<UserId>)
    | UpdateLast(call: CallId)
    | LookUp(call: CallId)
    | StartRead(call: CallId, id: MessageId, reader: UserId)
    | MarkRead(call: CallId, now: Time)
    | StartDeliver(call: CallId, user: UserId, page: seq<Message>)
    | MarkDelivered(call: CallId, now: Time)
    | StartDeleteMessage(call: CallId, id: MessageId, requester: UserId)
    | FinishDeleteMessage(call: CallId)
    | StartDeleteChat(call: CallId, chat: ChatId, requester: UserId)
    | FinishDeleteChat(call: CallId)
    | End(call: CallId)

  const INITIAL := System(EMPTY, {}, {}, map[], map[])

  predicate Enabled(s: System, step: Step) {
    match step
    case Register(_, _) => true
    case CreateChat(c, at, _) => c !in s.usedChats && at != 0
    case StartSend(k, c, u) => k !in s.calls && IsParticipant(s.tables, c, u)
    case StoreMessage(k, m, keys, order) =>
      && k in s.calls && s.calls[k] == Sending(m.chat, m.sender)
      && m.id !in s.usedMessages && PassesValidator(m)
      && Elements(order) == keys.Keys && Distinct(order)
    case UpdateLast(k) => k in s.calls && s.calls[k].Stored?
    case LookUp(k) => k in s.calls && s.calls[k].Updated?
    case StartRead(k, id, u) => k !in s.calls && id in s.tables.messages && s.tables.messages[id].sender != u
    case MarkRead(k, _) => k in s.calls && s.calls[k].Reading?
    case StartDeliver(k, u, page) =>
      && k !in s.calls
      && forall m :: m in page ==> IsUndelivered(s.tables, u, m.id) && s.tables.messages[m.id] == m
    case MarkDelivered(k, _) => k in s.calls && s.calls[k].Delivering? && s.calls[k].todo != []
    case StartDeleteMessage(k, id, u) => k !in s.calls && id in s.tables.messages && s.tables.messages[id].sender == u
    case FinishDeleteMessage(k) => k in s.calls && s.calls[k].DeletingMessage?
    case StartDeleteChat(k, c, u) => k !in s.calls && IsParticipant(s.tables, c, u)
    case FinishDeleteChat(k) => k in s.calls && s.calls[k].DeletingChat?
    case End(k) => k in s.calls
  }

  /** The statements that the step commits as one transaction. */
  function Script(s: System, step: Step): seq<Statement>
    requires Enabled(s, step)
  {
    match step
    case Register(u, pk) => [InsertUser(u, pk)]
    case CreateChat(c, at, members) => AddChatScript(c, at, members)
    case StoreMessage(_, m, keys, order) => AddMessageScript(m, keys, order)
    case UpdateLast(k) => var m := s.calls[k].message; [SetLastMessage(m.chat, m.id, m.createdAt)]
    case MarkRead(k, now) => [UpsertRead(s.calls[k].id, s.calls[k].reader, now)]
    case MarkDelivered(k, now) => [UpsertDelivered(s.calls[k].todo[0].id, s.calls[k].user, now)]
    case FinishDeleteMessage(k) => [DeleteMessageRow(s.calls[k].id)]
    case FinishDeleteChat(k) => [DeleteChatRow(s.calls[k].chat)]
    case _ => []
  }

  /** The call after the step; None when the call is over. */
  function CallAfter(s: System, step: Step): Option<Call>
    requires Enabled(s, step)
  {
    match step
    case StartSend(_, c, u) => Some(Sending(c, u))
    case StoreMessage(_, m, _, _) => Some(Stored(m))
    case UpdateLast(k) => Some(Updated(s.calls[k].message))
    case StartRead(_, id, u) => Some(Reading(id, s.tables.messages[id].sender, u))
    case StartDeliver(_, u, page) => Some(Delivering(u, page))
    case MarkDelivered(k, _) => Some(Delivering(s.calls[k].user, s.calls[k].todo[1..]))
    case StartDeleteMessage(_, id, u) => Some(DeletingMessage(id, u))
    case StartDeleteChat(_, c, u) => Some(DeletingChat(c, u))
    case _ => None
  }

  function CallsAfter(s: System, step: Step, committed: bool): map<CallId, Call>
    requires Enabled(s, step)
  {
    if step.Register? || step.CreateChat? then s.calls
    else if committed && CallAfter(s, step).Some? then s.calls[step.call := CallAfter(s, step).value]
    else s.calls - {step.call}
  }

  /** The FindById at the end of SendChatMessage: everyone in the chat but the sender is notified. */
  function LookUpResult(t: Tables, m: Message): Lookup {
    if m.chat in t.chats then Recipients(Members(t, m.chat) - {m.sender}) else EmptyOptional
  }

  function LookupsAfter(s: System, step: Step): map<MessageId, Lookup>
    requires Enabled(s, step)
  {
    if step.LookUp? then s.lookups[s.calls[step.call].message.id := LookUpResult(s.tables, s.calls[step.call].message)]
    else s.lookups
  }

  /** A step whose transaction violates a constraint leaves the tables alone and ends its call. */
  function Next(s: System, step: Step): System
    requires Enabled(s, step)
  {
    var r := Replay(Script(s, step), s.tables);
    System(
      if r.Some? then r.value else s.tables,
      if step.StoreMessage? then s.usedMessages + {step.message.id} else s.usedMessages,
      if step.CreateChat? then s.usedChats + {step.chat} else s.usedChats,
      CallsAfter(s, step, r.Some?),
      LookupsAfter(s, step))
  }

  ghost predicate IsRun(states: seq<System>, steps: seq<Step>) {
    && |states| == |steps| + 1
    && states[0] == INITIAL
    && forall i {:trigger steps[i]} :: 0 <= i < |steps| ==> Enabled(states[i], steps[i]) && states[i + 1] == Next(states[i], steps[i])
  }

  /** What holds of the tables after every step. */
  ghost predicate StoreInv(t: Tables) {
    && ForeignKeys(t)
    && (forall p :: p in t.participants ==> t.participants[p].leftAt.None?)
    && (forall id :: id in t.messages ==> (t.messages[id].chat, t.messages[id].sender) in t.participants)
    && (forall c :: c in t.chats && t.chats[c].lastMessage.Some? ==>
          var m := t.messages[t.chats[c].lastMessage.value];
          m.chat == c && t.chats[c].lastTimestamp == Some(m.createdAt))
    && (forall k :: k in t.receipts ==> t.receipts[k].deliveredAt.Some? && t.messages[k.0].sender != k.1)
  }

  /** What a call relies on between its steps: the checks it made cannot become wrong, they can
      only lose their object. */
  ghost predicate CallInv(s: System, call: Call) {
    match call
    case Sending(c, u) => c in s.usedChats && (c in s.tables.chats ==> IsParticipant(s.tables, c, u))
    case Stored(m) => MessageKnown(s, m)
    case Updated(m) => MessageKnown(s, m)
    case Reading(id, sender, u) =>
      id in s.usedMessages && sender != u && (id in s.tables.messages ==> s.tables.messages[id].sender == sender)
    case Delivering(u, todo) => forall m :: m in todo ==> MessageKnown(s, m) && m.sender != u
    case DeletingMessage(id, u) => id in s.usedMessages && (id in s.tables.messages ==> s.tables.messages[id].sender == u)
    case DeletingChat(c, u) => c in s.usedChats && (c in s.tables.chats ==> IsParticipant(s.tables, c, u))
  }

  predicate MessageKnown(s: System, m: Message) {
    m.id in s.usedMessages && (m.id in s.tables.messages ==> s.tables.messages[m.id] == m)
  }

  ghost predicate SystemInv(s: System) {
    && StoreInv(s.tables)
    && s.tables.messages.Keys <= s.usedMessages
    && s.tables.chats.Keys <= s.usedChats
    && forall k :: k in s.calls ==> CallInv(s, s.calls[k])
  }

  /** Messages are never altered, no row under an old id comes back, and a participant stays one
      for as long as the chat exists. */
  ghost predicate Persist(t: Tables, t': Tables, newMessages: set<MessageId>, newChats: set<ChatId>) {
    && (forall id :: id in t'.messages && id !in newMessages ==> id in t.messages && t'.messages[id] == t.messages[id])
    && (forall c :: c in t'.chats && c !in newChats ==> c in t.chats)
    && (forall p :: p in t.participants && p.0 in t'.chats ==> p in t'.participants)
  }

  function NewMessages(step: Step): set<MessageId> {
    if step.StoreMessage? then {step.message.id} else {}
  }

  function NewChats(step: Step): set<ChatId> {
    if step.CreateChat? then {step.chat} else {}
  }

  lemma OneStatement(st: Statement, t: Tables)
    ensures Replay([st], t) == Exec(st, t)
  {
    assert [st][1..] == [];
  }

  /** Everything a call's own transaction can do to the tables, named once. */
  ghost predicate Effect(s: System, step: Step, t': Tables)
    requires Enabled(s, step)
  {
    var t := s.tables;
    t' == t ||
    match step
    case Register(u, pk) => u !in t.users && t' == t.(users := t.users[u := pk])
    case CreateChat(c, at, members) =>
      c !in t.chats && Elements(members) <= t.users.Keys && t' == WithChat(t, c, at, Elements(members))
    case StoreMessage(_, m, keys, _) =>
      m.id !in t.messages && m.chat in t.chats && m.sender in t.users && keys.Keys <= t.users.Keys && t' == WithMessage(t, m, keys)
    case UpdateLast(k) => Some(t') == Exec(SetLastMessage(s.calls[k].message.chat, s.calls[k].message.id, s.calls[k].message.createdAt), t)
    case MarkRead(k, now) => Some(t') == Exec(UpsertRead(s.calls[k].id, s.calls[k].reader, now), t)
    case MarkDelivered(k, now) => Some(t') == Exec(UpsertDelivered(s.calls[k].todo[0].id, s.calls[k].user, now), t)
    case FinishDeleteMessage(k) => t' == DeleteMessages(t, {s.calls[k].id} * t.messages.Keys)
    case FinishDeleteChat(k) => t' == DeleteChat(t, s.calls[k].chat)
    case _ => false
  }

  lemma StepEffect(s: System, step: Step)
    requires Enabled(s, step) && ForeignKeys(s.tables)
    ensures Effect(s, step, Next(s, step).tables)
  {
    match step
    case CreateChat(c, at, members) => AddChatAllOrNothing(s.tables, c, at, members);
    case StoreMessage(_, m, keys, order) => AddMessageAllOrNothing(s.tables, m, keys, order);
    case Register(u, pk) => OneStatement(InsertUser(u, pk), s.tables);
    case UpdateLast(k) => OneStatement(SetLastMessage(s.calls[k].message.chat, s.calls[k].message.id, s.calls[k].message.createdAt), s.tables);
    case MarkRead(k, now) => OneStatement(UpsertRead(s.calls[k].id, s.calls[k].reader, now), s.tables);
    case MarkDelivered(k, now) => OneStatement(UpsertDelivered(s.calls[k].todo[0].id, s.calls[k].user, now), s.tables);
    case FinishDeleteMessage(k) => OneStatement(DeleteMessageRow(s.calls[k].id), s.tables);
    case FinishDeleteChat(k) => OneStatement(DeleteChatRow(s.calls[k].chat), s.tables);
    case _ =>
  }

  lemma EffectPersists(s: System, step: Step, t': Tables)
    requires Enabled(s, step) && Effect(s, step, t')
    ensures Persist(s.tables, t', NewMessages(step), NewChats(step))
  {
  }

  lemma CallInvPersists(s: System, s': System, call: Call, newMessages: set<MessageId>, newChats: set<ChatId>)
    requires CallInv(s, call) && Persist(s.tables, s'.tables, newMessages, newChats)
    requires newMessages !! s.usedMessages && newChats !! s.usedChats
    requires s.usedMessages <= s'.usedMessages && s.usedChats <= s'.usedChats
    ensures CallInv(s', call)
  {
  }

  lemma DeleteMessagesKeepsStore(t: Tables, ids: set<MessageId>)
    requires StoreInv(t)
    ensures StoreInv(DeleteMessages(t, ids))
  {
    DeleteMessagesKeepsForeignKeys(t, ids);
  }

  lemma DeleteChatKeepsStore(t: Tables, chat: ChatId)
    requires StoreInv(t)
    ensures StoreInv(DeleteChat(t, chat))
  {
    var ids := MessagesOf(t, chat);
    var t1 := DeleteMessages(t, ids);
    DeleteMessagesKeepsStore(t, ids);
    DeleteChatKeepsForeignKeys(t, chat);
    assert forall id :: id in t1.messages ==> t1.messages[id].chat != chat;
  }

  lemma InsertMessageKeepsStore(t: Tables, m: Message)
    requires StoreInv(t) && m.id !in t.messages && m.chat in t.chats && m.sender in t.users
    requires (m.chat, m.sender) in t.participants
    ensures StoreInv(t.(messages := t.messages[m.id := m]))
  {
  }

  lemma AddKeysKeepsStore(t: Tables, rows: map<(MessageId, UserId), Term>)
    requires StoreInv(t) && forall k :: k in rows ==> k.0 in t.messages && k.1 in t.users
    ensures StoreInv(t.(keys := t.keys + rows))
  {
  }

  lemma WithMessageKeepsStore(t: Tables, m: Message, keys: map<UserId, Term>)
    requires StoreInv(t) && m.id !in t.messages && m.chat in t.chats && m.sender in t.users && keys.Keys <= t.users.Keys
    requires (m.chat, m.sender) in t.participants
    ensures StoreInv(WithMessage(t, m, keys))
  {
    InsertMessageKeepsStore(t, m);
    AddKeysKeepsStore(t.(messages := t.messages[m.id := m]), KeyRows(m.id, keys, keys.Keys));
  }

  lemma WithChatKeepsStore(t: Tables, chat: ChatId, at: Time, users: set<UserId>)
    requires StoreInv(t) && chat !in t.chats && users <= t.users.Keys
    ensures StoreInv(WithChat(t, chat, at, users))
  {
    var t' := WithChat(t, chat, at, users);
    assert forall p :: p in t'.participants ==> t'.participants[p].leftAt.None? && (p in t.participants || (p.0 == chat && p.1 in users));
    assert ForeignKeys(t');
  }

  lemma UpdateLastKeepsStore(t: Tables, m: Message)
    requires StoreInv(t) && (m.id in t.messages ==> t.messages[m.id] == m)
    ensures var r := Exec(SetLastMessage(m.chat, m.id, m.createdAt), t); r.Some? ==> StoreInv(r.value)
  {
  }

  lemma ReceiptKeepsStore(t: Tables, id: MessageId, user: UserId, row: ReceiptRow)
    requires StoreInv(t) && id in t.messages && user in t.users
    requires t.messages[id].sender != user && row.deliveredAt.Some?
    ensures StoreInv(t.(receipts := t.receipts[(id, user) := row]))
  {
  }

  lemma UpsertKeepsStore(t: Tables, st: Statement)
    requires StoreInv(t) && (st.UpsertRead? || st.UpsertDelivered?)
    requires st.id in t.messages ==> t.messages[st.id].sender != st.user
    ensures var r := Exec(st, t); r.Some? ==> StoreInv(r.value)
  {
    var r := Exec(st, t);
    if r.Some? && r.value != t {
      var k := (st.id, st.user);
      assert k in t.receipts ==> st.id in t.messages && st.user in t.users && t.receipts[k].deliveredAt.Some?;
      ReceiptKeepsStore(t, st.id, st.user, r.value.receipts[k]);
    }
  }

  lemma InsertEffectKeepsStore(s: System, step: Step, t': Tables)
    requires SystemInv(s) && Enabled(s, step) && Effect(s, step, t') && t' != s.tables
    requires step.Register? || step.CreateChat? || step.StoreMessage?
    ensures StoreInv(t')
  {
    assert step.StoreMessage? ==> CallInv(s, s.calls[step.call]);
    match step
    case Register(u, pk) => NewUserKeepsStore(s.tables, t');
    case CreateChat(c, at, members) => WithChatKeepsStore(s.tables, c, at, Elements(members));
    case StoreMessage(k, m, keys, _) => StoreEffectKeepsStore(s, step, t');
  }

  lemma NewUserKeepsStore(t: Tables, t': Tables)
    requires StoreInv(t) && t' == t.(users := t'.users) && t.users.Keys <= t'.users.Keys
    ensures StoreInv(t')
  {
  }

  lemma StoreEffectKeepsStore(s: System, step: Step, t': Tables)
    requires StoreInv(s.tables) && Enabled(s, step) && Effect(s, step, t') && t' != s.tables && step.StoreMessage?
    requires CallInv(s, s.calls[step.call])
    ensures StoreInv(t')
  {
    WithMessageKeepsStore(s.tables, step.message, step.keys);
  }

  lemma UpdateEffectKeepsStore(s: System, step: Step, t': Tables)
    requires SystemInv(s) && Enabled(s, step) && Effect(s, step, t') && t' != s.tables
    requires step.UpdateLast? || step.MarkRead? || step.MarkDelivered?
    ensures StoreInv(t')
  {
    assert CallInv(s, s.calls[step.call]);
    match step
    case UpdateLast(k) => UpdateLastKeepsStore(s.tables, s.calls[k].message);
    case MarkRead(k, now) => UpsertKeepsStore(s.tables, UpsertRead(s.calls[k].id, s.calls[k].reader, now));
    case MarkDelivered(k, now) =>
      assert s.calls[k].todo[0] in s.calls[k].todo;
      UpsertKeepsStore(s.tables, UpsertDelivered(s.calls[k].todo[0].id, s.calls[k].user, now));
  }

  lemma EffectKeepsStore(s: System, step: Step, t': Tables)
    requires SystemInv(s) && Enabled(s, step) && Effect(s, step, t')
    ensures StoreInv(t')
  {
    if t' != s.tables {
      if step.Register? || step.CreateChat? || step.StoreMessage? {
        InsertEffectKeepsStore(s, step, t');
      } else if step.FinishDeleteMessage? {
        DeleteMessagesKeepsStore(s.tables, {s.calls[step.call].id} * s.tables.messages.Keys);
      } else if step.FinishDeleteChat? {
        DeleteChatKeepsStore(s.tables, s.calls[step.call].chat);
      } else {
        UpdateEffectKeepsStore(s, step, t');
      }
    }
  }

  lemma StepPersists(s: System, step: Step)
    requires SystemInv(s) && Enabled(s, step)
    ensures Persist(s.tables, Next(s, step).tables, NewMessages(step), NewChats(step))
    ensures NewMessages(step) !! s.usedMessages && NewChats(step) !! s.usedChats
    ensures Next(s, step).usedMessages == s.usedMessages + NewMessages(step)
    ensures Next(s, step).usedChats == s.usedChats + NewChats(step)
  {
    StepEffect(s, step);
    EffectPersists(s, step, Next(s, step).tables);
  }

  lemma NewCallInv(s: System, step: Step)
    requires SystemInv(s) && Enabled(s, step) && CallAfter(s, step).Some?
    requires Replay(Script(s, step), s.tables).Some?
    ensures CallInv(Next(s, step), CallAfter(s, step).value)
  {
    var s' := Next(s, step);
    StepPersists(s, step);
    if step.StoreMessage? {
      AddMessageAllOrNothing(s.tables, step.message, step.keys, step.order);
    } else if step.MarkDelivered? || step.UpdateLast? {
      CallInvPersists(s, s', s.calls[step.call], NewMessages(step), NewChats(step));
    } else {
      assert s'.tables == s.tables;
    }
  }

  lemma StepKeepsInv(s: System, step: Step)
    requires SystemInv(s) && Enabled(s, step)
    ensures SystemInv(Next(s, step))
  {
    var s' := Next(s, step);
    StepEffect(s, step);
    EffectKeepsStore(s, step, s'.tables);
    StepPersists(s, step);
    forall k | k in s'.calls ensures CallInv(s', s'.calls[k]) {
      if k in s.calls && s'.calls[k] == s.calls[k] {
        CallInvPersists(s, s', s.calls[k], NewMessages(step), NewChats(step));
      } else {
        NewCallInv(s, step);
      }
    }
  }

  /** The store invariant holds in every state of every interleaving. */
  lemma {:induction false} RunKeepsInv(states: seq<System>, steps: seq<Step>, i: nat)
    requires IsRun(states, steps) && i < |states|
    ensures SystemInv(states[i])
  {
    if i > 0 {
      RunKeepsInv(states, steps, i - 1);
      StepKeepsInv(states[i - 1], steps[i - 1]);
    }
  }
}

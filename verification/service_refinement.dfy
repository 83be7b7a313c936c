/** The service methods against the concurrent machine: whatever a method's contract lets a call
    leave behind, after an exception too, is what some steps of the machine leave that belong to
    one call, taken without a break. */
module ServiceRefinement {
  import opened Wrappers
  import opened Sequences
  import opened SymbolicCrypto
  import opened Tables
  import opened Queries
  import opened SendRuns
  import opened ServiceRuns
  import PqxxRepositories
  import MessageServices
  import ChatServices
  import DirectChats
  import opened Uuids
  import Delivery

  /** Takes the steps in order; None when one of them is not possible. */
  function Steps(s: System, steps: seq<Step>): Option<System>
    decreases |steps|
  {
    if steps == [] then Some(s)
    else if !Enabled(s, steps[0]) then None
    else Steps(Next(s, steps[0]), steps[1..])
  }

  lemma StepsCons(s: System, first: Step, rest: seq<Step>)
    requires Enabled(s, first)
    ensures Steps(s, [first] + rest) == Steps(Next(s, first), rest)
  {
    assert ([first] + rest)[1..] == rest;
  }

  lemma OneStep(s: System, a: Step)
    requires Enabled(s, a)
    ensures Steps(s, [a]) == Some(Next(s, a))
  {
    StepsCons(s, a, []);
    assert [a] == [a] + [];
  }

  lemma TwoSteps(s: System, a: Step, b: Step)
    requires Enabled(s, a) && Enabled(Next(s, a), b)
    ensures Steps(s, [a, b]) == Some(Next(Next(s, a), b))
  {
    StepsCons(s, a, [b]);
    OneStep(Next(s, a), b);
    assert [a, b] == [a] + [b];
  }

  lemma TwoStepsTo(s: System, a: Step, s1: System, b: Step, s2: System) returns (steps: seq<Step>)
    requires Enabled(s, a) && Next(s, a) == s1 && Enabled(s1, b) && Next(s1, b) == s2
    ensures Steps(s, steps) == Some(s2)
  {
    TwoSteps(s, a, b);
    steps := [a, b];
  }

  /** The steps can be taken, they end with these tables, and no call is left open. */
  ghost predicate Leads(s: System, steps: seq<Step>, t': Tables) {
    var r := Steps(s, steps);
    r.Some? && r.value.tables == t' && r.value.calls == s.calls
  }

  lemma NoSteps(s: System)
    ensures Leads(s, [], s.tables)
  {
  }

  /** Up to the first write. */
  lemma Storing(s: System, k: CallId, m: Message, keys: map<UserId, Term>, order: seq<UserId>) returns (head: seq<Step>, s2: System)
    requires ForeignKeys(s.tables) && IsParticipant(s.tables, m.chat, m.sender) && PqxxRepositories.Added(s.tables, m, keys).Some?
    requires k !in s.calls && m.id !in s.usedMessages && PassesValidator(m) && Elements(order) == keys.Keys && Distinct(order)
    ensures Steps(s, head) == Some(s2)
    ensures s2.tables == WithMessage(s.tables, m, keys) && s2.calls == s.calls[k := Stored(m)]
  {
    var s1;
    s1, s2 := StoringStates(s, k, m, keys, order);
    head := TwoStepsTo(s, StartSend(k, m.chat, m.sender), s1, StoreMessage(k, m, keys, order), s2);
  }

  lemma StoringStates(s: System, k: CallId, m: Message, keys: map<UserId, Term>, order: seq<UserId>) returns (s1: System, s2: System)
    requires ForeignKeys(s.tables) && IsParticipant(s.tables, m.chat, m.sender) && PqxxRepositories.Added(s.tables, m, keys).Some?
    requires k !in s.calls && m.id !in s.usedMessages && PassesValidator(m) && Elements(order) == keys.Keys && Distinct(order)
    ensures Enabled(s, StartSend(k, m.chat, m.sender)) && Next(s, StartSend(k, m.chat, m.sender)) == s1
    ensures Enabled(s1, StoreMessage(k, m, keys, order)) && Next(s1, StoreMessage(k, m, keys, order)) == s2
    ensures s2.tables == WithMessage(s.tables, m, keys) && s2.calls == s.calls[k := Stored(m)]
  {
    s1 := StartSendFacts(s, k, m);
    s2 := StoreFacts(s1, k, m, keys, order);
    Overwritten(s.calls, k, Sending(m.chat, m.sender), Stored(m));
  }

  lemma StoreFacts(s: System, k: CallId, m: Message, keys: map<UserId, Term>, order: seq<UserId>) returns (s': System)
    requires k in s.calls && s.calls[k] == Sending(m.chat, m.sender) && m.id !in s.usedMessages && PassesValidator(m) && Elements(order) == keys.Keys && Distinct(order)
    requires ForeignKeys(s.tables) && PqxxRepositories.Added(s.tables, m, keys).Some?
    ensures Enabled(s, StoreMessage(k, m, keys, order)) && s' == Next(s, StoreMessage(k, m, keys, order))
    ensures s'.tables == WithMessage(s.tables, m, keys) && s'.calls == s.calls[k := Stored(m)]
  {
    StoreStep(s, k, m, keys, order);
    s' := Next(s, StoreMessage(k, m, keys, order));
  }

  lemma {:induction false} StepsConcat(s: System, a: seq<Step>, b: seq<Step>)
    requires Steps(s, a).Some?
    ensures Steps(s, a + b) == Steps(Steps(s, a).value, b)
    decreases |a|
  {
    if a == [] {
      assert a + b == b;
    } else {
      assert (a + b)[1..] == a[1..] + b && (a + b)[0] == a[0];
      StepsConcat(Next(s, a[0]), a[1..], b);
    }
  }

  /** From the first write to the end of the call, or to an exception after the second write. */
  lemma Updating(s: System, k: CallId, m: Message, t': Tables, ok: bool) returns (tail: seq<Step>)
    requires k in s.calls && s.calls[k] == Stored(m) && m.chat in t'.chats
    requires Exec(SetLastMessage(m.chat, m.id, m.createdAt), s.tables) == Some(t')
    ensures var r := Steps(s, tail);
            && r.Some? && r.value.tables == t' && r.value.calls == s.calls - {k}
            && (ok ==> m.id in r.value.lookups && r.value.lookups[m.id] == Recipients(Members(t', m.chat) - {m.sender}))
  {
    UpdateStep(s, k, m, t');
    var s1 := Next(s, UpdateLast(k));
    assert s1.calls - {k} == s.calls - {k};
    if ok {
      LookUpStep(s1, k, m);
      TwoSteps(s, UpdateLast(k), LookUp(k));
      tail := [UpdateLast(k), LookUp(k)];
    } else {
      TwoSteps(s, UpdateLast(k), End(k));
      tail := [UpdateLast(k), End(k)];
    }
  }

  lemma SentFacts(t: Tables, m: Message, keys: map<UserId, Term>) returns (t': Tables)
    requires PqxxRepositories.Schema(t) && MessageServices.CanSend(t, m, keys)
    ensures t' == MessageServices.Sent(t, m, keys) && m.chat in t'.chats && Members(t', m.chat) == Members(t, m.chat)
    ensures Exec(SetLastMessage(m.chat, m.id, m.createdAt), WithMessage(t, m, keys)) == Some(t')
  {
    assert PqxxRepositories.Added(t, m, keys).Some?;
    MessageServices.SendInTwoSteps(t, m, keys);
    MessageServices.SendKeepsMembers(t, m, keys);
    t' := MessageServices.Sent(t, m, keys);
  }

  lemma AfterStoring(s: System, s2: System, k: CallId, m: Message, t': Tables, ok: bool) returns (tail: seq<Step>)
    requires k !in s.calls && s2.calls == s.calls[k := Stored(m)] && m.chat in t'.chats
    requires Exec(SetLastMessage(m.chat, m.id, m.createdAt), s2.tables) == Some(t')
    ensures var r := Steps(s2, tail);
            && r.Some? && r.value.tables == t' && r.value.calls == s.calls
            && (ok ==> m.id in r.value.lookups && r.value.lookups[m.id] == Recipients(Members(t', m.chat) - {m.sender}))
  {
    tail := Updating(s2, k, m, t', ok);
    assert s2.calls - {k} == s.calls;
  }

  lemma EndAfterStoring(s: System, s2: System, k: CallId, m: Message) returns (tail: seq<Step>)
    requires k !in s.calls && s2.calls == s.calls[k := Stored(m)]
    ensures var r := Steps(s2, tail);
            r.Some? && r.value.tables == s2.tables && r.value.calls == s.calls
  {
    tail := [End(k)];
    OneStep(s2, End(k));
    assert s2.calls - {k} == s.calls;
  }

  /** SendChatMessage: every outcome of its contract; a call that returns ends with the lookup, which
      found the others in the chat. */
  lemma SendIsSteps(s: System, k: CallId, m: Message, keys: map<UserId, Term>, order: seq<UserId>, ok: bool, t': Tables)
    returns (steps: seq<Step>)
    requires PqxxRepositories.Schema(s.tables) && MessageServices.SendOutcome(ok, s.tables, m, keys, t')
    requires k !in s.calls && m.id !in s.usedMessages && Elements(order) == keys.Keys && Distinct(order)
    ensures Leads(s, steps, t')
    ensures ok ==> var s' := Steps(s, steps).value;
                   m.id in s'.lookups && s'.lookups[m.id] == Recipients(Members(s.tables, m.chat) - {m.sender})
  {
    if !ok && t' == s.tables {
      NoSteps(s);
      return [];
    }
    assert PqxxRepositories.Added(s.tables, m, keys).Some?;
    var head, s2 := Storing(s, k, m, keys, order);
    var tail;
    if t' == MessageServices.Sent(s.tables, m, keys) {
      var sent := SentFacts(s.tables, m, keys);
      tail := AfterStoring(s, s2, k, m, sent, ok);
    } else {
      tail := EndAfterStoring(s, s2, k, m);
    }
    StepsConcat(s, head, tail);
    steps := head + tail;
  }

  function Ids(messages: seq<Message>): seq<MessageId> {
    seq(|messages|, i requires 0 <= i < |messages| => messages[i].id)
  }

  function Marks(k: CallId, nows: seq<Time>): seq<Step> {
    seq(|nows|, i requires 0 <= i < |nows| => MarkDelivered(k, nows[i]))
  }

  /** The marking loop of GetUndelivered, as far as it gets. */
  lemma {:induction false} MarkingIsSteps(s: System, k: CallId, user: UserId, todo: seq<Message>, nows: seq<Time>)
    requires k in s.calls && s.calls[k] == Delivering(user, todo) && |nows| <= |todo|
    requires Delivery.MarkAll(s.tables, user, Ids(todo[..|nows|]), nows).Some?
    ensures var r := Steps(s, Marks(k, nows));
            && r.Some? && r.value.tables == Delivery.MarkAll(s.tables, user, Ids(todo[..|nows|]), nows).value
            && r.value.calls == s.calls[k := Delivering(user, todo[|nows|..])]
    decreases |nows|
  {
    if nows == [] {
      assert s.calls == s.calls[k := Delivering(user, todo[0..])];
    } else {
      var step, rest := MarkDelivered(k, nows[0]), todo[1..];
      assert Ids(todo[..|nows|])[1..] == Ids(rest[..|nows| - 1]) && Ids(todo[..|nows|])[0] == todo[0].id;
      OneStatement(UpsertDelivered(todo[0].id, user, nows[0]), s.tables);
      var s1 := Next(s, step);
      assert s1.calls == s.calls[k := Delivering(user, rest)];
      MarkingIsSteps(s1, k, user, rest, nows[1..]);
      assert Marks(k, nows) == [step] + Marks(k, nows[1..]);
      StepsCons(s, step, Marks(k, nows[1..]));
      assert rest[|nows| - 1..] == todo[|nows|..];
    }
  }

  lemma StartDeliverStep(s: System, k: CallId, user: UserId, messages: seq<Message>)
    requires k !in s.calls
    requires Elements(Ids(messages)) <= Undelivered(s.tables, user)
    requires forall i :: 0 <= i < |messages| ==> messages[i].id in s.tables.messages && s.tables.messages[messages[i].id] == messages[i]
    ensures Enabled(s, StartDeliver(k, user, messages))
    ensures Next(s, StartDeliver(k, user, messages)) == s.(calls := s.calls[k := Delivering(user, messages)])
  {
    forall m | m in messages ensures IsUndelivered(s.tables, user, m.id) && s.tables.messages[m.id] == m {
      var i :| 0 <= i < |messages| && messages[i] == m;
      assert Ids(messages)[i] in Elements(Ids(messages));
    }
  }

  lemma MarkThenEnd(s: System, k: CallId, user: UserId, todo: seq<Message>, nows: seq<Time>, t': Tables)
    requires k in s.calls && s.calls[k] == Delivering(user, todo) && |nows| <= |todo|
    requires Delivery.MarkAll(s.tables, user, Ids(todo[..|nows|]), nows) == Some(t')
    ensures var r := Steps(s, Marks(k, nows) + [End(k)]);
            r.Some? && r.value.tables == t' && r.value.calls == s.calls - {k}
  {
    MarkingIsSteps(s, k, user, todo, nows);
    var s1 := Steps(s, Marks(k, nows)).value;
    OneStep(s1, End(k));
    StepsConcat(s, Marks(k, nows), [End(k)]);
    assert s1.calls - {k} == s.calls - {k};
  }

  /** GetUndelivered: the list is fetched and as many messages of it are marked as the call got to,
      all of them or, after an exception, the first ones. */
  lemma DeliverIsSteps(s: System, k: CallId, user: UserId, page: seq<MessageId>, messages: seq<Message>, nows: seq<Time>, marked: nat, t': Tables)
    requires k !in s.calls && Elements(page) <= Undelivered(s.tables, user) && Ids(messages) == page
    requires forall i :: 0 <= i < |messages| ==> page[i] in s.tables.messages && messages[i] == s.tables.messages[page[i]]
    requires marked <= |page| == |nows| && Delivery.MarkAll(s.tables, user, page[..marked], nows[..marked]) == Some(t')
    ensures Leads(s, [StartDeliver(k, user, messages)] + (Marks(k, nows[..marked]) + [End(k)]), t')
  {
    var step, s1 := StartDeliver(k, user, messages), s.(calls := s.calls[k := Delivering(user, messages)]);
    assert forall i :: 0 <= i < |messages| ==> page[i] == messages[i].id;
    StartDeliverStep(s, k, user, messages);
    assert Ids(messages[..marked]) == page[..marked];
    MarkThenEnd(s1, k, user, messages, nows[..marked], t');
    StepsCons(s, step, Marks(k, nows[..marked]) + [End(k)]);
    assert s1.calls - {k} == s.calls;
  }

  lemma ReadInTwoSteps(s: System, k: CallId, id: MessageId, reader: UserId, now: Time, t': Tables)
    requires k !in s.calls && id in s.tables.messages && s.tables.messages[id].sender != reader
    requires Exec(UpsertRead(id, reader, now), s.tables) == Some(t')
    ensures Leads(s, [StartRead(k, id, reader), MarkRead(k, now)], t')
  {
    var a, b := StartRead(k, id, reader), MarkRead(k, now);
    var s1 := Next(s, a);
    assert s1.tables == s.tables && s1.calls == s.calls[k := Reading(id, s.tables.messages[id].sender, reader)];
    OneStatement(UpsertRead(id, reader, now), s.tables);
    TwoSteps(s, a, b);
    assert Next(s1, b).calls == s.calls;
  }

  /** MarkAsRead: every outcome of its contract. */
  lemma ReadIsSteps(s: System, k: CallId, id: MessageId, reader: UserId, now: Time, ok: bool, t': Tables) returns (steps: seq<Step>)
    requires k !in s.calls && MessageServices.ReadOutcome(ok, s.tables, id, reader, now, t')
    ensures Leads(s, steps, t')
  {
    if t' == s.tables {
      NoSteps(s);
      steps := [];
    } else {
      ReadInTwoSteps(s, k, id, reader, now, t');
      steps := [StartRead(k, id, reader), MarkRead(k, now)];
    }
  }

  lemma DeleteInTwoSteps(s: System, k: CallId, id: MessageId, requester: UserId)
    requires k !in s.calls && id in s.tables.messages && s.tables.messages[id].sender == requester
    ensures Leads(s, [StartDeleteMessage(k, id, requester), FinishDeleteMessage(k)], DeleteMessages(s.tables, {id}))
  {
    var a, b := StartDeleteMessage(k, id, requester), FinishDeleteMessage(k);
    var s1 := Next(s, a);
    assert s1.tables == s.tables && s1.calls == s.calls[k := DeletingMessage(id, requester)];
    OneStatement(DeleteMessageRow(id), s.tables);
    assert {id} * s.tables.messages.Keys == {id};
    TwoSteps(s, a, b);
    assert Next(s1, b).calls == s.calls;
  }

  /** DeleteMessage: every outcome of its contract. */
  lemma DeleteIsSteps(s: System, k: CallId, id: MessageId, requester: UserId, ok: bool, t': Tables) returns (steps: seq<Step>)
    requires k !in s.calls && MessageServices.DeleteOutcome(ok, s.tables, id, requester, t')
    ensures Leads(s, steps, t')
  {
    if !ok && t' == s.tables {
      NoSteps(s);
      steps := [];
    } else {
      DeleteInTwoSteps(s, k, id, requester);
      steps := [StartDeleteMessage(k, id, requester), FinishDeleteMessage(k)];
    }
  }

  lemma CreateInOneStep(s: System, chat: ChatId, now: Time, all: seq<UserId>)
    requires ForeignKeys(s.tables) && chat !in s.usedChats && chat !in s.tables.chats && now != 0
    requires Distinct(all) && Elements(all) <= s.tables.users.Keys
    ensures Leads(s, [CreateChat(chat, now, all)], WithChat(s.tables, chat, now, Elements(all)))
  {
    AddChatAllOrNothing(s.tables, chat, now, all);
    OneStep(s, CreateChat(chat, now, all));
  }

  /** CreateChat: every outcome of its contract; `all` are the participants as the database
      sees them. */
  lemma CreateIsSteps(s: System, creator: UserId, others: seq<UserId>, canon: Canon, page: seq<ChatId>, chat: ChatId, now: Time, all: seq<UserId>, ok: bool, t': Tables)
    returns (steps: seq<Step>)
    requires ForeignKeys(s.tables) && chat !in s.usedChats && Distinct(all) && Elements(all) == Image(canon, {creator} + Elements(others))
    requires ChatServices.CreateOutcome(ok, s.tables, DirectChats.Create(s.tables, canon, creator, others, page, chat, now), t')
    ensures Leads(s, steps, t')
  {
    if t' == s.tables {
      NoSteps(s);
      steps := [];
    } else {
      CreateInOneStep(s, chat, now, all);
      steps := [CreateChat(chat, now, all)];
    }
  }

  lemma DeleteChatInTwoSteps(s: System, k: CallId, chat: ChatId, requester: UserId)
    requires k !in s.calls && IsParticipant(s.tables, chat, requester)
    ensures Leads(s, [StartDeleteChat(k, chat, requester), FinishDeleteChat(k)], DeleteChat(s.tables, chat))
  {
    var a, b := StartDeleteChat(k, chat, requester), FinishDeleteChat(k);
    var s1 := Next(s, a);
    assert s1.tables == s.tables && s1.calls == s.calls[k := DeletingChat(chat, requester)];
    OneStatement(DeleteChatRow(chat), s.tables);
    TwoSteps(s, a, b);
    assert Next(s1, b).calls == s.calls;
  }

  /** DeleteChat: every outcome of its contract. */
  lemma DeleteChatIsSteps(s: System, k: CallId, chat: ChatId, requester: UserId, ok: bool, t': Tables) returns (steps: seq<Step>)
    requires k !in s.calls && ChatServices.DeleteChatOutcome(ok, s.tables, chat, requester, t')
    ensures Leads(s, steps, t')
  {
    if !ok && t' == s.tables {
      NoSteps(s);
      steps := [];
    } else {
      DeleteChatInTwoSteps(s, k, chat, requester);
      steps := [StartDeleteChat(k, chat, requester), FinishDeleteChat(k)];
    }
  }
}

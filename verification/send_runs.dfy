/** The end of a send: SendChatMessage looks its chat up once more to know whom to notify, and takes
    for granted that the chat is still there. */
module SendRuns {
  import opened Wrappers
  import opened Sequences
  import opened SymbolicCrypto
  import opened Tables
  import opened Queries
  import opened ServiceRuns
  import opened DirectChats

  /** The step commits a DeleteChat of the chat. */
  predicate DeletesChat(s: System, step: Step, chat: ChatId)
    requires Enabled(s, step)
  {
    step.FinishDeleteChat? && s.calls[step.call].chat == chat
  }

  ghost predicate DeletedBetween(states: seq<System>, steps: seq<Step>, i: nat, j: nat, chat: ChatId)
    requires IsRun(states, steps) && j <= |steps|
  {
    exists k {:trigger steps[k]} :: i <= k < j && DeletesChat(states[k], steps[k], chat)
  }

  lemma EffectOnChats(s: System, step: Step, t': Tables, chat: ChatId)
    requires Enabled(s, step) && Effect(s, step, t') && chat in s.tables.chats && !DeletesChat(s, step, chat)
    ensures chat in t'.chats
  {
  }

  /** A step ends a chat exactly when it commits its deletion, and never brings an old one back. */
  lemma StepOnChat(s: System, step: Step, chat: ChatId)
    requires SystemInv(s) && Enabled(s, step) && chat in s.usedChats
    ensures chat in Next(s, step).tables.chats <==> chat in s.tables.chats && !DeletesChat(s, step, chat)
    ensures chat in Next(s, step).usedChats
  {
    StepPersists(s, step);
    if DeletesChat(s, step, chat) {
      OneStatement(DeleteChatRow(chat), s.tables);
    } else if chat in s.tables.chats {
      StepEffect(s, step);
      EffectOnChats(s, step, Next(s, step).tables, chat);
    }
  }

  /** A chat that exists at one point of a run exists at a later one exactly when no DeleteChat of it
      was committed in between. */
  lemma {:induction false} ChatLivesExactly(states: seq<System>, steps: seq<Step>, i: nat, j: nat, chat: ChatId)
    requires IsRun(states, steps) && i <= j < |states| && chat in states[i].tables.chats
    ensures chat in states[j].usedChats
    ensures chat in states[j].tables.chats <==> !DeletedBetween(states, steps, i, j, chat)
    decreases j
  {
    if i == j {
      RunKeepsInv(states, steps, i);
    } else {
      ChatLivesExactly(states, steps, i, j - 1, chat);
      DeletedOneLater(states, steps, i, j, chat);
      LivesOneLater(states, steps, j, chat);
    }
  }

  lemma LivesOneLater(states: seq<System>, steps: seq<Step>, j: nat, chat: ChatId)
    requires IsRun(states, steps) && 0 < j <= |steps| && chat in states[j - 1].usedChats
    ensures chat in states[j].usedChats
    ensures chat in states[j].tables.chats <==> chat in states[j - 1].tables.chats && !DeletesChat(states[j - 1], steps[j - 1], chat)
  {
    RunKeepsInv(states, steps, j - 1);
    StepOnChat(states[j - 1], steps[j - 1], chat);
  }

  lemma DeletedOneLater(states: seq<System>, steps: seq<Step>, i: nat, j: nat, chat: ChatId)
    requires IsRun(states, steps) && i < j <= |steps|
    ensures DeletedBetween(states, steps, i, j, chat)
            <==> DeletedBetween(states, steps, i, j - 1, chat) || DeletesChat(states[j - 1], steps[j - 1], chat)
  {
  }

  lemma StepKeepsMembers(s: System, step: Step, chat: ChatId)
    requires SystemInv(s) && Enabled(s, step) && chat in s.tables.chats && chat in Next(s, step).tables.chats
    ensures Members(Next(s, step).tables, chat) == Members(s.tables, chat)
  {
    if step.CreateChat? {
      AddChatAllOrNothing(s.tables, step.chat, step.at, step.members);
      if Next(s, step).tables != s.tables {
        WithChatMembers(s.tables, step.chat, step.at, Elements(step.members));
      }
    } else {
      OtherKeepsMembers(s, step);
    }
  }

  /** The members of a chat do not change while it lives. */
  lemma {:induction false} MembersStay(states: seq<System>, steps: seq<Step>, i: nat, j: nat, chat: ChatId)
    requires IsRun(states, steps) && i <= j < |states| && chat in states[i].tables.chats && chat in states[j].tables.chats
    ensures Members(states[j].tables, chat) == Members(states[i].tables, chat)
    decreases j
  {
    if i < j {
      ChatLivesExactly(states, steps, i, j - 1, chat);
      ChatLivesExactly(states, steps, i, j, chat);
      MembersStay(states, steps, i, j - 1, chat);
      RunKeepsInv(states, steps, j - 1);
      StepKeepsMembers(states[j - 1], steps[j - 1], chat);
    }
  }

  /** The last lookup of a send finds the chat exactly when no DeleteChat of it was committed after
      the message was stored, and then the users to notify are those who were in the chat when the
      message was stored, without the sender. Otherwise it dereferences an empty optional. */
  lemma LookUpFindsExactly(states: seq<System>, steps: seq<Step>, i: nat, j: nat)
    requires IsRun(states, steps) && i < j < |steps|
    requires steps[i].StoreMessage? && steps[i].message.id in states[i + 1].tables.messages
    requires steps[j].LookUp? && states[j].calls[steps[j].call] == Updated(steps[i].message)
    ensures var m := steps[i].message;
            m.id in states[j + 1].lookups && states[j + 1].lookups[m.id]
            == if DeletedBetween(states, steps, i + 1, j, m.chat) then EmptyOptional else Recipients(Members(states[i + 1].tables, m.chat) - {m.sender})
  {
    var m := steps[i].message;
    StoredChatExists(states, steps, i);
    ChatLivesExactly(states, steps, i + 1, j, m.chat);
    if m.chat in states[j].tables.chats {
      MembersStay(states, steps, i + 1, j, m.chat);
    }
  }

  lemma StoredChatExists(states: seq<System>, steps: seq<Step>, i: nat)
    requires IsRun(states, steps) && i < |steps| && steps[i].StoreMessage? && steps[i].message.id in states[i + 1].tables.messages
    ensures steps[i].message.chat in states[i + 1].tables.chats
  {
    RunKeepsInv(states, steps, i);
    StepEffect(states[i], steps[i]);
  }

  /** Part of a run: it may start anywhere. */
  ghost predicate IsStretch(states: seq<System>, steps: seq<Step>) {
    && |states| == |steps| + 1
    && forall i {:trigger steps[i]} :: 0 <= i < |steps| ==> Enabled(states[i], steps[i]) && states[i + 1] == Next(states[i], steps[i])
  }

  lemma RunGoesOn(states: seq<System>, steps: seq<Step>, more: seq<System>, tail: seq<Step>)
    requires IsRun(states, steps) && IsStretch(more, tail) && more[0] == states[|steps|]
    ensures IsRun(states + more[1..], steps + tail)
  {
    var all, taken := states + more[1..], steps + tail;
    forall i | 0 <= i < |taken| ensures Enabled(all[i], taken[i]) && all[i + 1] == Next(all[i], taken[i]) {
      if i < |steps| {
        assert taken[i] == steps[i] && all[i] == states[i] && all[i + 1] == states[i + 1];
      } else {
        var k := i - |steps|;
        assert taken[i] == tail[k] && all[i] == more[k] && all[i + 1] == more[k + 1];
      }
    }
  }

  /** Between the two writes: the UPDATE matches no row, succeeds, and the lookup finds nothing. */
  lemma DeletedBeforeUpdate(s: System, k: CallId, d: CallId, m: Message)
    requires k != d && k in s.calls && s.calls[k] == Stored(m) && d !in s.calls && IsParticipant(s.tables, m.chat, m.sender)
    ensures var s1 := Next(s, StartDeleteChat(d, m.chat, m.sender));
            && Enabled(s1, FinishDeleteChat(d))
            && var s2 := Next(s1, FinishDeleteChat(d));
            && Enabled(s2, UpdateLast(k))
            && var s3 := Next(s2, UpdateLast(k));
            && Enabled(s3, LookUp(k)) && s3.calls[k] == Updated(m)
            && m.chat !in s3.tables.chats && Next(s3, LookUp(k)).lookups[m.id] == EmptyOptional
  {
    OneStatement(DeleteChatRow(m.chat), s.tables);
    var s2 := Next(Next(s, StartDeleteChat(d, m.chat, m.sender)), FinishDeleteChat(d));
    assert s2.tables == DeleteChat(s.tables, m.chat);
    OneStatement(SetLastMessage(m.chat, m.id, m.createdAt), s2.tables);
  }

  /** After the second write. */
  lemma DeletedBeforeLookUp(s: System, k: CallId, d: CallId, m: Message)
    requires k != d && k in s.calls && s.calls[k] == Updated(m) && d !in s.calls && IsParticipant(s.tables, m.chat, m.sender)
    ensures var s1 := Next(s, StartDeleteChat(d, m.chat, m.sender));
            && Enabled(s1, FinishDeleteChat(d))
            && var s2 := Next(s1, FinishDeleteChat(d));
            && Enabled(s2, LookUp(k)) && Next(s2, LookUp(k)).lookups[m.id] == EmptyOptional
  {
    OneStatement(DeleteChatRow(m.chat), s.tables);
  }

  lemma StartSendStep(s: System, k: CallId, m: Message)
    requires k !in s.calls && IsParticipant(s.tables, m.chat, m.sender)
    ensures Next(s, StartSend(k, m.chat, m.sender)) == s.(calls := s.calls[k := Sending(m.chat, m.sender)])
  {
  }

  lemma StartSendFacts(s: System, k: CallId, m: Message) returns (s1: System)
    requires k !in s.calls && IsParticipant(s.tables, m.chat, m.sender)
    ensures Enabled(s, StartSend(k, m.chat, m.sender)) && s1 == Next(s, StartSend(k, m.chat, m.sender))
    ensures s1.tables == s.tables && s1.usedMessages == s.usedMessages && s1.calls == s.calls[k := Sending(m.chat, m.sender)]
  {
    StartSendStep(s, k, m);
    s1 := Next(s, StartSend(k, m.chat, m.sender));
  }

  lemma StoreStep(s: System, k: CallId, m: Message, keys: map<UserId, Term>, order: seq<UserId>)
    requires k in s.calls && s.calls[k] == Sending(m.chat, m.sender) && m.id !in s.usedMessages && PassesValidator(m) && Elements(order) == keys.Keys && Distinct(order)
    requires ForeignKeys(s.tables) && m.id !in s.tables.messages && m.chat in s.tables.chats && m.sender in s.tables.users && keys.Keys <= s.tables.users.Keys
    ensures Enabled(s, StoreMessage(k, m, keys, order))
    ensures var s' := Next(s, StoreMessage(k, m, keys, order));
            s'.tables == WithMessage(s.tables, m, keys) && s'.calls == s.calls[k := Stored(m)]
  {
    AddMessageAllOrNothing(s.tables, m, keys, order);
    StoredNext(s, k, m, keys, order, WithMessage(s.tables, m, keys));
  }

  lemma StoredNext(s: System, k: CallId, m: Message, keys: map<UserId, Term>, order: seq<UserId>, t': Tables)
    requires Enabled(s, StoreMessage(k, m, keys, order)) && (forall u :: u in order ==> u in keys)
    requires Replay(AddMessageScript(m, keys, order), s.tables) == Some(t')
    ensures var s' := Next(s, StoreMessage(k, m, keys, order)); s'.tables == t' && s'.calls == s.calls[k := Stored(m)]
  {
  }

  lemma UpdateStep(s: System, k: CallId, m: Message, t': Tables)
    requires k in s.calls && s.calls[k] == Stored(m)
    requires Exec(SetLastMessage(m.chat, m.id, m.createdAt), s.tables) == Some(t')
    ensures Next(s, UpdateLast(k)).tables == t' && Next(s, UpdateLast(k)).calls == s.calls[k := Updated(m)]
  {
    OneStatement(SetLastMessage(m.chat, m.id, m.createdAt), s.tables);
  }

  lemma LookUpStep(s: System, k: CallId, m: Message)
    requires k in s.calls && s.calls[k] == Updated(m) && m.chat in s.tables.chats
    ensures var s' := Next(s, LookUp(k));
            && s'.tables == s.tables && s'.calls == s.calls - {k}
            && m.id in s'.lookups && s'.lookups[m.id] == Recipients(Members(s.tables, m.chat) - {m.sender})
  {
  }

  lemma ARegisteredUser(u: UserId) returns (s: System)
    ensures s == Next(INITIAL, Register(u, PublicKey(1)))
    ensures s.tables == EMPTY.(users := map[u := PublicKey(1)]) && s.usedMessages == {} && s.usedChats == {} && s.calls == map[]
  {
    OneStatement(InsertUser(u, PublicKey(1)), EMPTY);
    s := Next(INITIAL, Register(u, PublicKey(1)));
  }

  lemma AChat(s: System, u: UserId, chat: ChatId) returns (s': System)
    requires s.tables == EMPTY.(users := map[u := PublicKey(1)]) && chat !in s.usedChats
    ensures s' == Next(s, CreateChat(chat, 1, [u])) && s'.usedMessages == s.usedMessages && s'.calls == s.calls
    ensures s'.tables == WithChat(s.tables, chat, 1, {u}) && IsParticipant(s'.tables, chat, u)
  {
    AddChatAllOrNothing(s.tables, chat, 1, [u]);
    assert Elements([u]) == {u};
    s' := Next(s, CreateChat(chat, 1, [u]));
    assert (chat, u) in Seats(chat, {u});
  }

  lemma AStoredMessage(s: System, k: CallId, m: Message) returns (s1: System, s2: System)
    requires ForeignKeys(s.tables) && s.calls == map[] && m.id !in s.usedMessages && m.id !in s.tables.messages && PassesValidator(m)
    requires m.chat in s.tables.chats && m.sender in s.tables.users && IsParticipant(s.tables, m.chat, m.sender)
    ensures s1 == Next(s, StartSend(k, m.chat, m.sender)) && Enabled(s1, StoreMessage(k, m, map[], []))
    ensures s2 == Next(s1, StoreMessage(k, m, map[], []))
    ensures s2.calls == map[k := Stored(m)] && m.id in s2.tables.messages && IsParticipant(s2.tables, m.chat, m.sender)
  {
    s1 := StartSendFacts(s, k, m);
    s2 := StoredWithoutKeys(s1, k, m);
    Overwritten(s.calls, k, Sending(m.chat, m.sender), Stored(m));
  }

  lemma StoredWithoutKeys(s: System, k: CallId, m: Message) returns (s': System)
    requires k in s.calls && s.calls[k] == Sending(m.chat, m.sender) && m.id !in s.usedMessages && PassesValidator(m)
    requires ForeignKeys(s.tables) && m.id !in s.tables.messages && m.chat in s.tables.chats && m.sender in s.tables.users
    ensures Enabled(s, StoreMessage(k, m, map[], [])) && s' == Next(s, StoreMessage(k, m, map[], []))
    ensures s'.calls == s.calls[k := Stored(m)] && m.id in s'.tables.messages && s'.tables.participants == s.tables.participants
  {
    StoreStep(s, k, m, map[], []);
    s' := Next(s, StoreMessage(k, m, map[], []));
  }

  lemma AChatWithItsCreator(u: UserId, chat: ChatId) returns (s1: System, s2: System)
    ensures s1 == Next(INITIAL, Register(u, PublicKey(1))) && Enabled(s1, CreateChat(chat, 1, [u])) && s2 == Next(s1, CreateChat(chat, 1, [u]))
    ensures ForeignKeys(s2.tables) && s2.calls == map[] && s2.usedMessages == {} && s2.tables.messages == map[]
    ensures chat in s2.tables.chats && u in s2.tables.users && IsParticipant(s2.tables, chat, u)
  {
    s1 := ARegisteredUser(u);
    s2 := AChat(s1, u, chat);
  }

  /** A run whose last step stored a message, the send still under way. */
  lemma StoredRun(m: Message) returns (states: seq<System>, steps: seq<Step>)
    requires PassesValidator(m)
    ensures IsRun(states, steps) && |steps| == 4 && steps[3] == StoreMessage(0, m, map[], [])
    ensures states[4].calls == map[0 := Stored(m)] && m.id in states[4].tables.messages
    ensures IsParticipant(states[4].tables, m.chat, m.sender)
  {
    var s2, s4, more, tail;
    states, steps, s2 := ChatRun(m.sender, m.chat);
    more, tail, s4 := StoringStretch(s2, m);
    RunGoesOn(states, steps, more, tail);
    states, steps := states + more[1..], steps + tail;
  }

  lemma ChatRun(u: UserId, chat: ChatId) returns (states: seq<System>, steps: seq<Step>, s: System)
    ensures IsRun(states, steps) && |steps| == 2 && states[2] == s
    ensures ForeignKeys(s.tables) && s.calls == map[] && s.usedMessages == {} && s.tables.messages == map[]
    ensures chat in s.tables.chats && u in s.tables.users && IsParticipant(s.tables, chat, u)
  {
    var s1;
    s1, s := AChatWithItsCreator(u, chat);
    states, steps := PairOfSteps(INITIAL, s1, s, Register(u, PublicKey(1)), CreateChat(chat, 1, [u]));
  }

  lemma StoringStretch(s: System, m: Message) returns (states: seq<System>, steps: seq<Step>, s': System)
    requires ForeignKeys(s.tables) && s.calls == map[] && s.usedMessages == {} && s.tables.messages == map[] && PassesValidator(m)
    requires m.chat in s.tables.chats && m.sender in s.tables.users && IsParticipant(s.tables, m.chat, m.sender)
    ensures IsStretch(states, steps) && |steps| == 2 && states[0] == s && states[2] == s' && steps[1] == StoreMessage(0, m, map[], [])
    ensures s'.calls == map[0 := Stored(m)] && m.id in s'.tables.messages && IsParticipant(s'.tables, m.chat, m.sender)
  {
    var s1;
    s1, s' := AStoredMessage(s, 0, m);
    states, steps := PairOfSteps(s, s1, s', StartSend(0, m.chat, m.sender), StoreMessage(0, m, map[], []));
  }

  lemma PairOfSteps(s0: System, s1: System, s2: System, a: Step, b: Step) returns (states: seq<System>, steps: seq<Step>)
    requires Enabled(s0, a) && s1 == Next(s0, a) && Enabled(s1, b) && s2 == Next(s1, b)
    ensures states == [s0, s1, s2] && steps == [a, b] && IsStretch(states, steps)
  {
    states, steps := [s0, s1, s2], [a, b];
  }

  lemma FourSteps(states: seq<System>, steps: seq<Step>)
    requires |states| == 5 && |steps| == 4
    requires Enabled(states[0], steps[0]) && states[1] == Next(states[0], steps[0])
    requires Enabled(states[1], steps[1]) && states[2] == Next(states[1], steps[1])
    requires Enabled(states[2], steps[2]) && states[3] == Next(states[2], steps[2])
    requires Enabled(states[3], steps[3]) && states[4] == Next(states[3], steps[3])
    ensures IsStretch(states, steps)
  {
    forall i | 0 <= i < |steps| ensures Enabled(states[i], steps[i]) && states[i + 1] == Next(states[i], steps[i]) {
      assert i == 0 || i == 1 || i == 2 || i == 3;
    }
  }

  /** A stretch of a run that ends with a send on an empty optional. */
  ghost predicate EndsBadly(states: seq<System>, steps: seq<Step>, id: MessageId) {
    && IsStretch(states, steps) && |steps| == 4 && steps[3] == LookUp(0)
    && id in states[4].lookups && states[4].lookups[id] == EmptyOptional
  }

  lemma BadEndBeforeUpdate(s: System, m: Message) returns (states: seq<System>, steps: seq<Step>)
    requires s.calls == map[0 := Stored(m)] && IsParticipant(s.tables, m.chat, m.sender)
    ensures EndsBadly(states, steps, m.id) && states[0] == s && steps[2] == UpdateLast(0)
  {
    DeletedBeforeUpdate(s, 0, 1, m);
    steps := [StartDeleteChat(1, m.chat, m.sender), FinishDeleteChat(1), UpdateLast(0), LookUp(0)];
    var s1 := Next(s, steps[0]);
    var s2 := Next(s1, steps[1]);
    var s3 := Next(s2, steps[2]);
    states := [s, s1, s2, s3, Next(s3, steps[3])];
    FourSteps(states, steps);
  }

  lemma UpdateOfStored(s: System, m: Message)
    requires s.calls == map[0 := Stored(m)] && IsParticipant(s.tables, m.chat, m.sender) && m.id in s.tables.messages
    ensures Next(s, UpdateLast(0)).calls == map[0 := Updated(m)] && IsParticipant(Next(s, UpdateLast(0)).tables, m.chat, m.sender)
  {
    OneStatement(SetLastMessage(m.chat, m.id, m.createdAt), s.tables);
  }

  lemma StretchCons(s: System, step: Step, states: seq<System>, steps: seq<Step>)
    requires IsStretch(states, steps) && Enabled(s, step) && states[0] == Next(s, step)
    ensures IsStretch([s] + states, [step] + steps)
  {
    var all, taken := [s] + states, [step] + steps;
    forall i | 0 <= i < |taken| ensures Enabled(all[i], taken[i]) && all[i + 1] == Next(all[i], taken[i]) {
      if i > 0 {
        assert taken[i] == steps[i - 1] && all[i] == states[i - 1] && all[i + 1] == states[i];
      }
    }
  }

  lemma BadEndFromUpdated(s: System, m: Message) returns (states: seq<System>, steps: seq<Step>)
    requires s.calls == map[0 := Updated(m)] && IsParticipant(s.tables, m.chat, m.sender)
    ensures IsStretch(states, steps) && states[0] == s && |steps| == 3 && steps[2] == LookUp(0)
    ensures m.id in states[3].lookups && states[3].lookups[m.id] == EmptyOptional
  {
    DeletedBeforeLookUp(s, 0, 1, m);
    steps := [StartDeleteChat(1, m.chat, m.sender), FinishDeleteChat(1), LookUp(0)];
    var s1 := Next(s, steps[0]);
    var s2 := Next(s1, steps[1]);
    states := [s, s1, s2, Next(s2, steps[2])];
    forall i | 0 <= i < 3 ensures Enabled(states[i], steps[i]) && states[i + 1] == Next(states[i], steps[i]) {
      assert i == 0 || i == 1 || i == 2;
    }
  }

  lemma BadEndAfterUpdate(s: System, m: Message) returns (states: seq<System>, steps: seq<Step>)
    requires s.calls == map[0 := Stored(m)] && IsParticipant(s.tables, m.chat, m.sender) && m.id in s.tables.messages
    ensures EndsBadly(states, steps, m.id) && states[0] == s && steps[0] == UpdateLast(0)
  {
    UpdateOfStored(s, m);
    states, steps := BadEndFromUpdated(Next(s, UpdateLast(0)), m);
    BadEndCons(s, UpdateLast(0), states, steps, m.id);
    states, steps := [s] + states, [UpdateLast(0)] + steps;
  }

  lemma BadEndCons(s: System, step: Step, states: seq<System>, steps: seq<Step>, id: MessageId)
    requires IsStretch(states, steps) && |steps| == 3 && steps[2] == LookUp(0) && Enabled(s, step) && states[0] == Next(s, step)
    requires id in states[3].lookups && states[3].lookups[id] == EmptyOptional
    ensures EndsBadly([s] + states, [step] + steps, id)
  {
    StretchCons(s, step, states, steps);
    assert ([s] + states)[4] == states[3] && ([step] + steps)[3] == steps[2];
  }

  /** Two failing runs: the chat is deleted before the second write, and after it. In both the
      message was stored and the send ends on an empty optional. */
  lemma LookUpCanFail(m: Message, beforeUpdate: bool) returns (states: seq<System>, steps: seq<Step>)
    requires PassesValidator(m)
    ensures IsRun(states, steps) && |steps| == 8 && steps[3].StoreMessage? && steps[3].message == m
    ensures m.id in states[4].tables.messages && steps[7] == LookUp(0)
    ensures steps[if beforeUpdate then 6 else 4] == UpdateLast(0)
    ensures m.id in states[8].lookups && states[8].lookups[m.id] == EmptyOptional
  {
    states, steps := StoredRun(m);
    var more, tail;
    if beforeUpdate {
      more, tail := BadEndBeforeUpdate(states[4], m);
    } else {
      more, tail := BadEndAfterUpdate(states[4], m);
    }
    RunGoesOn(states, steps, more, tail);
    states, steps := states + more[1..], steps + tail;
  }
}

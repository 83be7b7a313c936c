/** What clients can rely on over whole runs of the concurrent services. */
module ServiceGuarantees {
  import opened Wrappers
  import opened SymbolicCrypto
  import opened Tables
  import opened Queries
  import opened ServiceRuns

  /** While a message lives its wrapped keys stay, and so do its receipts: the time of delivery
      never changes and a message once read stays read. */
  ghost predicate RowsOfLiveMessagesStay(t: Tables, t': Tables) {
    && (forall k :: k in t.keys && k.0 in t'.messages ==> k in t'.keys && t'.keys[k] == t.keys[k])
    && (forall k :: k in t.receipts && k.0 in t'.messages ==>
          && k in t'.receipts
          && t'.receipts[k].deliveredAt == t.receipts[k].deliveredAt
          && (t.receipts[k].readAt.Some? ==> t'.receipts[k].readAt.Some?))
  }

  lemma WithMessageKeepsRows(t: Tables, m: Message, keys: map<UserId, Term>)
    requires ForeignKeys(t) && m.id !in t.messages
    ensures RowsOfLiveMessagesStay(t, WithMessage(t, m, keys))
  {
    var rows := KeyRows(m.id, keys, keys.Keys);
    assert forall k :: k in rows ==> k.0 == m.id;
  }

  lemma UpsertKeepsRows(t: Tables, st: Statement)
    requires StoreInv(t) && (st.UpsertRead? || st.UpsertDelivered?) && Exec(st, t).Some?
    ensures RowsOfLiveMessagesStay(t, Exec(st, t).value)
  {
    var k, t' := (st.id, st.user), Exec(st, t).value;
    if t' != t {
      assert k in t.receipts ==> t.receipts[k].deliveredAt.Some?;
      ReceiptKeepsRows(t, k, t'.receipts[k]);
    }
  }

  lemma ReceiptKeepsRows(t: Tables, k: (MessageId, UserId), row: ReceiptRow)
    requires k in t.receipts ==> row.deliveredAt == t.receipts[k].deliveredAt && (t.receipts[k].readAt.Some? ==> row.readAt.Some?)
    ensures RowsOfLiveMessagesStay(t, t.(receipts := t.receipts[k := row]))
  {
  }

  lemma DeletionKeepsRows(t: Tables, ids: set<MessageId>, chat: ChatId)
    ensures RowsOfLiveMessagesStay(t, DeleteMessages(t, ids))
    ensures RowsOfLiveMessagesStay(t, DeleteChat(t, chat))
  {
  }

  lemma StepKeepsRows(s: System, step: Step)
    requires SystemInv(s) && Enabled(s, step)
    ensures RowsOfLiveMessagesStay(s.tables, Next(s, step).tables)
  {
    assert StoreInv(s.tables);
    StepEffect(s, step);
    EffectKeepsRows(s, step, Next(s, step).tables);
  }

  lemma EffectKeepsRows(s: System, step: Step, t': Tables)
    requires StoreInv(s.tables) && Enabled(s, step) && Effect(s, step, t')
    ensures RowsOfLiveMessagesStay(s.tables, t')
  {
    var t := s.tables;
    if t' != t {
      if step.MarkRead? {
        UpsertKeepsRows(t, UpsertRead(s.calls[step.call].id, s.calls[step.call].reader, step.now));
      } else if step.MarkDelivered? {
        UpsertKeepsRows(t, UpsertDelivered(s.calls[step.call].todo[0].id, s.calls[step.call].user, step.now));
      } else {
        OtherEffectKeepsRows(s, step, t');
      }
    }
  }

  lemma OtherEffectKeepsRows(s: System, step: Step, t': Tables)
    requires ForeignKeys(s.tables) && Enabled(s, step) && Effect(s, step, t') && t' != s.tables && !step.MarkRead? && !step.MarkDelivered?
    ensures RowsOfLiveMessagesStay(s.tables, t')
  {
    if step.StoreMessage? {
      WithMessageKeepsRows(s.tables, step.message, step.keys);
    } else if step.FinishDeleteMessage? {
      DeletionKeepsRows(s.tables, {s.calls[step.call].id} * s.tables.messages.Keys, ChatId(""));
    } else if step.FinishDeleteChat? {
      DeletionKeepsRows(s.tables, {}, s.calls[step.call].chat);
    }
  }

  /** A message disappears only when its own sender deletes it, or when someone deletes its chat
      while being a participant of it. */
  lemma OnlyOwnersRemoveMessages(states: seq<System>, steps: seq<Step>, i: nat, id: MessageId)
    requires IsRun(states, steps) && i < |steps|
    requires id in states[i].tables.messages && id !in states[i + 1].tables.messages
    ensures var t, m, step := states[i].tables, states[i].tables.messages[id], steps[i];
            || (step.FinishDeleteMessage? && states[i].calls[step.call] == DeletingMessage(id, m.sender))
            || (step.FinishDeleteChat? && states[i].calls[step.call].chat == m.chat
                && IsParticipant(t, m.chat, states[i].calls[step.call].requester))
  {
    RunKeepsInv(states, steps, i);
    OnlyDeletionsRemove(states[i], steps[i], id);
  }

  lemma OnlyDeletionsRemove(s: System, step: Step, id: MessageId)
    requires SystemInv(s) && Enabled(s, step) && id in s.tables.messages && id !in Next(s, step).tables.messages
    ensures var t, m := s.tables, s.tables.messages[id];
            || (step.FinishDeleteMessage? && s.calls[step.call] == DeletingMessage(id, m.sender))
            || (step.FinishDeleteChat? && s.calls[step.call].chat == m.chat && IsParticipant(t, m.chat, s.calls[step.call].requester))
  {
    RemovalByCall(s, step, id) by {
      assert ForeignKeys(s.tables) && (forall k :: k in s.calls ==> CallInv(s, s.calls[k]));
      RemovalIsDeletion(s, step, id);
    }
  }

  lemma RemovalByCall(s: System, step: Step, id: MessageId)
    requires Enabled(s, step) && id in s.tables.messages && s.tables.messages[id].chat in s.tables.chats
    requires (step.FinishDeleteMessage? || step.FinishDeleteChat?) && CallInv(s, s.calls[step.call])
    requires if step.FinishDeleteMessage? then s.calls[step.call].id == id else s.calls[step.call].chat == s.tables.messages[id].chat
    ensures var t, m := s.tables, s.tables.messages[id];
            || (step.FinishDeleteMessage? && s.calls[step.call] == DeletingMessage(id, m.sender))
            || (step.FinishDeleteChat? && s.calls[step.call].chat == m.chat && IsParticipant(t, m.chat, s.calls[step.call].requester))
  {
  }

  lemma RemovalIsDeletion(s: System, step: Step, id: MessageId)
    requires ForeignKeys(s.tables) && Enabled(s, step) && id in s.tables.messages && id !in Next(s, step).tables.messages
    ensures || (step.FinishDeleteMessage? && s.calls[step.call].id == id)
            || (step.FinishDeleteChat? && s.calls[step.call].chat == s.tables.messages[id].chat)
  {
    StepEffect(s, step);
    EffectRemoves(s, step, Next(s, step).tables, id);
  }

  lemma EffectRemoves(s: System, step: Step, t': Tables, id: MessageId)
    requires Enabled(s, step) && Effect(s, step, t') && id in s.tables.messages && id !in t'.messages
    ensures || (step.FinishDeleteMessage? && s.calls[step.call].id == id)
            || (step.FinishDeleteChat? && s.calls[step.call].chat == s.tables.messages[id].chat && s.tables.messages[id].chat !in t'.chats)
  {
  }

  lemma StepKeepsMessage(s: System, step: Step, id: MessageId)
    requires SystemInv(s) && Enabled(s, step) && id in s.usedMessages && id in Next(s, step).tables.messages
    ensures id in s.tables.messages && Next(s, step).tables.messages[id] == s.tables.messages[id]
  {
    StepPersists(s, step);
  }

  /** A generated id never names a second message: a message that exists at both ends of a stretch
      of a run existed all along, unaltered. */
  lemma {:induction false} LiveMessagesAreUnaltered(states: seq<System>, steps: seq<Step>, i: nat, k: nat, j: nat, id: MessageId)
    requires IsRun(states, steps) && i <= k <= j < |states|
    requires id in states[i].tables.messages && id in states[j].tables.messages
    ensures id in states[k].tables.messages && states[k].tables.messages[id] == states[i].tables.messages[id]
    decreases j
  {
    if i < j {
      assert id in states[j - 1].usedMessages by {
        RunKeepsInv(states, steps, i);
        UsedIdsGrow(states, steps, i, j - 1);
      }
      assert id in states[j - 1].tables.messages && states[j].tables.messages[id] == states[j - 1].tables.messages[id] by {
        RunKeepsInv(states, steps, j - 1);
        StepKeepsMessage(states[j - 1], steps[j - 1], id);
      }
      LiveMessagesAreUnaltered(states, steps, i, if k < j then k else j - 1, j - 1, id);
    }
  }

  lemma {:induction false} UsedIdsGrow(states: seq<System>, steps: seq<Step>, i: nat, j: nat)
    requires IsRun(states, steps) && i <= j < |states|
    ensures states[i].usedMessages <= states[j].usedMessages
    decreases j
  {
    if i < j {
      UsedIdsGrow(states, steps, i, j - 1);
      assert states[j] == Next(states[j - 1], steps[j - 1]);
    }
  }

  /** Over any stretch of a run in which a message lives, each of its keys and receipts stays. */
  lemma {:induction false} RunKeepsRows(states: seq<System>, steps: seq<Step>, i: nat, j: nat, id: MessageId, user: UserId)
    requires IsRun(states, steps) && i <= j < |states|
    requires id in states[i].tables.messages && id in states[j].tables.messages
    ensures var t, t' := states[i].tables, states[j].tables;
            && ((id, user) in t.keys ==> (id, user) in t'.keys && t'.keys[(id, user)] == t.keys[(id, user)])
            && ((id, user) in t.receipts ==>
                  && (id, user) in t'.receipts
                  && t'.receipts[(id, user)].deliveredAt == t.receipts[(id, user)].deliveredAt
                  && (t.receipts[(id, user)].readAt.Some? ==> t'.receipts[(id, user)].readAt.Some?))
    decreases j
  {
    if i < j {
      LiveMessagesAreUnaltered(states, steps, i, j - 1, j, id);
      RunKeepsRows(states, steps, i, j - 1, id, user);
      RunKeepsInv(states, steps, j - 1);
      StepKeepsRows(states[j - 1], steps[j - 1]);
    }
  }

  /** Receipts: delivered from creation on, read implies delivered, never for the sender. */
  lemma ReceiptsAreSound(states: seq<System>, steps: seq<Step>, i: nat, id: MessageId, user: UserId)
    requires IsRun(states, steps) && i < |states| && (id, user) in states[i].tables.receipts
    ensures user in DeliveredTo(states[i].tables, id)
    ensures Readers(states[i].tables, id) <= DeliveredTo(states[i].tables, id)
    ensures id in states[i].tables.messages && states[i].tables.messages[id].sender != user
  {
    RunKeepsInv(states, steps, i);
    assert (id, user) in states[i].tables.receipts;
    forall u | u in Readers(states[i].tables, id) ensures u in DeliveredTo(states[i].tables, id) {
      assert (id, u) in states[i].tables.receipts;
    }
  }

  /** A message that was delivered to a user is never offered to that user again. */
  lemma NeverRedelivered(states: seq<System>, steps: seq<Step>, i: nat, j: nat, id: MessageId, user: UserId)
    requires IsRun(states, steps) && i <= j < |states|
    requires Delivered(states[i].tables, id, user)
    ensures id !in Undelivered(states[j].tables, user)
  {
    RunKeepsInv(states, steps, i);
    if id in states[j].tables.messages {
      RunKeepsRows(states, steps, i, j, id, user);
    }
  }

  /** The three ways of asking who is in a chat agree, although only two of them look at left_at. */
  lemma MembershipViewsAgree(states: seq<System>, steps: seq<Step>, i: nat, chat: ChatId, user: UserId)
    requires IsRun(states, steps) && i < |states|
    ensures var t := states[i].tables;
            && (IsParticipant(t, chat, user) <==> user in Members(t, chat))
            && (IsParticipant(t, chat, user) <==> chat in ChatsOf(t, user))
  {
    RunKeepsInv(states, steps, i);
    MembershipViewsAgreeExactly(states[i].tables, chat, user);
  }

  /** They agree on a pair exactly when its row, if there is one, has no left_at. */
  lemma MembershipViewsAgreeExactly(t: Tables, chat: ChatId, user: UserId)
    requires ForeignKeys(t)
    ensures ((IsParticipant(t, chat, user) <==> user in Members(t, chat)) && (IsParticipant(t, chat, user) <==> chat in ChatsOf(t, user)))
            <==> !((chat, user) in t.participants && t.participants[(chat, user)].leftAt.Some?)
  {
    var p := (chat, user);
    if p in t.participants && t.participants[p].leftAt.None? {
      assert p.0 == chat && p.1 == user;
    }
  }

  /** A user who has left is still a participant to one query and none to the other two. */
  lemma LeftUserSplitsTheViews(chat: ChatId, user: UserId, left: Time) returns (t: Tables)
    ensures ForeignKeys(t) && IsParticipant(t, chat, user) && user !in Members(t, chat) && chat !in ChatsOf(t, user)
  {
    t := EMPTY.(users := map[user := PublicKey(1)], chats := map[chat := ChatRow(1, None, None)],
                participants := map[(chat, user) := ParticipantRow(Some(left))]);
    MembershipViewsAgreeExactly(t, chat, user);
  }
}

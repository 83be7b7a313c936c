/** What the queries answer in a state of a run, in terms of the steps that were taken before it. */
module ObservedRuns {
  import opened Wrappers
  import opened SymbolicCrypto
  import opened Sequences
  import opened Tables
  import opened Queries
  import opened Effects
  import opened ServiceRuns
  import opened ServiceGuarantees
  import PqxxRepositories

  /** The step is a MarkAsRead of this message by this user, whose write the constraints allow. */
  predicate Reads(s: System, step: Step, id: MessageId, user: UserId) {
    && step.MarkRead? && step.call in s.calls && s.calls[step.call].Reading?
    && s.calls[step.call].id == id && s.calls[step.call].reader == user
    && id in s.tables.messages && user in s.tables.users
  }

  /** The step marks this message as delivered to this user, and the constraints allow it. */
  predicate Delivers(s: System, step: Step, id: MessageId, user: UserId) {
    && step.MarkDelivered? && step.call in s.calls && s.calls[step.call].Delivering?
    && s.calls[step.call].todo != [] && s.calls[step.call].todo[0].id == id && s.calls[step.call].user == user
    && id in s.tables.messages && user in s.tables.users
  }

  /** The step deletes the message or its chat. */
  predicate Deletes(s: System, step: Step, id: MessageId) {
    || (step.FinishDeleteMessage? && step.call in s.calls && s.calls[step.call].DeletingMessage? && s.calls[step.call].id == id)
    || (step.FinishDeleteChat? && step.call in s.calls && s.calls[step.call].DeletingChat?
        && id in s.tables.messages && s.tables.messages[id].chat == s.calls[step.call].chat)
  }

  /** What a step changes of one receipt. */
  ghost predicate ReceiptStep(t: Tables, t': Tables, id: MessageId, user: UserId, isRead: bool, isDelivered: bool) {
    && (ReadAt(t', id, user).Some? <==> id in t'.messages && (ReadAt(t, id, user).Some? || isRead))
    && (DeliveredAt(t', id, user).Some? <==> id in t'.messages && (DeliveredAt(t, id, user).Some? || isRead || isDelivered))
  }

  lemma ReadingStep(s: System, step: Step, id: MessageId, user: UserId)
    requires ForeignKeys(s.tables) && Enabled(s, step) && step.MarkRead?
    ensures ReceiptStep(s.tables, Next(s, step).tables, id, user, Reads(s, step, id, user), false)
  {
    var call := s.calls[step.call];
    OneStatement(UpsertRead(call.id, call.reader, step.now), s.tables);
    MarkReadEffect(s.tables, call.id, call.reader, step.now);
    var t' := Next(s, step).tables;
    assert (id, user) != (call.id, call.reader) ==> SameAt(s.tables.receipts, t'.receipts, (id, user));
  }

  lemma DeliveringStep(s: System, step: Step, id: MessageId, user: UserId)
    requires ForeignKeys(s.tables) && Enabled(s, step) && step.MarkDelivered?
    ensures ReceiptStep(s.tables, Next(s, step).tables, id, user, false, Delivers(s, step, id, user))
  {
    var call := s.calls[step.call];
    OneStatement(UpsertDelivered(call.todo[0].id, call.user, step.now), s.tables);
    MarkDeliveredEffect(s.tables, call.todo[0].id, call.user, step.now);
    var t' := Next(s, step).tables;
    assert (id, user) != (call.todo[0].id, call.user) ==> SameAt(s.tables.receipts, t'.receipts, (id, user));
  }

  lemma RowsOfGone(t: Tables, t': Tables, ids: set<MessageId>, id: MessageId, user: UserId)
    requires ForeignKeys(t) && MessagesGo(t.messages, t'.messages, ids) && RowsGo(t.receipts, t'.receipts, ids)
    ensures ReceiptStep(t, t', id, user, false, false)
    ensures id in t'.messages <==> id in t.messages && id !in ids
  {
  }

  lemma RemovingMessage(s: System, step: Step, id: MessageId, user: UserId)
    requires ForeignKeys(s.tables) && Enabled(s, step) && step.FinishDeleteMessage?
    ensures ReceiptStep(s.tables, Next(s, step).tables, id, user, false, false)
    ensures id in Next(s, step).tables.messages <==> id in s.tables.messages && !Deletes(s, step, id)
  {
    var gone, t := s.calls[step.call].id, s.tables;
    OneStatement(DeleteMessageRow(gone), t);
    DeleteMessageEffect(t, gone);
    RowsOfGone(t, Next(s, step).tables, {gone} * t.messages.Keys, id, user);
  }

  lemma RemovingChat(s: System, step: Step, id: MessageId, user: UserId)
    requires ForeignKeys(s.tables) && OwnLastMessages(s.tables) && Enabled(s, step) && step.FinishDeleteChat?
    ensures ReceiptStep(s.tables, Next(s, step).tables, id, user, false, false)
    ensures id in Next(s, step).tables.messages <==> id in s.tables.messages && !Deletes(s, step, id)
  {
    var chat, t := s.calls[step.call].chat, s.tables;
    OneStatement(DeleteChatRow(chat), t);
    DeleteChatEffect(t, chat);
    RowsOfGone(t, Next(s, step).tables, MessagesOf(t, chat), id, user);
  }

  /** No other step touches the receipts, or takes a message away. */
  lemma OtherStep(s: System, step: Step)
    requires ForeignKeys(s.tables) && Enabled(s, step)
    requires !step.MarkRead? && !step.MarkDelivered? && !step.FinishDeleteMessage? && !step.FinishDeleteChat?
    ensures Next(s, step).tables.receipts == s.tables.receipts
    ensures s.tables.messages.Keys <= Next(s, step).tables.messages.Keys
  {
    StepEffect(s, step);
    OtherEffect(s, step, Next(s, step).tables);
  }

  lemma OtherEffect(s: System, step: Step, t': Tables)
    requires Enabled(s, step) && Effect(s, step, t')
    requires !step.MarkRead? && !step.MarkDelivered? && !step.FinishDeleteMessage? && !step.FinishDeleteChat?
    ensures t'.receipts == s.tables.receipts && s.tables.messages.Keys <= t'.messages.Keys
  {
  }

  lemma StoreHasOwnLastMessages(t: Tables)
    requires StoreInv(t)
    ensures ForeignKeys(t) && OwnLastMessages(t)
  {
  }

  lemma StepOnReceipt(s: System, step: Step, id: MessageId, user: UserId)
    requires SystemInv(s) && Enabled(s, step)
    ensures ReceiptStep(s.tables, Next(s, step).tables, id, user, Reads(s, step, id, user), Delivers(s, step, id, user))
  {
    StoreHasOwnLastMessages(s.tables);
    if step.MarkRead? {
      ReadingStep(s, step, id, user);
    } else if step.MarkDelivered? {
      DeliveringStep(s, step, id, user);
    } else if step.FinishDeleteMessage? {
      RemovingMessage(s, step, id, user);
    } else if step.FinishDeleteChat? {
      RemovingChat(s, step, id, user);
    } else {
      OtherStep(s, step);
      NoOrphans(s.tables, id, user);
    }
  }

  lemma NoOrphans(t: Tables, id: MessageId, user: UserId)
    requires ForeignKeys(t)
    ensures ReadAt(t, id, user).Some? || DeliveredAt(t, id, user).Some? ==> id in t.messages
  {
  }

  /** A flag that is set at some steps, is reset at some and holds only while its object is alive, and
      an object that, once gone, stays gone. */
  ghost predicate IsLatch(alive: seq<bool>, sets: seq<bool>, resets: seq<bool>, held: seq<bool>) {
    && |alive| == |held| == |sets| + 1 == |resets| + 1 && !held[0]
    && (forall k :: 0 <= k < |sets| ==> LatchStep(alive, sets, resets, held, k))
    && StaysGone(alive)
  }

  predicate LatchStep(alive: seq<bool>, sets: seq<bool>, resets: seq<bool>, held: seq<bool>, k: int)
    requires |alive| == |held| == |sets| + 1 == |resets| + 1 && 0 <= k < |sets|
  {
    (held[k + 1] <==> alive[k + 1] && (sets[k] || (held[k] && !resets[k]))) && (sets[k] ==> alive[k])
  }

  ghost predicate StaysGone(alive: seq<bool>) {
    forall i, k :: 0 <= i <= k < |alive| && alive[i] && alive[k] ==> forall m :: i <= m <= k ==> alive[m]
  }

  /** Set at i and not reset between i and j. */
  ghost predicate SetSince(sets: seq<bool>, resets: seq<bool>, i: int, j: nat)
    requires j <= |sets| == |resets|
  {
    0 <= i < j && sets[i] && forall k :: i < k < j ==> !resets[k]
  }

  lemma {:induction false} LatchExactly(alive: seq<bool>, sets: seq<bool>, resets: seq<bool>, held: seq<bool>, j: nat)
    requires IsLatch(alive, sets, resets, held) && j < |held|
    ensures held[j] <==> alive[j] && exists i :: SetSince(sets, resets, i, j)
  {
    if j > 0 {
      var h := j - 1;
      assert LatchStep(alive, sets, resets, held, h);
      LatchExactly(alive, sets, resets, held, h);
      if alive[j] {
        if held[j] {
          if sets[h] {
            assert SetSince(sets, resets, h, j);
          } else {
            var i :| SetSince(sets, resets, i, h);
            assert SetSince(sets, resets, i, j);
          }
        }
        if i :| SetSince(sets, resets, i, j) {
          assert LatchStep(alive, sets, resets, held, i) && alive[i];
          assert i < h ==> SetSince(sets, resets, i, h) && alive[h];
        }
      }
    }
  }

  /** Whether the message exists in each of the states. */
  function Alive(states: seq<System>, id: MessageId): seq<bool> {
    seq(|states|, k requires 0 <= k < |states| => id in states[k].tables.messages)
  }

  lemma DeadStayDead(states: seq<System>, steps: seq<Step>, id: MessageId)
    requires IsRun(states, steps)
    ensures StaysGone(Alive(states, id))
  {
    forall i, k, m | 0 <= i <= m <= k < |states| && Alive(states, id)[i] && Alive(states, id)[k] ensures Alive(states, id)[m] {
      LiveMessagesAreUnaltered(states, steps, i, m, k, id);
    }
  }

  lemma ReceiptAt(states: seq<System>, steps: seq<Step>, k: nat, id: MessageId, user: UserId)
    requires IsRun(states, steps) && k < |steps|
    ensures ReceiptStep(states[k].tables, states[k + 1].tables, id, user, Reads(states[k], steps[k], id, user), Delivers(states[k], steps[k], id, user))
  {
    RunKeepsInv(states, steps, k);
    StepOnReceipt(states[k], steps[k], id, user);
  }

  function ReadSteps(states: seq<System>, steps: seq<Step>, id: MessageId, user: UserId): seq<bool>
    requires |states| == |steps| + 1
  {
    seq(|steps|, k requires 0 <= k < |steps| => Reads(states[k], steps[k], id, user))
  }

  function MarkSteps(states: seq<System>, steps: seq<Step>, id: MessageId, user: UserId): seq<bool>
    requires |states| == |steps| + 1
  {
    seq(|steps|, k requires 0 <= k < |steps| => Reads(states[k], steps[k], id, user) || Delivers(states[k], steps[k], id, user))
  }

  function HasRead(states: seq<System>, id: MessageId, user: UserId): seq<bool> {
    seq(|states|, k requires 0 <= k < |states| => ReadAt(states[k].tables, id, user).Some?)
  }

  function HasReceived(states: seq<System>, id: MessageId, user: UserId): seq<bool> {
    seq(|states|, k requires 0 <= k < |states| => DeliveredAt(states[k].tables, id, user).Some?)
  }

  /** No step is a reset. */
  function Never(n: nat): seq<bool> {
    seq(n, k => false)
  }

  lemma LatchAt(states: seq<System>, steps: seq<Step>, k: nat, id: MessageId, user: UserId)
    requires IsRun(states, steps) && k < |steps|
    ensures LatchStep(Alive(states, id), ReadSteps(states, steps, id, user), Never(|steps|), HasRead(states, id, user), k)
    ensures LatchStep(Alive(states, id), MarkSteps(states, steps, id, user), Never(|steps|), HasReceived(states, id, user), k)
  {
    ReceiptAt(states, steps, k, id, user);
  }

  lemma ReceiptLatches(states: seq<System>, steps: seq<Step>, id: MessageId, user: UserId)
    requires IsRun(states, steps)
    ensures IsLatch(Alive(states, id), ReadSteps(states, steps, id, user), Never(|steps|), HasRead(states, id, user))
    ensures IsLatch(Alive(states, id), MarkSteps(states, steps, id, user), Never(|steps|), HasReceived(states, id, user))
  {
    DeadStayDead(states, steps, id);
    forall k | 0 <= k < |steps|
      ensures LatchStep(Alive(states, id), ReadSteps(states, steps, id, user), Never(|steps|), HasRead(states, id, user), k)
      ensures LatchStep(Alive(states, id), MarkSteps(states, steps, id, user), Never(|steps|), HasReceived(states, id, user), k)
    {
      LatchAt(states, steps, k, id, user);
    }
  }

  lemma SetBefore(sets: seq<bool>, resets: seq<bool>, j: nat)
    requires j <= |sets| && resets == Never(|sets|)
    ensures (exists i :: SetSince(sets, resets, i, j)) <==> exists i :: 0 <= i < j && sets[i]
  {
    if i :| 0 <= i < j && sets[i] {
      assert SetSince(sets, resets, i, j);
    }
  }

  /** In every state of every run: a user is among the readers of a message exactly when the message
      exists and a MarkAsRead of that user for it has been committed. */
  lemma ReadersExactly(states: seq<System>, steps: seq<Step>, j: nat, id: MessageId, user: UserId)
    requires IsRun(states, steps) && j < |states|
    ensures user in Readers(states[j].tables, id)
            <==> id in states[j].tables.messages && exists i :: 0 <= i < j && ReadSteps(states, steps, id, user)[i]
  {
    InReaders(states[j].tables, id, user);
    ReceiptLatches(states, steps, id, user);
    LatchExactly(Alive(states, id), ReadSteps(states, steps, id, user), Never(|steps|), HasRead(states, id, user), j);
    SetBefore(ReadSteps(states, steps, id, user), Never(|steps|), j);
  }

  /** It counts as delivered to a user exactly when it exists and such a MarkAsRead, or a marking by a
      GetUndelivered of that user, has been committed. */
  lemma DeliveredExactly(states: seq<System>, steps: seq<Step>, j: nat, id: MessageId, user: UserId)
    requires IsRun(states, steps) && j < |states|
    ensures user in DeliveredTo(states[j].tables, id)
            <==> id in states[j].tables.messages && exists i :: 0 <= i < j && MarkSteps(states, steps, id, user)[i]
  {
    InReaders(states[j].tables, id, user);
    ReceiptLatches(states, steps, id, user);
    LatchExactly(Alive(states, id), MarkSteps(states, steps, id, user), Never(|steps|), HasReceived(states, id, user), j);
    SetBefore(MarkSteps(states, steps, id, user), Never(|steps|), j);
  }

  lemma StepOnMessage(s: System, step: Step, id: MessageId)
    requires SystemInv(s) && Enabled(s, step) && id in s.tables.messages
    ensures id in Next(s, step).tables.messages <==> !Deletes(s, step, id)
  {
    StoreHasOwnLastMessages(s.tables);
    if step.FinishDeleteMessage? {
      RemovingMessage(s, step, id, UserId(""));
    } else if step.FinishDeleteChat? {
      RemovingChat(s, step, id, UserId(""));
    } else {
      StepEffect(s, step);
      EffectKeepsMessage(s, step, Next(s, step).tables, id);
    }
  }

  lemma EffectKeepsMessage(s: System, step: Step, t': Tables, id: MessageId)
    requires Enabled(s, step) && Effect(s, step, t') && id in s.tables.messages && !step.FinishDeleteMessage? && !step.FinishDeleteChat?
    ensures id in t'.messages
  {
  }

  lemma DeletionAt(states: seq<System>, steps: seq<Step>, k: nat, id: MessageId)
    requires IsRun(states, steps) && k < |steps| && id in states[k].tables.messages
    ensures id in states[k + 1].tables.messages <==> !Deletes(states[k], steps[k], id)
  {
    RunKeepsInv(states, steps, k);
    StepOnMessage(states[k], steps[k], id);
  }

  function DeleteSteps(states: seq<System>, steps: seq<Step>, id: MessageId): seq<bool>
    requires |states| == |steps| + 1
  {
    seq(|steps|, k requires 0 <= k < |steps| => Deletes(states[k], steps[k], id))
  }

  lemma {:induction false} AliveExactly(alive: seq<bool>, deletes: seq<bool>, i: nat, j: nat)
    requires StaysGone(alive) && |alive| == |deletes| + 1 && i <= j < |alive| && alive[i]
    requires forall k :: 0 <= k < |deletes| && alive[k] ==> (alive[k + 1] <==> !deletes[k])
    ensures alive[j] <==> forall k :: i <= k < j ==> !deletes[k]
    decreases j
  {
    if i < j {
      AliveExactly(alive, deletes, i, j - 1);
    }
  }

  /** A message that exists at one point exists at a later one exactly when neither it nor its chat was
      deleted in between. */
  lemma MessageLivesExactly(states: seq<System>, steps: seq<Step>, i: nat, j: nat, id: MessageId)
    requires IsRun(states, steps) && i <= j < |states| && id in states[i].tables.messages
    ensures id in states[j].tables.messages <==> forall k :: i <= k < j ==> !DeleteSteps(states, steps, id)[k]
  {
    DeadStayDead(states, steps, id);
    forall k | 0 <= k < |steps| && id in states[k].tables.messages ensures id in states[k + 1].tables.messages <==> !DeleteSteps(states, steps, id)[k] {
      DeletionAt(states, steps, k, id);
    }
    AliveExactly(Alive(states, id), DeleteSteps(states, steps, id), i, j);
  }

  /** The step commits an UpdateLastMessage of this chat to this message. */
  predicate SetsLast(s: System, step: Step, chat: ChatId, id: MessageId) {
    && step.UpdateLast? && step.call in s.calls && s.calls[step.call].Stored?
    && s.calls[step.call].message.chat == chat && s.calls[step.call].message.id == id
    && chat in s.tables.chats && id in s.tables.messages
  }

  /** What a step changes of one chat's last message. */
  ghost predicate LastStep(s: System, step: Step, t': Tables, chat: ChatId, id: MessageId) {
    LastMessage(t', chat) == Some(id)
    <==> SetsLast(s, step, chat, id)
         || (LastMessage(s.tables, chat) == Some(id) && id in t'.messages && forall other :: !SetsLast(s, step, chat, other))
  }

  lemma UpdatingStep(s: System, step: Step, chat: ChatId, id: MessageId)
    requires ForeignKeys(s.tables) && Enabled(s, step) && step.UpdateLast?
    ensures LastStep(s, step, Next(s, step).tables, chat, id)
  {
    var m, t' := s.calls[step.call].message, Next(s, step).tables;
    OneStatement(SetLastMessage(m.chat, m.id, m.createdAt), s.tables);
    SetLastEffect(s.tables, m.chat, m.id, m.createdAt);
    if m.chat == chat && chat in s.tables.chats && m.id in s.tables.messages {
      assert SetsLast(s, step, chat, m.id);
    } else {
      assert SameAt(s.tables.chats, t'.chats, chat);
    }
  }

  lemma DeletingStep(s: System, step: Step, chat: ChatId, id: MessageId)
    requires StoreInv(s.tables) && Enabled(s, step) && (step.FinishDeleteMessage? || step.FinishDeleteChat?)
    ensures LastStep(s, step, Next(s, step).tables, chat, id)
  {
    var call, t, t' := s.calls[step.call], s.tables, Next(s, step).tables;
    StoreHasOwnLastMessages(t);
    if step.FinishDeleteMessage? {
      OneStatement(DeleteMessageRow(call.id), t);
      DeleteMessageEffect(t, call.id);
    } else {
      OneStatement(DeleteChatRow(call.chat), t);
      DeleteChatEffect(t, call.chat);
      assert chat != call.chat ==> SameAt(t.chats, t'.chats, chat);
    }
  }

  lemma PlainStep(s: System, step: Step, chat: ChatId, id: MessageId)
    requires ForeignKeys(s.tables) && Enabled(s, step) && !step.UpdateLast? && !step.FinishDeleteMessage? && !step.FinishDeleteChat?
    ensures LastStep(s, step, Next(s, step).tables, chat, id)
  {
    StepEffect(s, step);
    PlainEffect(s, step, Next(s, step).tables, chat);
  }

  lemma PlainEffect(s: System, step: Step, t': Tables, chat: ChatId)
    requires Enabled(s, step) && Effect(s, step, t') && !step.UpdateLast? && !step.FinishDeleteMessage? && !step.FinishDeleteChat?
    ensures LastMessage(t', chat) == LastMessage(s.tables, chat) && s.tables.messages.Keys <= t'.messages.Keys
  {
  }

  lemma StepOnLast(s: System, step: Step, chat: ChatId, id: MessageId)
    requires SystemInv(s) && Enabled(s, step)
    ensures LastStep(s, step, Next(s, step).tables, chat, id)
  {
    assert StoreInv(s.tables);
    if step.UpdateLast? {
      UpdatingStep(s, step, chat, id);
    } else if step.FinishDeleteMessage? || step.FinishDeleteChat? {
      DeletingStep(s, step, chat, id);
    } else {
      PlainStep(s, step, chat, id);
    }
  }

  lemma LastAt(states: seq<System>, steps: seq<Step>, k: nat, chat: ChatId, id: MessageId)
    requires IsRun(states, steps) && k < |steps|
    ensures LastStep(states[k], steps[k], states[k + 1].tables, chat, id)
    ensures SetsLast(states[k], steps[k], chat, id) ==> id in states[k].tables.messages && id in states[k + 1].tables.messages
  {
    RunKeepsInv(states, steps, k);
    StepOnLast(states[k], steps[k], chat, id);
    if SetsLast(states[k], steps[k], chat, id) {
      StepOnMessage(states[k], steps[k], id);
    }
  }

  lemma LastExists(states: seq<System>, steps: seq<Step>, k: nat, chat: ChatId, id: MessageId)
    requires IsRun(states, steps) && k < |states|
    ensures LastMessage(states[k].tables, chat) == Some(id) ==> id in states[k].tables.messages
  {
    RunKeepsInv(states, steps, k);
  }

  /** The steps that make the message the chat's last one, and those that make any message it. */
  function SetSteps(states: seq<System>, steps: seq<Step>, chat: ChatId, id: MessageId): seq<bool>
    requires |states| == |steps| + 1
  {
    seq(|steps|, k requires 0 <= k < |steps| => SetsLast(states[k], steps[k], chat, id))
  }

  ghost function UpdateSteps(states: seq<System>, steps: seq<Step>, chat: ChatId): seq<bool>
    requires |states| == |steps| + 1
  {
    seq(|steps|, k requires 0 <= k < |steps| => exists other :: SetsLast(states[k], steps[k], chat, other))
  }

  function IsLast(states: seq<System>, chat: ChatId, id: MessageId): seq<bool> {
    seq(|states|, k requires 0 <= k < |states| => LastMessage(states[k].tables, chat) == Some(id))
  }

  lemma LastLatchAt(states: seq<System>, steps: seq<Step>, k: nat, chat: ChatId, id: MessageId)
    requires IsRun(states, steps) && k < |steps|
    ensures LatchStep(Alive(states, id), SetSteps(states, steps, chat, id), UpdateSteps(states, steps, chat), IsLast(states, chat, id), k)
  {
    LastAt(states, steps, k, chat, id);
    LastExists(states, steps, k + 1, chat, id);
  }

  lemma LastLatch(states: seq<System>, steps: seq<Step>, chat: ChatId, id: MessageId)
    requires IsRun(states, steps)
    ensures IsLatch(Alive(states, id), SetSteps(states, steps, chat, id), UpdateSteps(states, steps, chat), IsLast(states, chat, id))
  {
    DeadStayDead(states, steps, id);
    forall k | 0 <= k < |steps|
      ensures LatchStep(Alive(states, id), SetSteps(states, steps, chat, id), UpdateSteps(states, steps, chat), IsLast(states, chat, id), k)
    {
      LastLatchAt(states, steps, k, chat, id);
    }
  }

  /** In every state of every run: a chat's last message is the one to which it was last updated, for
      as long as that message exists, and none otherwise. */
  lemma LastMessageExactly(states: seq<System>, steps: seq<Step>, j: nat, chat: ChatId, id: MessageId)
    requires IsRun(states, steps) && j < |states|
    ensures LastMessage(states[j].tables, chat) == Some(id)
            <==> id in states[j].tables.messages && exists i :: SetSince(SetSteps(states, steps, chat, id), UpdateSteps(states, steps, chat), i, j)
  {
    LastLatch(states, steps, chat, id);
    LatchExactly(Alive(states, id), SetSteps(states, steps, chat, id), UpdateSteps(states, steps, chat), IsLast(states, chat, id), j);
  }

  lemma NewMessage(s: System, step: Step, id: MessageId)
    requires SystemInv(s) && Enabled(s, step) && id in Next(s, step).tables.messages && id !in s.tables.messages
    ensures step.StoreMessage? && step.message.id == id && Next(s, step).tables.messages[id] == step.message
  {
    assert ForeignKeys(s.tables);
    StepEffect(s, step);
    NewInEffect(s, step, Next(s, step).tables, id);
  }

  lemma NewInEffect(s: System, step: Step, t': Tables, id: MessageId)
    requires Enabled(s, step) && Effect(s, step, t') && id in t'.messages && id !in s.tables.messages
    ensures step.StoreMessage? && step.message.id == id && t'.messages[id] == step.message
  {
  }

  /** The last time that the flag went up. */
  lemma {:induction false} Rise(flags: seq<bool>, j: nat) returns (i: nat)
    requires j < |flags| && flags[j] && !flags[0]
    ensures i < j && !flags[i] && forall k :: i < k <= j ==> flags[k]
  {
    if flags[j - 1] {
      i := Rise(flags, j - 1);
    } else {
      i := j - 1;
    }
  }

  lemma StoredAt(states: seq<System>, steps: seq<Step>, i: nat, id: MessageId)
    requires IsRun(states, steps) && i < |steps| && id !in states[i].tables.messages && id in states[i + 1].tables.messages
    ensures steps[i].StoreMessage? && states[i + 1].tables.messages[id] == steps[i].message
    ensures steps[i].message.createdAt != 0 && steps[i].message.ciphertext != Text("")
  {
    RunKeepsInv(states, steps, i);
    NewMessage(states[i], steps[i], id);
  }

  /** Every message there is was stored as it is by a send, with a time of creation and a ciphertext. */
  lemma MessagesWereSent(states: seq<System>, steps: seq<Step>, j: nat, id: MessageId) returns (i: nat)
    requires IsRun(states, steps) && j < |states| && id in states[j].tables.messages
    ensures i < j && steps[i].StoreMessage? && steps[i].message == states[j].tables.messages[id]
    ensures states[j].tables.messages[id].createdAt != 0 && states[j].tables.messages[id].ciphertext != Text("")
  {
    i := Rise(Alive(states, id), j);
    assert Alive(states, id)[i + 1];
    StoredAt(states, steps, i, id);
    LiveMessagesAreUnaltered(states, steps, i + 1, j, j, id);
  }

  lemma StepOnChat(s: System, step: Step, chat: ChatId)
    requires SystemInv(s) && Enabled(s, step) && chat in Next(s, step).tables.chats
    ensures var t, t' := s.tables, Next(s, step).tables;
            if chat in t.chats then CreatedAt(t', chat) == CreatedAt(t, chat) && Members(t', chat) == Members(t, chat)
            else step.CreateChat? && step.chat == chat && CreatedAt(t', chat) == Some(step.at) && Members(t', chat) == Elements(step.members)
  {
    StoreHasOwnLastMessages(s.tables);
    StepEffect(s, step);
    var t' := Next(s, step).tables;
    if step.CreateChat? && t' != s.tables {
      NewChatEffect(s.tables, step.chat, step.at, Elements(step.members));
      OldMembers(s.tables, t', step.chat, chat);
    } else if step.FinishDeleteChat? {
      OneStatement(DeleteChatRow(s.calls[step.call].chat), s.tables);
      DeleteChatEffect(s.tables, s.calls[step.call].chat);
      OldMembers(s.tables, t', s.calls[step.call].chat, chat);
    } else {
      SeatsStay(s, step, t', chat);
    }
  }

  lemma OldMembers(t: Tables, t': Tables, touched: ChatId, chat: ChatId)
    requires forall p: (ChatId, UserId) :: p.0 != touched ==> SameAt(t.participants, t'.participants, p)
    ensures chat != touched ==> Members(t', chat) == Members(t, chat)
  {
    if chat != touched {
      forall u ensures u in Members(t', chat) <==> u in Members(t, chat) {
        var p := (chat, u);
        assert SameAt(t.participants, t'.participants, p) && p.0 == chat && p.1 == u;
        assert u in Members(t, chat) <==> p in t.participants && t.participants[p].leftAt.None?;
        assert u in Members(t', chat) <==> p in t'.participants && t'.participants[p].leftAt.None?;
      }
    }
  }

  lemma SeatsStay(s: System, step: Step, t': Tables, chat: ChatId)
    requires Enabled(s, step) && Effect(s, step, t') && !step.FinishDeleteChat? && (step.CreateChat? ==> t' == s.tables)
    ensures t'.participants == s.tables.participants && CreatedAt(t', chat) == CreatedAt(s.tables, chat)
  {
  }

  lemma ChatAtStep(states: seq<System>, steps: seq<Step>, k: nat, chat: ChatId)
    requires IsRun(states, steps) && k < |steps| && chat in states[k + 1].tables.chats
    ensures var t, t', step := states[k].tables, states[k + 1].tables, steps[k];
            if chat in t.chats then CreatedAt(t', chat) == CreatedAt(t, chat) && Members(t', chat) == Members(t, chat)
            else step.CreateChat? && step.chat == chat && step.at != 0 && CreatedAt(t', chat) == Some(step.at) && Members(t', chat) == Elements(step.members)
  {
    RunKeepsInv(states, steps, k);
    StepOnChat(states[k], steps[k], chat);
  }

  /** Whether the chat exists in each of the states. */
  function ChatAlive(states: seq<System>, chat: ChatId): seq<bool> {
    seq(|states|, k requires 0 <= k < |states| => chat in states[k].tables.chats)
  }

  lemma {:induction false} ChatStays(states: seq<System>, steps: seq<Step>, i: nat, j: nat, chat: ChatId)
    requires IsRun(states, steps) && i <= j < |states| && forall k :: i <= k <= j ==> ChatAlive(states, chat)[k]
    ensures CreatedAt(states[j].tables, chat) == CreatedAt(states[i].tables, chat) && Members(states[j].tables, chat) == Members(states[i].tables, chat)
    decreases j
  {
    if i < j {
      ChatStays(states, steps, i, j - 1, chat);
      assert ChatAlive(states, chat)[j] && ChatAlive(states, chat)[j - 1];
      ChatAtStep(states, steps, j - 1, chat);
    }
  }

  /** Every chat there is was created by a CreateChat with this time of creation and these members. */
  lemma ChatsWereCreated(states: seq<System>, steps: seq<Step>, j: nat, chat: ChatId) returns (i: nat)
    requires IsRun(states, steps) && j < |states| && chat in states[j].tables.chats
    ensures i < j && steps[i].CreateChat? && steps[i].chat == chat && steps[i].at != 0
    ensures CreatedAt(states[j].tables, chat) == Some(steps[i].at) && Members(states[j].tables, chat) == Elements(steps[i].members)
  {
    i := Rise(ChatAlive(states, chat), j);
    assert ChatAlive(states, chat)[i + 1];
    ChatAtStep(states, steps, i, chat);
    ChatStays(states, steps, i + 1, j, chat);
  }

  /** What reading a chat shows in any state of any run: its last message is the existing message of
      that chat to which it was last updated, and it was created when it says. */
  lemma ChatReadsExactly(states: seq<System>, steps: seq<Step>, j: nat, chat: ChatId, users: seq<UserId>, m: Message) returns (created: nat)
    requires IsRun(states, steps) && j < |states| && chat in states[j].tables.chats
    ensures var t := states[j].tables;
            && (PqxxRepositories.ChatAt(t, chat, users).lastMessage == Some(m)
                <==> && m.id in t.messages && t.messages[m.id] == m
                     && exists i :: SetSince(SetSteps(states, steps, chat, m.id), UpdateSteps(states, steps, chat), i, j))
            && (PqxxRepositories.ChatAt(t, chat, users).lastMessage == Some(m) ==> m.chat == chat)
    ensures created < j && steps[created].CreateChat? && steps[created].chat == chat
            && PqxxRepositories.ChatAt(states[j].tables, chat, users).createdAt == steps[created].at
  {
    created := ChatsWereCreated(states, steps, j, chat);
    LastMessageExactly(states, steps, j, chat, m.id);
    ShownInState(states, steps, j, chat, users);
  }

  lemma ShownInState(states: seq<System>, steps: seq<Step>, j: nat, chat: ChatId, users: seq<UserId>)
    requires IsRun(states, steps) && j < |states| && chat in states[j].tables.chats
    ensures var t, shown := states[j].tables, PqxxRepositories.ChatAt(states[j].tables, chat, users);
            && CreatedAt(t, chat) == Some(shown.createdAt)
            && forall m :: shown.lastMessage == Some(m) <==> m.id in t.messages && t.messages[m.id] == m && LastMessage(t, chat) == Some(m.id)
    ensures var shown := PqxxRepositories.ChatAt(states[j].tables, chat, users).lastMessage; shown.Some? ==> shown.value.chat == chat
  {
    RunKeepsInv(states, steps, j);
    ShownInStore(states[j].tables, chat, users);
  }

  lemma ShownInStore(t: Tables, chat: ChatId, users: seq<UserId>)
    requires StoreInv(t) && chat in t.chats
    ensures var shown := PqxxRepositories.ChatAt(t, chat, users);
            && CreatedAt(t, chat) == Some(shown.createdAt)
            && (forall m :: shown.lastMessage == Some(m) <==> m.id in t.messages && t.messages[m.id] == m && LastMessage(t, chat) == Some(m.id))
            && (shown.lastMessage.Some? ==> shown.lastMessage.value.chat == chat)
  {
    PqxxRepositories.ChatAtShows(t, chat, users);
  }
}

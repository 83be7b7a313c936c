/** MessageService: every call makes its checks, then its repository calls, then its notifications. A
    method here is one call with the tables to itself; module ServiceRuns interleaves such calls. */
module MessageServices {
  import opened Wrappers
  import opened Sequences
  import opened SymbolicCrypto
  import opened Tables
  import opened Queries
  import opened Pages
  import opened P = PoolProtocol
  import opened Connections
  import opened Repositories
  import opened PqxxRepositories
  import opened Uuids
  import Delivery
  import DeliveryLosses
  import Effects
  import N = Notifications

  /** What a repository call of the service meets, by its position in the service call. */
  type Envs = nat -> Env

  ghost predicate AllCalm(envs: Envs) {
    forall k: nat :: envs(k).Calm()
  }

  /** The tables after a complete send. */
  function Sent(t: Tables, m: Message, keys: map<UserId, Term>): Tables
    requires m.chat in t.chats
  {
    var t1 := WithMessage(t, m, keys);
    t1.(chats := t1.chats[m.chat := t1.chats[m.chat].(lastMessage := Some(m.id), lastTimestamp := Some(m.createdAt))])
  }

  /** What a send needs: an existing chat with a member left, a sender who is in it, a message that
      passes its validator, a new id and known users on the keys. */
  predicate CanSend(t: Tables, m: Message, keys: map<UserId, Term>) {
    Allowed(t, m) && m.id !in t.messages && keys.Keys <= t.users.Keys
  }

  predicate Allowed(t: Tables, m: Message) {
    && m.chat in t.chats && Members(t, m.chat) != {}
    && IsParticipant(t, m.chat, m.sender)
    && PassesValidator(m)
  }

  /** What a send leaves behind: both writes, or after an exception none, the first or both. */
  ghost predicate SendOutcome(ok: bool, t: Tables, m: Message, keys: map<UserId, Term>, t': Tables) {
    && (ok ==> CanSend(t, m, keys) && t' == Sent(t, m, keys))
    && (!ok ==> t' == t || (CanSend(t, m, keys) && (t' == WithMessage(t, m, keys) || t' == Sent(t, m, keys))))
  }

  /** The same for the keys of a request: if two of its texts spell one id, nothing is left behind. */
  ghost predicate SendTextsOutcome(ok: bool, t: Tables, canon: Canon, m: Message, keys: map<UserId, Term>, t': Tables) {
    if OneSpelling(canon, keys.Keys) then SendOutcome(ok, t, m, Canonical(canon, keys), t') else !ok && t' == t
  }

  ghost predicate StoreOutcome(ok: bool, t: Tables, canon: Canon, m: Message, keys: map<UserId, Term>, t': Tables)
    requires m.chat in t.chats
  {
    var byId := Canonical(canon, keys);
    && (ok ==> AddedTexts(t, canon, m, keys).Some? && t' == Sent(t, m, byId))
    && (!ok ==> t' == t || (AddedTexts(t, canon, m, keys).Some? && (t' == WithMessage(t, m, byId) || t' == Sent(t, m, byId))))
  }

  /** Once the checks have passed, a send fails only on a constraint of the two tables. */
  lemma AllowedAndAdded(t: Tables, m: Message, byId: map<UserId, Term>)
    requires ForeignKeys(t) && Allowed(t, m)
    ensures Added(t, m, byId).Some? <==> CanSend(t, m, byId)
  {
    assert m.sender in t.users;
  }

  lemma StoredAfterCheck(ok: bool, t: Tables, canon: Canon, m: Message, keys: map<UserId, Term>, t': Tables)
    requires ForeignKeys(t) && Allowed(t, m) && StoreOutcome(ok, t, canon, m, keys, t')
    ensures SendTextsOutcome(ok, t, canon, m, keys, t')
    ensures OneSpelling(canon, keys.Keys) && CanSend(t, m, Canonical(canon, keys)) ==> AddedTexts(t, canon, m, keys).Some?
  {
    AllowedAndAdded(t, m, Canonical(canon, keys));
  }

  lemma RefusedSend(t: Tables, canon: Canon, m: Message, keys: map<UserId, Term>)
    ensures SendTextsOutcome(false, t, canon, m, keys, t)
  {
  }

  lemma DeleteOneRow(t: Tables, id: MessageId)
    requires id in t.messages
    ensures Exec(DeleteMessageRow(id), t) == Some(DeleteMessages(t, {id}))
  {
    assert {id} * t.messages.Keys == {id};
  }

  ghost predicate ReadOutcome(ok: bool, t: Tables, id: MessageId, reader: UserId, now: Time, t': Tables) {
    && (ok ==> id in t.messages && if t.messages[id].sender == reader then t' == t else Some(t') == Exec(UpsertRead(id, reader, now), t))
    && (!ok ==> t' == t || (id in t.messages && t.messages[id].sender != reader && Some(t') == Exec(UpsertRead(id, reader, now), t)))
  }

  ghost predicate DeleteOutcome(ok: bool, t: Tables, id: MessageId, requester: UserId, t': Tables) {
    || (!ok && t' == t)
    || (id in t.messages && t.messages[id].sender == requester && t' == DeleteMessages(t, {id}))
  }

  lemma AggregateOfMembers(t: Tables, chat: ChatId, users: seq<UserId>)
    requires IsAggregate(t, chat, users)
    ensures users == [] <==> Members(t, chat) == {}
  {
    if users != [] {
      assert users[0] in Elements(users);
    }
  }

  lemma AddedKeepsForeignKeys(t: Tables, m: Message, keys: map<UserId, Term>)
    requires ForeignKeys(t) && Added(t, m, keys).Some?
    ensures ForeignKeys(WithMessage(t, m, keys))
  {
    assert forall k :: k in KeyRows(m.id, keys, keys.Keys) ==> k.0 == m.id && k.1 in keys;
  }

  lemma SendInTwoSteps(t: Tables, m: Message, keys: map<UserId, Term>)
    requires Schema(t) && m.chat in t.chats && Added(t, m, keys).Some?
    ensures Exec(SetLastMessage(m.chat, m.id, m.createdAt), WithMessage(t, m, keys)) == Some(Sent(t, m, keys))
    ensures Schema(Sent(t, m, keys))
  {
    AddedKeepsForeignKeys(t, m, keys);
    ExecKeepsForeignKeys(SetLastMessage(m.chat, m.id, m.createdAt), WithMessage(t, m, keys));
  }

  /** A complete send, in terms of what can be read afterwards: the message as it was sent, a key for
      exactly the users of the map, no receipt, and the chat with this message as its last. Nothing
      else has changed. */
  lemma SendIsVisible(t: Tables, m: Message, keys: map<UserId, Term>, users: seq<UserId>)
    requires ForeignKeys(t) && CanSend(t, m, keys)
    ensures var t' := Sent(t, m, keys);
            && m.id in t'.messages && t'.messages[m.id] == m
            && (forall u :: GetEncryptedKey(t', m.id, u) == if u in keys then Some(keys[u]) else None)
            && Readers(t', m.id) == {} == DeliveredTo(t', m.id)
            && m.chat in t'.chats && ChatAt(t', m.chat, users) == ChatAt(t, m.chat, users).(lastMessage := Some(m))
            && Effects.LastTimestamp(t', m.chat) == Some(m.createdAt)
            && (forall c :: c != m.chat ==> Effects.SameAt(t.chats, t'.chats, c))
            && (forall id :: id != m.id ==> Effects.SameAt(t.messages, t'.messages, id))
            && t'.users == t.users && t'.participants == t.participants && t'.receipts == t.receipts
  {
    Effects.NewMessageEffect(t, m, keys);
    Effects.SetLastEffect(WithMessage(t, m, keys), m.chat, m.id, m.createdAt);
  }

  lemma SendKeepsMembers(t: Tables, m: Message, keys: map<UserId, Term>)
    requires m.chat in t.chats
    ensures Members(Sent(t, m, keys), m.chat) == Members(t, m.chat)
  {
    assert Sent(t, m, keys).participants == t.participants;
  }

  class MessageService {
    const notifications: N.NotificationService
    const messages: PqxxMessageRepository
    const chats: PqxxChatRepository
    const pool: PqxxConnectionPool

    /** Both repositories work on one pool. */
    ghost predicate Wired() {
      messages.pool == pool == chats.pool
    }

    constructor (notifications: N.NotificationService, messages: PqxxMessageRepository, chats: PqxxChatRepository)
      requires messages.pool == chats.pool
      ensures this.notifications == notifications && this.messages == messages && this.chats == chats
      ensures Wired()
    {
      this.notifications, this.messages, this.chats, this.pool := notifications, messages, chats, messages.pool;
    }

    method EnforceChatExistence(thread: ThreadId, chat: ChatId, users: seq<UserId>, env: Env) returns (r: Result<(), string>)
      requires Wired() && pool.Ready(thread) && Schema(pool.server.committed) && IsAggregate(pool.server.committed, chat, users)
      modifies pool, Elements(pool.initial)
      ensures pool.Ready(thread) && pool.initial == old(pool.initial)
      ensures r.Ok? ==> chat in pool.server.committed.chats && users != []
      ensures r.Ok? && old(pool.AllOpen()) ==> pool.AllOpen()
      ensures old(pool.AllOpen()) && env.Calm() && chat in pool.server.committed.chats && users != [] ==> r.Ok?
    {
      var found := chats.FindById(thread, chat, users, env);
      if found.Err? {
        return Err(found.error);
      }
      r := if found.value.None? then Err("Chat does not exist.") else Ok(());
    }

    method EnforceParticipant(thread: ThreadId, chat: ChatId, user: UserId, env: Env) returns (r: Result<(), string>)
      requires Wired() && pool.Ready(thread)
      modifies pool, Elements(pool.initial)
      ensures pool.Ready(thread) && pool.initial == old(pool.initial)
      ensures r.Ok? ==> Queries.IsParticipant(pool.server.committed, chat, user)
      ensures r.Ok? && old(pool.AllOpen()) ==> pool.AllOpen()
      ensures old(pool.AllOpen()) && env.Calm() && Queries.IsParticipant(pool.server.committed, chat, user) ==> r.Ok?
    {
      var found := chats.IsParticipant(thread, chat, user, env);
      if found.Err? {
        return Err(found.error);
      }
      r := if found.value then Ok(()) else Err("User is not a participant of the chat");
    }

    /** The two writes. The keys are by the texts of the request. */
    method Store(thread: ThreadId, m: Message, keys: map<UserId, Term>, canon: Canon, envs: Envs) returns (r: Result<(), string>)
      requires Wired() && pool.Ready(thread) && Schema(pool.server.committed) && m.chat in pool.server.committed.chats
      modifies pool, Elements(pool.initial), pool.server
      ensures pool.Ready(thread) && pool.initial == old(pool.initial)
      ensures StoreOutcome(r.Ok?, old(pool.server.committed), canon, m, keys, pool.server.committed)
      ensures r.Ok? && old(pool.AllOpen()) ==> pool.AllOpen()
      ensures old(pool.AllOpen()) && AllCalm(envs) && AddedTexts(old(pool.server.committed), canon, m, keys).Some? ==> r.Ok?
    {
      ghost var t := pool.server.committed;
      r := messages.Add(thread, m, keys, canon, envs(2));
      if r.Ok? {
        SendInTwoSteps(t, m, Canonical(canon, keys));
        r := chats.UpdateLastMessage(thread, m.chat, m, envs(3));
      }
    }

    /** Everything that can refuse a send before it writes. */
    method CheckSend(thread: ThreadId, m: Message, users: seq<UserId>, envs: Envs) returns (r: Result<(), string>)
      requires Wired() && pool.Ready(thread) && Schema(pool.server.committed) && IsAggregate(pool.server.committed, m.chat, users)
      modifies pool, Elements(pool.initial)
      ensures pool.Ready(thread) && pool.initial == old(pool.initial)
      ensures r.Ok? ==> Allowed(pool.server.committed, m)
      ensures r.Ok? && old(pool.AllOpen()) ==> pool.AllOpen()
      ensures old(pool.AllOpen()) && AllCalm(envs) && Allowed(pool.server.committed, m) ==> r.Ok?
    {
      AggregateOfMembers(pool.server.committed, m.chat, users);
      r := EnforceChatExistence(thread, m.chat, users, envs(0));
      if r.Err? {
        return;
      }
      r := EnforceParticipant(thread, m.chat, m.sender, envs(1));
      if r.Err? {
        return;
      }
      if m.createdAt == 0 || m.ciphertext == Text("") {
        r := Err("Validation failed");
      }
    }

    /** The checks and the two writes. */
    method CheckAndStore(thread: ThreadId, m: Message, keys: map<UserId, Term>, canon: Canon, users: seq<UserId>, envs: Envs) returns (r: Result<(), string>)
      requires Wired() && pool.Ready(thread) && Schema(pool.server.committed) && IsAggregate(pool.server.committed, m.chat, users)
      modifies pool, Elements(pool.initial), pool.server
      ensures pool.Ready(thread) && pool.initial == old(pool.initial)
      ensures SendTextsOutcome(r.Ok?, old(pool.server.committed), canon, m, keys, pool.server.committed)
      ensures r.Ok? && old(pool.AllOpen()) ==> pool.AllOpen()
      ensures old(pool.AllOpen()) && AllCalm(envs) && OneSpelling(canon, keys.Keys) && CanSend(old(pool.server.committed), m, Canonical(canon, keys)) ==> r.Ok?
    {
      ghost var t := pool.server.committed;
      r := CheckSend(thread, m, users, envs);
      if r.Ok? {
        r := Store(thread, m, keys, canon, envs);
        StoredAfterCheck(r.Ok?, t, canon, m, keys, pool.server.committed);
      } else {
        RefusedSend(t, canon, m, keys);
      }
    }

    /** Reads the members back and tells everyone but the sender. */
    method Publish(thread: ThreadId, m: Message, users: seq<UserId>, others: seq<seq<N.Step>>, env: Env)
      returns (r: Result<(), string>, calls: seq<N.Call>, ghost buses: seq<N.Bus>)
      requires Wired() && pool.Ready(thread) && Schema(pool.server.committed) && m.chat in pool.server.committed.chats
      requires IsAggregate(pool.server.committed, m.chat, users) && |others| == |users|
      modifies pool, Elements(pool.initial), notifications
      ensures pool.Ready(thread) && pool.initial == old(pool.initial)
      ensures old(pool.AllOpen()) && env.Calm() && users != [] ==> r.Ok?
      ensures r.Ok? ==> N.AreSnapshots(old(notifications.View()), others, buses)
                        && calls == N.FanOut(buses, users, m.sender, N.NewMessage(m.id, m.sender))
      ensures r.Err? ==> calls == [] && notifications.View() == old(notifications.View())
    {
      var found := chats.FindById(thread, m.chat, users, env);
      if found.Err? {
        return Err(found.error), [], [];
      }
      calls, buses := notifications.NotifyOthers(found.value.value.participants, m.sender, N.NewMessage(m.id, m.sender), others);
      r := Ok(());
    }

    /** A call that returns has stored the message with all its keys, made it the last message of
        its chat and called every current subscription of the other members once. A call that
        throws has done none, one or both of the writes, in that order, and notified nobody. */
    method SendChatMessage(thread: ThreadId, m: Message, keys: map<UserId, Term>, canon: Canon, users: seq<UserId>, others: seq<seq<N.Step>>, envs: Envs)
      returns (r: Result<Message, string>, calls: seq<N.Call>, ghost buses: seq<N.Bus>)
      requires Wired() && pool.Ready(thread) && Schema(pool.server.committed)
      requires IsAggregate(pool.server.committed, m.chat, users) && |others| == |users|
      modifies pool, Elements(pool.initial), pool.server, notifications
      ensures pool.Ready(thread) && pool.initial == old(pool.initial)
      ensures var t, t' := old(pool.server.committed), pool.server.committed;
              && (old(pool.AllOpen()) && AllCalm(envs) && OneSpelling(canon, keys.Keys) && CanSend(t, m, Canonical(canon, keys)) ==> r.Ok?)
              && SendTextsOutcome(r.Ok?, t, canon, m, keys, t') && (r.Ok? ==> r.value == m)
      ensures r.Ok? ==> N.AreSnapshots(old(notifications.View()), others, buses)
                        && calls == N.FanOut(buses, users, m.sender, N.NewMessage(m.id, m.sender))
      ensures r.Err? ==> calls == [] && notifications.View() == old(notifications.View())
    {
      calls, buses := [], [];
      ghost var t := pool.server.committed;
      var done := CheckAndStore(thread, m, keys, canon, users, envs);
      if done.Err? {
        return Err(done.error), [], [];
      }
      SendInTwoSteps(t, m, Canonical(canon, keys));
      SendKeepsMembers(t, m, Canonical(canon, keys));
      done, calls, buses := Publish(thread, m, users, others, envs(4));
      r := if done.Err? then Err(done.error) else Ok(m);
    }

    /** Reading one's own message changes nothing; otherwise the receipt is written and then each
        subscription of the sender is told. Membership is not checked. */
    method MarkAsRead(thread: ThreadId, id: MessageId, reader: UserId, now: Time, envs: Envs)
      returns (r: Result<(), string>, calls: seq<N.Call>)
      requires Wired() && pool.Ready(thread)
      modifies pool, Elements(pool.initial), pool.server
      ensures pool.Ready(thread) && pool.initial == old(pool.initial)
      ensures var t, t' := old(pool.server.committed), pool.server.committed;
              && ReadOutcome(r.Ok?, t, id, reader, now, t')
              && calls == if r.Ok? && t.messages[id].sender != reader
                          then N.Calls(notifications.View(), t.messages[id].sender, N.ReadReceipt(id, reader)) else []
      ensures var t := old(pool.server.committed);
              old(pool.AllOpen()) && AllCalm(envs) && id in t.messages && (reader in t.users || t.messages[id].sender == reader) ==> r.Ok?
      ensures var t, t' := old(pool.server.committed), pool.server.committed;
              r.Ok? && t.messages[id].sender != reader ==>
                && Effects.IsRead(t, t', id, reader, now)
                && reader in Readers(t', id) && reader in DeliveredTo(t', id)
    {
      calls := [];
      var found := messages.FindById(thread, id, envs(0));
      if found.Err? {
        return Err(found.error), [];
      }
      if found.value.None? {
        return Err("Message not found."), [];
      }
      if found.value.value.sender == reader {
        return Ok(()), [];
      }
      r := messages.MarkRead(thread, id, reader, now, envs(1));
      if r.Ok? {
        Effects.InReaders(pool.server.committed, id, reader);
        calls := notifications.Dispatch(found.value.value.sender, N.ReadReceipt(id, reader));
      }
    }

    /** Only the sender can delete a message; its keys and receipts go with it. */
    method DeleteMessage(thread: ThreadId, id: MessageId, requester: UserId, envs: Envs) returns (r: Result<(), string>)
      requires Wired() && pool.Ready(thread)
      modifies pool, Elements(pool.initial), pool.server
      ensures pool.Ready(thread) && pool.initial == old(pool.initial)
      ensures var t, t' := old(pool.server.committed), pool.server.committed;
              && DeleteOutcome(r.Ok?, t, id, requester, t')
              && (old(pool.AllOpen()) && AllCalm(envs) && id in t.messages && t.messages[id].sender == requester ==> r.Ok?)
              && (r.Ok? ==> Effects.AreDeleted(t, t', {id}))
    {
      var found := messages.FindById(thread, id, envs(0));
      if found.Err? {
        return Err(found.error);
      }
      if found.value.None? {
        return Err("Message not found.");
      }
      if found.value.value.sender != requester {
        return Err("You are not allowed delete someone else's message.");
      }
      DeleteOneRow(pool.server.committed, id);
      Effects.DeleteMessagesEffect(pool.server.committed, {id});
      r := messages.DeleteById(thread, id, envs(1));
    }

    /** One page of pending messages, all of them marked. If a marking throws, those before it stay
        marked: the next call does not return them again. */
    method GetUndelivered(thread: ThreadId, user: UserId, limit: nat, after: Option<MessageId>, page: seq<MessageId>, nows: seq<Time>, envs: Envs)
      returns (r: Result<seq<Message>, string>, ghost marked: nat)
      requires Wired() && pool.Ready(thread) && Schema(pool.server.committed)
      requires var t := pool.server.committed;
               IsPage(page, Delivery.PendingAfter(t, user, after), Delivery.OlderFirst(t), Delivery.Min(Delivery.MAX_LIMIT, limit))
      requires |nows| == |page|
      modifies pool, Elements(pool.initial), pool.server
      ensures pool.Ready(thread) && pool.initial == old(pool.initial)
      ensures marked <= |page|
      ensures Delivery.MarkAll(old(pool.server.committed), user, page[..marked], nows[..marked]) == Some(pool.server.committed)
      ensures DeliveryLosses.IsAttempt(old(pool.server.committed), user, limit,
                DeliveryLosses.Attempt(after, page, nows, marked, r.Ok?), pool.server.committed)
      ensures r.Ok? ==> Delivery.IsCall(old(pool.server.committed), user, limit, after, page, nows, pool.server.committed)
      ensures r.Ok? ==> |r.value| == |page| && forall i :: 0 <= i < |page| ==>
                page[i] in old(pool.server.committed.messages) && r.value[i] == old(pool.server.committed).messages[page[i]]
      ensures r.Ok? ==> |r.value| <= 100 && |r.value| <= limit
      ensures old(pool.AllOpen()) && AllCalm(envs) ==> r.Ok?
    {
      marked := 0;
      var safeLimit := Delivery.Min(Delivery.MAX_LIMIT, limit);
      var missed := messages.FindUndelivered(thread, user, safeLimit, after, page, envs(0));
      if missed.Err? {
        return Err(missed.error), 0;
      }
      var done;
      done, marked := MarkPage(thread, user, after, page, nows, envs);
      assert page[..|page|] == page && nows[..|page|] == nows;
      r := if done.Err? then Err(done.error) else missed;
    }

    /** The loop over the page. */
    method MarkPage(thread: ThreadId, user: UserId, after: Option<MessageId>, page: seq<MessageId>, nows: seq<Time>, envs: Envs)
      returns (r: Result<(), string>, ghost marked: nat)
      requires Wired() && pool.Ready(thread) && ForeignKeys(pool.server.committed)
      requires Distinct(page) && Elements(page) <= Delivery.PendingAfter(pool.server.committed, user, after) && |nows| == |page|
      modifies pool, Elements(pool.initial), pool.server
      ensures pool.Ready(thread) && pool.initial == old(pool.initial)
      ensures marked <= |page| && (r.Ok? ==> marked == |page|)
      ensures Delivery.MarkAll(old(pool.server.committed), user, page[..marked], nows[..marked]) == Some(pool.server.committed)
      ensures old(pool.AllOpen()) && AllCalm(envs) ==> r.Ok?
    {
      ghost var t, quiet := pool.server.committed, pool.AllOpen() && AllCalm(envs);
      marked := 0;
      for i := 0 to |page|
        invariant marked == i && pool.Ready(thread) && pool.initial == old(pool.initial)
        invariant Delivery.MarkAll(t, user, page[..i], nows[..i]) == Some(pool.server.committed)
        invariant quiet ==> pool.AllOpen()
      {
        MarkNext(t, user, after, page, nows, i);
        r := messages.MarkDelivered(thread, page[i], user, nows[i], envs(i + 1));
        if r.Err? {
          marked := if pool.server.committed == Delivery.MarkAll(t, user, page[..i], nows[..i]).value then i else i + 1;
          return;
        }
        marked := i + 1;
      }
      r := Ok(());
    }
  }

  /** Marking one message more. */
  lemma MarkNext(t: Tables, user: UserId, after: Option<MessageId>, page: seq<MessageId>, nows: seq<Time>, i: nat)
    requires ForeignKeys(t) && Distinct(page) && Elements(page) <= Delivery.PendingAfter(t, user, after) && i < |page| == |nows|
    ensures page[i] in t.messages
    ensures var t1 := Delivery.MarkAll(t, user, page[..i], nows[..i]);
            && t1.Some? && Exec(UpsertDelivered(page[i], user, nows[i]), t1.value).Some?
            && Exec(UpsertDelivered(page[i], user, nows[i]), t1.value) == Delivery.MarkAll(t, user, page[..i + 1], nows[..i + 1])
  {
    assert page[i] in Elements(page);
    MarkedSoFar(t, user, page, nows, i);
    MarkAllOneMore(t, user, page, nows, i);
  }

  lemma MarkAllOneMore(t: Tables, user: UserId, page: seq<MessageId>, nows: seq<Time>, i: nat)
    requires i < |page| == |nows| && Delivery.MarkAll(t, user, page[..i], nows[..i]).Some?
    ensures Exec(UpsertDelivered(page[i], user, nows[i]), Delivery.MarkAll(t, user, page[..i], nows[..i]).value)
            == Delivery.MarkAll(t, user, page[..i + 1], nows[..i + 1])
  {
    MarkAllAppend(t, user, page[..i], nows[..i], page[i], nows[i]);
    assert page[..i + 1] == page[..i] + [page[i]] && nows[..i + 1] == nows[..i] + [nows[i]];
  }

  lemma SeatedUserExists(t: Tables, user: UserId, id: MessageId)
    requires ForeignKeys(t) && id in Undelivered(t, user)
    ensures user in t.users && id in t.messages
  {
    assert (t.messages[id].chat, user) in t.participants;
  }

  lemma MarkedSoFar(t: Tables, user: UserId, page: seq<MessageId>, nows: seq<Time>, i: nat)
    requires ForeignKeys(t) && Distinct(page) && Elements(page) <= Undelivered(t, user) && i < |page| == |nows|
    ensures var t1 := Delivery.MarkAll(t, user, page[..i], nows[..i]);
            t1.Some? && Exec(UpsertDelivered(page[i], user, nows[i]), t1.value).Some?
  {
    assert page[i] in Elements(page);
    SeatedUserExists(t, user, page[i]);
    assert Elements(page[..i]) <= Elements(page);
    Delivery.MarkAllDelivers(t, user, page[..i], nows[..i]);
    UpsertSucceeds(t, Delivery.MarkAll(t, user, page[..i], nows[..i]).value, user, page[i], nows[i]);
  }

  lemma UpsertSucceeds(t: Tables, t1: Tables, user: UserId, id: MessageId, now: Time)
    requires Delivery.SameButReceipts(t, t1) && user in t.users && id in t.messages
    ensures Exec(UpsertDelivered(id, user, now), t1).Some?
  {
  }

  lemma {:induction false} MarkAllAppend(t: Tables, user: UserId, page: seq<MessageId>, nows: seq<Time>, id: MessageId, now: Time)
    requires |nows| == |page| && Delivery.MarkAll(t, user, page, nows).Some?
    ensures Delivery.MarkAll(t, user, page + [id], nows + [now])
            == Exec(UpsertDelivered(id, user, now), Delivery.MarkAll(t, user, page, nows).value)
    decreases |page|
  {
    if page == [] {
      assert (page + [id])[1..] == [] && (nows + [now])[1..] == [];
    } else {
      assert (page + [id])[1..] == page[1..] + [id] && (nows + [now])[1..] == nows[1..] + [now];
      MarkAllAppend(Exec(UpsertDelivered(page[0], user, nows[0]), t).value, user, page[1..], nows[1..], id, now);
    }
  }
}

/** The repositories over PostgreSQL. What the database is free to choose, the order of ties and of
    aggregated rows, is an argument that the clauses of the query restrict. */
module PqxxRepositories {
  import opened Wrappers
  import opened Sequences
  import opened SymbolicCrypto
  import opened Tables
  import opened Queries
  import opened Pages
  import Delivery
  import Effects
  import DirectChats
  import opened Uuids
  import Getline
  import opened P = PoolProtocol
  import opened Connections
  import opened Repositories

  /** A chat as the domain object that the services pass around. */
  datatype Chat = Chat(id: ChatId, createdAt: Time, lastMessage: Option<Message>, participants: seq<UserId>)

  /** What the schema guarantees: the foreign keys, and ids of type UUID, whose text is not empty
      and has no comma in it. */
  ghost predicate Schema(t: Tables) {
    ForeignKeys(t) && forall u: UserId :: u in t.users ==> IsUuidText(u.text)
  }

  predicate IsUuidText(s: string) {
    s != "" && ',' !in s
  }

  /** What became of the committed tables in an operation that writes `target`, or that violates a
      constraint if there is none. */
  ghost predicate Wrote(ok: bool, env: Env, before: Tables, target: Option<Tables>, after: Tables) {
    && (ok ==> Some(after) == target)
    && (!ok ==> after == before || (env.commit.InDoubt? && Some(after) == target))
  }

  /** Adding a message with all its keys, None if that violates a constraint; the keys are by id. */
  function Added(t: Tables, m: Message, keys: map<UserId, Term>): Option<Tables> {
    if m.id !in t.messages && m.chat in t.chats && m.sender in t.users && keys.Keys <= t.users.Keys
    then Some(WithMessage(t, m, keys)) else None
  }

  /** The same for the keys of a request, which are by text: two texts of one id are two rows with one
      primary key. */
  ghost function AddedTexts(t: Tables, canon: Canon, m: Message, keys: map<UserId, Term>): Option<Tables> {
    if OneSpelling(canon, keys.Keys) then Added(t, m, Canonical(canon, keys)) else None
  }

  /** One statement in a transaction of its own. */
  method WriteOne(pool: PqxxConnectionPool, thread: ThreadId, statement: Statement, env: Env) returns (r: Result<(), string>)
    requires pool.Ready(thread)
    modifies pool, Elements(pool.initial), pool.server
    ensures pool.Ready(thread) && pool.initial == old(pool.initial)
    ensures Wrote(r.Ok?, env, old(pool.server.committed), Exec(statement, old(pool.server.committed)), pool.server.committed)
    ensures r.Ok? && old(pool.AllOpen()) ==> pool.AllOpen()
    ensures old(pool.AllOpen()) && env.Delivered() && Exec(statement, old(pool.server.committed)).Some? ==>
              Some(pool.server.committed) == Exec(statement, old(pool.server.committed)) && (r.Ok? <==> env.commit.NoFault?)
  {
    assert [statement][1..] == [];
    r := RunTransaction(pool, thread, [statement], env);
  }

  /** A range-based for over a hash map visits every key once, in an order of its own. */
  method IterationOrder(users: set<UserId>) returns (order: seq<UserId>)
    ensures Distinct(order) && Elements(order) == users
  {
    order := [];
    var rest := users;
    while rest != {}
      invariant rest !! Elements(order) && rest + Elements(order) == users && Distinct(order)
      decreases |rest|
    {
      var user :| user in rest;
      assert forall k :: 0 <= k < |order| ==> order[k] in Elements(order);
      assert Elements(order + [user]) == Elements(order) + {user};
      order, rest := order + [user], rest - {user};
    }
  }

  class PqxxMessageRepository {
    const pool: PqxxConnectionPool

    constructor (pool: PqxxConnectionPool)
      ensures this.pool == pool
    {
      this.pool := pool;
    }

    /** The message row and then the key rows, in whatever order the map is iterated. */
    method Add(thread: ThreadId, m: Message, keys: map<UserId, Term>, canon: Canon, env: Env) returns (r: Result<(), string>)
      requires pool.Ready(thread) && ForeignKeys(pool.server.committed)
      modifies pool, Elements(pool.initial), pool.server
      ensures pool.Ready(thread) && pool.initial == old(pool.initial)
      ensures Wrote(r.Ok?, env, old(pool.server.committed), AddedTexts(old(pool.server.committed), canon, m, keys), pool.server.committed)
      ensures r.Ok? && old(pool.AllOpen()) ==> pool.AllOpen()
      ensures old(pool.AllOpen()) && env.Delivered() && AddedTexts(old(pool.server.committed), canon, m, keys).Some? ==>
                Some(pool.server.committed) == AddedTexts(old(pool.server.committed), canon, m, keys) && (r.Ok? <==> env.commit.NoFault?)
    {
      var order := IterationOrder(keys.Keys);
      assert forall u :: u in order ==> u in Elements(order);
      AddTextsAllOrNothing(canon, pool.server.committed, m, keys, order);
      r := RunTransaction(pool, thread, AddTextsScript(canon, m, keys, order), env);
    }

    method DeleteById(thread: ThreadId, id: MessageId, env: Env) returns (r: Result<(), string>)
      requires pool.Ready(thread)
      modifies pool, Elements(pool.initial), pool.server
      ensures pool.Ready(thread) && pool.initial == old(pool.initial)
      ensures Wrote(r.Ok?, env, old(pool.server.committed), Exec(DeleteMessageRow(id), old(pool.server.committed)), pool.server.committed)
      ensures old(pool.AllOpen()) && env.Delivered() ==>
                Some(pool.server.committed) == Exec(DeleteMessageRow(id), old(pool.server.committed)) && (r.Ok? <==> env.commit.NoFault?)
    {
      r := WriteOne(pool, thread, DeleteMessageRow(id), env);
    }

    method MarkDelivered(thread: ThreadId, id: MessageId, recipient: UserId, now: Time, env: Env) returns (r: Result<(), string>)
      requires pool.Ready(thread)
      modifies pool, Elements(pool.initial), pool.server
      ensures pool.Ready(thread) && pool.initial == old(pool.initial)
      ensures Wrote(r.Ok?, env, old(pool.server.committed), Exec(UpsertDelivered(id, recipient, now), old(pool.server.committed)), pool.server.committed)
      ensures r.Ok? && old(pool.AllOpen()) ==> pool.AllOpen()
      ensures old(pool.AllOpen()) && env.Delivered() && Exec(UpsertDelivered(id, recipient, now), old(pool.server.committed)).Some? ==>
                Some(pool.server.committed) == Exec(UpsertDelivered(id, recipient, now), old(pool.server.committed)) && (r.Ok? <==> env.commit.NoFault?)
      ensures r.Ok? ==> Effects.IsDelivered(old(pool.server.committed), pool.server.committed, id, recipient, now)
    {
      Effects.DeliveredRow(pool.server.committed, id, recipient, now);
      r := WriteOne(pool, thread, UpsertDelivered(id, recipient, now), env);
    }

    method MarkRead(thread: ThreadId, id: MessageId, reader: UserId, now: Time, env: Env) returns (r: Result<(), string>)
      requires pool.Ready(thread)
      modifies pool, Elements(pool.initial), pool.server
      ensures pool.Ready(thread) && pool.initial == old(pool.initial)
      ensures Wrote(r.Ok?, env, old(pool.server.committed), Exec(UpsertRead(id, reader, now), old(pool.server.committed)), pool.server.committed)
      ensures old(pool.AllOpen()) && env.Delivered() && Exec(UpsertRead(id, reader, now), old(pool.server.committed)).Some? ==>
                Some(pool.server.committed) == Exec(UpsertRead(id, reader, now), old(pool.server.committed)) && (r.Ok? <==> env.commit.NoFault?)
      ensures r.Ok? ==> Effects.IsRead(old(pool.server.committed), pool.server.committed, id, reader, now)
    {
      Effects.ReadRow(pool.server.committed, id, reader, now);
      r := WriteOne(pool, thread, UpsertRead(id, reader, now), env);
    }

    method FindById(thread: ThreadId, id: MessageId, env: Env) returns (r: Result<Option<Message>, string>)
      requires pool.Ready(thread)
      modifies pool, Elements(pool.initial)
      ensures pool.Ready(thread) && pool.initial == old(pool.initial)
      ensures r.Ok? ==> r.value == if id in pool.server.committed.messages then Some(pool.server.committed.messages[id]) else None
      ensures r.Ok? && old(pool.AllOpen()) ==> pool.AllOpen()
      ensures old(pool.AllOpen()) && env.Calm() ==> r.Ok?
    {
      var seen := ReadCommitted(pool, thread, env);
      if seen.Err? {
        return Err(seen.error);
      }
      r := Ok(if id in seen.value.messages then Some(seen.value.messages[id]) else None);
    }

    /** `page` is what the ORDER BY and LIMIT clauses let the database answer. */
    method FindUndelivered(thread: ThreadId, user: UserId, limit: nat, after: Option<MessageId>, page: seq<MessageId>, env: Env)
      returns (r: Result<seq<Message>, string>)
      requires pool.Ready(thread)
      requires var t := pool.server.committed; IsPage(page, Delivery.PendingAfter(t, user, after), Delivery.OlderFirst(t), limit)
      modifies pool, Elements(pool.initial)
      ensures pool.Ready(thread) && pool.initial == old(pool.initial)
      ensures r.Ok? ==> |r.value| == |page| && forall i :: 0 <= i < |page| ==>
                page[i] in pool.server.committed.messages && r.value[i] == pool.server.committed.messages[page[i]]
      ensures r.Ok? && old(pool.AllOpen()) ==> pool.AllOpen()
      ensures old(pool.AllOpen()) && env.Calm() ==> r.Ok?
    {
      ghost var rows := Delivery.PendingAfter(pool.server.committed, user, after);
      var seen := ReadCommitted(pool, thread, env);
      if seen.Err? {
        return Err(seen.error);
      }
      forall i | 0 <= i < |page| ensures page[i] in seen.value.messages {
        assert page[i] in Elements(page);
        assert page[i] in rows;
      }
      r := Ok(seq(|page|, i requires 0 <= i < |page| => seen.value.messages[page[i]]));
    }
  }

  /** The row of a chat, joined with its last message. The mapper takes the message's chat from the
      chat's own row. */
  function ChatAt(t: Tables, id: ChatId, participants: seq<UserId>): Chat
    requires id in t.chats
  {
    var row := t.chats[id];
    Chat(id, row.createdAt,
         if row.lastMessage.Some? && row.lastMessage.value in t.messages then Some(t.messages[row.lastMessage.value].(chat := id)) else None,
         participants)
  }

  /** What a chat that is read shows: its own time of creation and the message that its row names, with
      this chat as its chat. */
  lemma ChatAtShows(t: Tables, id: ChatId, users: seq<UserId>)
    requires ForeignKeys(t) && id in t.chats
    ensures var chat := ChatAt(t, id, users);
            && chat.id == id && chat.participants == users && Effects.CreatedAt(t, id) == Some(chat.createdAt)
            && (chat.lastMessage.None? <==> Effects.LastMessage(t, id).None?)
            && (chat.lastMessage.Some? ==>
                  var m := chat.lastMessage.value;
                  m.id in t.messages && m == t.messages[m.id].(chat := id) && Effects.LastMessage(t, id) == Some(m.id))
  {
  }

  /** A chat whose last message is deleted shows none; one with another last message shows that. */
  lemma ChatAfterDelete(t: Tables, id: MessageId, chat: ChatId, users: seq<UserId>)
    requires ForeignKeys(t) && chat in t.chats
    ensures var t' := DeleteMessages(t, {id});
            chat in t'.chats && ChatAt(t', chat, users).lastMessage
                                == if Effects.LastMessage(t, chat) == Some(id) then None else ChatAt(t, chat, users).lastMessage
  {
  }

  /** STRING_AGG over the members of a chat, in the order that the database picks. */
  ghost predicate IsAggregate(t: Tables, chat: ChatId, users: seq<UserId>) {
    Distinct(users) && Elements(users) == Members(t, chat)
  }

  /** The id list of a chat on its way through one text column: joined by the database, split by
      the repository. An aggregate over no rows is NULL, which the row refuses to read as text. */
  method ReadParticipants(users: seq<UserId>) returns (r: Result<seq<UserId>, string>)
    ensures r.Ok? <==> users != []
    ensures r.Ok? && (forall i :: 0 <= i < |users| ==> IsUuidText(users[i].text)) ==> r.value == users
  {
    if users == [] {
      return Err("participants_csv is null");
    }
    var texts := seq(|users|, i requires 0 <= i < |users| => users[i].text);
    var pieces := Getline.ReadAll(Getline.Join(texts, ','), ',');
    if forall i :: 0 <= i < |users| ==> IsUuidText(users[i].text) {
      Getline.SplitOfJoin(texts, ',');
      assert pieces == texts;
    }
    r := Ok(seq(|pieces|, i requires 0 <= i < |pieces| => UserId(pieces[i])));
  }

  /** The rows of FindByUserId, one chat each. None of the lists is empty: the user is in it. */
  method ReadChats(t: Tables, user: UserId, page: seq<ChatId>, aggregates: seq<seq<UserId>>) returns (chats: seq<Chat>)
    requires Schema(t) && Elements(page) <= ChatsOf(t, user)
    requires |aggregates| == |page| && forall i :: 0 <= i < |page| ==> IsAggregate(t, page[i], aggregates[i])
    ensures |chats| == |page| && forall i :: 0 <= i < |page| ==> page[i] in t.chats && chats[i] == ChatAt(t, page[i], aggregates[i])
  {
    chats := [];
    for i := 0 to |page|
      invariant |chats| == i
      invariant forall k :: 0 <= k < i ==> page[k] in t.chats && chats[k] == ChatAt(t, page[k], aggregates[k])
    {
      ListedChat(t, user, page, i);
      MembersAreUuids(t, page[i], aggregates[i]);
      assert user in Elements(aggregates[i]);
      var participants := ReadParticipants(aggregates[i]);
      chats := chats + [ChatAt(t, page[i], participants.value)];
    }
  }

  class PqxxChatRepository {
    const pool: PqxxConnectionPool

    constructor (pool: PqxxConnectionPool)
      ensures this.pool == pool
    {
      this.pool := pool;
    }

    method Add(thread: ThreadId, chat: Chat, canon: Canon, env: Env) returns (r: Result<(), string>)
      requires pool.Ready(thread) && ForeignKeys(pool.server.committed)
      modifies pool, Elements(pool.initial), pool.server
      ensures pool.Ready(thread) && pool.initial == old(pool.initial)
      ensures Wrote(r.Ok?, env, old(pool.server.committed), AddedChat(old(pool.server.committed), canon, chat), pool.server.committed)
      ensures old(pool.AllOpen()) && env.Delivered() && AddedChat(old(pool.server.committed), canon, chat).Some? ==>
                Some(pool.server.committed) == AddedChat(old(pool.server.committed), canon, chat) && (r.Ok? <==> env.commit.NoFault?)
    {
      AddChatAllOrNothing(pool.server.committed, chat.id, chat.createdAt, Images(canon, chat.participants));
      r := RunTransaction(pool, thread, AddChatScript(chat.id, chat.createdAt, Images(canon, chat.participants)), env);
    }

    method UpdateLastMessage(thread: ThreadId, chat: ChatId, m: Message, env: Env) returns (r: Result<(), string>)
      requires pool.Ready(thread)
      modifies pool, Elements(pool.initial), pool.server
      ensures pool.Ready(thread) && pool.initial == old(pool.initial)
      ensures Wrote(r.Ok?, env, old(pool.server.committed), Exec(SetLastMessage(chat, m.id, m.createdAt), old(pool.server.committed)), pool.server.committed)
      ensures r.Ok? && old(pool.AllOpen()) ==> pool.AllOpen()
      ensures old(pool.AllOpen()) && env.Delivered() && Exec(SetLastMessage(chat, m.id, m.createdAt), old(pool.server.committed)).Some? ==>
                Some(pool.server.committed) == Exec(SetLastMessage(chat, m.id, m.createdAt), old(pool.server.committed)) && (r.Ok? <==> env.commit.NoFault?)
      ensures r.Ok? && chat in old(pool.server.committed).chats ==> Effects.LastMessage(pool.server.committed, chat) == Some(m.id)
    {
      Effects.SetLastEffect(pool.server.committed, chat, m.id, m.createdAt);
      r := WriteOne(pool, thread, SetLastMessage(chat, m.id, m.createdAt), env);
    }

    method DeleteById(thread: ThreadId, id: ChatId, env: Env) returns (r: Result<(), string>)
      requires pool.Ready(thread)
      modifies pool, Elements(pool.initial), pool.server
      ensures pool.Ready(thread) && pool.initial == old(pool.initial)
      ensures Wrote(r.Ok?, env, old(pool.server.committed), Some(DeleteChat(old(pool.server.committed), id)), pool.server.committed)
      ensures old(pool.AllOpen()) && env.Delivered() ==>
                Some(pool.server.committed) == Some(DeleteChat(old(pool.server.committed), id)) && (r.Ok? <==> env.commit.NoFault?)
    {
      r := WriteOne(pool, thread, DeleteChatRow(id), env);
    }

    method IsParticipant(thread: ThreadId, chat: ChatId, user: UserId, env: Env) returns (r: Result<bool, string>)
      requires pool.Ready(thread)
      modifies pool, Elements(pool.initial)
      ensures pool.Ready(thread) && pool.initial == old(pool.initial)
      ensures r.Ok? ==> (r.value <==> Queries.IsParticipant(pool.server.committed, chat, user))
      ensures r.Ok? && old(pool.AllOpen()) ==> pool.AllOpen()
      ensures old(pool.AllOpen()) && env.Calm() ==> r.Ok?
    {
      var seen := ReadCommitted(pool, thread, env);
      if seen.Err? {
        return Err(seen.error);
      }
      r := Ok((chat, user) in seen.value.participants);
    }

    /** `users` is the order in which the database aggregates the members. */
    method FindById(thread: ThreadId, id: ChatId, users: seq<UserId>, env: Env) returns (r: Result<Option<Chat>, string>)
      requires pool.Ready(thread) && Schema(pool.server.committed) && IsAggregate(pool.server.committed, id, users)
      modifies pool, Elements(pool.initial)
      ensures pool.Ready(thread) && pool.initial == old(pool.initial)
      ensures r.Ok? ==> var t := pool.server.committed;
                && (id !in t.chats ==> r.value == None)
                && (id in t.chats ==> users != [] && r.value == Some(ChatAt(t, id, users)))
      ensures r.Ok? && old(pool.AllOpen()) ==> pool.AllOpen()
      ensures old(pool.AllOpen()) && env.Calm() && (id in pool.server.committed.chats ==> users != []) ==> r.Ok?
    {
      var seen := ReadCommitted(pool, thread, env);
      if seen.Err? {
        return Err(seen.error);
      }
      if id !in seen.value.chats {
        return Ok(None);
      }
      MembersAreUuids(seen.value, id, users);
      var participants := ReadParticipants(users);
      if participants.Err? {
        return Err(participants.error);
      }
      r := Ok(Some(ChatAt(seen.value, id, participants.value)));
    }

    /** `page` is what the clauses let the database answer, aggregates[i] the order in which it
        aggregates the members of page[i]. */
    method FindByUserId(thread: ThreadId, user: UserId, limit: nat, offset: nat, page: seq<ChatId>, aggregates: seq<seq<UserId>>, env: Env)
      returns (r: Result<seq<Chat>, string>)
      requires pool.Ready(thread) && Schema(pool.server.committed)
      requires var t := pool.server.committed; IsWindow(page, ChatsOf(t, user), DirectChats.RecentFirst(t), limit, offset)
      requires |aggregates| == |page| && forall i :: 0 <= i < |page| ==> IsAggregate(pool.server.committed, page[i], aggregates[i])
      modifies pool, Elements(pool.initial)
      ensures pool.Ready(thread) && pool.initial == old(pool.initial)
      ensures r.Ok? ==> |r.value| == |page| && forall i :: 0 <= i < |page| ==>
                page[i] in pool.server.committed.chats && r.value[i] == ChatAt(pool.server.committed, page[i], aggregates[i])
      ensures r.Ok? && old(pool.AllOpen()) ==> pool.AllOpen()
      ensures old(pool.AllOpen()) && env.Calm() ==> r.Ok?
    {
      var seen := ReadCommitted(pool, thread, env);
      if seen.Err? {
        return Err(seen.error);
      }
      WindowElements(page, ChatsOf(seen.value, user), DirectChats.RecentFirst(seen.value), limit, offset);
      var chats := ReadChats(seen.value, user, page, aggregates);
      r := Ok(chats);
    }
  }

  /** Adding a chat with all its participants, whose ids are texts, None if that violates a constraint. */
  function AddedChat(t: Tables, canon: Canon, chat: Chat): Option<Tables> {
    var users := Images(canon, chat.participants);
    if chat.id !in t.chats && Distinct(users) && Elements(users) <= t.users.Keys
    then Some(WithChat(t, chat.id, chat.createdAt, Elements(users))) else None
  }

  lemma MembersAreUuids(t: Tables, chat: ChatId, users: seq<UserId>)
    requires Schema(t) && IsAggregate(t, chat, users)
    ensures forall i :: 0 <= i < |users| ==> IsUuidText(users[i].text)
  {
    forall i | 0 <= i < |users| ensures IsUuidText(users[i].text) {
      assert users[i] in Elements(users);
      assert (chat, users[i]) in t.participants;
    }
  }

  lemma ListedChat(t: Tables, user: UserId, page: seq<ChatId>, i: nat)
    requires Elements(page) <= ChatsOf(t, user) && i < |page|
    ensures page[i] in t.chats && user in Members(t, page[i])
  {
    assert page[i] in Elements(page);
    assert page[i] in ChatsOf(t, user);
    assert (page[i], user) in t.participants;
  }

  class PqxxUserRepository {
    const pool: PqxxConnectionPool

    constructor (pool: PqxxConnectionPool)
      ensures this.pool == pool
    {
      this.pool := pool;
    }

    method Exists(thread: ThreadId, user: UserId, canon: Canon, env: Env) returns (r: Result<bool, string>)
      requires pool.Ready(thread)
      modifies pool, Elements(pool.initial)
      ensures pool.Ready(thread) && pool.initial == old(pool.initial)
      ensures r.Ok? ==> (r.value <==> canon(user) in pool.server.committed.users)
      ensures r.Ok? && old(pool.AllOpen()) ==> pool.AllOpen()
      ensures old(pool.AllOpen()) && env.Calm() ==> r.Ok?
    {
      var seen := ReadCommitted(pool, thread, env);
      if seen.Err? {
        return Err(seen.error);
      }
      r := Ok(canon(user) in seen.value.users);
    }
  }
}

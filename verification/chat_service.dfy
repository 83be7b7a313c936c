/** ChatService: creating and deleting chats. */
module ChatServices {
  import opened Wrappers
  import opened Sequences
  import opened Tables
  import opened Queries
  import opened P = PoolProtocol
  import opened Connections
  import opened Repositories
  import opened PqxxRepositories
  import opened DirectChats
  import opened Uuids
  import opened Pages
  import Participants

  type Envs = nat -> Env

  ghost predicate AllCalm(envs: Envs) {
    forall k: nat :: envs(k).Calm()
  }

  /** FindExistingChat: the scan over the fetched chats. Its type filter lets every chat pass, because
      DirectChatType is the only alternative of the type variant. */
  method FirstWith(chats: seq<Chat>, other: UserId) returns (r: Option<Chat>)
    ensures r.None? <==> forall i :: 0 <= i < |chats| ==> other !in chats[i].participants
    ensures r.Some? ==> exists i :: 0 <= i < |chats| && r.value == chats[i] && other in chats[i].participants
                                    && forall k :: 0 <= k < i ==> other !in chats[k].participants
  {
    for i := 0 to |chats|
      invariant forall k :: 0 <= k < i ==> other !in chats[k].participants
    {
      if other in chats[i].participants {
        return Some(chats[i]);
      }
    }
    r := None;
  }

  lemma {:induction false} FirstIsExisting(t: Tables, page: seq<ChatId>, other: UserId, i: nat)
    requires i <= |page| && forall k :: 0 <= k < i ==> other !in Members(t, page[k])
    ensures FindExisting(t, page, other) == if i == |page| then None else if other in Members(t, page[i]) then Some(page[i]) else FindExisting(t, page[i + 1..], other)
    decreases |page|
  {
    if i > 0 {
      FirstIsExisting(t, page[1..], other, i - 1);
      assert i < |page| ==> page[1..][i..] == page[i + 1..];
    }
  }

  /** What the scan answers in terms of the tables. */
  lemma ScanIsFindExisting(t: Tables, page: seq<ChatId>, aggregates: seq<seq<UserId>>, chats: seq<Chat>, other: UserId, r: Option<Chat>)
    requires |chats| == |page| == |aggregates|
    requires forall i :: 0 <= i < |page| ==> page[i] in t.chats && IsAggregate(t, page[i], aggregates[i]) && chats[i] == ChatAt(t, page[i], aggregates[i])
    requires r.None? <==> forall i :: 0 <= i < |chats| ==> other !in chats[i].participants
    requires r.Some? ==> exists i :: 0 <= i < |chats| && r.value == chats[i] && other in chats[i].participants
                                     && forall k :: 0 <= k < i ==> other !in chats[k].participants
    ensures FindExisting(t, page, other) == if r.None? then None else Some(r.value.id)
  {
    forall i | 0 <= i < |page| ensures other in chats[i].participants <==> other in Members(t, page[i]) {
      assert other in chats[i].participants <==> other in Elements(aggregates[i]);
    }
    if r.None? {
      FirstIsExisting(t, page, other, |page|);
    } else {
      var i :| 0 <= i < |chats| && r.value == chats[i] && other in chats[i].participants && forall k :: 0 <= k < i ==> other !in chats[k].participants;
      FirstIsExisting(t, page, other, i);
    }
  }

  /** What CreateChat leaves behind, given the atomic step that it stands for. */
  ghost predicate CreateOutcome(ok: bool, t: Tables, step: Result<(Tables, ChatId), string>, t': Tables) {
    (!ok && t' == t) || (step.Ok? && t' == step.value.0)
  }

  ghost predicate DeleteChatOutcome(ok: bool, t: Tables, id: ChatId, requester: UserId, t': Tables) {
    || (!ok && t' == t)
    || (Queries.IsParticipant(t, id, requester) && Some(t') == Exec(DeleteChatRow(id), t))
  }

  /** The database knows the creator and all the others, in whatever spelling. */
  predicate Known(t: Tables, canon: Canon, creator: UserId, others: seq<UserId>) {
    canon(creator) in t.users && forall u :: u in others ==> canon(u) in t.users
  }

  /** What the normalised list means to the database. */
  lemma NormalisedImages(t: Tables, canon: Canon, creator: UserId, others: seq<UserId>, all: seq<UserId>)
    requires Participants.Ascending(all) && Elements(all) == {creator} + Elements(others) && Known(t, canon, creator, others)
    ensures Distinct(Images(canon, all)) <==> OneSpelling(canon, {creator} + Elements(others))
    ensures Elements(Images(canon, all)) == Image(canon, {creator} + Elements(others)) <= t.users.Keys
  {
    Participants.AscendingIsDistinct(all);
    DistinctImages(canon, all);
  }

  class ChatService {
    const chats: PqxxChatRepository
    const users: PqxxUserRepository
    const pool: PqxxConnectionPool

    ghost predicate Wired() {
      chats.pool == pool == users.pool
    }

    constructor (chats: PqxxChatRepository, users: PqxxUserRepository)
      requires chats.pool == users.pool
      ensures this.chats == chats && this.users == users && Wired()
    {
      this.chats, this.users, this.pool := chats, users, chats.pool;
    }

    /** EnforceUserExistence for the creator and EnforceUsersExistence for the others. */
    method EnforceUsersExistence(thread: ThreadId, creator: UserId, others: seq<UserId>, canon: Canon, envs: Envs) returns (r: Result<(), string>)
      requires Wired() && pool.Ready(thread)
      modifies pool, Elements(pool.initial)
      ensures pool.Ready(thread) && pool.initial == old(pool.initial)
      ensures r.Ok? ==> Known(pool.server.committed, canon, creator, others)
      ensures r.Ok? && old(pool.AllOpen()) ==> pool.AllOpen()
      ensures old(pool.AllOpen()) && AllCalm(envs) && Known(pool.server.committed, canon, creator, others) ==> r.Ok?
    {
      ghost var quiet := pool.AllOpen() && AllCalm(envs);
      var found := users.Exists(thread, creator, canon, envs(0));
      if found.Err? {
        return Err(found.error);
      }
      if !found.value {
        return Err("User does not exist.");
      }
      for i := 0 to |others|
        invariant pool.Ready(thread) && pool.initial == old(pool.initial)
        invariant forall k :: 0 <= k < i ==> canon(others[k]) in pool.server.committed.users
        invariant old(pool.AllOpen()) ==> pool.AllOpen()
      {
        assert others[i] in others;
        found := users.Exists(thread, others[i], canon, envs(i + 1));
        if found.Err? {
          return Err(found.error);
        }
        if !found.value {
          return Err("One or more participants do not exist.");
        }
      }
      r := Ok(());
    }

    method FindExistingChat(thread: ThreadId, user: UserId, other: UserId, page: seq<ChatId>, aggregates: seq<seq<UserId>>, env: Env)
      returns (r: Result<Option<Chat>, string>)
      requires Wired() && pool.Ready(thread) && Schema(pool.server.committed)
      requires IsChatPage(pool.server.committed, user, page)
      requires |aggregates| == |page| && forall i :: 0 <= i < |page| ==> IsAggregate(pool.server.committed, page[i], aggregates[i])
      modifies pool, Elements(pool.initial)
      ensures pool.Ready(thread) && pool.initial == old(pool.initial)
      ensures r.Ok? ==> FindExisting(pool.server.committed, page, other) == if r.value.None? then None else Some(r.value.value.id)
      ensures r.Ok? && old(pool.AllOpen()) ==> pool.AllOpen()
      ensures old(pool.AllOpen()) && env.Calm() ==> r.Ok?
    {
      WindowAtZero(page, ChatsOf(pool.server.committed, user), RecentFirst(pool.server.committed), CHATS_SEARCHED);
      var fetched := chats.FindByUserId(thread, user, CHATS_SEARCHED, 0, page, aggregates, env);
      if fetched.Err? {
        return Err(fetched.error);
      }
      var found := FirstWith(fetched.value, other);
      ScanIsFindExisting(pool.server.committed, page, aggregates, fetched.value, other, found);
      r := Ok(found);
    }

    /** Normalises the participant list, validates the timestamp and inserts the chat. */
    method CreateNewChatType(thread: ThreadId, creator: UserId, others: seq<UserId>, canon: Canon, id: ChatId, now: Time, env: Env)
      returns (r: Result<Chat, string>)
      requires Wired() && pool.Ready(thread) && Schema(pool.server.committed)
      requires Known(pool.server.committed, canon, creator, others)
      modifies pool, Elements(pool.initial), pool.server
      ensures pool.Ready(thread) && pool.initial == old(pool.initial)
      ensures var t, t' := old(pool.server.committed), pool.server.committed;
              var fits := now != 0 && id !in t.chats && OneSpelling(canon, {creator} + Elements(others));
              var after := WithChat(t, id, now, Image(canon, {creator} + Elements(others)));
              && (r.Ok? ==> fits && t' == after)
              && (r.Ok? ==> r.value.id == id && Participants.Ascending(r.value.participants)
                            && Elements(r.value.participants) == {creator} + Elements(others))
              && (r.Err? ==> t' == t || (fits && t' == after))
              && (old(pool.AllOpen()) && env.Calm() && fits ==> r.Ok?)
    {
      var all := Participants.Normalise(creator, others);
      NormalisedImages(pool.server.committed, canon, creator, others, all);
      if now == 0 {
        return Err("Has to be set to a concrete time point");
      }
      var chat := Chat(id, now, None, all);
      var added := chats.Add(thread, chat, canon, env);
      r := if added.Err? then Err(added.error) else Ok(chat);
    }

    /** One call with the tables to itself is the atomic step that module DirectChats reasons about. The
        creator is the user of the session, as read from the database; the others are request texts. */
    method CreateChat(thread: ThreadId, creator: UserId, others: seq<UserId>, canon: Canon, page: seq<ChatId>, aggregates: seq<seq<UserId>>,
        id: ChatId, now: Time, envs: Envs) returns (r: Result<Chat, string>)
      requires Wired() && pool.Ready(thread) && Schema(pool.server.committed)
      requires IsChatPage(pool.server.committed, creator, page)
      requires |aggregates| == |page| && forall i :: 0 <= i < |page| ==> IsAggregate(pool.server.committed, page[i], aggregates[i])
      modifies pool, Elements(pool.initial), pool.server
      ensures pool.Ready(thread) && pool.initial == old(pool.initial)
      ensures var t, t' := old(pool.server.committed), pool.server.committed;
              var step := Create(t, canon, creator, others, page, id, now);
              && CreateOutcome(r.Ok?, t, step, t') && (r.Ok? ==> r.value.id == step.value.1)
              && (old(pool.AllOpen()) && AllCalm(envs) && step.Ok? ==> r.Ok?)
              && (others == [] || others == [creator] || !Known(t, canon, creator, others) ==> r.Err? && t' == t)
    {
      if others == [] {
        return Err("Cannot create a chat without participants.");
      }
      var known := EnforceUsersExistence(thread, creator, others, canon, envs);
      if known.Err? {
        return Err(known.error);
      }
      if |others| == 1 {
        if creator == others[0] {
          return Err("Cannot create a chat with yourself.");
        }
        var existing := FindExistingChat(thread, creator, others[0], page, aggregates, envs(2));
        if existing.Err? {
          return Err(existing.error);
        }
        if existing.value.Some? {
          return Ok(existing.value.value);
        }
      }
      r := CreateNewChatType(thread, creator, others, canon, id, now, envs(|others| + 2));
    }

    /** Any participant can delete a chat; its messages, keys, receipts and seats go with it. */
    method DeleteChat(thread: ThreadId, id: ChatId, requester: UserId, envs: Envs) returns (r: Result<(), string>)
      requires Wired() && pool.Ready(thread)
      modifies pool, Elements(pool.initial), pool.server
      ensures pool.Ready(thread) && pool.initial == old(pool.initial)
      ensures var t, t' := old(pool.server.committed), pool.server.committed;
              && DeleteChatOutcome(r.Ok?, t, id, requester, t')
              && (old(pool.AllOpen()) && AllCalm(envs) && Queries.IsParticipant(t, id, requester) ==> r.Ok?)
    {
      var found := chats.IsParticipant(thread, id, requester, envs(0));
      if found.Err? {
        return Err(found.error);
      }
      if !found.value {
        return Err("Access Denied: User is not a participant of this chat.");
      }
      r := chats.DeleteById(thread, id, envs(1));
    }
  }
}

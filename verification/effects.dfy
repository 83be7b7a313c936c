/** What each write does, in terms of what the queries answer before and after it, and of which rows
    it leaves alone. */
module Effects {
  import opened Wrappers
  import opened Sequences
  import opened SymbolicCrypto
  import opened Tables
  import opened Queries

  function DeliveredAt(t: Tables, id: MessageId, user: UserId): Option<Time> {
    if (id, user) in t.receipts then t.receipts[(id, user)].deliveredAt else None
  }

  function ReadAt(t: Tables, id: MessageId, user: UserId): Option<Time> {
    if (id, user) in t.receipts then t.receipts[(id, user)].readAt else None
  }

  function LastMessage(t: Tables, chat: ChatId): Option<MessageId> {
    if chat in t.chats then t.chats[chat].lastMessage else None
  }

  function LastTimestamp(t: Tables, chat: ChatId): Option<Time> {
    if chat in t.chats then t.chats[chat].lastTimestamp else None
  }

  function CreatedAt(t: Tables, chat: ChatId): Option<Time> {
    if chat in t.chats then Some(t.chats[chat].createdAt) else None
  }

  /** The same row under k, or none in both. */
  predicate SameAt<K, V(==)>(a: map<K, V>, b: map<K, V>, k: K) {
    (k in a <==> k in b) && (k in a ==> a[k] == b[k])
  }

  /** The messages with these ids are gone, and all others are as they were. */
  ghost predicate MessagesGo(a: map<MessageId, Message>, b: map<MessageId, Message>, ids: set<MessageId>) {
    forall id :: (id in b <==> id in a && id !in ids) && (id in b ==> b[id] == a[id])
  }

  /** The rows of messages with these ids are gone, and all others are as they were. */
  ghost predicate RowsGo<V>(a: map<(MessageId, UserId), V>, b: map<(MessageId, UserId), V>, ids: set<MessageId>) {
    forall k :: (k in b <==> k in a && k.0 !in ids) && (k in b ==> b[k] == a[k])
  }

  /** At most the receipt of this user for this message has changed. */
  ghost predicate OnlyReceipt(t: Tables, t': Tables, id: MessageId, user: UserId) {
    && t'.users == t.users && t'.chats == t.chats && t'.participants == t.participants
    && t'.messages == t.messages && t'.keys == t.keys
    && forall k :: k != (id, user) ==> SameAt(t.receipts, t'.receipts, k)
  }

  /** The user has read the message now; a delivery time that was there stays. */
  ghost predicate IsRead(t: Tables, t': Tables, id: MessageId, user: UserId, now: Time) {
    && OnlyReceipt(t, t', id, user)
    && ReadAt(t', id, user) == Some(now)
    && DeliveredAt(t', id, user) == (if DeliveredAt(t, id, user).Some? then DeliveredAt(t, id, user) else Some(now))
  }

  /** The message has been delivered, now unless it had been before; nothing is said about reading. */
  ghost predicate IsDelivered(t: Tables, t': Tables, id: MessageId, user: UserId, now: Time) {
    && OnlyReceipt(t, t', id, user)
    && ReadAt(t', id, user) == ReadAt(t, id, user)
    && DeliveredAt(t', id, user) == (if DeliveredAt(t, id, user).Some? then DeliveredAt(t, id, user) else Some(now))
  }

  lemma RowWritten(t: Tables, id: MessageId, user: UserId, row: ReceiptRow)
    ensures var t' := t.(receipts := t.receipts[(id, user) := row]);
            OnlyReceipt(t, t', id, user) && ReadAt(t', id, user) == row.readAt && DeliveredAt(t', id, user) == row.deliveredAt
  {
  }

  lemma ReadRow(t: Tables, id: MessageId, user: UserId, now: Time)
    ensures var r := Exec(UpsertRead(id, user, now), t); r.Some? ==> IsRead(t, r.value, id, user, now)
  {
    var r := Exec(UpsertRead(id, user, now), t);
    if r.Some? {
      RowWritten(t, id, user, r.value.receipts[(id, user)]);
    }
  }

  lemma DeliveredRow(t: Tables, id: MessageId, user: UserId, now: Time)
    ensures var r := Exec(UpsertDelivered(id, user, now), t); r.Some? ==> IsDelivered(t, r.value, id, user, now)
  {
    var r := Exec(UpsertDelivered(id, user, now), t);
    if r.Some? && r.value != t {
      RowWritten(t, id, user, r.value.receipts[(id, user)]);
    }
  }

  lemma UpsertsSucceedExactly(t: Tables, id: MessageId, user: UserId, now: Time)
    requires ForeignKeys(t)
    ensures Exec(UpsertRead(id, user, now), t).Some? <==> id in t.messages && user in t.users
    ensures Exec(UpsertDelivered(id, user, now), t).Some? <==> id in t.messages && user in t.users
  {
  }

  /** Who has read and to whom it was delivered, after user has received or read message id. */
  ghost predicate Joins(t: Tables, t': Tables, id: MessageId, user: UserId, byReading: bool) {
    && (forall m, u :: u in Readers(t', m) <==> u in Readers(t, m) || (byReading && m == id && u == user))
    && (forall m, u :: u in DeliveredTo(t', m) <==> u in DeliveredTo(t, m) || (m == id && u == user))
  }

  lemma ReadJoins(t: Tables, t': Tables, id: MessageId, user: UserId, now: Time)
    requires IsRead(t, t', id, user, now)
    ensures Joins(t, t', id, user, true)
  {
    ReadersAndDelivered(t, t', id, user);
  }

  lemma DeliveredJoins(t: Tables, t': Tables, id: MessageId, user: UserId, now: Time)
    requires IsDelivered(t, t', id, user, now)
    ensures Joins(t, t', id, user, false)
  {
    ReadersAndDelivered(t, t', id, user);
  }

  /** MARK READ fails exactly for an unknown message or user; otherwise the user is among the readers
      and among those to whom it was delivered, and nobody else's standing changes. */
  lemma MarkReadEffect(t: Tables, id: MessageId, user: UserId, now: Time)
    requires ForeignKeys(t)
    ensures var r := Exec(UpsertRead(id, user, now), t);
            && (r.Some? <==> id in t.messages && user in t.users)
            && (r.Some? ==> IsRead(t, r.value, id, user, now) && Joins(t, r.value, id, user, true))
  {
    UpsertsSucceedExactly(t, id, user, now);
    ReadRow(t, id, user, now);
    var r := Exec(UpsertRead(id, user, now), t);
    if r.Some? { ReadJoins(t, r.value, id, user, now); }
  }

  /** MARK DELIVERED likewise, and it makes nobody a reader. */
  lemma MarkDeliveredEffect(t: Tables, id: MessageId, user: UserId, now: Time)
    requires ForeignKeys(t)
    ensures var r := Exec(UpsertDelivered(id, user, now), t);
            && (r.Some? <==> id in t.messages && user in t.users)
            && (r.Some? ==> IsDelivered(t, r.value, id, user, now) && Joins(t, r.value, id, user, false))
  {
    UpsertsSucceedExactly(t, id, user, now);
    DeliveredRow(t, id, user, now);
    var r := Exec(UpsertDelivered(id, user, now), t);
    if r.Some? { DeliveredJoins(t, r.value, id, user, now); }
  }

  lemma InReaders(t: Tables, m: MessageId, u: UserId)
    ensures u in Readers(t, m) <==> ReadAt(t, m, u).Some?
    ensures u in DeliveredTo(t, m) <==> DeliveredAt(t, m, u).Some?
  {
    if (m, u) in t.receipts {
      assert (m, u).0 == m && (m, u).1 == u;
    }
  }

  lemma ReadersAndDelivered(t: Tables, t': Tables, id: MessageId, user: UserId)
    requires OnlyReceipt(t, t', id, user)
    ensures forall m, u :: (m, u) != (id, user) ==> (u in Readers(t', m) <==> u in Readers(t, m)) && (u in DeliveredTo(t', m) <==> u in DeliveredTo(t, m))
    ensures user in Readers(t', id) <==> ReadAt(t', id, user).Some?
    ensures user in DeliveredTo(t', id) <==> DeliveredAt(t', id, user).Some?
    ensures user in Readers(t, id) <==> ReadAt(t, id, user).Some?
    ensures user in DeliveredTo(t, id) <==> DeliveredAt(t, id, user).Some?
  {
    forall m, u ensures (m, u) != (id, user) ==> (u in Readers(t', m) <==> u in Readers(t, m)) && (u in DeliveredTo(t', m) <==> u in DeliveredTo(t, m)) {
      InReaders(t, m, u);
      InReaders(t', m, u);
      assert (m, u) != (id, user) ==> SameAt(t.receipts, t'.receipts, (m, u));
    }
    InReaders(t, id, user);
    InReaders(t', id, user);
  }

  /** At most the row of this chat has changed. */
  ghost predicate OnlyChat(t: Tables, t': Tables, chat: ChatId) {
    && t'.users == t.users && t'.participants == t.participants && t'.messages == t.messages
    && t'.keys == t.keys && t'.receipts == t.receipts
    && t'.chats.Keys == t.chats.Keys && forall c :: c != chat ==> SameAt(t.chats, t'.chats, c)
  }

  /** UPDATE of the last message: fails exactly for a chat that exists and a message that does not. */
  lemma SetLastEffect(t: Tables, chat: ChatId, id: MessageId, at: Time)
    ensures var r := Exec(SetLastMessage(chat, id, at), t);
            && (r.None? <==> chat in t.chats && id !in t.messages)
            && (r.Some? ==> OnlyChat(t, r.value, chat) && CreatedAt(r.value, chat) == CreatedAt(t, chat))
            && (r.Some? && chat in t.chats ==> LastMessage(r.value, chat) == Some(id) && LastTimestamp(r.value, chat) == Some(at))
  {
  }

  /** Exactly these messages are gone, with their keys and receipts; a chat whose last message is
      among them has none any more, but keeps the time of it, and all else is as before. */
  ghost predicate AreDeleted(t: Tables, t': Tables, ids: set<MessageId>) {
    && t'.users == t.users && t'.participants == t.participants
    && MessagesGo(t.messages, t'.messages, ids) && RowsGo(t.keys, t'.keys, ids) && RowsGo(t.receipts, t'.receipts, ids)
    && t'.chats.Keys == t.chats.Keys
    && forall c :: c in t.chats ==>
         && CreatedAt(t', c) == CreatedAt(t, c) && LastTimestamp(t', c) == LastTimestamp(t, c)
         && LastMessage(t', c) == (if LastMessage(t, c).Some? && LastMessage(t, c).value in ids then None else LastMessage(t, c))
  }

  lemma DeleteMessagesEffect(t: Tables, ids: set<MessageId>)
    ensures AreDeleted(t, DeleteMessages(t, ids), ids)
  {
  }

  /** DELETE of one message never fails; for an unknown id it does nothing. */
  lemma DeleteMessageEffect(t: Tables, id: MessageId)
    ensures var r := Exec(DeleteMessageRow(id), t);
            && r.Some? && AreDeleted(t, r.value, {id} * t.messages.Keys)
            && (id !in t.messages ==> r.value.messages == t.messages && r.value.chats == t.chats)
  {
    DeleteMessagesEffect(t, {id} * t.messages.Keys);
  }

  /** The chat, its seats and its messages with their keys and receipts are gone, and all else is as
      before. */
  ghost predicate ChatIsDeleted(t: Tables, t': Tables, chat: ChatId) {
    && t'.users == t.users
    && (forall c :: if c == chat then c !in t'.chats else SameAt(t.chats, t'.chats, c))
    && (forall p: (ChatId, UserId) :: if p.0 == chat then p !in t'.participants else SameAt(t.participants, t'.participants, p))
    && (forall id :: id in t'.messages <==> id in t.messages && t.messages[id].chat != chat)
    && MessagesGo(t.messages, t'.messages, MessagesOf(t, chat))
    && RowsGo(t.keys, t'.keys, MessagesOf(t, chat)) && RowsGo(t.receipts, t'.receipts, MessagesOf(t, chat))
  }

  /** Every chat's last message, if it has one, is a message of its own. */
  ghost predicate OwnLastMessages(t: Tables) {
    forall c :: LastMessage(t, c).Some? ==> LastMessage(t, c).value in t.messages && t.messages[LastMessage(t, c).value].chat == c
  }

  lemma OtherChatsStay(t: Tables, chat: ChatId)
    requires OwnLastMessages(t)
    ensures forall c :: if c == chat then c !in DeleteChat(t, chat).chats else SameAt(t.chats, DeleteChat(t, chat).chats, c)
  {
    var ids, t' := MessagesOf(t, chat), DeleteChat(t, chat);
    forall c | c in t'.chats ensures t'.chats[c] == t.chats[c] {
      assert LastMessage(t, c).Some? ==> LastMessage(t, c).value !in ids;
    }
  }

  /** DELETE of a chat. */
  lemma DeleteChatEffect(t: Tables, chat: ChatId)
    requires ForeignKeys(t) && OwnLastMessages(t)
    ensures ChatIsDeleted(t, DeleteChat(t, chat), chat)
  {
    OtherChatsStay(t, chat);
    DeleteMessagesEffect(t, MessagesOf(t, chat));
  }

  /** A new user has the key of the registration, and all else is as before. */
  lemma RegisterEffect(t: Tables, user: UserId, publicKey: Term)
    ensures var r := Exec(InsertUser(user, publicKey), t);
            && (r.Some? <==> user !in t.users)
            && (r.Some? ==> user in r.value.users && r.value.users[user] == publicKey
                            && (forall u :: u != user ==> SameAt(t.users, r.value.users, u))
                            && r.value == t.(users := r.value.users))
  {
  }

  /** A new chat has exactly these members, its time of creation, and no message yet. */
  lemma NewChatEffect(t: Tables, chat: ChatId, at: Time, users: set<UserId>)
    requires ForeignKeys(t) && chat !in t.chats
    ensures var t' := WithChat(t, chat, at, users);
            && CreatedAt(t', chat) == Some(at) && LastMessage(t', chat) == None && LastTimestamp(t', chat) == None
            && (forall c :: c != chat ==> SameAt(t.chats, t'.chats, c))
            && (forall u :: u in Members(t', chat) <==> u in users)
            && (forall u :: IsParticipant(t', chat, u) <==> u in users)
            && (forall p: (ChatId, UserId) :: p.0 != chat ==> SameAt(t.participants, t'.participants, p))
            && t'.users == t.users && t'.messages == t.messages && t'.keys == t.keys && t'.receipts == t.receipts
  {
    var t' := WithChat(t, chat, at, users);
    assert forall p :: p in Seats(chat, users) <==> p.0 == chat && p.1 in users;
    forall u ensures u in Members(t', chat) <==> u in users {
      assert (chat, u) in t'.participants <==> u in users;
    }
  }

  /** A new message is stored as it is, each user of the map has the key that the map says and nobody
      else has one, nobody has a receipt, and all else is as before. */
  lemma NewMessageEffect(t: Tables, m: Message, keys: map<UserId, Term>)
    requires ForeignKeys(t) && m.id !in t.messages
    ensures var t' := WithMessage(t, m, keys);
            && m.id in t'.messages && t'.messages[m.id] == m
            && (forall id :: id != m.id ==> SameAt(t.messages, t'.messages, id))
            && (forall u :: GetEncryptedKey(t', m.id, u) == if u in keys then Some(keys[u]) else None)
            && (forall k: (MessageId, UserId) :: k.0 != m.id ==> SameAt(t.keys, t'.keys, k))
            && Readers(t', m.id) == {} == DeliveredTo(t', m.id)
            && t'.users == t.users && t'.chats == t.chats && t'.participants == t.participants && t'.receipts == t.receipts
  {
    var t' := WithMessage(t, m, keys);
    assert forall k :: k in KeyCells(m.id, keys.Keys) <==> k.0 == m.id && k.1 in keys;
    forall u ensures GetEncryptedKey(t', m.id, u) == if u in keys then Some(keys[u]) else None {
      assert (m.id, u) !in t.keys;
    }
  }
}

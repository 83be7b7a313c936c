/** What the SELECT statements of the two repositories return, as functions of the tables. */
module Queries {
  import opened Wrappers
  import opened Tables
  import opened SymbolicCrypto

  /** PqxxChatRepository::IsParticipant. It does not look at left_at. */
  predicate IsParticipant(t: Tables, chat: ChatId, user: UserId) {
    (chat, user) in t.participants
  }

  /** The users whose ids PqxxChatRepository::FindById aggregates: those that have not left. */
  function Members(t: Tables, chat: ChatId): set<UserId> {
    set p | p in t.participants && p.0 == chat && t.participants[p].leftAt.None? :: p.1
  }

  /** The chats that PqxxChatRepository::FindByUserId joins, before ORDER BY and LIMIT. */
  function ChatsOf(t: Tables, user: UserId): set<ChatId> {
    set p | p in t.participants && p.1 == user && t.participants[p].leftAt.None? && p.0 in t.chats :: p.0
  }

  predicate Delivered(t: Tables, id: MessageId, user: UserId) {
    (id, user) in t.receipts && t.receipts[(id, user)].deliveredAt.Some?
  }

  predicate IsUndelivered(t: Tables, user: UserId, id: MessageId) {
    && id in t.messages
    && (t.messages[id].chat, user) in t.participants
    && t.messages[id].sender != user
    && !Delivered(t, id, user)
  }

  /** The messages of PqxxMessageRepository::FindUndelivered before cursor, ORDER BY and LIMIT. */
  function Undelivered(t: Tables, user: UserId): set<MessageId> {
    set id | id in t.messages && IsUndelivered(t, user, id)
  }

  /** PqxxMessageRepository::GetEncryptedKey. */
  function GetEncryptedKey(t: Tables, id: MessageId, user: UserId): Option<Term> {
    if (id, user) in t.keys then Some(t.keys[(id, user)]) else None
  }

  /** PqxxMessageRepository::GetDeliveredTo and GetReaders. */
  function DeliveredTo(t: Tables, id: MessageId): set<UserId> {
    set k | k in t.receipts && k.0 == id && t.receipts[k].deliveredAt.Some? :: k.1
  }

  function Readers(t: Tables, id: MessageId): set<UserId> {
    set k | k in t.receipts && k.0 == id && t.receipts[k].readAt.Some? :: k.1
  }
}

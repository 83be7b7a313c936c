/** The server's tables after all migrations, and what each statement of the repositories does to
    them: primary keys, foreign keys, ON DELETE CASCADE and ON DELETE SET NULL. */
module Tables {
  import opened Wrappers
  import opened Sequences
  import opened SymbolicCrypto

  datatype UserId = UserId(text: string)
  datatype ChatId = ChatId(text: string)
  datatype MessageId = MessageId(text: string)
  type Time = int

  /** A message as the domain object that the services pass around. */
  datatype Message = Message(id: MessageId, chat: ChatId, sender: UserId, ciphertext: Term, kind: string, createdAt: Time)

  /** MessageValidator: a concrete time of creation, where zero is the clock's epoch, and a ciphertext. */
  predicate PassesValidator(m: Message) {
    m.createdAt != 0 && m.ciphertext != Text("")
  }

  datatype ChatRow = ChatRow(createdAt: Time, lastMessage: Option<MessageId>, lastTimestamp: Option<Time>)
  datatype ParticipantRow = ParticipantRow(leftAt: Option<Time>)
  datatype ReceiptRow = ReceiptRow(deliveredAt: Option<Time>, readAt: Option<Time>)

  /** One map per table, keyed by its primary key. */
  datatype Tables = Tables(
    users: map<UserId, Term>,                             // id -> public_key
    chats: map<ChatId, ChatRow>,
    participants: map<(ChatId, UserId), ParticipantRow>,
    messages: map<MessageId, Message>,
    keys: map<(MessageId, UserId), Term>,
    receipts: map<(MessageId, UserId), ReceiptRow>)

  datatype Statement =
    | InsertUser(user: UserId, publicKey: Term)
    | InsertChat(chat: ChatId, createdAt: Time)
    | InsertParticipant(chat: ChatId, user: UserId)
    | InsertMessage(message: Message)
    | InsertKey(id: MessageId, user: UserId, key: Term)
    | SetLastMessage(chat: ChatId, id: MessageId, timestamp: Time)
    | UpsertDelivered(id: MessageId, user: UserId, now: Time)
    | UpsertRead(id: MessageId, user: UserId, now: Time)
    | DeleteMessageRow(id: MessageId)
    | DeleteChatRow(chat: ChatId)

  const EMPTY := Tables(map[], map[], map[], map[], map[], map[])

  /** Deletes the given messages: their keys and receipts cascade, a chat that names one of them
      as its last message is set to NULL but keeps its timestamp. */
  function DeleteMessages(t: Tables, ids: set<MessageId>): Tables {
    t.(messages := t.messages - ids,
       keys := map k | k in t.keys && k.0 !in ids :: t.keys[k],
       receipts := map k | k in t.receipts && k.0 !in ids :: t.receipts[k],
       chats := map c | c in t.chats ::
         if t.chats[c].lastMessage.Some? && t.chats[c].lastMessage.value in ids
         then t.chats[c].(lastMessage := None) else t.chats[c])
  }

  function MessagesOf(t: Tables, chat: ChatId): set<MessageId> {
    set id | id in t.messages && t.messages[id].chat == chat
  }

  function DeleteChat(t: Tables, chat: ChatId): Tables {
    var t1 := DeleteMessages(t, MessagesOf(t, chat));
    t1.(chats := t1.chats - {chat},
        participants := map p | p in t1.participants && p.0 != chat :: t1.participants[p])
  }

  /** The effect of one statement, None when it violates a primary or a foreign key. */
  function Exec(s: Statement, t: Tables): Option<Tables> {
    match s
    case InsertUser(u, pk) =>
      if u in t.users then None else Some(t.(users := t.users[u := pk]))
    case InsertChat(c, at) =>
      if c in t.chats then None else Some(t.(chats := t.chats[c := ChatRow(at, None, None)]))
    case InsertParticipant(c, u) =>
      if (c, u) in t.participants || c !in t.chats || u !in t.users then None
      else Some(t.(participants := t.participants[(c, u) := ParticipantRow(None)]))
    case InsertMessage(m) =>
      if m.id in t.messages || m.chat !in t.chats || m.sender !in t.users then None
      else Some(t.(messages := t.messages[m.id := m]))
    case InsertKey(id, u, key) =>
      if (id, u) in t.keys || id !in t.messages || u !in t.users then None
      else Some(t.(keys := t.keys[(id, u) := key]))
    case SetLastMessage(c, id, at) =>
      if c !in t.chats then Some(t)
      else if id !in t.messages then None
      else Some(t.(chats := t.chats[c := t.chats[c].(lastMessage := Some(id), lastTimestamp := Some(at))]))
    case UpsertDelivered(id, u, now) =>
      if (id, u) in t.receipts then
        var r := t.receipts[(id, u)];
        Some(if r.deliveredAt.None? then t.(receipts := t.receipts[(id, u) := r.(deliveredAt := Some(now))]) else t)
      else if id !in t.messages || u !in t.users then None
      else Some(t.(receipts := t.receipts[(id, u) := ReceiptRow(Some(now), None)]))
    case UpsertRead(id, u, now) =>
      if (id, u) in t.receipts then
        var r := t.receipts[(id, u)];
        Some(t.(receipts := t.receipts[(id, u) :=
          ReceiptRow(if r.deliveredAt.Some? then r.deliveredAt else Some(now), Some(now))]))
      else if id !in t.messages || u !in t.users then None
      else Some(t.(receipts := t.receipts[(id, u) := ReceiptRow(Some(now), Some(now))]))
    case DeleteMessageRow(id) => Some(DeleteMessages(t, {id} * t.messages.Keys))
    case DeleteChatRow(c) => Some(DeleteChat(t, c))
  }

  /** The effect of several statements in one transaction, None as soon as one of them fails. */
  function Replay(script: seq<Statement>, t: Tables): Option<Tables>
    decreases |script|
  {
    if script == [] then Some(t)
    else match Exec(script[0], t)
      case None => None
      case Some(t1) => Replay(script[1..], t1)
  }

  lemma {:induction false} ReplayConcat(a: seq<Statement>, b: seq<Statement>, t: Tables)
    ensures Replay(a + b, t) == match Replay(a, t) { case None => None case Some(t1) => Replay(b, t1) }
    decreases |a|
  {
    if a == [] {
      assert a + b == b;
    } else {
      assert (a + b)[1..] == a[1..] + b;
      match Exec(a[0], t)
      case None =>
      case Some(t1) => ReplayConcat(a[1..], b, t1);
    }
  }

  /** What the foreign keys promise: no row refers to a missing one. */
  ghost predicate ForeignKeys(t: Tables) {
    && (forall p :: p in t.participants ==> p.0 in t.chats && p.1 in t.users)
    && (forall id :: id in t.messages ==>
          t.messages[id].id == id && t.messages[id].chat in t.chats && t.messages[id].sender in t.users)
    && (forall k :: k in t.keys ==> k.0 in t.messages && k.1 in t.users)
    && (forall k :: k in t.receipts ==> k.0 in t.messages && k.1 in t.users)
    && (forall c :: c in t.chats && t.chats[c].lastMessage.Some? ==> t.chats[c].lastMessage.value in t.messages)
  }

  lemma DeleteMessagesKeepsForeignKeys(t: Tables, ids: set<MessageId>)
    requires ForeignKeys(t)
    ensures ForeignKeys(DeleteMessages(t, ids))
  {
  }

  lemma DeleteChatKeepsForeignKeys(t: Tables, chat: ChatId)
    requires ForeignKeys(t)
    ensures ForeignKeys(DeleteChat(t, chat))
  {
    var t1 := DeleteMessages(t, MessagesOf(t, chat));
    DeleteMessagesKeepsForeignKeys(t, MessagesOf(t, chat));
    assert forall id :: id in t1.messages ==> t1.messages[id].chat != chat;
  }

  lemma InsertKeepsForeignKeys(s: Statement, t: Tables)
    requires ForeignKeys(t) && Exec(s, t).Some?
    requires s.InsertUser? || s.InsertChat? || s.InsertParticipant? || s.InsertMessage? || s.InsertKey?
    ensures ForeignKeys(Exec(s, t).value)
  {
  }

  lemma UpdateKeepsForeignKeys(s: Statement, t: Tables)
    requires ForeignKeys(t) && Exec(s, t).Some?
    requires s.SetLastMessage?
    ensures ForeignKeys(Exec(s, t).value)
  {
  }

  lemma UpsertKeepsForeignKeys(s: Statement, t: Tables)
    requires ForeignKeys(t) && Exec(s, t).Some?
    requires s.UpsertDelivered? || s.UpsertRead?
    ensures ForeignKeys(Exec(s, t).value)
  {
    ReceiptKeepsForeignKeys(t, s.id, s.user, Exec(s, t).value);
  }

  lemma ReceiptKeepsForeignKeys(t: Tables, id: MessageId, user: UserId, t': Tables)
    requires ForeignKeys(t) && t' == t.(receipts := t'.receipts) && id in t.messages && user in t.users
    requires t'.receipts.Keys <= t.receipts.Keys + {(id, user)}
    ensures ForeignKeys(t')
  {
  }

  /** No statement can leave a dangling reference behind. */
  lemma ExecKeepsForeignKeys(s: Statement, t: Tables)
    requires ForeignKeys(t) && Exec(s, t).Some?
    ensures ForeignKeys(Exec(s, t).value)
  {
    if s.DeleteMessageRow? {
      DeleteMessagesKeepsForeignKeys(t, {s.id} * t.messages.Keys);
    } else if s.DeleteChatRow? {
      DeleteChatKeepsForeignKeys(t, s.chat);
    } else if s.SetLastMessage? {
      UpdateKeepsForeignKeys(s, t);
    } else if s.UpsertDelivered? || s.UpsertRead? {
      UpsertKeepsForeignKeys(s, t);
    } else {
      InsertKeepsForeignKeys(s, t);
    }
  }

  lemma {:induction false} ReplayKeepsForeignKeys(script: seq<Statement>, t: Tables)
    requires ForeignKeys(t) && Replay(script, t).Some?
    ensures ForeignKeys(Replay(script, t).value)
    decreases |script|
  {
    if script != [] {
      ExecKeepsForeignKeys(script[0], t);
      ReplayKeepsForeignKeys(script[1..], Exec(script[0], t).value);
    }
  }

  /** The transaction of PqxxMessageRepository::Add; `order` is the map's iteration order. */
  function AddMessageScript(m: Message, keys: map<UserId, Term>, order: seq<UserId>): seq<Statement>
    requires forall u :: u in order ==> u in keys
  {
    [InsertMessage(m)] + KeyScript(m.id, keys, order)
  }

  function KeyScript(id: MessageId, keys: map<UserId, Term>, order: seq<UserId>): seq<Statement>
    requires forall u :: u in order ==> u in keys
  {
    seq(|order|, i requires 0 <= i < |order| => InsertKey(id, order[i], keys[order[i]]))
  }

  function KeyCells(id: MessageId, users: set<UserId>): set<(MessageId, UserId)> {
    set u | u in users :: (id, u)
  }

  function KeyRows(id: MessageId, keys: map<UserId, Term>, users: set<UserId>): map<(MessageId, UserId), Term>
    requires users <= keys.Keys
  {
    map p | p in KeyCells(id, users) :: keys[p.1]
  }

  /** The tables with a message and all of its wrapped keys. */
  function WithMessage(t: Tables, m: Message, keys: map<UserId, Term>): Tables {
    t.(messages := t.messages[m.id := m], keys := t.keys + KeyRows(m.id, keys, keys.Keys))
  }

  function Seats(chat: ChatId, users: set<UserId>): set<(ChatId, UserId)> {
    set u | u in users :: (chat, u)
  }

  function SeatRows(chat: ChatId, users: set<UserId>): map<(ChatId, UserId), ParticipantRow> {
    map p | p in Seats(chat, users) :: ParticipantRow(None)
  }

  /** The tables with a chat and all of its participants. */
  function WithChat(t: Tables, chat: ChatId, at: Time, users: set<UserId>): Tables {
    t.(chats := t.chats[chat := ChatRow(at, None, None)], participants := t.participants + SeatRows(chat, users))
  }

  /** The transaction of PqxxChatRepository::Add. */
  function AddChatScript(chat: ChatId, at: Time, members: seq<UserId>): seq<Statement> {
    [InsertChat(chat, at)] + SeatScript(chat, members)
  }

  function SeatScript(chat: ChatId, members: seq<UserId>): seq<Statement> {
    seq(|members|, i requires 0 <= i < |members| => InsertParticipant(chat, members[i]))
  }

  lemma KeyRowsCons(t: Tables, id: MessageId, keys: map<UserId, Term>, u: UserId, rest: set<UserId>)
    requires rest + {u} <= keys.Keys
    ensures t.keys[(id, u) := keys[u]] + KeyRows(id, keys, rest - {u}) == t.keys + KeyRows(id, keys, {u} + rest)
  {
    assert forall p :: p in KeyCells(id, {u} + rest) <==> p == (id, u) || p in KeyCells(id, rest - {u});
  }

  lemma {:induction false} ReplayKeys(t: Tables, id: MessageId, keys: map<UserId, Term>, order: seq<UserId>)
    requires id in t.messages && Distinct(order) && Elements(order) <= keys.Keys
    requires KeyCells(id, Elements(order)) !! t.keys.Keys
    ensures var r := Replay(KeyScript(id, keys, order), t);
            && (r.Some? <==> Elements(order) <= t.users.Keys)
            && (r.Some? ==> r.value == t.(keys := t.keys + KeyRows(id, keys, Elements(order))))
    decreases |order|
  {
    if order == [] {
      assert t.keys + KeyRows(id, keys, Elements(order)) == t.keys;
    } else {
      var script, u, rest := KeyScript(id, keys, order), order[0], order[1..];
      DistinctCons(order);
      assert script[1..] == KeyScript(id, keys, rest);
      assert (id, u) in KeyCells(id, Elements(order));
      if u in t.users {
        var t1 := Exec(script[0], t).value;
        assert KeyCells(id, Elements(rest)) !! t1.keys.Keys by {
          assert KeyCells(id, Elements(rest)) <= KeyCells(id, Elements(order));
        }
        ReplayKeys(t1, id, keys, rest);
        KeyRowsCons(t, id, keys, u, Elements(rest));
        assert Elements(rest) - {u} == Elements(rest);
      }
    }
  }

  /** A message goes in with all of its wrapped keys, or the transaction fails; it fails exactly
      when the id is taken, the chat or the sender is gone, or a key names an unknown user. */
  lemma AddMessageAllOrNothing(t: Tables, m: Message, keys: map<UserId, Term>, order: seq<UserId>)
    requires ForeignKeys(t) && Distinct(order) && Elements(order) == keys.Keys
    ensures var r := Replay(AddMessageScript(m, keys, order), t);
            && (r.Some? <==> m.id !in t.messages && m.chat in t.chats && m.sender in t.users && keys.Keys <= t.users.Keys)
            && (r.Some? ==> r.value == WithMessage(t, m, keys))
  {
    var script := AddMessageScript(m, keys, order);
    assert script[1..] == KeyScript(m.id, keys, order);
    match Exec(script[0], t)
    case None =>
    case Some(t1) => ReplayKeys(t1, m.id, keys, order);
  }

  lemma SeatRowsCons(t: Tables, chat: ChatId, u: UserId, rest: set<UserId>)
    ensures t.participants[(chat, u) := ParticipantRow(None)] + SeatRows(chat, rest) == t.participants + SeatRows(chat, {u} + rest)
  {
    assert forall p :: p in Seats(chat, {u} + rest) <==> p == (chat, u) || p in Seats(chat, rest);
  }

  lemma {:induction false} ReplaySeats(t: Tables, chat: ChatId, members: seq<UserId>)
    requires chat in t.chats
    requires Seats(chat, Elements(members)) !! t.participants.Keys
    ensures var r := Replay(SeatScript(chat, members), t);
            && (r.Some? <==> Distinct(members) && Elements(members) <= t.users.Keys)
            && (r.Some? ==> r.value == t.(participants := t.participants + SeatRows(chat, Elements(members))))
    decreases |members|
  {
    if members == [] {
      assert t.participants + SeatRows(chat, Elements(members)) == t.participants;
    } else {
      var script, u, rest := SeatScript(chat, members), members[0], members[1..];
      DistinctCons(members);
      assert script[1..] == SeatScript(chat, rest);
      assert (chat, u) in Seats(chat, Elements(members));
      if u in t.users {
        var t1 := Exec(script[0], t).value;
        if u in rest {
          ReplayTakenSeat(t1, chat, rest, u);
        } else {
          assert Seats(chat, Elements(rest)) !! t1.participants.Keys by {
            assert Seats(chat, Elements(rest)) <= Seats(chat, Elements(members));
          }
          ReplaySeats(t1, chat, rest);
          SeatRowsCons(t, chat, u, Elements(rest));
        }
      }
    }
  }

  /** A second row for the same seat violates the primary key. */
  lemma {:induction false} ReplayTakenSeat(t: Tables, chat: ChatId, members: seq<UserId>, u: UserId)
    requires u in members && (chat, u) in t.participants
    ensures Replay(SeatScript(chat, members), t) == None
    decreases |members|
  {
    var script := SeatScript(chat, members);
    assert script[1..] == SeatScript(chat, members[1..]);
    if members[0] != u && Exec(script[0], t).Some? {
      ReplayTakenSeat(Exec(script[0], t).value, chat, members[1..], u);
    }
  }

  /** A chat goes in with all of its participants, or the transaction fails; it fails exactly when
      the id is taken, a participant is listed twice or a participant is unknown. */
  lemma AddChatAllOrNothing(t: Tables, chat: ChatId, at: Time, members: seq<UserId>)
    requires ForeignKeys(t)
    ensures var r := Replay(AddChatScript(chat, at, members), t);
            && (r.Some? <==> chat !in t.chats && Distinct(members) && Elements(members) <= t.users.Keys)
            && (r.Some? ==> r.value == WithChat(t, chat, at, Elements(members)))
  {
    var script := AddChatScript(chat, at, members);
    assert script[1..] == SeatScript(chat, members);
    match Exec(script[0], t)
    case None =>
    case Some(t1) => ReplaySeats(t1, chat, members);
  }
}

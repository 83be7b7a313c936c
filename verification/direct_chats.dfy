/** Creating a chat, and why two users do not end up with two direct chats. */
module DirectChats {
  import opened Wrappers
  import opened SymbolicCrypto
  import opened Sequences
  import opened Tables
  import opened Queries
  import opened Pages
  import opened ServiceRuns
  import opened Uuids
  import Effects

  const CHATS_SEARCHED: nat := 100

  /** ORDER BY c.last_message_timestamp DESC NULLS LAST. */
  function RecentFirst(t: Tables): (ChatId, ChatId) -> bool {
    (a, b) => Recency(t, b).None? || (Recency(t, a).Some? && Recency(t, a).value >= Recency(t, b).value)
  }

  function Recency(t: Tables, chat: ChatId): Option<Time> {
    if chat in t.chats then t.chats[chat].lastTimestamp else None
  }

  /** What FindByUserId(user, 100, 0) may return. */
  ghost predicate IsChatPage(t: Tables, user: UserId, page: seq<ChatId>) {
    IsPage(page, ChatsOf(t, user), RecentFirst(t), CHATS_SEARCHED)
  }

  /** The chat has a message and the other none, or a later last one. */
  predicate IsNewer(t: Tables, chat: ChatId, other: ChatId) {
    var a, b := Effects.LastTimestamp(t, chat), Effects.LastTimestamp(t, other);
    a.Some? && (b.None? || a.value > b.value)
  }

  /** The chats of the user that the database may list before this one. */
  function NotOlder(t: Tables, user: UserId, chat: ChatId): set<ChatId> {
    set c | c in ChatsOf(t, user) && c != chat && !IsNewer(t, chat, c)
  }

  /** The search looks at the newest 100 chats of the user: at all if there are no more, none that it
      leaves out is newer than one that it sees, and it sees every chat before which fewer than 100 can
      be listed. */
  lemma SearchSeesNewest(t: Tables, user: UserId, page: seq<ChatId>, chat: ChatId)
    requires IsChatPage(t, user, page) && chat in ChatsOf(t, user)
    ensures |page| <= 100 && (|ChatsOf(t, user)| <= 100 ==> chat in page)
    ensures chat !in page ==> forall c :: c in page ==> !IsNewer(t, chat, c)
    ensures |NotOlder(t, user, chat)| < 100 ==> chat in page
  {
    if |ChatsOf(t, user)| <= CHATS_SEARCHED {
      WholePage(page, ChatsOf(t, user), RecentFirst(t), CHATS_SEARCHED);
    }
    assert chat in page <==> chat in Elements(page);
    if chat !in page {
      forall c | c in Elements(page) ensures c in NotOlder(t, user, chat) {
        assert RecentFirst(t)(c, chat);
      }
      SmallerSet(Elements(page), NotOlder(t, user, chat));
      DistinctSize(page);
    }
  }

  lemma SmallerSet<K>(a: set<K>, b: set<K>)
    requires a <= b
    ensures |a| <= |b|
  {
    assert a + (b - a) == b;
  }

  /** FindExistingChat: the first chat of the list with the text of the other user's id among the texts
      of its members' ids. */
  function FindExisting(t: Tables, page: seq<ChatId>, other: UserId): Option<ChatId>
    decreases |page|
  {
    if page == [] then None
    else if other in Members(t, page[0]) then Some(page[0])
    else FindExisting(t, page[1..], other)
  }

  /** A successful CreateChat: the tables afterwards and the chat that is returned. The ids of the
      request are texts; the database sees what they spell. */
  function Create(t: Tables, canon: Canon, creator: UserId, others: seq<UserId>, page: seq<ChatId>, chat: ChatId, now: Time): Result<(Tables, ChatId), string> {
    if others == [] then Err("Cannot create a chat without participants.")
    else if canon(creator) !in t.users then Err("User does not exist.")
    else if exists u :: u in others && canon(u) !in t.users then Err("One or more participants do not exist.")
    else if |others| == 1 && creator == others[0] then Err("Cannot create a chat with yourself.")
    else if |others| == 1 && FindExisting(t, page, others[0]).Some? then Ok((t, FindExisting(t, page, others[0]).value))
    else if now == 0 then Err("Has to be set to a concrete time point")
    else if chat in t.chats || !OneSpelling(canon, {creator} + Elements(others)) then Err("duplicate key")
    else Ok((WithChat(t, chat, now, Image(canon, {creator} + Elements(others))), chat))
  }

  lemma {:induction false} FindExistingFinds(t: Tables, page: seq<ChatId>, other: UserId)
    ensures var r := FindExisting(t, page, other);
            && (r.Some? <==> exists c :: c in page && other in Members(t, c))
            && (r.Some? ==> r.value in page && other in Members(t, r.value))
    decreases |page|
  {
    if page != [] && other !in Members(t, page[0]) {
      FindExistingFinds(t, page[1..], other);
      assert page == [page[0]] + page[1..];
    }
  }

  lemma InChatsOf(t: Tables, chat: ChatId, user: UserId)
    requires ForeignKeys(t)
    ensures user in Members(t, chat) <==> chat in ChatsOf(t, user)
  {
    var p := (chat, user);
    if p in t.participants && t.participants[p].leftAt.None? {
      assert p.0 == chat && p.1 == user;
    }
  }

  /** No two chats have the same two members. */
  ghost predicate PairsUnique(t: Tables) {
    forall c, d, a, b :: c in t.chats && d in t.chats && a != b && Members(t, c) == {a, b} == Members(t, d) ==> c == d
  }

  lemma WithChatMembers(t: Tables, chat: ChatId, at: Time, users: set<UserId>)
    requires ForeignKeys(t) && chat !in t.chats
    ensures Members(WithChat(t, chat, at, users), chat) == users
    ensures forall c :: c != chat ==> Members(WithChat(t, chat, at, users), c) == Members(t, c)
  {
    var t' := WithChat(t, chat, at, users);
    forall u | u in users ensures u in Members(t', chat) {
      assert (chat, u) in Seats(chat, users) && (chat, u) in t'.participants;
    }
    forall c | c != chat ensures Members(t', c) == Members(t, c) {
      forall u | u in Members(t, c) ensures u in Members(t', c) {
        assert (c, u) in t'.participants;
      }
    }
  }

  ghost predicate HasPair(t: Tables, a: UserId, b: UserId) {
    exists c :: c in t.chats && Members(t, c) == {a, b}
  }

  ghost predicate Sees(t: Tables, page: seq<ChatId>, other: UserId) {
    exists c :: c in page && other in Members(t, c)
  }

  lemma ImageOfPair(canon: Canon, a: UserId, b: UserId)
    requires canon(a) == a
    ensures Image(canon, {a} + Elements([b])) == {a, canon(b)}
    ensures OneSpelling(canon, {a} + Elements([b])) <==> a == b || a != canon(b)
  {
    var users := {a} + Elements([b]);
    assert users == {a, b};
    assert a in users && b in users;
    assert canon(a) in Image(canon, users) && canon(b) in Image(canon, users);
  }

  /** What a call for one other user does when nothing is wrong with its arguments. */
  lemma CreateForOne(t: Tables, canon: Canon, a: UserId, b: UserId, page: seq<ChatId>, chat: ChatId, now: Time)
    requires canon(a) == a && a in t.users && canon(b) in t.users && a != canon(b) && now != 0 && chat !in t.chats
    ensures var r := Create(t, canon, a, [b], page, chat, now);
            && r.Ok? && r.value.0 == (if Sees(t, page, b) then t else WithChat(t, chat, now, {a, canon(b)}))
            && (Sees(t, page, b) ==> r.value.1 in page && b in Members(t, r.value.1))
  {
    FindExistingFinds(t, page, b);
    ImageOfPair(canon, a, b);
    assert [b][0] == b;
  }

  /** CreateChat succeeds exactly for a request that names somebody, not just the creator, and whose
      users are all known, if there is a chat to return or one can be inserted. It returns a chat that
      it sees with the one other user and changes nothing, or inserts one with exactly the named users. */
  lemma CreateSucceedsExactly(t: Tables, canon: Canon, creator: UserId, others: seq<UserId>, page: seq<ChatId>, chat: ChatId, now: Time)
    requires ForeignKeys(t)
    ensures var r := Create(t, canon, creator, others, page, chat, now);
            var finds := |others| == 1 && Sees(t, page, others[0]);
            && (r.Ok? <==> && others != [] && others != [creator]
                           && canon(creator) in t.users && (forall u :: u in others ==> canon(u) in t.users)
                           && (finds || (now != 0 && chat !in t.chats && OneSpelling(canon, {creator} + Elements(others)))))
            && (r.Ok? && finds ==> r.value.0 == t && r.value.1 in page && others[0] in Members(t, r.value.1))
            && (r.Ok? && !finds ==> r.value.1 == chat && Effects.CreatedAt(r.value.0, chat) == Some(now)
                                    && Members(r.value.0, chat) == Image(canon, {creator} + Elements(others)))
  {
    if |others| == 1 {
      FindExistingFinds(t, page, others[0]);
      assert others == [others[0]];
    }
    if chat !in t.chats {
      WithChatMembers(t, chat, now, Image(canon, {creator} + Elements(others)));
    }
  }

  /** A chat with nobody, with oneself only or with an unknown user is refused, whoever asks. */
  lemma RefusedRequests(t: Tables, canon: Canon, creator: UserId, others: seq<UserId>, page: seq<ChatId>, chat: ChatId, now: Time)
    requires others == [] || others == [creator] || canon(creator) !in t.users || exists u :: u in others && canon(u) !in t.users
    ensures Create(t, canon, creator, others, page, chat, now).Err?
  {
  }

  lemma InsertingAPair(t: Tables, chat: ChatId, now: Time, a: UserId, b: UserId)
    requires ForeignKeys(t) && PairsUnique(t) && chat !in t.chats && a != b
    ensures PairsUnique(WithChat(t, chat, now, {a, b})) <==> !HasPair(t, a, b)
  {
    var t' := WithChat(t, chat, now, {a, b});
    WithChatMembers(t, chat, now, {a, b});
    OneMorePair(t, t', chat, a, b);
  }

  lemma OneMorePair(t: Tables, t': Tables, chat: ChatId, a: UserId, b: UserId)
    requires PairsUnique(t) && chat !in t.chats && a != b && t'.chats.Keys == t.chats.Keys + {chat}
    requires Members(t', chat) == {a, b} && forall c :: c != chat ==> Members(t', c) == Members(t, c)
    ensures PairsUnique(t') <==> !HasPair(t, a, b)
  {
    if c :| c in t.chats && Members(t, c) == {a, b} {
      assert c in t'.chats && chat in t'.chats && c != chat;
      assert Members(t', c) == {a, b} == Members(t', chat);
    } else {
      forall c, d, x, y | c in t'.chats && d in t'.chats && x != y && Members(t', c) == {x, y} == Members(t', d) ensures c == d {
        assert c in t.chats ==> Members(t, c) != {a, b};
        assert d in t.chats ==> Members(t, d) != {a, b};
      }
    }
  }

  /** A call that names one other user keeps pairs unique exactly when the search sees a chat with
      that text whenever the pair already has one. */
  lemma CreateKeepsPairsUniqueExactly(t: Tables, canon: Canon, a: UserId, b: UserId, page: seq<ChatId>, chat: ChatId, now: Time)
    requires ForeignKeys(t) && PairsUnique(t)
    requires canon(a) == a && a in t.users && canon(b) in t.users && a != canon(b) && now != 0 && chat !in t.chats
    ensures Create(t, canon, a, [b], page, chat, now).Ok?
    ensures PairsUnique(Create(t, canon, a, [b], page, chat, now).value.0) <==> (HasPair(t, a, canon(b)) ==> Sees(t, page, b))
  {
    CreateForOne(t, canon, a, b, page, chat, now);
    InsertingAPair(t, chat, now, a, canon(b));
  }

  /** A caller in at most 100 chats sees a chat with the other user exactly when they share one and the
      request spells the id as the database does. */
  lemma SeesExactly(t: Tables, canon: Canon, a: UserId, b: UserId, page: seq<ChatId>)
    requires ForeignKeys(t) && IsCanon(canon) && StoredCanonically(t, canon)
    requires IsChatPage(t, a, page) && |ChatsOf(t, a)| <= CHATS_SEARCHED
    ensures Sees(t, page, b) <==> b == canon(b) && exists c :: a in Members(t, c) && canon(b) in Members(t, c)
  {
    WholePage(page, ChatsOf(t, a), RecentFirst(t), CHATS_SEARCHED);
    forall c ensures c in page <==> a in Members(t, c) {
      InChatsOf(t, c, a);
      assert c in page <==> c in Elements(page);
    }
    forall c | b in Members(t, c) ensures b == canon(b) {
      assert (c, b) in t.participants;
    }
  }

  /** Once two users share a chat and the caller is in at most 100, asking for a chat between them from
      either side returns a chat with both of them and inserts nothing, exactly when the request spells
      the other id as the database does. Otherwise it inserts a second chat. */
  lemma SharedChatIsFoundExactly(t: Tables, canon: Canon, a: UserId, b: UserId, shared: ChatId, page: seq<ChatId>, chat: ChatId, now: Time)
    requires ForeignKeys(t) && IsCanon(canon) && StoredCanonically(t, canon)
    requires canon(a) == a && a in t.users && canon(b) in t.users && a != canon(b) && now != 0 && chat !in t.chats
    requires a in Members(t, shared) && canon(b) in Members(t, shared)
    requires IsChatPage(t, a, page) && |ChatsOf(t, a)| <= CHATS_SEARCHED
    ensures var r := Create(t, canon, a, [b], page, chat, now);
            && r.Ok?
            && (b == canon(b) ==> r.value.0 == t && {a, b} <= Members(t, r.value.1))
            && (b != canon(b) ==> r.value.0 == WithChat(t, chat, now, {a, canon(b)}))
  {
    SeesExactly(t, canon, a, b, page);
    CreateForOne(t, canon, a, b, page, chat, now);
    if b == canon(b) {
      var found := Create(t, canon, a, [b], page, chat, now).value.1;
      assert found in Elements(page);
      InChatsOf(t, found, a);
    }
  }

  lemma PairIsShared(t: Tables, a: UserId, b: UserId)
    requires HasPair(t, a, b)
    ensures exists c :: a in Members(t, c) && b in Members(t, c)
  {
    var c :| c in t.chats && Members(t, c) == {a, b};
    assert a in Members(t, c) && b in Members(t, c);
  }

  /** With a caller in at most 100 chats, a call for one other user keeps pairs unique exactly when the
      pair has no chat yet or the request spells the id as the database does. */
  lemma SpellingDecides(t: Tables, canon: Canon, a: UserId, b: UserId, page: seq<ChatId>, chat: ChatId, now: Time)
    requires ForeignKeys(t) && PairsUnique(t) && IsCanon(canon) && StoredCanonically(t, canon)
    requires canon(a) == a && a in t.users && canon(b) in t.users && a != canon(b) && now != 0 && chat !in t.chats
    requires IsChatPage(t, a, page) && |ChatsOf(t, a)| <= CHATS_SEARCHED
    ensures Create(t, canon, a, [b], page, chat, now).Ok?
    ensures PairsUnique(Create(t, canon, a, [b], page, chat, now).value.0) <==> (HasPair(t, a, canon(b)) ==> b == canon(b))
  {
    CreateKeepsPairsUniqueExactly(t, canon, a, b, page, chat, now);
    SeesExactly(t, canon, a, b, page);
    if HasPair(t, a, canon(b)) {
      PairIsShared(t, a, canon(b));
    }
  }

  /** Naming the other user twice skips the search: the pair gets a second chat whenever it has one. */
  lemma NamedTwiceSkipsTheSearch(t: Tables, canon: Canon, a: UserId, b: UserId, page: seq<ChatId>, chat: ChatId, now: Time)
    requires ForeignKeys(t) && PairsUnique(t) && canon(a) == a && canon(b) == b && a in t.users && b in t.users && a != b && now != 0 && chat !in t.chats
    ensures var r := Create(t, canon, a, [b, b], page, chat, now);
            r.Ok? && (PairsUnique(r.value.0) <==> !HasPair(t, a, b))
  {
    CreateNamedTwice(t, canon, a, b, page, chat, now);
    InsertingAPair(t, chat, now, a, b);
  }

  lemma CreateNamedTwice(t: Tables, canon: Canon, a: UserId, b: UserId, page: seq<ChatId>, chat: ChatId, now: Time)
    requires canon(a) == a && canon(b) == b && a in t.users && b in t.users && a != b && now != 0 && chat !in t.chats
    ensures Create(t, canon, a, [b, b], page, chat, now) == Ok((WithChat(t, chat, now, {a, b}), chat))
  {
    var others := [b, b];
    assert {a} + Elements(others) == {a, b} == {a} + Elements([b]);
    ImageOfPair(canon, a, b);
  }

  lemma DeletingKeepsMembers(t: Tables, chat: ChatId)
    ensures var t' := DeleteChat(t, chat);
            t'.chats.Keys <= t.chats.Keys && forall c :: c in t'.chats ==> Members(t', c) == Members(t, c)
  {
    var t' := DeleteChat(t, chat);
    forall c | c in t'.chats ensures Members(t', c) == Members(t, c) {
      forall u | u in Members(t, c) ensures u in Members(t', c) {
        assert (c, u) in t'.participants;
      }
    }
  }

  lemma EffectKeepsParticipants(s: System, step: Step, t': Tables)
    requires Enabled(s, step) && Effect(s, step, t') && !step.CreateChat? && !step.FinishDeleteChat?
    ensures t'.participants == s.tables.participants && t'.chats.Keys == s.tables.chats.Keys
  {
  }

  lemma OtherKeepsMembers(s: System, step: Step)
    requires ForeignKeys(s.tables) && Enabled(s, step) && !step.CreateChat?
    ensures var t, t' := s.tables, Next(s, step).tables;
            t'.chats.Keys <= t.chats.Keys && forall c :: c in t'.chats ==> Members(t', c) == Members(t, c)
  {
    if step.FinishDeleteChat? {
      OneStatement(DeleteChatRow(s.calls[step.call].chat), s.tables);
      DeletingKeepsMembers(s.tables, s.calls[step.call].chat);
    } else {
      StepEffect(s, step);
      EffectKeepsParticipants(s, step, Next(s, step).tables);
    }
  }

  /** A chat that CreateChat inserts has exactly the users that are named as members, so at least two
      exactly when somebody other than the creator is named. */
  lemma NewChatHasTwoMembersExactly(t: Tables, canon: Canon, creator: UserId, others: seq<UserId>, page: seq<ChatId>, chat: ChatId, now: Time)
    requires ForeignKeys(t) && chat !in t.chats
    requires var r := Create(t, canon, creator, others, page, chat, now); r.Ok? && chat in r.value.0.chats
    ensures var members := Members(Create(t, canon, creator, others, page, chat, now).value.0, chat);
            && members == Image(canon, {creator} + Elements(others))
            && (|members| >= 2 <==> exists u :: u in others && u != creator)
  {
    var named := {creator} + Elements(others);
    WithChatMembers(t, chat, now, Image(canon, named));
    ImageSize(canon, named);
    TwoExactly(creator, others);
  }

  lemma TwoExactly<K>(first: K, others: seq<K>)
    ensures |{first} + Elements(others)| >= 2 <==> exists u :: u in others && u != first
  {
    var members := {first} + Elements(others);
    if u :| u in others && u != first {
      assert members == {first, u} + (members - {first, u});
      assert |members| == |{first, u}| + |members - {first, u}|;
    } else {
      assert members == {first};
    }
  }

  /** Naming the creator twice gets past the check for a chat with oneself. */
  lemma CreatorNamedTwiceIsAlone(t: Tables, canon: Canon, a: UserId, page: seq<ChatId>, chat: ChatId, now: Time)
    requires ForeignKeys(t) && canon(a) == a && a in t.users && chat !in t.chats && now != 0
    ensures var r := Create(t, canon, a, [a, a], page, chat, now);
            r.Ok? && Members(r.value.0, chat) == {a}
  {
    var named := {a} + Elements([a, a]);
    assert named == {a};
    ImageOfCanonical(canon, named);
    WithChatMembers(t, chat, now, {a});
  }

  function GroupId(i: nat): ChatId {
    ChatId(seq(i, k => 'g'))
  }

  const PAIR := ChatId("p")

  function Groups(n: nat): (r: set<ChatId>)
    ensures forall c :: c in r <==> exists i :: 1 <= i <= n && c == GroupId(i)
  {
    set i | 1 <= i <= n :: GroupId(i)
  }

  lemma GroupIdsDiffer(i: nat, j: nat)
    ensures GroupId(i) == GroupId(j) <==> i == j
    ensures i > 0 ==> GroupId(i) != PAIR
  {
    assert |GroupId(i).text| == i && |GroupId(j).text| == j;
    assert i > 0 ==> GroupId(i).text[0] == 'g' && PAIR.text[0] == 'p';
  }

  /** A store in which a has a chat with b, and n chats with the two others of a trio. */
  ghost predicate IsCrowd(t: Tables, n: nat, a: UserId, b: UserId, trio: set<UserId>) {
    && StoreInv(t) && {b} + trio <= t.users.Keys
    && t.chats.Keys == {PAIR} + Groups(n)
    && Members(t, PAIR) == {a, b}
    && (forall c :: c in Groups(n) ==> Members(t, c) == trio)
    && (forall c :: c in t.chats ==> t.chats[c].lastTimestamp.None?)
  }

  lemma GroupIsNew(n: nat)
    ensures GroupId(n + 1) != PAIR && GroupId(n + 1) !in Groups(n)
    ensures Groups(n + 1) == Groups(n) + {GroupId(n + 1)}
  {
    forall i | 1 <= i <= n ensures GroupId(i) != GroupId(n + 1) { GroupIdsDiffer(i, n + 1); }
    GroupIdsDiffer(n + 1, n + 1);
  }

  lemma OneMoreChat(t: Tables, chat: ChatId, users: set<UserId>) returns (t': Tables)
    requires StoreInv(t) && chat !in t.chats && users <= t.users.Keys
    ensures StoreInv(t') && t'.users == t.users && t'.chats == t.chats[chat := ChatRow(1, None, None)]
    ensures Members(t', chat) == users && forall c :: c != chat ==> Members(t', c) == Members(t, c)
  {
    WithChatKeepsStore(t, chat, 1, users);
    WithChatMembers(t, chat, 1, users);
    t' := WithChat(t, chat, 1, users);
  }

  lemma ASmallCrowd(a: UserId, b: UserId, trio: set<UserId>) returns (t: Tables)
    requires a in trio
    ensures IsCrowd(t, 0, a, b, trio)
  {
    t := OneMoreChat(EMPTY.(users := map u | u in {b} + trio :: PublicKey(1)), PAIR, {a, b});
    assert Groups(0) == {};
  }

  lemma ALargerCrowd(t: Tables, n: nat, a: UserId, b: UserId, trio: set<UserId>) returns (t': Tables)
    requires IsCrowd(t, n, a, b, trio)
    ensures IsCrowd(t', n + 1, a, b, trio)
  {
    GroupIsNew(n);
    t' := OneMoreChat(t, GroupId(n + 1), trio);
    GrownCrowd(t, t', n, a, b, trio, GroupId(n + 1));
  }

  lemma GrownCrowd(t: Tables, t': Tables, n: nat, a: UserId, b: UserId, trio: set<UserId>, chat: ChatId)
    requires IsCrowd(t, n, a, b, trio) && StoreInv(t') && t'.users == t.users && t'.chats == t.chats[chat := ChatRow(1, None, None)]
    requires Groups(n + 1) == Groups(n) + {chat} && chat != PAIR && chat !in Groups(n)
    requires Members(t', chat) == trio && forall c :: c != chat ==> Members(t', c) == Members(t, c)
    ensures IsCrowd(t', n + 1, a, b, trio)
  {
  }

  lemma {:induction false} ACrowd(n: nat, a: UserId, b: UserId, trio: set<UserId>) returns (t: Tables)
    requires a in trio
    ensures IsCrowd(t, n, a, b, trio)
  {
    if n == 0 {
      t := ASmallCrowd(a, b, trio);
    } else {
      t := ACrowd(n - 1, a, b, trio);
      t := ALargerCrowd(t, n - 1, a, b, trio);
    }
  }

  function GroupPage(n: nat): seq<ChatId> {
    seq(n, i requires 0 <= i => GroupId(i + 1))
  }

  lemma GroupPageHasAll(n: nat)
    ensures Distinct(GroupPage(n)) && Elements(GroupPage(n)) == Groups(n) && |Groups(n)| == n
  {
    forall i, j | 0 <= i < j < n ensures GroupPage(n)[i] != GroupPage(n)[j] {
      GroupIdsDiffer(i + 1, j + 1);
    }
    forall c | c in Groups(n) ensures c in GroupPage(n) {
      var i :| 1 <= i <= n && c == GroupId(i);
      assert GroupPage(n)[i - 1] == c;
    }
    assert Elements(GroupPage(n)) == Groups(n);
    DistinctSize(GroupPage(n));
  }

  lemma CrowdPairsAreUnique(t: Tables, n: nat, a: UserId, b: UserId, trio: set<UserId>)
    requires IsCrowd(t, n, a, b, trio) && |trio| == 3
    ensures PairsUnique(t)
  {
    forall c, x, y | c in Groups(n) && x != y ensures Members(t, c) != {x, y} {
      assert |{x, y}| == 2;
    }
  }

  lemma ChatsInCrowd(t: Tables, n: nat, a: UserId, b: UserId, trio: set<UserId>)
    requires IsCrowd(t, n, a, b, trio) && a in trio
    ensures ChatsOf(t, a) == {PAIR} + Groups(n) && PAIR !in Groups(n)
  {
    forall i | 1 <= i <= n ensures GroupId(i) != PAIR { GroupIdsDiffer(i, i); }
    forall c | c in t.chats ensures c in ChatsOf(t, a) {
      InChatsOf(t, c, a);
    }
  }

  /** The newest 100 of 101 chats need not include the one that the two users share. */
  lemma CrowdPage(t: Tables, a: UserId, b: UserId, trio: set<UserId>)
    requires IsCrowd(t, CHATS_SEARCHED, a, b, trio) && a in trio && b !in trio
    ensures IsChatPage(t, a, GroupPage(CHATS_SEARCHED)) && |ChatsOf(t, a)| == CHATS_SEARCHED + 1
    ensures !Sees(t, GroupPage(CHATS_SEARCHED), b)
  {
    var page, rows := GroupPage(CHATS_SEARCHED), ChatsOf(t, a);
    GroupPageHasAll(CHATS_SEARCHED);
    ChatsInCrowd(t, CHATS_SEARCHED, a, b, trio);
    assert forall c :: Recency(t, c).None?;
    AnyPageOfTies(page, rows, RecentFirst(t), CHATS_SEARCHED);
    forall c | c in page ensures b !in Members(t, c) {
      assert c in Elements(page);
    }
  }

  lemma CrowdLosesAPair(t: Tables, canon: Canon, a: UserId, b: UserId, trio: set<UserId>, page: seq<ChatId>, chat: ChatId)
    requires IsCrowd(t, CHATS_SEARCHED, a, b, trio) && a in trio && b !in trio && PairsUnique(t) && !Sees(t, page, b)
    requires chat !in t.chats && canon(a) == a && canon(b) == b
    ensures var r := Create(t, canon, a, [b], page, chat, 1); r.Ok? && !PairsUnique(r.value.0)
  {
    CreateKeepsPairsUniqueExactly(t, canon, a, b, page, chat, 1);
  }

  /** With a caller in 101 chats the search can miss the pair's chat, and the call inserts a second chat for the pair. */
  lemma SearchCanMissAPair(canon: Canon, a: UserId, b: UserId, trio: set<UserId>) returns (t: Tables, page: seq<ChatId>, chat: ChatId)
    requires a in trio && b !in trio && |trio| == 3 && canon(a) == a && canon(b) == b
    ensures StoreInv(t) && PairsUnique(t) && IsChatPage(t, a, page) && |ChatsOf(t, a)| == CHATS_SEARCHED + 1
    ensures var r := Create(t, canon, a, [b], page, chat, 1); r.Ok? && !PairsUnique(r.value.0)
  {
    t := ACrowd(CHATS_SEARCHED, a, b, trio);
    page, chat := GroupPage(CHATS_SEARCHED), GroupId(CHATS_SEARCHED + 1);
    GroupIsNew(CHATS_SEARCHED);
    CrowdPairsAreUnique(t, CHATS_SEARCHED, a, b, trio);
    CrowdPage(t, a, b, trio);
    CrowdLosesAPair(t, canon, a, b, trio, page, chat);
  }
}

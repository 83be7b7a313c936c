/** Draining the pending messages of a user by repeated GetUndelivered calls. */
module Delivery {
  import opened Wrappers
  import opened SymbolicCrypto
  import opened Sequences
  import opened Tables
  import opened Queries
  import opened Pages
  import Effects

  const MAX_LIMIT: nat := 100

  function Min(a: nat, b: nat): nat {
    if a < b then a else b
  }

  function At(t: Tables, id: MessageId): Time {
    if id in t.messages then t.messages[id].createdAt else 0
  }

  /** ORDER BY m.created_at ASC. */
  function OlderFirst(t: Tables): (MessageId, MessageId) -> bool {
    (a, b) => At(t, a) <= At(t, b)
  }

  /** The rows of FindUndelivered: with a cursor only messages strictly newer than the cursor's,
      and none at all when the cursor's message does not exist. */
  function PendingAfter(t: Tables, user: UserId, after: Option<MessageId>): set<MessageId> {
    match after
    case None => Undelivered(t, user)
    case Some(id) =>
      if id !in t.messages then {}
      else set m | m in Undelivered(t, user) && At(t, m) > At(t, id)
  }

  /** The tables after MarkDelivered for every message of the page, each at its own time, None if
      one of them throws. */
  function MarkAll(t: Tables, user: UserId, page: seq<MessageId>, nows: seq<Time>): Option<Tables>
    requires |nows| == |page|
    decreases |page|
  {
    if page == [] then Some(t)
    else match Exec(UpsertDelivered(page[0], user, nows[0]), t)
      case None => None
      case Some(t1) => MarkAll(t1, user, page[1..], nows[1..])
  }

  /** One GetUndelivered call from `t` to `t'` that returned `page`. */
  ghost predicate IsCall(t: Tables, user: UserId, limit: nat, after: Option<MessageId>, page: seq<MessageId>, nows: seq<Time>, t': Tables) {
    && IsPage(page, PendingAfter(t, user, after), OlderFirst(t), Min(MAX_LIMIT, limit))
    && |nows| == |page| && MarkAll(t, user, page, nows) == Some(t')
  }

  /** Only receipts change, so messages and memberships are as before. */
  ghost predicate SameButReceipts(t: Tables, t': Tables) {
    t' == t.(receipts := t'.receipts)
  }

  /** Marking a page succeeds and removes exactly the page from what is pending for the user; what
      is pending for anyone else stays. */
  lemma {:induction false} MarkAllDelivers(t: Tables, user: UserId, page: seq<MessageId>, nows: seq<Time>)
    requires ForeignKeys(t) && Elements(page) <= Undelivered(t, user) && Distinct(page) && |nows| == |page|
    ensures MarkAll(t, user, page, nows).Some?
    ensures Marked(t, user, page, MarkAll(t, user, page, nows).value)
    decreases |page|
  {
    if page != [] {
      var id := page[0];
      assert id in Elements(page);
      MarkOne(t, user, id, nows[0]);
      DistinctCons(page);
      MarkAllDelivers(Exec(UpsertDelivered(id, user, nows[0]), t).value, user, page[1..], nows[1..]);
    }
  }

  /** What marking the page has done. */
  ghost predicate Marked(t: Tables, user: UserId, page: seq<MessageId>, t': Tables) {
    && SameButReceipts(t, t') && ForeignKeys(t')
    && Undelivered(t', user) == Undelivered(t, user) - Elements(page)
    && forall other :: other != user ==> Undelivered(t', other) == Undelivered(t, other)
  }

  lemma MarkOne(t: Tables, user: UserId, id: MessageId, now: Time)
    requires ForeignKeys(t) && id in Undelivered(t, user)
    ensures Exec(UpsertDelivered(id, user, now), t).Some?
    ensures var t1 := Exec(UpsertDelivered(id, user, now), t).value;
            && SameButReceipts(t, t1) && ForeignKeys(t1)
            && Undelivered(t1, user) == Undelivered(t, user) - {id}
            && forall other :: other != user ==> Undelivered(t1, other) == Undelivered(t, other)
  {
    assert (t.messages[id].chat, user) in t.participants;
    ExecKeepsForeignKeys(UpsertDelivered(id, user, now), t);
    DeliveredToOne(t, user, id, now);
    LessUndelivered(t, Exec(UpsertDelivered(id, user, now), t).value, user, id);
  }

  lemma DeliveredToOne(t: Tables, user: UserId, id: MessageId, now: Time)
    requires id in t.messages && user in t.users
    ensures var t1 := Exec(UpsertDelivered(id, user, now), t);
            && t1.Some? && SameButReceipts(t, t1.value)
            && forall m, u :: Delivered(t1.value, m, u) <==> Delivered(t, m, u) || (u == user && m == id)
  {
  }

  lemma LessUndelivered(t: Tables, t1: Tables, user: UserId, id: MessageId)
    requires SameButReceipts(t, t1)
    requires forall m, u :: Delivered(t1, m, u) <==> Delivered(t, m, u) || (u == user && m == id)
    ensures Undelivered(t1, user) == Undelivered(t, user) - {id}
    ensures forall other :: other != user ==> Undelivered(t1, other) == Undelivered(t, other)
  {
  }

  /** Each message of the page has its own time of delivery. */
  lemma {:induction false} MarkAllTimes(t: Tables, user: UserId, page: seq<MessageId>, nows: seq<Time>, i: nat)
    requires Distinct(page) && i < |page| == |nows| && MarkAll(t, user, page, nows).Some?
    requires forall k :: 0 <= k < |page| ==> !Delivered(t, page[k], user)
    ensures Effects.DeliveredAt(MarkAll(t, user, page, nows).value, page[i], user) == Some(nows[i])
    decreases |page|
  {
    var t1 := Exec(UpsertDelivered(page[0], user, nows[0]), t).value;
    Effects.DeliveredRow(t, page[0], user, nows[0]);
    DistinctCons(page);
    forall k | 0 <= k < |page[1..]| ensures !Delivered(t1, page[1..][k], user) {
      assert page[1..][k] == page[k + 1] && page[1..][k] != page[0];
      assert Effects.SameAt(t.receipts, t1.receipts, (page[k + 1], user));
    }
    if i > 0 {
      MarkAllTimes(t1, user, page[1..], nows[1..], i - 1);
    } else {
      TimeStays(t1, user, page[1..], nows[1..], page[0]);
    }
  }

  lemma {:induction false} TimeStays(t: Tables, user: UserId, page: seq<MessageId>, nows: seq<Time>, id: MessageId)
    requires |page| == |nows| && MarkAll(t, user, page, nows).Some? && Delivered(t, id, user)
    ensures Effects.DeliveredAt(MarkAll(t, user, page, nows).value, id, user) == Effects.DeliveredAt(t, id, user)
    decreases |page|
  {
    if page != [] {
      var t1 := Exec(UpsertDelivered(page[0], user, nows[0]), t).value;
      Effects.DeliveredRow(t, page[0], user, nows[0]);
      assert id != page[0] ==> Effects.SameAt(t.receipts, t1.receipts, (id, user));
      TimeStays(t1, user, page[1..], nows[1..], id);
    }
  }

  /** Which messages are pending: those of others in chats where the user has a seat that have not been
      delivered to the user, and after a cursor only those newer than an existing message. */
  lemma PendingExactly(t: Tables, user: UserId, after: Option<MessageId>, id: MessageId)
    ensures id in PendingAfter(t, user, after)
            <==> && id in t.messages && IsParticipant(t, t.messages[id].chat, user) && t.messages[id].sender != user
                 && user !in DeliveredTo(t, id)
                 && (after.Some? ==> after.value in t.messages && t.messages[id].createdAt > t.messages[after.value].createdAt)
  {
    Effects.InReaders(t, id, user);
  }

  /** A page has at most 100 messages and at most the limit, fewer only if nothing else is pending; it is
      in the order of creation, and nothing older is left out. */
  lemma PageIsOldestFirst(t: Tables, user: UserId, limit: nat, after: Option<MessageId>, page: seq<MessageId>)
    requires IsPage(page, PendingAfter(t, user, after), OlderFirst(t), Min(MAX_LIMIT, limit))
    ensures |page| <= 100 && |page| <= limit && (|page| == 100 || |page| == limit || Elements(page) == PendingAfter(t, user, after))
    ensures forall id :: id in page ==> id in t.messages
    ensures forall i, j :: 0 <= i < j < |page| ==> t.messages[page[i]].createdAt <= t.messages[page[j]].createdAt
    ensures forall id, other :: id in page && other in PendingAfter(t, user, after) && other !in page ==>
              other in t.messages && t.messages[id].createdAt <= t.messages[other].createdAt
  {
    forall id | id in PendingAfter(t, user, after) ensures id in t.messages {
      PendingExactly(t, user, after, id);
    }
    forall id | id in page ensures id in PendingAfter(t, user, after) {
      assert id in Elements(page);
    }
    forall i, j | 0 <= i < j < |page| ensures At(t, page[i]) <= At(t, page[j]) {
      assert OlderFirst(t)(page[i], page[j]);
    }
    forall id, other | id in page && other in PendingAfter(t, user, after) && other !in page ensures At(t, id) <= At(t, other) {
      assert OlderFirst(t)(id, other);
    }
    if |page| < Min(MAX_LIMIT, limit) {
      WholePage(page, PendingAfter(t, user, after), OlderFirst(t), Min(MAX_LIMIT, limit));
    }
  }

  /** The first n calls without a cursor: call k turns ts[k] into ts[k+1] and returns pages[k]. */
  ghost predicate Drains(ts: seq<Tables>, user: UserId, limit: nat, pages: seq<seq<MessageId>>, nows: seq<seq<Time>>, n: nat) {
    && |ts| == |pages| + 1 == |nows| + 1 && n <= |pages|
    && forall k {:trigger pages[k]} :: 0 <= k < n ==> IsCall(ts[k], user, limit, None, pages[k], nows[k], ts[k + 1])
  }

  ghost predicate IsDrain(ts: seq<Tables>, user: UserId, limit: nat, pages: seq<seq<MessageId>>, nows: seq<seq<Time>>) {
    Drains(ts, user, limit, pages, nows, |pages|)
  }

  function Flatten<K>(pages: seq<seq<K>>): seq<K> {
    if pages == [] then [] else Flatten(pages[..|pages| - 1]) + pages[|pages| - 1]
  }

  lemma FlattenTo<K>(pages: seq<seq<K>>, k: nat)
    requires 0 < k <= |pages|
    ensures Flatten(pages[..k]) == Flatten(pages[..k - 1]) + pages[k - 1]
  {
    assert pages[..k][..k - 1] == pages[..k - 1];
  }

  /** What some calls that returned `got` have left, in terms of the start alone: together they
      returned what one query with limit `n` could have returned, and exactly that is marked. */
  ghost predicate DrainedTo(start: Tables, t: Tables, user: UserId, got: seq<MessageId>, n: nat) {
    && IsPage(got, Undelivered(start, user), OlderFirst(start), n)
    && SameButReceipts(start, t) && ForeignKeys(t)
    && Undelivered(t, user) == Undelivered(start, user) - Elements(got)
  }

  lemma CallDelivers(t: Tables, user: UserId, limit: nat, page: seq<MessageId>, nows: seq<Time>, t': Tables)
    requires ForeignKeys(t) && IsCall(t, user, limit, None, page, nows, t')
    ensures SameButReceipts(t, t') && ForeignKeys(t')
    ensures Undelivered(t', user) == Undelivered(t, user) - Elements(page)
  {
    MarkAllDelivers(t, user, page, nows);
  }

  lemma SameOrder(t: Tables, t': Tables, page: seq<MessageId>, rows: set<MessageId>, limit: nat)
    requires SameButReceipts(t, t') && IsPage(page, rows, OlderFirst(t'), limit)
    ensures IsPage(page, rows, OlderFirst(t), limit)
  {
    assert forall a, b :: OlderFirst(t)(a, b) == OlderFirst(t')(a, b);
  }

  /** One call more. */
  lemma DrainOneMore(start: Tables, t: Tables, user: UserId, got: seq<MessageId>, n: nat, limit: nat, page: seq<MessageId>, nows: seq<Time>, t': Tables)
    requires DrainedTo(start, t, user, got, n) && IsCall(t, user, limit, None, page, nows, t')
    ensures DrainedTo(start, t', user, got + page, n + Min(MAX_LIMIT, limit))
  {
    var cut, pending := Min(MAX_LIMIT, limit), Undelivered(start, user);
    CallDelivers(t, user, limit, page, nows, t');
    SameOrder(start, t, page, pending - Elements(got), cut);
    PageConcat(got, page, pending, OlderFirst(start), n, cut);
  }

  lemma NothingDrained(start: Tables, user: UserId)
    requires ForeignKeys(start)
    ensures DrainedTo(start, start, user, [], 0)
  {
    assert Undelivered(start, user) - Elements<MessageId>([]) == Undelivered(start, user);
  }

  /** What k calls may return together. */
  function Total(k: nat, cut: nat): nat {
    if k == 0 then 0 else Total(k - 1, cut) + cut
  }

  lemma {:induction false} TotalIsProduct(k: nat, cut: nat)
    ensures Total(k, cut) == k * cut
  {
    if k > 0 {
      TotalIsProduct(k - 1, cut);
      assert k * cut == (k - 1) * cut + cut;
    }
  }

  /** k calls together return what a single query with k times the limit could return: pending
      messages only, each once, oldest first across the calls. Exactly these are then marked. */
  lemma {:induction false} DrainIsOnePage(ts: seq<Tables>, user: UserId, limit: nat, pages: seq<seq<MessageId>>, nows: seq<seq<Time>>, k: nat)
    requires Drains(ts, user, limit, pages, nows, k) && ForeignKeys(ts[0])
    ensures DrainedTo(ts[0], ts[k], user, Flatten(pages[..k]), Total(k, Min(MAX_LIMIT, limit)))
  {
    var cut := Min(MAX_LIMIT, limit);
    if k == 0 {
      NothingDrained(ts[0], user);
    } else {
      DrainIsOnePage(ts, user, limit, pages, nows, k - 1);
      FlattenTo(pages, k);
      DrainOneMore(ts[0], ts[k - 1], user, Flatten(pages[..k - 1]), Total(k - 1, cut), limit, pages[k - 1], nows[k - 1], ts[k]);
    }
  }

  /** What "every pending message exactly once, in ceil(n / cut) calls" means. */
  ghost predicate CompleteExactly(pending: set<MessageId>, left: set<MessageId>, got: seq<MessageId>, calls: nat, cut: nat)
    requires cut > 0
  {
    && (calls >= (|pending| + cut - 1) / cut <==> left == {})
    && (left == {} ==> Distinct(got) && Elements(got) == pending)
  }

  /** With a limit of at least one, nothing is left exactly after ceil(n / min(100, limit)) calls,
      and then the calls have returned every one of the n pending messages, each exactly once. */
  lemma DrainIsComplete(ts: seq<Tables>, user: UserId, limit: nat, pages: seq<seq<MessageId>>, nows: seq<seq<Time>>)
    requires IsDrain(ts, user, limit, pages, nows) && ForeignKeys(ts[0]) && limit >= 1
    ensures CompleteExactly(Undelivered(ts[0], user), Undelivered(ts[|pages|], user), Flatten(pages), |pages|, Min(MAX_LIMIT, limit))
  {
    DrainIsOnePage(ts, user, limit, pages, nows, |pages|);
    assert pages[..|pages|] == pages;
    DrainedIsComplete(ts[0], ts[|pages|], user, Flatten(pages), |pages|, Min(MAX_LIMIT, limit));
  }

  lemma DrainedIsComplete(start: Tables, t: Tables, user: UserId, got: seq<MessageId>, calls: nat, cut: nat)
    requires cut > 0 && DrainedTo(start, t, user, got, Total(calls, cut))
    ensures CompleteExactly(Undelivered(start, user), Undelivered(t, user), got, calls, cut)
  {
    PageLeavesNothing(got, Undelivered(start, user), OlderFirst(start), calls, cut);
  }

  /** A page of limit k * cut leaves nothing exactly when k reaches the rounded-up quotient. */
  lemma PageLeavesNothing<K(!new)>(got: seq<K>, rows: set<K>, le: (K, K) -> bool, k: nat, cut: nat)
    requires cut > 0 && IsPage(got, rows, le, Total(k, cut))
    ensures k >= (|rows| + cut - 1) / cut <==> rows - Elements(got) == {}
    ensures rows - Elements(got) == {} ==> Elements(got) == rows
  {
    DistinctSize(got);
    TotalIsProduct(k, cut);
    CeilingDivision(k, |rows|, cut);
    assert |rows - Elements(got)| == |rows| - |got|;
  }

  lemma CeilingDivision(k: nat, n: nat, cut: nat)
    requires cut > 0
    ensures k >= (n + cut - 1) / cut <==> k * cut >= n
  {
    var q, r := (n + cut - 1) / cut, (n + cut - 1) % cut;
    assert n + cut - 1 == q * cut + r;
    if k >= q {
      assert k * cut >= q * cut;
    } else {
      assert (k + 1) * cut <= q * cut;
      assert k * cut + cut == (k + 1) * cut;
    }
  }

  ghost predicate DistinctTimes(t: Tables) {
    forall a, b :: a in t.messages && b in t.messages && a != b ==> At(t, a) != At(t, b)
  }

  /** After calls that returned `got`, passing its last id as the cursor sees the same rows as no
      cursor exactly when no message still pending shares the cursor's timestamp. */
  lemma CursorSeesSameRows(start: Tables, t: Tables, user: UserId, got: seq<MessageId>, n: nat)
    requires DrainedTo(start, t, user, got, n) && got != []
    ensures var last := got[|got| - 1];
            PendingAfter(t, user, Some(last)) == PendingAfter(t, user, None)
            <==> forall m :: m in Undelivered(t, user) ==> At(t, m) != At(t, last)
  {
    var last := got[|got| - 1];
    PendingIsNewer(start, t, user, got, n);
    if PendingAfter(t, user, Some(last)) == PendingAfter(t, user, None) {
      forall m | m in Undelivered(t, user) ensures At(t, m) != At(t, last) {
        assert m in PendingAfter(t, user, Some(last));
      }
    } else {
      var m :| m in Undelivered(t, user) && m !in PendingAfter(t, user, Some(last));
    }
  }

  lemma PendingIsNewer(start: Tables, t: Tables, user: UserId, got: seq<MessageId>, n: nat)
    requires DrainedTo(start, t, user, got, n) && got != []
    ensures got[|got| - 1] in t.messages && got[|got| - 1] !in Undelivered(t, user)
    ensures forall m :: m in Undelivered(t, user) ==> At(t, got[|got| - 1]) <= At(t, m)
  {
    var last := got[|got| - 1];
    assert last in Elements(got);
    forall m | m in Undelivered(t, user) ensures At(t, last) <= At(t, m) {
      assert m !in Elements(got);
      assert OlderFirst(start)(last, m);
    }
  }

  /** The id that a client passes after it has received `got`: the last one, if there is any. */
  function Cursor(got: seq<MessageId>): Option<MessageId> {
    if got == [] then None else Some(got[|got| - 1])
  }

  /** A drain in which each call passes the last id that the calls before it returned. */
  ghost predicate IsCursorDrain(ts: seq<Tables>, user: UserId, limit: nat, pages: seq<seq<MessageId>>, nows: seq<seq<Time>>) {
    && |ts| == |pages| + 1 == |nows| + 1
    && forall k {:trigger pages[k]} :: 0 <= k < |pages| ==> IsCall(ts[k], user, limit, Cursor(Flatten(pages[..k])), pages[k], nows[k], ts[k + 1])
  }

  lemma CursorMakesNoDifference(start: Tables, t: Tables, user: UserId, got: seq<MessageId>, n: nat)
    requires DrainedTo(start, t, user, got, n) && DistinctTimes(start)
    ensures PendingAfter(t, user, Cursor(got)) == PendingAfter(t, user, None)
  {
    if got != [] {
      PendingIsNewer(start, t, user, got, n);
      assert forall m :: At(t, m) == At(start, m);
      CursorSeesSameRows(start, t, user, got, n);
    }
  }

  lemma CursorCallIsPlain(start: Tables, t: Tables, user: UserId, got: seq<MessageId>, n: nat, limit: nat, page: seq<MessageId>, nows: seq<Time>, t': Tables)
    requires DrainedTo(start, t, user, got, n) && DistinctTimes(start)
    requires IsCall(t, user, limit, Cursor(got), page, nows, t')
    ensures IsCall(t, user, limit, None, page, nows, t')
  {
    CursorMakesNoDifference(start, t, user, got, n);
  }

  lemma {:induction false} CursorDrainIsOnePage(ts: seq<Tables>, user: UserId, limit: nat, pages: seq<seq<MessageId>>, nows: seq<seq<Time>>, k: nat)
    requires IsCursorDrain(ts, user, limit, pages, nows) && ForeignKeys(ts[0]) && DistinctTimes(ts[0]) && k <= |pages|
    ensures DrainedTo(ts[0], ts[k], user, Flatten(pages[..k]), Total(k, Min(MAX_LIMIT, limit)))
  {
    if k == 0 {
      NothingDrained(ts[0], user);
    } else {
      CursorDrainIsOnePage(ts, user, limit, pages, nows, k - 1);
      var got, cut := Flatten(pages[..k - 1]), Min(MAX_LIMIT, limit);
      FlattenTo(pages, k);
      CursorCallIsPlain(ts[0], ts[k - 1], user, got, Total(k - 1, cut), limit, pages[k - 1], nows[k - 1], ts[k]);
      DrainOneMore(ts[0], ts[k - 1], user, got, Total(k - 1, cut), limit, pages[k - 1], nows[k - 1], ts[k]);
    }
  }

  /** With distinct timestamps each call of a cursor drain is a call without a cursor. */
  lemma CursorDrainIsDrain(ts: seq<Tables>, user: UserId, limit: nat, pages: seq<seq<MessageId>>, nows: seq<seq<Time>>)
    requires IsCursorDrain(ts, user, limit, pages, nows) && ForeignKeys(ts[0]) && DistinctTimes(ts[0])
    ensures IsDrain(ts, user, limit, pages, nows)
  {
    forall k | 0 <= k < |pages| ensures IsCall(ts[k], user, limit, None, pages[k], nows[k], ts[k + 1]) {
      CursorDrainIsOnePage(ts, user, limit, pages, nows, k);
      CursorCallIsPlain(ts[0], ts[k], user, Flatten(pages[..k]), Total(k, Min(MAX_LIMIT, limit)), limit, pages[k], nows[k], ts[k + 1]);
    }
  }

  /** So a cursor drain also returns every pending message exactly once in ceil(n / cut) calls. */
  lemma CursorDrainIsComplete(ts: seq<Tables>, user: UserId, limit: nat, pages: seq<seq<MessageId>>, nows: seq<seq<Time>>)
    requires IsCursorDrain(ts, user, limit, pages, nows) && ForeignKeys(ts[0]) && DistinctTimes(ts[0]) && limit >= 1
    ensures CompleteExactly(Undelivered(ts[0], user), Undelivered(ts[|pages|], user), Flatten(pages), |pages|, Min(MAX_LIMIT, limit))
  {
    CursorDrainIsDrain(ts, user, limit, pages, nows);
    DrainIsComplete(ts, user, limit, pages, nows);
  }

  lemma SamePage(start: Tables, t: Tables, t': Tables, user: UserId, got: seq<MessageId>, n: nat, limit: nat,
      page: seq<MessageId>, page': seq<MessageId>)
    requires DistinctTimes(start) && DrainedTo(start, t, user, got, n) && DrainedTo(start, t', user, got, n)
    requires IsPage(page, Undelivered(t, user), OlderFirst(t), limit) && IsPage(page', Undelivered(t', user), OlderFirst(t'), limit)
    ensures page == page'
  {
    var rows := Undelivered(start, user) - Elements(got);
    SameOrder(start, t, page, rows, limit);
    SameOrder(start, t', page', rows, limit);
    PageIsUnique(page, page', rows, OlderFirst(start), limit);
  }

  lemma NthPage(ts: seq<Tables>, user: UserId, limit: nat, pages: seq<seq<MessageId>>, nows: seq<seq<Time>>, k: nat)
    requires Drains(ts, user, limit, pages, nows, k + 1) && ForeignKeys(ts[0])
    ensures DrainedTo(ts[0], ts[k], user, Flatten(pages[..k]), Total(k, Min(MAX_LIMIT, limit)))
    ensures IsPage(pages[k], Undelivered(ts[k], user), OlderFirst(ts[k]), Min(MAX_LIMIT, limit))
  {
    DrainIsOnePage(ts, user, limit, pages, nows, k);
    assert IsCall(ts[k], user, limit, None, pages[k], nows[k], ts[k + 1]);
  }

  lemma NthPageIsUnique(ts: seq<Tables>, pages: seq<seq<MessageId>>, nows: seq<seq<Time>>,
      ts': seq<Tables>, pages': seq<seq<MessageId>>, nows': seq<seq<Time>>, user: UserId, limit: nat, k: nat)
    requires Drains(ts, user, limit, pages, nows, k + 1) && Drains(ts', user, limit, pages', nows', k + 1)
    requires ts[0] == ts'[0] && ForeignKeys(ts[0]) && DistinctTimes(ts[0]) && pages[..k] == pages'[..k]
    ensures pages[k] == pages'[k]
  {
    var cut := Min(MAX_LIMIT, limit);
    NthPage(ts, user, limit, pages, nows, k);
    NthPage(ts', user, limit, pages', nows', k);
    SamePage(ts[0], ts[k], ts'[k], user, Flatten(pages[..k]), Total(k, cut), cut, pages[k], pages'[k]);
  }

  lemma {:induction false} DrainPagesAreUnique(ts: seq<Tables>, pages: seq<seq<MessageId>>, nows: seq<seq<Time>>,
      ts': seq<Tables>, pages': seq<seq<MessageId>>, nows': seq<seq<Time>>, user: UserId, limit: nat, k: nat)
    requires IsDrain(ts, user, limit, pages, nows) && IsDrain(ts', user, limit, pages', nows') && k <= |pages| == |pages'|
    requires ts[0] == ts'[0] && ForeignKeys(ts[0]) && DistinctTimes(ts[0])
    ensures pages[..k] == pages'[..k]
  {
    if k > 0 {
      DrainPagesAreUnique(ts, pages, nows, ts', pages', nows', user, limit, k - 1);
      NthPageIsUnique(ts, pages, nows, ts', pages', nows', user, limit, k - 1);
      SamePrefix(pages, pages', k);
    }
  }

  lemma SamePrefix<K>(s: seq<K>, s': seq<K>, k: nat)
    requires 0 < k <= |s| && k <= |s'| && s[..k - 1] == s'[..k - 1] && s[k - 1] == s'[k - 1]
    ensures s[..k] == s'[..k]
  {
    assert s[..k] == s[..k - 1] + [s[k - 1]] && s'[..k] == s'[..k - 1] + [s'[k - 1]];
  }

  /** With distinct timestamps a drain with cursors and a drain without return the same pages. */
  lemma CursorGivesSamePages(ts: seq<Tables>, pages: seq<seq<MessageId>>, nows: seq<seq<Time>>,
      ts': seq<Tables>, pages': seq<seq<MessageId>>, nows': seq<seq<Time>>, user: UserId, limit: nat)
    requires IsDrain(ts, user, limit, pages, nows) && IsCursorDrain(ts', user, limit, pages', nows')
    requires ts[0] == ts'[0] && ForeignKeys(ts[0]) && DistinctTimes(ts[0]) && |pages| == |pages'|
    ensures pages == pages'
  {
    CursorDrainIsDrain(ts', user, limit, pages', nows');
    DrainPagesAreUnique(ts, pages, nows, ts', pages', nows', user, limit, |pages|);
    assert pages[..|pages|] == pages && pages'[..|pages|] == pages';
  }

  lemma TwoTied() returns (t: Tables, user: UserId, first: MessageId, second: MessageId)
    ensures ForeignKeys(t) && first != second && Undelivered(t, user) == {first, second} && At(t, first) == At(t, second)
  {
    var alice, chat := UserId("a"), ChatId("c");
    user, first, second := UserId("b"), MessageId("1"), MessageId("2");
    var m1, m2 := Message(first, chat, alice, Text("x"), "TEXT", 7), Message(second, chat, alice, Text("y"), "TEXT", 7);
    t := Tables(map[alice := PublicKey(1), user := PublicKey(2)], map[chat := ChatRow(1, None, None)],
      map[(chat, alice) := ParticipantRow(None), (chat, user) := ParticipantRow(None)],
      map[first := m1, second := m2], map[], map[]);
    assert alice.text[0] != user.text[0] && first.text[0] != second.text[0];
  }

  /** Two messages of one instant: the first call returns one, and the cursor hides the other. */
  lemma CursorHidesATie() returns (t: Tables, t': Tables, user: UserId, page: seq<MessageId>, nows: seq<Time>)
    ensures ForeignKeys(t) && IsCall(t, user, 1, None, page, nows, t') && page != []
    ensures Undelivered(t', user) != {} && PendingAfter(t', user, Cursor(page)) == {}
  {
    var first, second;
    t, user, first, second := TwoTied();
    t', page, nows := TieIsHidden(t, user, first, second);
  }

  lemma TieIsHidden(t: Tables, user: UserId, first: MessageId, second: MessageId) returns (t': Tables, page: seq<MessageId>, nows: seq<Time>)
    requires ForeignKeys(t) && first != second && Undelivered(t, user) == {first, second} && At(t, first) == At(t, second)
    ensures IsCall(t, user, 1, None, page, nows, t') && page != []
    ensures Undelivered(t', user) != {} && PendingAfter(t', user, Cursor(page)) == {}
  {
    page, nows := [first], [9];
    assert Elements(page) == {first};
    MarkAllDelivers(t, user, page, nows);
    t' := MarkAll(t, user, page, nows).value;
    OneOfTwo(first, second, OlderFirst(t));
  }

  lemma OneOfTwo<K(!new)>(first: K, second: K, le: (K, K) -> bool)
    requires first != second && le(first, second)
    ensures IsPage([first], {first, second}, le, 1)
  {
    assert |{first, second}| == 2;
  }
}

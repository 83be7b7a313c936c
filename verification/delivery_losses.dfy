/** GetUndelivered calls that may fail. A call marks its page message by message and only then
    returns it, so a marking that throws leaves the messages before it marked and not returned. */
module DeliveryLosses {
  import opened Wrappers
  import opened Sequences
  import opened Tables
  import opened Queries
  import opened Pages
  import opened Delivery

  /** One call: the page it fetched, how many of it were marked, and whether the page was returned. */
  datatype Attempt = Attempt(after: Option<MessageId>, page: seq<MessageId>, nows: seq<Time>, marked: nat, answered: bool)

  /** A call that turns `t` into `t'`. Also the last marking may have been committed by a call that
      throws. */
  ghost predicate IsAttempt(t: Tables, user: UserId, limit: nat, a: Attempt, t': Tables) {
    && IsPage(a.page, PendingAfter(t, user, a.after), OlderFirst(t), Min(MAX_LIMIT, limit))
    && a.marked <= |a.page| == |a.nows|
    && (a.answered ==> a.marked == |a.page|)
    && MarkAll(t, user, a.page[..a.marked], a.nows[..a.marked]) == Some(t')
  }

  function Marks(a: Attempt): seq<MessageId> {
    if a.marked <= |a.page| then a.page[..a.marked] else []
  }

  function AllMarks(attempts: seq<Attempt>): seq<seq<MessageId>> {
    seq(|attempts|, i requires 0 <= i < |attempts| => Marks(attempts[i]))
  }

  /** The calls of one user, with whatever cursors, one after the other. */
  ghost predicate AreAttempts(ts: seq<Tables>, user: UserId, limit: nat, attempts: seq<Attempt>) {
    && |ts| == |attempts| + 1
    && forall k {:trigger attempts[k]} :: 0 <= k < |attempts| ==> IsAttempt(ts[k], user, limit, attempts[k], ts[k + 1])
  }

  /** Exactly `done` has been marked since the start, each message once. */
  ghost predicate Settled(start: Tables, t: Tables, user: UserId, done: seq<MessageId>) {
    && ForeignKeys(t) && Distinct(done)
    && Elements(done) <= Undelivered(start, user)
    && Undelivered(t, user) == Undelivered(start, user) - Elements(done)
  }

  predicate Returns(a: Attempt, id: MessageId) {
    a.answered && id in a.page
  }

  predicate Loses(a: Attempt, id: MessageId) {
    !a.answered && id in Marks(a)
  }

  predicate Takes(a: Attempt, id: MessageId) {
    Returns(a, id) || Loses(a, id)
  }

  lemma AttemptMarks(t: Tables, user: UserId, limit: nat, a: Attempt, t': Tables)
    requires ForeignKeys(t) && IsAttempt(t, user, limit, a, t')
    ensures ForeignKeys(t') && Distinct(Marks(a)) && Elements(Marks(a)) <= Undelivered(t, user)
    ensures Undelivered(t', user) == Undelivered(t, user) - Elements(Marks(a))
  {
    var marks := Marks(a);
    forall id | id in marks ensures id in Undelivered(t, user) {
      assert id in Elements(a.page);
    }
    MarkAllDelivers(t, user, marks, a.nows[..a.marked]);
  }

  lemma DistinctAppend<K>(s: seq<K>, s': seq<K>)
    requires Distinct(s) && Distinct(s') && Elements(s) !! Elements(s')
    ensures Distinct(s + s') && Elements(s + s') == Elements(s) + Elements(s')
  {
    forall i, j | 0 <= i < j < |s + s'| ensures (s + s')[i] != (s + s')[j] {
      assert (s + s')[i] in (if i < |s| then Elements(s) else Elements(s'));
      assert (s + s')[j] in (if j < |s| then Elements(s) else Elements(s'));
    }
  }

  lemma SettleMore(start: Tables, t: Tables, t': Tables, user: UserId, done: seq<MessageId>, marks: seq<MessageId>)
    requires Settled(start, t, user, done) && ForeignKeys(t') && Distinct(marks) && Elements(marks) <= Undelivered(t, user)
    requires Undelivered(t', user) == Undelivered(t, user) - Elements(marks)
    ensures Settled(start, t', user, done + marks)
  {
    DistinctAppend(done, marks);
  }

  lemma {:induction false} AttemptsSettle(ts: seq<Tables>, user: UserId, limit: nat, attempts: seq<Attempt>, k: nat)
    requires AreAttempts(ts, user, limit, attempts) && ForeignKeys(ts[0]) && k <= |attempts|
    ensures Settled(ts[0], ts[k], user, Flatten(AllMarks(attempts)[..k]))
  {
    if k > 0 {
      AttemptsSettle(ts, user, limit, attempts, k - 1);
      AttemptMarks(ts[k - 1], user, limit, attempts[k - 1], ts[k]);
      FlattenTo(AllMarks(attempts), k);
      SettleMore(ts[0], ts[k - 1], ts[k], user, Flatten(AllMarks(attempts)[..k - 1]), Marks(attempts[k - 1]));
    }
  }

  lemma {:induction false} InFlatten<K>(pages: seq<seq<K>>, x: K)
    ensures x in Flatten(pages) <==> exists k :: 0 <= k < |pages| && x in pages[k]
  {
    if pages != [] {
      var n := |pages| - 1;
      InFlatten(pages[..n], x);
      assert forall k :: 0 <= k < n ==> pages[..n][k] == pages[k];
    }
  }

  lemma DistinctHalves<K>(s: seq<K>, s': seq<K>)
    requires Distinct(s + s')
    ensures Distinct(s) && forall x :: x in s ==> x !in s'
  {
    forall p, q | 0 <= p < |s| && 0 <= q < |s'| ensures s[p] != s'[q] {
      assert (s + s')[p] != (s + s')[|s| + q];
    }
    assert forall p :: 0 <= p < |s| ==> s[p] == (s + s')[p];
  }

  /** In a list without repetitions no two pages share an element. */
  lemma {:induction false} NotOnALaterPage<K>(pages: seq<seq<K>>, j: nat, k: nat, x: K)
    requires Distinct(Flatten(pages)) && j < k < |pages| && x in pages[j]
    ensures x !in pages[k]
  {
    var n := |pages| - 1;
    DistinctHalves(Flatten(pages[..n]), pages[n]);
    InFlatten(pages[..n], x);
    assert pages[..n][j] == pages[j];
    if k < n {
      NotOnALaterPage(pages[..n], j, k, x);
    }
  }

  /** No message is marked by two of the calls. */
  lemma MarkedOnce(ts: seq<Tables>, user: UserId, limit: nat, attempts: seq<Attempt>, j: nat, k: nat, id: MessageId)
    requires AreAttempts(ts, user, limit, attempts) && ForeignKeys(ts[0]) && j < |attempts| && k < |attempts|
    requires id in Marks(attempts[j]) && id in Marks(attempts[k])
    ensures j == k
  {
    var n, pages := |attempts|, AllMarks(attempts);
    AttemptsSettle(ts, user, limit, attempts, n);
    assert pages[..n] == pages;
    if j < k { NotOnALaterPage(pages, j, k, id); }
    if k < j { NotOnALaterPage(pages, k, j, id); }
  }

  lemma MarkedExactly(ts: seq<Tables>, user: UserId, limit: nat, attempts: seq<Attempt>, id: MessageId)
    requires AreAttempts(ts, user, limit, attempts) && ForeignKeys(ts[0]) && id in Undelivered(ts[0], user)
    ensures id !in Undelivered(ts[|attempts|], user) <==> exists k :: 0 <= k < |attempts| && id in Marks(attempts[k])
  {
    var n, pages := |attempts|, AllMarks(attempts);
    AttemptsSettle(ts, user, limit, attempts, n);
    assert pages[..n] == pages;
    InMarks(attempts, id);
  }

  lemma InMarks(attempts: seq<Attempt>, id: MessageId)
    ensures id in Flatten(AllMarks(attempts)) <==> exists k :: 0 <= k < |attempts| && id in Marks(attempts[k])
  {
    var pages := AllMarks(attempts);
    InFlatten(pages, id);
    assert forall k :: 0 <= k < |attempts| ==> pages[k] == Marks(attempts[k]);
  }

  /** What becomes of a pending message, whatever fails: it is still pending, or exactly one call
      has returned it, or exactly one call has marked it and thrown. In the last case it is lost: no
      call returned it and none will. */
  lemma LostExactly(ts: seq<Tables>, user: UserId, limit: nat, attempts: seq<Attempt>, id: MessageId)
    requires AreAttempts(ts, user, limit, attempts) && ForeignKeys(ts[0]) && id in Undelivered(ts[0], user)
    ensures id !in Undelivered(ts[|attempts|], user) && (forall k :: 0 <= k < |attempts| ==> !Returns(attempts[k], id))
            <==> exists k :: 0 <= k < |attempts| && Loses(attempts[k], id)
    ensures forall j, k :: 0 <= j < |attempts| && 0 <= k < |attempts| && Takes(attempts[j], id) && Takes(attempts[k], id) ==> j == k
  {
    MarkedExactly(ts, user, limit, attempts, id);
    forall k | 0 <= k < |attempts| ensures id in Marks(attempts[k]) <==> Takes(attempts[k], id) {
      assert IsAttempt(ts[k], user, limit, attempts[k], ts[k + 1]);
      assert attempts[k].answered ==> attempts[k].page[..attempts[k].marked] == attempts[k].page;
    }
    forall j, k | 0 <= j < |attempts| && 0 <= k < |attempts| && id in Marks(attempts[j]) && id in Marks(attempts[k]) ensures j == k {
      MarkedOnce(ts, user, limit, attempts, j, k, id);
    }
  }

  /** A call with two messages to return: the second marking throws, and the first message is lost. */
  lemma CallLosesAMessage() returns (ts: seq<Tables>, user: UserId, a: Attempt, id: MessageId)
    ensures AreAttempts(ts, user, 2, [a]) && ForeignKeys(ts[0]) && id in Undelivered(ts[0], user)
    ensures |a.page| == 2 && a.marked == 1 && Loses(a, id) && id !in Undelivered(ts[1], user)
  {
    var t, first, second;
    t, user, first, second := TwoTied();
    id := first;
    a := Attempt(None, [first, second], [9, 9], 1, false);
    assert Elements(a.page) == {first, second} && |{first, second}| == 2;
    assert a.page[..1] == [first] && a.nows[..1] == [9] && Elements([first]) == {first};
    MarkAllDelivers(t, user, [first], [9]);
    ts := [t, MarkAll(t, user, [first], [9]).value];
    assert IsAttempt(t, user, 2, a, ts[1]);
  }
}

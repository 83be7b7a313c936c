/** The in-memory publish/subscribe bus, and the fan-out of a new message over it. */
module Notifications {
  import opened Sequences
  import opened Tables

  type SubscriberId = nat
  type Observer = nat

  datatype Event = NewMessage(id: MessageId, sender: UserId) | ReadReceipt(id: MessageId, reader: UserId)
  datatype Subscriber = Subscriber(id: SubscriberId, callback: Observer)

  /** One invocation of a callback. */
  datatype Call = Call(user: UserId, subscriber: Subscriber, event: Event)

  /** The number of values of the 64-bit counter, which wraps around. */
  const ID_VALUES: nat := 0x1_0000_0000_0000_0000

  /** `claimed` are the ids that a Subscribe under way has fetched but not yet pushed; `issued`
      counts all fetches so far. */
  datatype Bus = Bus(next: SubscriberId, issued: nat, claimed: set<SubscriberId>, lists: map<UserId, seq<Subscriber>>)

  /** Subscribe is two steps: fetch_add before the lock, push_back under it. Dispatch changes
      nothing. */
  datatype Step =
    | Claim
    | Push(user: UserId, id: SubscriberId, callback: Observer)
    | Unsubscribe(user: UserId, id: SubscriberId)

  const EMPTY_BUS := Bus(1, 0, {}, map[])

  function ListOf(b: Bus, user: UserId): seq<Subscriber> {
    if user in b.lists then b.lists[user] else []
  }

  function Without(subs: seq<Subscriber>, id: SubscriberId): seq<Subscriber> {
    if subs == [] then []
    else (if subs[0].id == id then [] else [subs[0]]) + Without(subs[1..], id)
  }

  predicate Enabled(b: Bus, step: Step) {
    step.Push? ==> step.id in b.claimed
  }

  function Apply(b: Bus, step: Step): Bus {
    match step
    case Claim => Bus((b.next + 1) % ID_VALUES, b.issued + 1, b.claimed + {b.next}, b.lists)
    case Push(u, id, callback) => b.(claimed := b.claimed - {id}, lists := b.lists[u := ListOf(b, u) + [Subscriber(id, callback)]])
    case Unsubscribe(u, id) =>
      var subs := Without(ListOf(b, u), id);
      b.(lists := if subs == [] then b.lists - {u} else b.lists[u := subs])
  }

  ghost predicate IsRun(states: seq<Bus>, steps: seq<Step>) {
    && |states| == |steps| + 1
    && states[0] == EMPTY_BUS
    && forall i {:trigger steps[i]} :: 0 <= i < |steps| ==> Enabled(states[i], steps[i]) && states[i + 1] == Apply(states[i], steps[i])
  }

  /** How many fetches came before the one that returned `id`, as long as the counter has not
      gone round. */
  function Turn(id: SubscriberId): int {
    if id == 0 then ID_VALUES - 1 else id - 1
  }

  ghost predicate IdsOf(b: Bus, user: UserId, i: int, id: SubscriberId) {
    user in b.lists && 0 <= i < |b.lists[user]| && b.lists[user][i].id == id
  }

  /** No two subscriptions have the same id. */
  ghost predicate UniqueIds(b: Bus) {
    forall u, v, i, j, id :: IdsOf(b, u, i, id) && IdsOf(b, v, j, id) ==> u == v && i == j
  }

  ghost predicate NoEmptyList(b: Bus) {
    forall u :: u in b.lists ==> b.lists[u] != []
  }

  ghost predicate BusInv(b: Bus) {
    && b.next == (1 + b.issued) % ID_VALUES
    && NoEmptyList(b)
    && (b.issued <= ID_VALUES ==>
          && UniqueIds(b)
          && (forall id :: id in b.claimed ==> id < ID_VALUES && Turn(id) < b.issued)
          && (forall u, i, id: nat :: IdsOf(b, u, i, id) ==> id < ID_VALUES && Turn(id) < b.issued && id !in b.claimed))
  }

  lemma {:induction false} WithoutKeeps(subs: seq<Subscriber>, id: SubscriberId)
    ensures forall s :: s in Without(subs, id) <==> s in subs && s.id != id
    ensures (forall i, j :: 0 <= i < j < |subs| ==> subs[i].id != subs[j].id) ==>
              forall i, j :: 0 <= i < j < |Without(subs, id)| ==> Without(subs, id)[i].id != Without(subs, id)[j].id
  {
    if subs != [] {
      WithoutKeeps(subs[1..], id);
      assert subs == [subs[0]] + subs[1..];
      var rest := Without(subs[1..], id);
      assert forall i :: 0 <= i < |rest| ==> rest[i] in rest;
      assert forall s :: s in subs[1..] ==> exists k :: 1 <= k < |subs| && subs[k] == s;
    }
  }

  lemma PushKeepsUnique(b: Bus, u: UserId, id: SubscriberId, callback: Observer)
    requires UniqueIds(b) && forall v, i :: !IdsOf(b, v, i, id)
    ensures UniqueIds(Apply(b, Push(u, id, callback)))
    ensures forall v, i, x :: IdsOf(Apply(b, Push(u, id, callback)), v, i, x) ==> x == id || IdsOf(b, v, i, x)
  {
    var b' := Apply(b, Push(u, id, callback));
    forall v, i, x | IdsOf(b', v, i, x) ensures if x == id then v == u && i == |ListOf(b, u)| else IdsOf(b, v, i, x) {
      assert v != u || i < |ListOf(b, u)| ==> IdsOf(b, v, i, x);
    }
  }

  lemma DropKeepsUnique(b: Bus, u: UserId, id: SubscriberId)
    requires UniqueIds(b)
    ensures UniqueIds(Apply(b, Unsubscribe(u, id)))
    ensures forall v, i, x :: IdsOf(Apply(b, Unsubscribe(u, id)), v, i, x) ==> exists j :: IdsOf(b, v, j, x)
  {
    var b' := Apply(b, Unsubscribe(u, id));
    var before, after := ListOf(b, u), Without(ListOf(b, u), id);
    WithoutKeeps(before, id);
    forall i, j | 0 <= i < j < |before| ensures before[i].id != before[j].id {
      assert IdsOf(b, u, i, before[i].id) && IdsOf(b, u, j, before[j].id);
    }
    forall v, i, x | IdsOf(b', v, i, x) ensures exists j :: IdsOf(b, v, j, x) {
      if v == u {
        assert after[i] in after;
        var j :| 0 <= j < |before| && before[j] == after[i];
        assert IdsOf(b, u, j, x);
      } else {
        assert IdsOf(b, v, i, x);
      }
    }
    forall v, w, i, j, x | IdsOf(b', v, i, x) && IdsOf(b', w, j, x) ensures v == w && i == j {
      if v != u && w != u {
        assert IdsOf(b, v, i, x) && IdsOf(b, w, j, x);
      }
    }
  }

  /** This id is gone from this user's list, and nothing else from anyone's. */
  ghost predicate Dropped(b: Bus, b': Bus, u: UserId, id: SubscriberId) {
    && (forall v, s :: s in ListOf(b', v) <==> s in ListOf(b, v) && (v == u ==> s.id != id))
    && (forall v :: v != u ==> ListOf(b', v) == ListOf(b, v))
    && b'.next == b.next && b'.issued == b.issued && b'.claimed == b.claimed
  }

  lemma UnsubscribeExactly(b: Bus, u: UserId, id: SubscriberId)
    ensures Dropped(b, Apply(b, Unsubscribe(u, id)), u, id)
  {
    var b' := Apply(b, Unsubscribe(u, id));
    WithoutKeeps(ListOf(b, u), id);
    assert ListOf(b', u) == Without(ListOf(b, u), id);
    forall v | v != u ensures ListOf(b', v) == ListOf(b, v) {
    }
  }

  lemma {:induction false} WithoutNone(subs: seq<Subscriber>, id: SubscriberId)
    requires forall i :: 0 <= i < |subs| ==> subs[i].id != id
    ensures Without(subs, id) == subs
  {
    if subs != [] {
      WithoutNone(subs[1..], id);
      assert subs == [subs[0]] + subs[1..];
    }
  }

  lemma {:induction false} CutOne(before: seq<Subscriber>, s: Subscriber, after: seq<Subscriber>)
    requires forall i :: 0 <= i < |before| ==> before[i].id != s.id
    requires forall i :: 0 <= i < |after| ==> after[i].id != s.id
    ensures Without(before + ([s] + after), s.id) == before + after
    decreases |before|
  {
    if before == [] {
      assert [] + ([s] + after) == [s] + after && ([s] + after)[1..] == after;
      WithoutNone(after, s.id);
    } else {
      var all := before + ([s] + after);
      assert all[0] == before[0] && all[1..] == before[1..] + ([s] + after);
      CutOne(before[1..], s, after);
      assert [before[0]] + (before[1..] + after) == before + after;
    }
  }

  /** Where ids are unique, unsubscribing cuts out the one subscription and keeps the others in their
      order. */
  lemma UnsubscribeCutsOne(b: Bus, u: UserId, i: nat)
    requires UniqueIds(b) && i < |ListOf(b, u)|
    ensures var subs := ListOf(b, u); ListOf(Apply(b, Unsubscribe(u, subs[i].id)), u) == subs[..i] + subs[i + 1..]
  {
    var subs := ListOf(b, u);
    var id := subs[i].id;
    forall j | 0 <= j < |subs| && j != i ensures subs[j].id != id {
      assert IdsOf(b, u, i, id) && (subs[j].id == id ==> IdsOf(b, u, j, id));
    }
    CutOne(subs[..i], subs[i], subs[i + 1..]);
    assert subs == subs[..i] + ([subs[i]] + subs[i + 1..]);
  }

  /** Subscribing adds the subscription at the end of the user's list, and changes nobody else's. */
  lemma PushExactly(b: Bus, u: UserId, id: SubscriberId, callback: Observer)
    ensures var b' := Apply(b, Push(u, id, callback));
            && ListOf(b', u) == ListOf(b, u) + [Subscriber(id, callback)]
            && (forall v :: v != u ==> ListOf(b', v) == ListOf(b, v))
            && b'.next == b.next && b'.issued == b.issued
  {
  }

  /** From its Push until an Unsubscribe of that user and id. */
  ghost predicate SubscribedSince(steps: seq<Step>, i: int, j: nat, u: UserId, s: Subscriber)
    requires j <= |steps|
  {
    0 <= i < j && steps[i] == Push(u, s.id, s.callback) && forall k :: i < k < j ==> steps[k] != Unsubscribe(u, s.id)
  }

  ghost predicate IsSubscribed(steps: seq<Step>, j: nat, u: UserId, s: Subscriber)
    requires j <= |steps|
  {
    exists i :: SubscribedSince(steps, i, j, u, s)
  }

  lemma SubscribedNext(steps: seq<Step>, j: nat, u: UserId, s: Subscriber)
    requires j < |steps|
    ensures IsSubscribed(steps, j + 1, u, s)
            <==> steps[j] == Push(u, s.id, s.callback) || (IsSubscribed(steps, j, u, s) && steps[j] != Unsubscribe(u, s.id))
  {
    var n := j + 1;
    if steps[j] == Push(u, s.id, s.callback) {
      assert SubscribedSince(steps, j, n, u, s);
    }
    if i :| SubscribedSince(steps, i, j, u, s) {
      assert steps[j] != Unsubscribe(u, s.id) ==> SubscribedSince(steps, i, n, u, s);
    }
    if i :| SubscribedSince(steps, i, n, u, s) {
      assert i < j ==> SubscribedSince(steps, i, j, u, s);
    }
  }

  /** In every state of every run: a user has a subscription exactly from its Push until an Unsubscribe
      of that user and id. */
  lemma {:induction false} SubscribedExactly(states: seq<Bus>, steps: seq<Step>, j: nat, u: UserId, s: Subscriber)
    requires IsRun(states, steps) && j < |states|
    ensures s in ListOf(states[j], u) <==> IsSubscribed(steps, j, u, s)
  {
    if j > 0 {
      SubscribedExactly(states, steps, j - 1, u, s);
      SubscribedNext(steps, j - 1, u, s);
      match steps[j - 1]
      case Claim =>
      case Push(v, id, callback) => PushExactly(states[j - 1], v, id, callback);
      case Unsubscribe(v, id) => UnsubscribeExactly(states[j - 1], v, id);
    }
  }

  /** So exactly those subscriptions are called by a Dispatch, at any point of any run. */
  lemma DispatchReachesExactly(states: seq<Bus>, steps: seq<Step>, j: nat, u: UserId, event: Event, s: Subscriber)
    requires IsRun(states, steps) && j < |states|
    ensures Call(u, s, event) in Calls(states[j], u, event) <==> IsSubscribed(steps, j, u, s)
  {
    SubscribedExactly(states, steps, j, u, s);
    var list, calls := ListOf(states[j], u), Calls(states[j], u, event);
    if i :| 0 <= i < |list| && list[i] == s {
      assert calls[i] == Call(u, s, event);
    }
  }

  lemma StepKeepsInv(b: Bus, step: Step)
    requires BusInv(b) && Enabled(b, step)
    ensures BusInv(Apply(b, step))
  {
    match step
    case Claim =>
      assert forall u, i, id :: IdsOf(Apply(b, step), u, i, id) <==> IdsOf(b, u, i, id);
    case Push(u, id, callback) =>
      if b.issued <= ID_VALUES { PushKeepsUnique(b, u, id, callback); }
    case Unsubscribe(u, id) =>
      if b.issued <= ID_VALUES { DropKeepsUnique(b, u, id); }
  }

  /** In every interleaving no list is ever empty and, as long as at most 2^64 ids have been
      fetched, no two subscriptions share an id. */
  lemma {:induction false} RunKeepsIdsUnique(states: seq<Bus>, steps: seq<Step>, i: nat)
    requires IsRun(states, steps) && i < |states|
    ensures BusInv(states[i])
  {
    if i > 0 {
      RunKeepsIdsUnique(states, steps, i - 1);
      StepKeepsInv(states[i - 1], steps[i - 1]);
    }
  }

  /** The counter gives two fetches of a run the same id exactly when a multiple of 2^64 fetches
      lies between them. */
  lemma IdsRepeatExactly(states: seq<Bus>, steps: seq<Step>, i: nat, j: nat)
    requires IsRun(states, steps) && i <= j < |states|
    ensures states[i].next == states[j].next <==> (states[j].issued - states[i].issued) % ID_VALUES == 0
  {
    RunKeepsIdsUnique(states, steps, i);
    RunKeepsIdsUnique(states, steps, j);
    SameRemainder(1 + states[i].issued, 1 + states[j].issued, ID_VALUES);
  }

  /** The bus after so many fetches and nothing else. */
  function Fetched(n: nat): Bus {
    if n == 0 then EMPTY_BUS else Apply(Fetched(n - 1), Claim)
  }

  lemma {:induction false} FetchedIssued(n: nat)
    ensures Fetched(n).issued == n
  {
    if n > 0 { FetchedIssued(n - 1); }
  }

  lemma FetchRun(n: nat) returns (states: seq<Bus>, steps: seq<Step>)
    ensures IsRun(states, steps) && |steps| == n && states[0].issued == 0 && states[n].issued == n
  {
    states := seq(n + 1, i requires 0 <= i => Fetched(i));
    steps := seq(n, i => Claim);
    FetchedIssued(n);
  }

  /** A run in which an id comes round again. */
  lemma IdComesRound() returns (states: seq<Bus>, steps: seq<Step>)
    ensures IsRun(states, steps) && |steps| == ID_VALUES && states[ID_VALUES].next == states[0].next
  {
    states, steps := FetchRun(ID_VALUES);
    IdsRepeatExactly(states, steps, 0, ID_VALUES);
  }

  /** Two subscriptions whose ids were fetched at steps i and j of a run have the same id exactly
      when a multiple of 2^64 fetches lies between the two. */
  lemma PushesShareAnIdExactly(states: seq<Bus>, steps: seq<Step>, i: nat, p: nat, j: nat, q: nat)
    requires IsRun(states, steps) && i <= j && i < p < |steps| && j < q < |steps|
    requires steps[i].Claim? && steps[p].Push? && steps[p].id == states[i].next
    requires steps[j].Claim? && steps[q].Push? && steps[q].id == states[j].next
    ensures steps[p].id == steps[q].id <==> (states[j].issued - states[i].issued) % ID_VALUES == 0
  {
    IdsRepeatExactly(states, steps, i, j);
  }

  lemma ExtendRun(states: seq<Bus>, steps: seq<Step>, step: Step) returns (states': seq<Bus>, steps': seq<Step>)
    requires IsRun(states, steps) && Enabled(states[|steps|], step)
    ensures IsRun(states', steps') && steps' == steps + [step] && states' == states + [Apply(states[|steps|], step)]
  {
    states', steps' := states + [Apply(states[|steps|], step)], steps + [step];
    forall i | 0 <= i < |steps'| ensures Enabled(states'[i], steps'[i]) && states'[i + 1] == Apply(states'[i], steps'[i]) {
      assert i < |steps| ==> steps'[i] == steps[i];
    }
  }

  /** Any run can go on with n fetches, which change no list. */
  lemma {:induction false} ExtendByFetches(states: seq<Bus>, steps: seq<Step>, n: nat) returns (states': seq<Bus>, steps': seq<Step>)
    requires IsRun(states, steps)
    ensures IsRun(states', steps') && |steps'| == |steps| + n
    ensures forall i :: 0 <= i < |steps'| ==> steps'[i] == if i < |steps| then steps[i] else Claim
    ensures states'[|steps'|].issued == states[|steps|].issued + n && states'[|steps'|].lists == states[|steps|].lists
  {
    states', steps' := states, steps;
    if n > 0 {
      states', steps' := ExtendByFetches(states, steps, n - 1);
      states', steps' := ExtendRun(states', steps', Claim);
    }
  }

  /** A run in which v's subscription gets the id that u's subscription already has: both fetch
      1, with 2^64 - 1 fetches between the two. */
  lemma TwoSubscriptionsShareAnId(u: UserId, v: UserId) returns (states: seq<Bus>, steps: seq<Step>)
    ensures IsRun(states, steps) && |steps| == 3 + ID_VALUES
    ensures steps[1] == Push(u, 1, 0) && steps[2 + ID_VALUES] == Push(v, 1, 1)
    ensures forall i :: 0 <= i < |steps| && i != 1 && i != 2 + ID_VALUES ==> steps[i] == Claim
    ensures !UniqueIds(states[|steps|])
  {
    states, steps := ExtendRun([EMPTY_BUS], [], Claim);
    states, steps := ExtendRun(states, steps, Push(u, 1, 0));
    assert states[2].lists[u] == [Subscriber(1, 0)];
    states, steps := ExtendByFetches(states, steps, ID_VALUES - 1);
    var n := |steps|;
    RunKeepsIdsUnique(states, steps, n);
    states, steps := ExtendRun(states, steps, Claim);
    var b := states[n + 1];
    assert 1 in b.claimed;
    states, steps := ExtendRun(states, steps, Push(v, 1, 1));
    assert IdsOf(states[n + 2], u, 0, 1);
    assert IdsOf(states[n + 2], v, |ListOf(b, v)|, 1);
    assert u == v ==> |ListOf(b, v)| == 1;
  }

  lemma SameRemainder(a: int, b: int, m: nat)
    requires m > 0
    ensures a % m == b % m <==> (b - a) % m == 0
  {
    var p, q, k := a / m, b / m, (b - a) / m;
    assert a == p * m + a % m && b == q * m + b % m && b - a == k * m + (b - a) % m;
    if a % m == b % m {
      assert b - a == (q - p) * m + 0;
      OneRemainder(q - p, 0, k, (b - a) % m, m);
    }
    if (b - a) % m == 0 {
      assert b == (p + k) * m + a % m;
      OneRemainder(p + k, a % m, q, b % m, m);
    }
  }

  lemma OneRemainder(p: int, r: int, q: int, s: int, m: nat)
    requires 0 <= r < m && 0 <= s < m && p * m + r == q * m + s
    ensures r == s
  {
    var d := p - q;
    assert d * m == s - r;
    if d >= 1 {
      assert d * m == (d - 1) * m + m;
    } else if d <= -1 {
      assert d * m == (d + 1) * m - m;
    }
  }

  /** The callbacks that Dispatch invokes for one user: its list, in order. */
  function Calls(b: Bus, user: UserId, event: Event): seq<Call> {
    seq(|ListOf(b, user)|, i requires 0 <= i < |ListOf(b, user)| => Call(user, ListOf(b, user)[i], event))
  }

  function ApplyAll(b: Bus, steps: seq<Step>): Bus
    decreases |steps|
  {
    if steps == [] then b else ApplyAll(Apply(b, steps[0]), steps[1..])
  }

  /** The bus at each turn of a fan-out, when other threads take others[i] before turn i. */
  ghost predicate AreSnapshots(b: Bus, others: seq<seq<Step>>, buses: seq<Bus>) {
    && |buses| == |others|
    && forall i :: 0 <= i < |buses| ==> buses[i] == ApplyAll(([b] + buses)[i], others[i])
  }

  /** The calls of a whole fan-out. */
  function FanOut(buses: seq<Bus>, participants: seq<UserId>, sender: UserId, event: Event): seq<Call>
    requires |buses| == |participants|
    decreases |participants|
  {
    if participants == [] then []
    else var last := |participants| - 1;
      FanOut(buses[..last], participants[..last], sender, event)
      + if participants[last] == sender then [] else Calls(buses[last], participants[last], event)
  }

  lemma NextSnapshot(b: Bus, others: seq<seq<Step>>, buses: seq<Bus>, bus: Bus)
    requires |buses| < |others| && AreSnapshots(b, others[..|buses|], buses)
    requires bus == ApplyAll(([b] + buses)[|buses|], others[|buses|])
    ensures AreSnapshots(b, others[..|buses| + 1], buses + [bus])
  {
    var turns := others[..|buses|];
    assert forall i :: 0 <= i < |buses| ==> turns[i] == others[i];
    assert [b] + (buses + [bus]) == ([b] + buses) + [bus];
  }

  lemma NextTurn(buses: seq<Bus>, participants: seq<UserId>, sender: UserId, event: Event, bus: Bus)
    requires |buses| < |participants|
    ensures FanOut(buses + [bus], participants[..|buses| + 1], sender, event)
            == FanOut(buses, participants[..|buses|], sender, event)
               + if participants[|buses|] == sender then [] else Calls(bus, participants[|buses|], event)
  {
    assert (buses + [bus])[..|buses|] == buses && participants[..|buses| + 1][..|buses|] == participants[..|buses|];
  }

  /** Each of the steps can be taken when its turn comes. */
  predicate AllEnabled(b: Bus, steps: seq<Step>)
    decreases |steps|
  {
    steps != [] ==> Enabled(b, steps[0]) && AllEnabled(Apply(b, steps[0]), steps[1..])
  }

  lemma {:induction false} ApplyAllKeepsInv(b: Bus, steps: seq<Step>)
    requires BusInv(b) && AllEnabled(b, steps)
    ensures BusInv(ApplyAll(b, steps)) && b.issued <= ApplyAll(b, steps).issued
    decreases |steps|
  {
    if steps != [] {
      StepKeepsInv(b, steps[0]);
      ApplyAllKeepsInv(Apply(b, steps[0]), steps[1..]);
    }
  }

  /** What one dispatch contributes. */
  lemma CallsOnce(b: Bus, user: UserId, event: Event, c: Call)
    requires UniqueIds(b)
    ensures multiset(Calls(b, user, event))[c] == if c.user == user && c.event == event && c.subscriber in ListOf(b, user) then 1 else 0
  {
    var calls := Calls(b, user, event);
    forall i, j | 0 <= i < j < |calls| ensures calls[i] != calls[j] {
      assert IdsOf(b, user, i, calls[i].subscriber.id) && IdsOf(b, user, j, calls[j].subscriber.id);
    }
    DistinctOnce(calls, c);
    if i :| 0 <= i < |ListOf(b, user)| && ListOf(b, user)[i] == c.subscriber {
      assert calls[i].subscriber == c.subscriber;
    }
  }

  lemma {:induction false} DistinctOnce<K>(s: seq<K>, k: K)
    requires Distinct(s)
    ensures multiset(s)[k] == if k in s then 1 else 0
  {
    if s != [] {
      DistinctCons(s);
      DistinctOnce(s[1..], k);
      assert s == [s[0]] + s[1..];
    }
  }

  /** Each subscription that a participant other than the sender has at its turn is called exactly
      once, and nothing else is: not the sender's, and nobody's outside the chat. */
  lemma {:induction false} FanOutIsExact(buses: seq<Bus>, participants: seq<UserId>, sender: UserId, event: Event, c: Call)
    requires |buses| == |participants| && Distinct(participants)
    requires forall i :: 0 <= i < |buses| ==> UniqueIds(buses[i])
    ensures multiset(FanOut(buses, participants, sender, event))[c]
            == if c.user != sender && c.event == event && SubscribedAtTurn(buses, participants, c) then 1 else 0
    decreases |participants|
  {
    if participants != [] {
      var last := |participants| - 1;
      FanOutIsExact(buses[..last], participants[..last], sender, event, c);
      CallsOnce(buses[last], participants[last], event, c);
      LastTurn(buses, participants, c);
      FanOutOfLast(buses, participants, sender, event, c);
    }
  }

  /** The call is for a subscription that a participant has when its turn comes. */
  ghost predicate SubscribedAtTurn(buses: seq<Bus>, participants: seq<UserId>, c: Call)
    requires |buses| == |participants|
  {
    exists i :: 0 <= i < |participants| && participants[i] == c.user && c.subscriber in ListOf(buses[i], c.user)
  }

  lemma LastTurn(buses: seq<Bus>, participants: seq<UserId>, c: Call)
    requires |buses| == |participants| && Distinct(participants) && participants != []
    ensures var last := |participants| - 1;
            if participants[last] == c.user
            then (SubscribedAtTurn(buses, participants, c) <==> c.subscriber in ListOf(buses[last], c.user)) && !SubscribedAtTurn(buses[..last], participants[..last], c)
            else SubscribedAtTurn(buses, participants, c) <==> SubscribedAtTurn(buses[..last], participants[..last], c)
  {
    var last := |participants| - 1;
    var rest, before := participants[..last], buses[..last];
    assert forall i :: 0 <= i < last ==> rest[i] == participants[i] && before[i] == buses[i];
    if i :| 0 <= i < |participants| && participants[i] == c.user && c.subscriber in ListOf(buses[i], c.user) {
      assert i < last ==> rest[i] == c.user && c.subscriber in ListOf(before[i], c.user);
    }
  }

  lemma FanOutOfLast(buses: seq<Bus>, participants: seq<UserId>, sender: UserId, event: Event, c: Call)
    requires |buses| == |participants| && participants != []
    ensures var last := |participants| - 1;
            multiset(FanOut(buses, participants, sender, event))[c]
            == multiset(FanOut(buses[..last], participants[..last], sender, event))[c]
               + if participants[last] == sender then 0 else multiset(Calls(buses[last], participants[last], event))[c]
  {
  }

  lemma {:induction false} TurnsKeepInv(all: seq<Bus>, others: seq<seq<Step>>, i: nat)
    requires |all| == |others| + 1 && i < |all| && BusInv(all[0])
    requires forall k :: 0 <= k < |others| ==> AllEnabled(all[k], others[k]) && all[k + 1] == ApplyAll(all[k], others[k])
    ensures BusInv(all[i])
  {
    if i > 0 {
      TurnsKeepInv(all, others, i - 1);
      ApplyAllKeepsInv(all[i - 1], others[i - 1]);
    }
  }

  lemma {:induction false} IssuedGrows(all: seq<Bus>, others: seq<seq<Step>>, i: nat)
    requires |all| == |others| + 1 && i < |all| && BusInv(all[0])
    requires forall k :: 0 <= k < |others| ==> AllEnabled(all[k], others[k]) && all[k + 1] == ApplyAll(all[k], others[k])
    ensures all[i].issued <= all[|others|].issued
    decreases |all| - i
  {
    if i < |others| {
      TurnsKeepInv(all, others, i);
      ApplyAllKeepsInv(all[i], others[i]);
      IssuedGrows(all, others, i + 1);
    }
  }

  /** The fan-out of a message, whatever other threads do meanwhile: each subscription that a
      participant other than the sender has at its turn is called exactly once, and no other. */
  lemma EachSubscriptionIsCalledOnce(b: Bus, others: seq<seq<Step>>, buses: seq<Bus>, participants: seq<UserId>,
      sender: UserId, event: Event, c: Call)
    requires BusInv(b) && AreSnapshots(b, others, buses) && |others| == |participants| && Distinct(participants)
    requires forall k :: 0 <= k < |others| ==> AllEnabled(([b] + buses)[k], others[k])
    requires ([b] + buses)[|buses|].issued <= ID_VALUES
    ensures multiset(FanOut(buses, participants, sender, event))[c]
            == if c.user != sender && c.event == event && SubscribedAtTurn(buses, participants, c) then 1 else 0
  {
    var all := [b] + buses;
    forall i | 0 <= i < |buses| ensures UniqueIds(buses[i]) {
      TurnsKeepInv(all, others, i + 1);
      IssuedGrows(all, others, i + 1);
      assert all[i + 1] == buses[i];
    }
    FanOutIsExact(buses, participants, sender, event, c);
  }

  class NotificationService {
    var nextSubscriberId: nat
    var subscriptions: map<UserId, seq<Subscriber>>
    ghost var issued: nat
    ghost var claimed: set<SubscriberId>

    ghost function View(): Bus
      reads this
    {
      Bus(nextSubscriberId, issued, claimed, subscriptions)
    }

    constructor ()
      ensures View() == EMPTY_BUS
    {
      nextSubscriberId, subscriptions, issued, claimed := 1, map[], 0, {};
    }

    /** fetch_add, the first half of Subscribe. */
    method FetchId() returns (id: SubscriberId)
      modifies this
      ensures id == old(nextSubscriberId) && View() == Apply(old(View()), Claim)
    {
      id := nextSubscriberId;
      nextSubscriberId := (nextSubscriberId + 1) % ID_VALUES;
      issued, claimed := issued + 1, claimed + {id};
    }

    /** push_back under the lock, the second half. */
    method PushBack(user: UserId, id: SubscriberId, callback: Observer)
      modifies this
      ensures View() == Apply(old(View()), Push(user, id, callback))
    {
      var subs := if user in subscriptions then subscriptions[user] else [];
      subscriptions := subscriptions[user := subs + [Subscriber(id, callback)]];
      claimed := claimed - {id};
    }

    /** `between` are the steps that other threads get in before the lock is taken. */
    method Subscribe(user: UserId, callback: Observer, between: seq<Step>) returns (id: SubscriberId)
      modifies this
      ensures id == old(nextSubscriberId)
      ensures View() == Apply(ApplyAll(Apply(old(View()), Claim), between), Push(user, id, callback))
    {
      id := FetchId();
      Others(between);
      PushBack(user, id, callback);
    }

    /** operator[] may insert an empty list for the user; it does not survive. */
    method Unsubscribe(user: UserId, id: SubscriberId)
      modifies this
      ensures View() == Apply(old(View()), Step.Unsubscribe(user, id))
      ensures Dropped(old(View()), View(), user, id)
    {
      ghost var before := View();
      UnsubscribeExactly(before, user, id);
      if user !in subscriptions {
        subscriptions := subscriptions[user := []];
      }
      subscriptions := subscriptions[user := Without(subscriptions[user], id)];
      if subscriptions[user] == [] {
        subscriptions := subscriptions - {user};
      }
      assert View() == Apply(before, Step.Unsubscribe(user, id));
    }

    /** Other threads use the bus. */
    method Others(steps: seq<Step>)
      modifies this
      ensures View() == ApplyAll(old(View()), steps)
    {
      ghost var start := View();
      for i := 0 to |steps|
        invariant ApplyAll(View(), steps[i..]) == ApplyAll(start, steps)
      {
        assert steps[i..][0] == steps[i] && steps[i..][1..] == steps[i + 1..];
        match steps[i]
        case Claim => var _ := FetchId();
        case Push(u, id, callback) => PushBack(u, id, callback);
        case Unsubscribe(u, id) => Unsubscribe(u, id);
      }
    }

    /** The shared lock keeps the list as it is for the whole loop. */
    method Dispatch(user: UserId, event: Event) returns (calls: seq<Call>)
      ensures calls == Calls(View(), user, event)
      ensures var subs := if user in subscriptions then subscriptions[user] else [];
              |calls| == |subs| && forall i :: 0 <= i < |subs| ==> calls[i] == Call(user, subs[i], event)
    {
      calls := [];
      if user in subscriptions {
        var subs := subscriptions[user];
        for i := 0 to |subs|
          invariant |calls| == i && forall k :: 0 <= k < i ==> calls[k] == Call(user, subs[k], event)
        {
          calls := calls + [Call(user, subs[i], event)];
        }
      }
    }

    /** The loop at the end of SendChatMessage; other threads take others[i] before turn i. */
    method NotifyOthers(participants: seq<UserId>, sender: UserId, event: Event, others: seq<seq<Step>>)
      returns (calls: seq<Call>, ghost buses: seq<Bus>)
      requires |others| == |participants|
      modifies this
      ensures AreSnapshots(old(View()), others, buses)
      ensures View() == ([old(View())] + buses)[|buses|]
      ensures calls == FanOut(buses, participants, sender, event)
    {
      calls, buses := [], [];
      for i := 0 to |participants|
        invariant |buses| == i && AreSnapshots(old(View()), others[..i], buses)
        invariant View() == ([old(View())] + buses)[i]
        invariant calls == FanOut(buses, participants[..i], sender, event)
      {
        Others(others[i]);
        NextSnapshot(old(View()), others, buses, View());
        NextTurn(buses, participants, sender, event, View());
        buses := buses + [View()];
        if participants[i] != sender {
          var more := Dispatch(participants[i], event);
          calls := calls + more;
        }
      }
      assert others[..|others|] == others && participants[..|participants|] == participants;
    }
  }
}

/** CreateChat over whole runs. A call for one other user searches first and inserts later, as two
    transactions; any number of calls, and of everything else that the services do, may come between. */
module PairRuns {
  import opened Wrappers
  import opened Sequences
  import opened SymbolicCrypto
  import opened Tables
  import opened Queries
  import opened Pages
  import opened Uuids
  import opened ServiceRuns
  import opened DirectChats
  import PostgresUuids

  /** A call whose search found nothing, and the chat ids that there had been until then. `other` is
      the text of the request. */
  datatype Pending = Pending(creator: UserId, other: UserId, known: set<ChatId>)

  datatype State = State(system: System, pending: map<CallId, Pending>)

  /** Other includes the creation of a chat without a search, which is what a request does that names
      no or several other users, or one of them twice. */
  datatype PairStep =
    | Search(call: CallId, creator: UserId, other: UserId, page: seq<ChatId>)
    | Insert(call: CallId, chat: ChatId, now: Time)
    | Abandon(call: CallId)
    | Other(step: Step)

  ghost predicate CanTake(canon: Canon, s: State, step: PairStep) {
    var t := s.system.tables;
    match step
    case Search(k, a, b, page) =>
      && k !in s.pending && canon(a) == a && a in t.users && canon(b) in t.users && a != b
      && IsChatPage(t, a, page)
    case Insert(k, chat, now) => k in s.pending && chat !in s.system.usedChats && now != 0
    case Abandon(k) => k in s.pending
    case Other(st) => Enabled(s.system, st)
  }

  /** The step of the services' machine that this step is; an insert creates the chat of two. */
  function AsStep(canon: Canon, s: State, step: PairStep): Option<Step>
    requires step.Insert? ==> step.call in s.pending
  {
    match step
    case Insert(k, chat, now) => Some(CreateChat(chat, now, [s.pending[k].creator, canon(s.pending[k].other)]))
    case Other(st) => Some(st)
    case _ => None
  }

  ghost function Take(canon: Canon, s: State, step: PairStep): State
    requires CanTake(canon, s, step)
  {
    match step
    case Search(k, a, b, page) =>
      if FindExisting(s.system.tables, page, b).Some? then s
      else s.(pending := s.pending[k := Pending(a, b, s.system.usedChats)])
    case Insert(k, _, _) => State(Next(s.system, AsStep(canon, s, step).value), s.pending - {k})
    case Abandon(k) => s.(pending := s.pending - {k})
    case Other(st) => s.(system := Next(s.system, st))
  }

  ghost predicate IsPairRun(canon: Canon, states: seq<State>, steps: seq<PairStep>) {
    && |states| == |steps| + 1
    && states[0] == State(INITIAL, map[])
    && forall i {:trigger steps[i]} :: 0 <= i < |steps| ==> CanTake(canon, states[i], steps[i]) && states[i + 1] == Take(canon, states[i], steps[i])
  }

  /** The step commits a chat of two users that already have one. */
  ghost predicate CreatesSecond(t: Tables, step: Step) {
    && step.CreateChat? && Distinct(step.members) && Elements(step.members) <= t.users.Keys
    && exists a, b :: a != b && Elements(step.members) == {a, b} && HasPair(t, a, b)
  }

  ghost predicate IsSecond(canon: Canon, s: State, step: PairStep)
    requires CanTake(canon, s, step)
  {
    AsStep(canon, s, step).Some? && CreatesSecond(s.system.tables, AsStep(canon, s, step).value)
  }

  lemma OneMoreChatOf(t: Tables, t': Tables, chat: ChatId, users: set<UserId>)
    requires PairsUnique(t) && chat !in t.chats && t'.chats.Keys == t.chats.Keys + {chat}
    requires Members(t', chat) == users && forall c :: c != chat ==> Members(t', c) == Members(t, c)
    ensures PairsUnique(t') <==> !exists a, b :: a != b && users == {a, b} && HasPair(t, a, b)
  {
    if a, b :| a != b && users == {a, b} {
      OneMorePair(t, t', chat, a, b);
      forall x, y | x != y && users == {x, y} ensures HasPair(t, x, y) <==> HasPair(t, a, b) {
        assert {x, y} == {a, b};
      }
    } else {
      forall c, d, x, y | c in t'.chats && d in t'.chats && x != y && Members(t', c) == {x, y} == Members(t', d) ensures c == d {
        assert c != chat && d != chat;
      }
    }
  }

  lemma SameMembersSamePairs(t: Tables, t': Tables)
    requires PairsUnique(t) && t'.chats.Keys <= t.chats.Keys && forall c :: c in t'.chats ==> Members(t', c) == Members(t, c)
    ensures PairsUnique(t')
  {
  }

  lemma CreateStep(s: System, step: Step)
    requires SystemInv(s) && Enabled(s, step) && step.CreateChat?
    ensures Next(s, step).tables
            == if Distinct(step.members) && Elements(step.members) <= s.tables.users.Keys
               then WithChat(s.tables, step.chat, step.at, Elements(step.members)) else s.tables
    ensures step.chat !in s.tables.chats
    ensures step.chat in Next(s, step).tables.chats <==> Distinct(step.members) && Elements(step.members) <= s.tables.users.Keys
  {
    AddChatAllOrNothing(s.tables, step.chat, step.at, step.members);
  }

  /** One step keeps pairs unique exactly when it does not give a pair a second chat. */
  lemma StepKeepsPairsExactly(s: System, step: Step)
    requires SystemInv(s) && Enabled(s, step) && PairsUnique(s.tables)
    ensures PairsUnique(Next(s, step).tables) <==> !CreatesSecond(s.tables, step)
  {
    var t, t' := s.tables, Next(s, step).tables;
    if step.CreateChat? {
      CreateStep(s, step);
      if t' != t {
        WithChatMembers(t, step.chat, step.at, Elements(step.members));
        OneMoreChatOf(t, t', step.chat, Elements(step.members));
      }
    } else {
      OtherKeepsMembers(s, step);
      SameMembersSamePairs(t, t');
    }
  }

  lemma CanTakeIsEnabled(canon: Canon, s: State, step: PairStep)
    requires CanTake(canon, s, step) && AsStep(canon, s, step).Some?
    ensures Enabled(s.system, AsStep(canon, s, step).value)
    ensures Take(canon, s, step).system == Next(s.system, AsStep(canon, s, step).value)
  {
  }

  lemma {:induction false} RunKeepsSystemInv(canon: Canon, states: seq<State>, steps: seq<PairStep>, i: nat)
    requires IsPairRun(canon, states, steps) && i < |states|
    ensures SystemInv(states[i].system)
  {
    if i > 0 {
      RunKeepsSystemInv(canon, states, steps, i - 1);
      TakeKeepsSystemInv(canon, states[i - 1], steps[i - 1]);
    }
  }

  lemma TakeKeepsSystemInv(canon: Canon, s: State, step: PairStep)
    requires SystemInv(s.system) && CanTake(canon, s, step)
    ensures SystemInv(Take(canon, s, step).system)
  {
    if AsStep(canon, s, step).Some? {
      CanTakeIsEnabled(canon, s, step);
      StepKeepsInv(s.system, AsStep(canon, s, step).value);
    }
  }

  lemma TakeKeepsPairsExactly(canon: Canon, s: State, step: PairStep)
    requires SystemInv(s.system) && CanTake(canon, s, step) && PairsUnique(s.system.tables)
    ensures PairsUnique(Take(canon, s, step).system.tables) <==> !IsSecond(canon, s, step)
  {
    if AsStep(canon, s, step).Some? {
      CanTakeIsEnabled(canon, s, step);
      StepKeepsPairsExactly(s.system, AsStep(canon, s, step).value);
    }
  }

  lemma {:induction false} NoSecondKeepsPairs(canon: Canon, states: seq<State>, steps: seq<PairStep>, i: nat)
    requires IsPairRun(canon, states, steps) && i < |states|
    requires forall k {:trigger steps[k]} :: 0 <= k < |steps| ==> !IsSecond(canon, states[k], steps[k])
    ensures PairsUnique(states[i].system.tables)
  {
    if i > 0 {
      NoSecondKeepsPairs(canon, states, steps, i - 1);
      RunKeepsSystemInv(canon, states, steps, i - 1);
      TakeKeepsPairsExactly(canon, states[i - 1], steps[i - 1]);
    }
  }

  /** Over whole runs no two chats ever have the same pair of members exactly when no step inserts a
      chat for a pair that has one at that moment. */
  lemma PairsStayUniqueExactly(canon: Canon, states: seq<State>, steps: seq<PairStep>)
    requires IsPairRun(canon, states, steps)
    ensures (forall i :: 0 <= i < |states| ==> PairsUnique(states[i].system.tables))
            <==> forall k {:trigger steps[k]} :: 0 <= k < |steps| ==> !IsSecond(canon, states[k], steps[k])
  {
    if forall i :: 0 <= i < |states| ==> PairsUnique(states[i].system.tables) {
      forall k | 0 <= k < |steps| ensures !IsSecond(canon, states[k], steps[k]) {
        RunKeepsSystemInv(canon, states, steps, k);
        TakeKeepsPairsExactly(canon, states[k], steps[k]);
        assert PairsUnique(states[k + 1].system.tables);
      }
    }
    if forall k {:trigger steps[k]} :: 0 <= k < |steps| ==> !IsSecond(canon, states[k], steps[k]) {
      forall i | 0 <= i < |states| ensures PairsUnique(states[i].system.tables) {
        NoSecondKeepsPairs(canon, states, steps, i);
      }
    }
  }

  /** The conditions under which a search can be trusted: at most 100 chats, and the id spelled as
      the database spells it. */
  ghost predicate GoodSearch(canon: Canon, s: State, step: PairStep) {
    step.Search? ==> |ChatsOf(s.system.tables, step.creator)| <= CHATS_SEARCHED && canon(step.other) == step.other
  }

  /** Every chat of two comes from a search. */
  ghost predicate NoUnsearchedPair(step: PairStep) {
    step.Other? && step.step.CreateChat? ==> forall a, b :: a != b ==> Elements(step.step.members) != {a, b}
  }

  ghost predicate GoodRun(canon: Canon, states: seq<State>, steps: seq<PairStep>)
    requires |states| == |steps| + 1
  {
    forall k {:trigger steps[k]} :: 0 <= k < |steps| ==> GoodSearch(canon, states[k], steps[k]) && NoUnsearchedPair(steps[k])
  }

  /** The pair of the call has received a chat since its search, and has it still. */
  ghost predicate ReceivedSince(t: Tables, p: Pending) {
    exists c :: c in t.chats && c !in p.known && Members(t, c) == {p.creator, p.other}
  }

  ghost predicate PendingInv(canon: Canon, s: State, p: Pending) {
    && p.creator != p.other && canon(p.other) == p.other && p.known <= s.system.usedChats
    && p.creator in s.system.tables.users && p.other in s.system.tables.users
    && forall c :: c in s.system.tables.chats && c in p.known ==> Members(s.system.tables, c) != {p.creator, p.other}
  }

  ghost predicate RunInv(canon: Canon, s: State) {
    && SystemInv(s.system) && StoredCanonically(s.system.tables, canon)
    && forall k :: k in s.pending ==> PendingInv(canon, s, s.pending[k])
  }

  lemma FoundNothing(canon: Canon, s: State, step: PairStep)
    requires SystemInv(s.system) && StoredCanonically(s.system.tables, canon) && IsCanon(canon)
    requires CanTake(canon, s, step) && step.Search? && GoodSearch(canon, s, step)
    requires FindExisting(s.system.tables, step.page, step.other).None?
    ensures PendingInv(canon, s, Pending(step.creator, step.other, s.system.usedChats))
  {
    var t := s.system.tables;
    FindExistingFinds(t, step.page, step.other);
    SeesExactly(t, canon, step.creator, step.other, step.page);
    forall c | c in t.chats ensures Members(t, c) != {step.creator, step.other} {
      assert !(step.creator in Members(t, c) && step.other in Members(t, c));
    }
  }

  /** What any step of the services' machine leaves of the chats there were. */
  lemma OldChatsStay(s: System, step: Step)
    requires SystemInv(s) && Enabled(s, step)
    ensures s.usedChats <= Next(s, step).usedChats
    ensures forall c :: c in Next(s, step).tables.chats && c in s.usedChats ==>
              c in s.tables.chats && Members(Next(s, step).tables, c) == Members(s.tables, c)
  {
    if step.CreateChat? {
      CreateStep(s, step);
      if Next(s, step).tables != s.tables {
        WithChatMembers(s.tables, step.chat, step.at, Elements(step.members));
      }
    } else {
      OtherKeepsMembers(s, step);
    }
    StepPersists(s, step);
  }

  /** Registered users are spelled as the database spells them. */
  ghost predicate RegistersCanonically(canon: Canon, step: PairStep) {
    step.Other? && step.step.Register? ==> canon(step.step.user) == step.step.user
  }

  lemma UsersAfter(s: System, step: Step)
    requires SystemInv(s) && Enabled(s, step)
    ensures s.tables.users.Keys <= Next(s, step).tables.users.Keys
    ensures Next(s, step).tables.users.Keys <= s.tables.users.Keys + if step.Register? then {step.user} else {}
  {
    StepEffect(s, step);
    EffectOnUsers(s, step, Next(s, step).tables);
  }

  lemma EffectOnUsers(s: System, step: Step, t': Tables)
    requires Enabled(s, step) && Effect(s, step, t')
    ensures s.tables.users.Keys <= t'.users.Keys <= s.tables.users.Keys + if step.Register? then {step.user} else {}
  {
  }

  lemma PendingStays(canon: Canon, s: State, s': State, st: Step, p: Pending)
    requires SystemInv(s.system) && Enabled(s.system, st) && s'.system == Next(s.system, st) && PendingInv(canon, s, p)
    ensures PendingInv(canon, s', p)
  {
    OldChatsStay(s.system, st);
    UsersAfter(s.system, st);
  }

  lemma TakeKeepsRunInv(canon: Canon, s: State, step: PairStep)
    requires RunInv(canon, s) && IsCanon(canon) && CanTake(canon, s, step)
    requires GoodSearch(canon, s, step) && RegistersCanonically(canon, step)
    ensures RunInv(canon, Take(canon, s, step))
  {
    var s' := Take(canon, s, step);
    if AsStep(canon, s, step).Some? {
      var st := AsStep(canon, s, step).value;
      CanTakeIsEnabled(canon, s, step);
      TakeKeepsSystemInv(canon, s, step);
      UsersAfter(s.system, st);
      forall k | k in s'.pending ensures PendingInv(canon, s', s'.pending[k]) {
        PendingStays(canon, s, s', st, s.pending[k]);
      }
    } else if step.Search? && FindExisting(s.system.tables, step.page, step.other).None? {
      FoundNothing(canon, s, step);
    }
  }

  /** A step that is no search, or one that can be trusted, and registers no id spelled otherwise. */
  ghost predicate GoodStep(canon: Canon, s: State, step: PairStep, s': State) {
    && CanTake(canon, s, step) && s' == Take(canon, s, step)
    && GoodSearch(canon, s, step) && RegistersCanonically(canon, step)
  }

  lemma GoodRunKeepsInv(canon: Canon, states: seq<State>, steps: seq<PairStep>, i: nat)
    requires IsPairRun(canon, states, steps) && IsCanon(canon) && GoodRun(canon, states, steps) && i < |states|
    requires forall k {:trigger steps[k]} :: 0 <= k < |steps| ==> RegistersCanonically(canon, steps[k])
    ensures RunInv(canon, states[i])
  {
    forall k {:trigger steps[k]} | 0 <= k < |steps| ensures GoodStep(canon, states[k], steps[k], states[k + 1]) {
    }
    StartInv(canon);
    GoodStepsKeepInv(canon, states, steps, i);
  }

  lemma {:induction false} GoodStepsKeepInv(canon: Canon, states: seq<State>, steps: seq<PairStep>, i: nat)
    requires IsCanon(canon) && |states| == |steps| + 1 && i < |states| && RunInv(canon, states[0])
    requires forall k {:trigger steps[k]} :: 0 <= k < |steps| ==> GoodStep(canon, states[k], steps[k], states[k + 1])
    ensures RunInv(canon, states[i])
  {
    if i > 0 {
      GoodStepsKeepInv(canon, states, steps, i - 1);
      GoodStepKeepsInv(canon, states[i - 1], steps[i - 1], states[i]);
    }
  }

  lemma StartInv(canon: Canon)
    ensures RunInv(canon, State(INITIAL, map[]))
  {
  }

  lemma GoodStepKeepsInv(canon: Canon, s: State, step: PairStep, s': State)
    requires RunInv(canon, s) && IsCanon(canon) && GoodStep(canon, s, step, s')
    ensures RunInv(canon, s')
  {
    TakeKeepsRunInv(canon, s, step);
  }

  /** In a good run an insert gives its pair a second chat exactly when the pair has received one
      since the call's search. */
  lemma SecondExactly(canon: Canon, s: State, step: PairStep)
    requires RunInv(canon, s) && CanTake(canon, s, step) && NoUnsearchedPair(step)
    ensures IsSecond(canon, s, step) <==> step.Insert? && ReceivedSince(s.system.tables, s.pending[step.call])
  {
    if step.Insert? {
      var t, p := s.system.tables, s.pending[step.call];
      assert PendingInv(canon, s, p);
      var members := [p.creator, p.other];
      assert Elements(members) == {p.creator, p.other} && Distinct(members);
      forall a, b | a != b && Elements(members) == {a, b} ensures HasPair(t, a, b) <==> HasPair(t, p.creator, p.other) {
        assert {a, b} == {p.creator, p.other};
      }
    }
  }

  /** Over whole runs in which the searches can be trusted, and every chat of two comes from one, no two
      chats ever have the same pair exactly when no call inserts for a pair that has received a chat
      since that call's search. */
  lemma SearchedPairsStayUniqueExactly(canon: Canon, states: seq<State>, steps: seq<PairStep>)
    requires IsPairRun(canon, states, steps) && IsCanon(canon) && GoodRun(canon, states, steps)
    requires forall k {:trigger steps[k]} :: 0 <= k < |steps| ==> RegistersCanonically(canon, steps[k])
    ensures (forall i :: 0 <= i < |states| ==> PairsUnique(states[i].system.tables))
            <==> forall k {:trigger steps[k]} :: 0 <= k < |steps| && steps[k].Insert? ==>
                   !ReceivedSince(states[k].system.tables, states[k].pending[steps[k].call])
  {
    PairsStayUniqueExactly(canon, states, steps);
    forall k {:trigger steps[k]} | 0 <= k < |steps|
      ensures IsSecond(canon, states[k], steps[k]) <==> steps[k].Insert? && ReceivedSince(states[k].system.tables, states[k].pending[steps[k].call])
    {
      GoodRunKeepsInv(canon, states, steps, k);
      SecondExactly(canon, states[k], steps[k]);
    }
  }

  /** Each insert follows its search at once. */
  ghost predicate AtomicCalls(steps: seq<PairStep>) {
    forall k {:trigger steps[k]} :: 0 <= k < |steps| && steps[k].Insert? ==> k > 0 && steps[k - 1].Search? && steps[k - 1].call == steps[k].call
  }

  /** With CreateChat as one atomic step, ids spelled as the database does and callers in at most 100
      chats, no two chats ever have the same pair. */
  lemma NoSecondChatForAPair(canon: Canon, states: seq<State>, steps: seq<PairStep>, i: nat)
    requires IsPairRun(canon, states, steps) && IsCanon(canon) && GoodRun(canon, states, steps) && i < |states|
    requires forall k {:trigger steps[k]} :: 0 <= k < |steps| ==> RegistersCanonically(canon, steps[k])
    requires AtomicCalls(steps)
    ensures PairsUnique(states[i].system.tables)
  {
    forall k {:trigger steps[k]} | 0 <= k < |steps| && steps[k].Insert?
      ensures !ReceivedSince(states[k].system.tables, states[k].pending[steps[k].call])
    {
      RunKeepsSystemInv(canon, states, steps, k - 1);
      NothingInBetween(canon, states[k - 1], steps[k - 1], steps[k].call);
    }
    SearchedPairsStayUniqueExactly(canon, states, steps);
  }

  lemma NothingInBetween(canon: Canon, s: State, step: PairStep, call: CallId)
    requires SystemInv(s.system) && CanTake(canon, s, step) && step.Search? && step.call == call && call in Take(canon, s, step).pending
    ensures !ReceivedSince(Take(canon, s, step).system.tables, Take(canon, s, step).pending[call])
  {
  }

  /** Part of a run: it may start anywhere. */
  ghost predicate IsStretch(canon: Canon, states: seq<State>, steps: seq<PairStep>) {
    && |states| == |steps| + 1
    && forall i {:trigger steps[i]} :: 0 <= i < |steps| ==> CanTake(canon, states[i], steps[i]) && states[i + 1] == Take(canon, states[i], steps[i])
  }

  lemma OneMore(canon: Canon, states: seq<State>, steps: seq<PairStep>, step: PairStep) returns (states': seq<State>, steps': seq<PairStep>)
    requires IsStretch(canon, states, steps) && CanTake(canon, states[|steps|], step)
    ensures steps' == steps + [step] && states' == states + [Take(canon, states[|steps|], step)] && IsStretch(canon, states', steps')
  {
    states', steps' := states + [Take(canon, states[|steps|], step)], steps + [step];
    forall i | 0 <= i < |steps'| ensures CanTake(canon, states'[i], steps'[i]) && states'[i + 1] == Take(canon, states'[i], steps'[i]) {
      assert i < |steps| ==> steps'[i] == steps[i];
    }
  }

  /** Two registered users and nothing else. */
  ghost predicate Fresh(s: State, a: UserId, b: UserId) {
    && a in s.system.tables.users && b in s.system.tables.users && s.pending == map[]
    && s.system.usedChats == {} && s.system.tables.chats == map[] && s.system.tables.participants == map[]
    && SystemInv(s.system)
  }

  lemma Registered(s: State, canon: Canon, u: UserId) returns (s': State)
    requires SystemInv(s.system) && s.pending == map[] && s.system.tables.chats == map[] && s.system.tables.participants == map[] && s.system.usedChats == {}
    ensures s' == Take(canon, s, Other(Register(u, PublicKey(1)))) && CanTake(canon, s, Other(Register(u, PublicKey(1))))
    ensures Fresh(s', u, u) && s.system.tables.users.Keys <= s'.system.tables.users.Keys
  {
    OneStatement(InsertUser(u, PublicKey(1)), s.system.tables);
    StepKeepsInv(s.system, Register(u, PublicKey(1)));
    s' := Take(canon, s, Other(Register(u, PublicKey(1))));
  }

  lemma FreshRun(canon: Canon, a: UserId, b: UserId) returns (states: seq<State>, steps: seq<PairStep>)
    ensures IsPairRun(canon, states, steps) && |steps| == 2 && Fresh(states[2], a, b)
    ensures forall k :: 0 <= k < 2 ==> steps[k].Other? && steps[k].step.Register? && steps[k].step.user in {a, b}
  {
    var s0 := State(INITIAL, map[]);
    var s1 := Registered(s0, canon, a);
    var s2 := Registered(s1, canon, b);
    states, steps := OneMore(canon, [s0], [], Other(Register(a, PublicKey(1))));
    states, steps := OneMore(canon, states, steps, Other(Register(b, PublicKey(1))));
  }

  lemma EmptyPage(t: Tables, a: UserId, b: UserId)
    requires t.participants == map[]
    ensures IsChatPage(t, a, []) && FindExisting(t, [], b) == None
  {
    assert ChatsOf(t, a) == {};
  }

  lemma RunGoesOn(canon: Canon, states: seq<State>, steps: seq<PairStep>, more: seq<State>, tail: seq<PairStep>)
    requires IsPairRun(canon, states, steps) && IsStretch(canon, more, tail) && more[0] == states[|steps|]
    ensures IsPairRun(canon, states + more[1..], steps + tail)
  {
    var all, taken := states + more[1..], steps + tail;
    forall i | 0 <= i < |taken| ensures CanTake(canon, all[i], taken[i]) && all[i + 1] == Take(canon, all[i], taken[i]) {
      if i < |steps| {
        InFirstPart(canon, states, steps, all, taken, i);
      } else {
        InSecondPart(canon, more, tail, all, taken, |steps|, i - |steps|);
      }
    }
  }

  lemma InFirstPart(canon: Canon, states: seq<State>, steps: seq<PairStep>, all: seq<State>, taken: seq<PairStep>, i: nat)
    requires IsStretch(canon, states, steps) && i < |steps| && steps <= taken && states <= all && |all| == |taken| + 1
    ensures CanTake(canon, all[i], taken[i]) && all[i + 1] == Take(canon, all[i], taken[i])
  {
    assert taken[i] == steps[i] && all[i] == states[i] && all[i + 1] == states[i + 1];
  }

  lemma InSecondPart(canon: Canon, more: seq<State>, tail: seq<PairStep>, all: seq<State>, taken: seq<PairStep>, n: nat, k: nat)
    requires IsStretch(canon, more, tail) && k < |tail| && |all| == |taken| + 1 && n + |tail| == |taken| && taken[n..] == tail && all[n..] == more
    ensures CanTake(canon, all[n + k], taken[n + k]) && all[n + k + 1] == Take(canon, all[n + k], taken[n + k])
  {
    assert taken[n..][k] == taken[n + k] && all[n..][k] == all[n + k] && all[n..][k + 1] == all[n + k + 1];
  }

  /** An insert for a pair of registered users: its chat is there, and has these two members. */
  lemma Inserted(canon: Canon, s: State, k: CallId, chat: ChatId) returns (s': State)
    requires SystemInv(s.system) && CanTake(canon, s, Insert(k, chat, 1))
    requires var p := s.pending[k]; p.creator != canon(p.other) && p.creator in s.system.tables.users && canon(p.other) in s.system.tables.users
    ensures s' == Take(canon, s, Insert(k, chat, 1)) && SystemInv(s'.system) && s'.pending == s.pending - {k}
    ensures s'.system.tables == WithChat(s.system.tables, chat, 1, {s.pending[k].creator, canon(s.pending[k].other)})
    ensures s'.system.usedChats == s.system.usedChats + {chat}
    ensures Members(s'.system.tables, chat) == {s.pending[k].creator, canon(s.pending[k].other)}
    ensures forall c :: c != chat ==> Members(s'.system.tables, c) == Members(s.system.tables, c)
  {
    var p, step := s.pending[k], Insert(k, chat, 1);
    var members := [p.creator, canon(p.other)];
    assert Elements(members) == {p.creator, canon(p.other)} && Distinct(members);
    CanTakeIsEnabled(canon, s, step);
    CreateStep(s.system, CreateChat(chat, 1, members));
    TakeKeepsSystemInv(canon, s, step);
    WithChatMembers(s.system.tables, chat, 1, {p.creator, canon(p.other)});
    s' := Take(canon, s, step);
  }

  lemma TwoOfAPair(t: Tables, first: ChatId, second: ChatId, a: UserId, b: UserId)
    requires first in t.chats && second in t.chats && first != second && a != b
    requires Members(t, first) == {a, b} && Members(t, second) == {b, a}
    ensures !PairsUnique(t)
  {
    assert {b, a} == {a, b};
    assert Members(t, first) == {a, b} == Members(t, second);
  }

  const FIRST := ChatId("1")
  const SECOND := ChatId("2")

  lemma FourSteps(canon: Canon, s0: State, s1: State, s2: State, s3: State, s4: State, a: PairStep, b: PairStep, c: PairStep, d: PairStep)
    returns (states: seq<State>, steps: seq<PairStep>)
    requires CanTake(canon, s0, a) && s1 == Take(canon, s0, a) && CanTake(canon, s1, b) && s2 == Take(canon, s1, b)
    requires CanTake(canon, s2, c) && s3 == Take(canon, s2, c) && CanTake(canon, s3, d) && s4 == Take(canon, s3, d)
    ensures states == [s0, s1, s2, s3, s4] && steps == [a, b, c, d] && IsStretch(canon, states, steps)
  {
    states, steps := [s0, s1, s2, s3, s4], [a, b, c, d];
    forall i | 0 <= i < |steps| ensures CanTake(canon, states[i], steps[i]) && states[i + 1] == Take(canon, states[i], steps[i]) {
      assert i == 0 || i == 1 || i == 2 || i == 3;
    }
  }

  /** A first search among no chats. */
  lemma FirstSearch(canon: Canon, s: State, k: CallId, a: UserId, b: UserId) returns (s': State)
    requires k !in s.pending && s.system.tables.participants == map[]
    requires canon(a) == a && a in s.system.tables.users && canon(b) in s.system.tables.users && a != b
    ensures CanTake(canon, s, Search(k, a, b, [])) && s' == Take(canon, s, Search(k, a, b, []))
    ensures s' == s.(pending := s.pending[k := Pending(a, b, s.system.usedChats)])
  {
    EmptyPage(s.system.tables, a, b);
    s' := Take(canon, s, Search(k, a, b, []));
  }

  lemma RacingInserts(canon: Canon, s: State, a: UserId, b: UserId) returns (s3: State, s4: State)
    requires SystemInv(s.system) && s.system.usedChats == {} && s.pending == map[0 := Pending(a, b, {}), 1 := Pending(b, a, {})]
    requires a != b && canon(a) == a && canon(b) == b && a in s.system.tables.users && b in s.system.tables.users
    ensures CanTake(canon, s, Insert(0, FIRST, 1)) && s3 == Take(canon, s, Insert(0, FIRST, 1))
    ensures CanTake(canon, s3, Insert(1, SECOND, 1)) && s4 == Take(canon, s3, Insert(1, SECOND, 1))
    ensures !PairsUnique(s4.system.tables)
  {
    assert FIRST.text[0] != SECOND.text[0];
    s3 := Inserted(canon, s, 0, FIRST);
    s4 := Inserted(canon, s3, 1, SECOND);
    TwoOfAPair(s4.system.tables, FIRST, SECOND, a, b);
  }

  /** The four steps of two overlapping calls. */
  lemma RacingSteps(canon: Canon, s: State, a: UserId, b: UserId) returns (states: seq<State>, steps: seq<PairStep>)
    requires Fresh(s, a, b) && a != b && canon(a) == a && canon(b) == b
    ensures IsStretch(canon, states, steps) && states[0] == s
    ensures steps == [Search(0, a, b, []), Search(1, b, a, []), Insert(0, FIRST, 1), Insert(1, SECOND, 1)]
    ensures !PairsUnique(states[4].system.tables)
  {
    var s1 := FirstSearch(canon, s, 0, a, b);
    var s2 := FirstSearch(canon, s1, 1, b, a);
    var s3, s4 := RacingInserts(canon, s2, a, b);
    states, steps := FourSteps(canon, s, s1, s2, s3, s4, Search(0, a, b, []), Search(1, b, a, []), Insert(0, FIRST, 1), Insert(1, SECOND, 1));
  }

  /** A run in which two overlapping calls, one from either side, both search before either inserts. */
  lemma RacingCallsInsertTwice(canon: Canon, a: UserId, b: UserId) returns (states: seq<State>, steps: seq<PairStep>)
    requires a != b && canon(a) == a && canon(b) == b
    ensures IsPairRun(canon, states, steps) && |steps| == 6
    ensures steps[2..] == [Search(0, a, b, []), Search(1, b, a, []), Insert(0, FIRST, 1), Insert(1, SECOND, 1)]
    ensures !PairsUnique(states[6].system.tables)
  {
    states, steps := FreshRun(canon, a, b);
    var more, tail := RacingSteps(canon, states[2], a, b);
    RunGoesOn(canon, states, steps, more, tail);
    states, steps := states + more[1..], steps + tail;
  }

  lemma OnlyChatIsThePage(t: Tables, chat: ChatId, a: UserId)
    requires ForeignKeys(t) && t.chats.Keys == {chat} && a in Members(t, chat)
    ensures IsChatPage(t, a, [chat]) && |ChatsOf(t, a)| == 1
  {
    InChatsOf(t, chat, a);
    assert ChatsOf(t, a) == {chat};
  }

  /** The second search of the same request, when the id is spelled differently from the stored one. */
  lemma SearchAgain(canon: Canon, s: State, a: UserId, b: UserId)
    requires SystemInv(s.system) && s.pending == map[] && canon(a) == a && a != b && b != canon(b)
    requires a in s.system.tables.users && canon(b) in s.system.tables.users
    requires s.system.tables.chats.Keys == {FIRST} && Members(s.system.tables, FIRST) == {a, canon(b)}
    ensures CanTake(canon, s, Search(1, a, b, [FIRST]))
    ensures Take(canon, s, Search(1, a, b, [FIRST])) == s.(pending := map[1 := Pending(a, b, s.system.usedChats)])
  {
    OnlyChatIsThePage(s.system.tables, FIRST, a);
    FindExistingFinds(s.system.tables, [FIRST], b);
  }

  /** The only chat is that of the pair. */
  ghost predicate OnePair(s: State, a: UserId, c: UserId) {
    && SystemInv(s.system) && s.pending == map[] && s.system.usedChats == {FIRST} && s.system.tables.chats.Keys == {FIRST}
    && Members(s.system.tables, FIRST) == {a, c} && a in s.system.tables.users && c in s.system.tables.users
  }

  lemma FirstCall(canon: Canon, s: State, a: UserId, b: UserId) returns (s1: State, s2: State)
    requires Fresh(s, a, canon(b)) && canon(a) == a && a != canon(b) && a != b
    ensures CanTake(canon, s, Search(0, a, b, [])) && s1 == Take(canon, s, Search(0, a, b, []))
    ensures CanTake(canon, s1, Insert(0, FIRST, 1)) && s2 == Take(canon, s1, Insert(0, FIRST, 1))
    ensures OnePair(s2, a, canon(b))
  {
    s1 := FirstSearch(canon, s, 0, a, b);
    s2 := Inserted(canon, s1, 0, FIRST);
  }

  lemma SecondCall(canon: Canon, s: State, a: UserId, b: UserId) returns (s3: State, s4: State)
    requires OnePair(s, a, canon(b)) && canon(a) == a && a != canon(b) && a != b && b != canon(b)
    ensures CanTake(canon, s, Search(1, a, b, [FIRST])) && s3 == Take(canon, s, Search(1, a, b, [FIRST]))
    ensures CanTake(canon, s3, Insert(1, SECOND, 1)) && s4 == Take(canon, s3, Insert(1, SECOND, 1))
    ensures !PairsUnique(s4.system.tables)
  {
    SearchAgain(canon, s, a, b);
    s3 := s.(pending := map[1 := Pending(a, b, s.system.usedChats)]);
    assert FIRST.text[0] != SECOND.text[0];
    s4 := Inserted(canon, s3, 1, SECOND);
    TwoOfAPair(s4.system.tables, FIRST, SECOND, canon(b), a);
  }

  lemma SpelledSteps(canon: Canon, s: State, a: UserId, b: UserId) returns (states: seq<State>, steps: seq<PairStep>)
    requires Fresh(s, a, canon(b)) && canon(a) == a && a != canon(b) && a != b && b != canon(b)
    ensures IsStretch(canon, states, steps) && states[0] == s
    ensures steps == [Search(0, a, b, []), Insert(0, FIRST, 1), Search(1, a, b, [FIRST]), Insert(1, SECOND, 1)]
    ensures !PairsUnique(states[4].system.tables)
  {
    var s1, s2 := FirstCall(canon, s, a, b);
    var s3, s4 := SecondCall(canon, s2, a, b);
    states, steps := FourSteps(canon, s, s1, s2, s3, s4, Search(0, a, b, []), Insert(0, FIRST, 1), Search(1, a, b, [FIRST]), Insert(1, SECOND, 1));
  }

  /** A run in which one user sends the same request twice, one call after the other, spelling the
      other user's id in another way than the database does: both calls insert. */
  lemma SpelledOtherwiseInsertsTwice(canon: Canon, a: UserId, b: UserId) returns (states: seq<State>, steps: seq<PairStep>)
    requires canon(a) == a && a != canon(b) && a != b && b != canon(b)
    ensures IsPairRun(canon, states, steps) && |steps| == 6
    ensures steps[2..] == [Search(0, a, b, []), Insert(0, FIRST, 1), Search(1, a, b, [FIRST]), Insert(1, SECOND, 1)]
    ensures !PairsUnique(states[6].system.tables)
  {
    states, steps := FreshRun(canon, a, canon(b));
    var more, tail := SpelledSteps(canon, states[2], a, b);
    RunGoesOn(canon, states, steps, more, tail);
    states, steps := states + more[1..], steps + tail;
  }

  lemma WrittenDiffers(x: seq<PostgresUuids.Digit>, y: seq<PostgresUuids.Digit>)
    requires |x| == |y| == PostgresUuids.SIZE && x != y
    ensures PostgresUuids.WriteFrom(x, 0, false) != PostgresUuids.WriteFrom(y, 0, false)
  {
    PostgresUuids.ReadOfWrite(x, 0, false);
    PostgresUuids.ReadOfWrite(y, 0, false);
    assert x[0..] == x && y[0..] == y;
  }

  /** With PostgreSQL's own reading of a UUID: any two users of which the second one's id starts with a
      letter, when the request writes that id in upper case. */
  lemma UpperCaseInsertsTwice(x: seq<PostgresUuids.Digit>, y: seq<PostgresUuids.Digit>) returns (states: seq<State>, steps: seq<PairStep>)
    requires |x| == |y| == PostgresUuids.SIZE && x != y && y[0] >= 10
    ensures IsPairRun(PostgresUuids.Spelled, states, steps) && |steps| == 6 && !PairsUnique(states[6].system.tables)
    ensures var a, b := UserId(PostgresUuids.WriteFrom(x, 0, false)), UserId(PostgresUuids.WriteFrom(y, 0, true));
            steps[2..] == [Search(0, a, b, []), Insert(0, FIRST, 1), Search(1, a, b, [FIRST]), Insert(1, SECOND, 1)]
  {
    var a, b := UserId(PostgresUuids.WriteFrom(x, 0, false)), UserId(PostgresUuids.WriteFrom(y, 0, true));
    PostgresUuids.SpelledOfWrite(x, false);
    PostgresUuids.TwoSpellings(y);
    WrittenDiffers(x, y);
    states, steps := SpelledOtherwiseInsertsTwice(PostgresUuids.Spelled, a, b);
  }
}

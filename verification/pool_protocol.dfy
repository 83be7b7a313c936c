/** The connection pool as a protocol between threads: the critical sections of Acquire and
    Return, and what the condition variable does in between. One step is one critical section
    or one event of the condition variable, so a run is any interleaving of the threads. */
module PoolProtocol {
  import opened Wrappers
  import opened Sequences

  type ThreadId = nat

  /** Where a thread stands with respect to the pool's condition variable. */
  datatype Status =
    | Running   // not inside a wait
    | Waiting   // blocked, nobody has woken it
    | Notified  // woken by notify_one, has not re-entered the mutex yet
    | Spurious  // woken for no reason, has not re-entered the mutex yet
    | TimedOut  // its wait returned cv_status::timeout, so it is about to throw

  /** `held` are the connections out of the deque; the three sequences record the whole past. */
  datatype State<C(==)> = State(
    free: seq<C>,
    held: set<C>,
    status: map<ThreadId, Status>,
    initial: seq<C>,
    handedOut: seq<C>,
    returned: seq<C>)

  datatype Step<C> =
    | Enter(thread: ThreadId)                                        // Acquire up to its first wait
    | Resume(thread: ThreadId)                                       // a woken waiter re-tests the deque
    | Return(thread: ThreadId, conn: C, woken: Option<ThreadId>)     // push_back and notify_one
    | SpuriousWake(thread: ThreadId)
    | Timeout(thread: ThreadId)                                      // an un-notified waiter times out
    | LateTimeout(thread: ThreadId)                                  // a notified waiter is told "timeout"
    | Throw(thread: ThreadId)

  function Init<C>(connections: seq<C>, threads: set<ThreadId>): State<C> {
    State(connections, {}, map t | t in threads :: Running, connections, [], [])
  }

  function InStatus<C>(s: State<C>, st: Status): set<ThreadId> {
    set t | t in s.status && s.status[t] == st
  }

  predicate HasStatus<C>(s: State<C>, t: ThreadId, st: Status) {
    t in s.status && s.status[t] == st
  }

  predicate Enabled<C>(s: State<C>, step: Step<C>) {
    match step
    case Enter(t) => HasStatus(s, t, Running)
    case Resume(t) => HasStatus(s, t, Notified) || HasStatus(s, t, Spurious)
    case Return(t, c, w) =>
      && HasStatus(s, t, Running)
      && c in s.held
      && (w.None? ==> InStatus(s, Waiting) == {})
      && (w.Some? ==> HasStatus(s, w.value, Waiting))
    case SpuriousWake(t) => HasStatus(s, t, Waiting)
    case Timeout(t) => HasStatus(s, t, Waiting)
    case LateTimeout(t) => HasStatus(s, t, Notified) || HasStatus(s, t, Spurious)
    case Throw(t) => HasStatus(s, t, TimedOut)
  }

  /** The body of the wait loop: take the front connection, or wait when there is none. */
  function TakeOrWait<C>(s: State<C>, t: ThreadId): State<C> {
    if s.free == [] then s.(status := s.status[t := Waiting])
    else s.(free := s.free[1..], held := s.held + {s.free[0]}, handedOut := s.handedOut + [s.free[0]],
            status := s.status[t := Running])
  }

  function Apply<C>(s: State<C>, step: Step<C>): State<C>
    requires Enabled(s, step)
  {
    match step
    case Enter(t) => TakeOrWait(s, t)
    case Resume(t) => TakeOrWait(s, t)
    case Return(t, c, w) =>
      s.(free := s.free + [c], held := s.held - {c}, returned := s.returned + [c],
         status := if w.Some? then s.status[w.value := Notified] else s.status)
    case SpuriousWake(t) => s.(status := s.status[t := Spurious])
    case Timeout(t) => s.(status := s.status[t := TimedOut])
    case LateTimeout(t) => s.(status := s.status[t := TimedOut])
    case Throw(t) => s.(status := s.status[t := Running])
  }

  /** Every connection made at start-up is in the deque or out, in exactly one place, and the
      connections leave the deque in the order in which they entered it. */
  ghost predicate Conserved<C>(s: State<C>) {
    && Distinct(s.initial)
    && Distinct(s.free)
    && Elements(s.free) !! s.held
    && Elements(s.free) + s.held == Elements(s.initial)
    && s.handedOut + s.free == s.initial + s.returned
  }

  /** A blocked thread that nobody has woken implies that every free connection is matched by
      a notified thread that has not run yet. */
  ghost predicate NoLostWakeup<C>(s: State<C>) {
    InStatus(s, Waiting) != {} ==> |s.free| <= |InStatus(s, Notified)|
  }

  /** `states[i+1]` follows from `states[i]` by `steps[i]`, starting from a fresh pool. */
  ghost predicate IsRun<C>(states: seq<State<C>>, steps: seq<Step<C>>) {
    && |states| == |steps| + 1
    && (exists threads: set<ThreadId> :: states[0] == Init(states[0].initial, threads))
    && Distinct(states[0].initial)
    && forall i {:trigger steps[i]} :: 0 <= i < |steps| ==> Enabled(states[i], steps[i]) && states[i + 1] == Apply(states[i], steps[i])
  }

  lemma TakeOrWaitConserves<C>(s: State<C>, t: ThreadId)
    requires Conserved(s)
    ensures Conserved(TakeOrWait(s, t))
  {
    if s.free != [] {
      var c, s' := s.free[0], TakeOrWait(s, t);
      DistinctCons(s.free);
      assert c in Elements(s.free);
      assert s'.handedOut + s'.free == s.handedOut + s.free by {
        assert s.free == [c] + s.free[1..];
      }
    }
  }

  lemma StepConserves<C>(s: State<C>, step: Step<C>)
    requires Conserved(s) && Enabled(s, step)
    ensures Conserved(Apply(s, step))
    ensures Apply(s, step).initial == s.initial
  {
    match step
    case Enter(t) => TakeOrWaitConserves(s, t);
    case Resume(t) => TakeOrWaitConserves(s, t);
    case Return(t, c, w) =>
      var s' := Apply(s, step);
      assert Elements(s'.free) == Elements(s.free) + {c};
      forall i, j | 0 <= i < j < |s'.free| ensures s'.free[i] != s'.free[j] {
        assert s.free[i] in Elements(s.free);
      }
      assert s'.handedOut + s'.free == (s.handedOut + s.free) + [c];
      assert s'.initial + s'.returned == (s.initial + s.returned) + [c];
    case SpuriousWake(_) | Timeout(_) | LateTimeout(_) | Throw(_) =>
  }

  /** Every connection is free or held, exactly once, in FIFO order, in every interleaving. */
  lemma {:induction false} RunConserves<C>(states: seq<State<C>>, steps: seq<Step<C>>, i: nat)
    requires IsRun(states, steps) && i < |states|
    ensures Conserved(states[i])
    ensures states[i].initial == states[0].initial
  {
    if i == 0 {
      assert states[0].handedOut + states[0].free == states[0].initial + states[0].returned;
    } else {
      RunConserves(states, steps, i - 1);
      StepConserves(states[i - 1], steps[i - 1]);
    }
  }

  /** The connections handed out are a prefix of (start-up order, then return order). */
  lemma HandedOutInOrder<C>(states: seq<State<C>>, steps: seq<Step<C>>, i: nat)
    requires IsRun(states, steps) && i < |states|
    ensures states[i].handedOut <= states[i].initial + states[i].returned
    ensures |states[i].free| + |states[i].held| == |states[0].initial|
  {
    RunConserves(states, steps, i);
    var s := states[i];
    assert s.handedOut <= s.handedOut + s.free;
    DistinctSize(s.free);
    DistinctSize(s.initial);
  }

  lemma ResumeNotified<C>(s: State<C>, t: ThreadId, st: Status)
    requires HasStatus(s, t, Notified) && st != Notified
    ensures InStatus(s.(status := s.status[t := st]), Notified) == InStatus(s, Notified) - {t}
    ensures |InStatus(s, Notified)| == |InStatus(s.(status := s.status[t := st]), Notified)| + 1
  {
    assert t in InStatus(s, Notified);
    assert InStatus(s.(status := s.status[t := st]), Notified) == InStatus(s, Notified) - {t};
  }

  lemma TakeOrWaitWakes<C>(s: State<C>, t: ThreadId)
    requires NoLostWakeup(s) && t in s.status && s.status[t] in {Running, Notified, Spurious}
    ensures NoLostWakeup(TakeOrWait(s, t))
  {
    if s.free != [] {
      var s' := TakeOrWait(s, t);
      assert InStatus(s', Waiting) == InStatus(s, Waiting);
      if s.status[t] == Notified {
        ResumeNotified(s, t, Running);
        assert InStatus(s', Notified) == InStatus(s.(status := s.status[t := Running]), Notified);
      } else {
        assert InStatus(s', Notified) == InStatus(s, Notified);
      }
    }
  }

  lemma ReturnWakes<C>(s: State<C>, t: ThreadId, c: C, w: Option<ThreadId>)
    requires NoLostWakeup(s) && Enabled(s, Return(t, c, w))
    ensures NoLostWakeup(Apply(s, Return(t, c, w)))
  {
    var s' := Apply(s, Return(t, c, w));
    if w.Some? {
      assert w.value in InStatus(s, Waiting) && w.value !in InStatus(s, Notified);
      assert InStatus(s', Notified) == InStatus(s, Notified) + {w.value};
    } else {
      assert InStatus(s', Waiting) == InStatus(s, Waiting);
    }
  }

  lemma StatusChangeWakes<C>(s: State<C>, t: ThreadId, st: Status)
    requires NoLostWakeup(s) && t in s.status
    requires s.status[t] !in {Notified} && st !in {Notified, Waiting}
    ensures NoLostWakeup(s.(status := s.status[t := st]))
  {
    var s' := s.(status := s.status[t := st]);
    assert InStatus(s', Notified) == InStatus(s, Notified);
    assert InStatus(s', Waiting) <= InStatus(s, Waiting);
  }

  /** Every step but a late timeout keeps the wake-up guarantee. */
  lemma StepWakes<C>(s: State<C>, step: Step<C>)
    requires NoLostWakeup(s) && Enabled(s, step) && !step.LateTimeout?
    ensures NoLostWakeup(Apply(s, step))
  {
    match step
    case Enter(t) => TakeOrWaitWakes(s, t);
    case Resume(t) => TakeOrWaitWakes(s, t);
    case Return(t, c, w) => ReturnWakes(s, t, c, w);
    case SpuriousWake(t) => StatusChangeWakes(s, t, Spurious);
    case Timeout(t) => StatusChangeWakes(s, t, TimedOut);
    case Throw(t) => StatusChangeWakes(s, t, Running);
  }

  /** In every run without a late timeout no wake-up is ever lost. */
  lemma {:induction false} RunLosesNoWakeup<C>(states: seq<State<C>>, steps: seq<Step<C>>, i: nat)
    requires IsRun(states, steps) && i < |states|
    requires forall k :: 0 <= k < |steps| ==> !steps[k].LateTimeout?
    ensures NoLostWakeup(states[i])
  {
    if i == 0 {
      assert InStatus(states[0], Waiting) == {};
    } else {
      RunLosesNoWakeup(states, steps, i - 1);
      StepWakes(states[i - 1], steps[i - 1]);
    }
  }

  /** The waiter was not needed: nobody else is blocked, or it was not counted on. */
  ghost predicate Harmless<C>(s: State<C>, t: ThreadId) {
    InStatus(s, Waiting) == {} || HasStatus(s, t, Spurious) || |s.free| < |InStatus(s, Notified)|
  }

  /** A late timeout keeps the guarantee exactly when no one else is blocked, or when the
      timed-out thread was not the one its free connection was counting on. */
  lemma LateTimeoutExactly<C>(s: State<C>, t: ThreadId)
    requires NoLostWakeup(s) && Enabled(s, LateTimeout(t))
    ensures NoLostWakeup(Apply(s, LateTimeout(t))) <==> Harmless(s, t)
  {
    var s' := Apply(s, LateTimeout(t));
    assert InStatus(s', Waiting) == InStatus(s, Waiting);
    if HasStatus(s, t, Notified) {
      ResumeNotified(s, t, TimedOut);
    } else {
      assert InStatus(s', Notified) == InStatus(s, Notified);
    }
  }

  /** Over whole runs: no wake-up is ever lost exactly when every late timeout is harmless in the
      state in which it happens. */
  lemma RunLosesNoWakeupExactly<C>(states: seq<State<C>>, steps: seq<Step<C>>)
    requires IsRun(states, steps)
    ensures (forall i :: 0 <= i < |states| ==> NoLostWakeup(states[i]))
            <==> forall k :: 0 <= k < |steps| && steps[k].LateTimeout? ==> Harmless(states[k], steps[k].thread)
  {
    if forall k :: 0 <= k < |steps| && steps[k].LateTimeout? ==> Harmless(states[k], steps[k].thread) {
      forall i | 0 <= i < |states| ensures NoLostWakeup(states[i]) {
        HarmlessLosesNothing(states, steps, i);
      }
    }
    if forall i :: 0 <= i < |states| ==> NoLostWakeup(states[i]) {
      forall k | 0 <= k < |steps| && steps[k].LateTimeout? ensures Harmless(states[k], steps[k].thread) {
        LateTimeoutExactly(states[k], steps[k].thread);
        assert NoLostWakeup(states[k + 1]);
      }
    }
  }

  lemma {:induction false} HarmlessLosesNothing<C>(states: seq<State<C>>, steps: seq<Step<C>>, i: nat)
    requires IsRun(states, steps) && i < |states|
    requires forall k :: 0 <= k < |steps| && steps[k].LateTimeout? ==> Harmless(states[k], steps[k].thread)
    ensures NoLostWakeup(states[i])
  {
    if i == 0 {
      assert InStatus(states[0], Waiting) == {};
    } else {
      HarmlessLosesNothing(states, steps, i - 1);
      if steps[i - 1].LateTimeout? {
        LateTimeoutExactly(states[i - 1], steps[i - 1].thread);
      } else {
        StepWakes(states[i - 1], steps[i - 1]);
      }
    }
  }

  /** One connection and three threads: thread 1 borrows it, threads 2 and 3 wait for it, thread
      1 returns it and wakes thread 2, which is told "timeout" all the same and throws. */
  function LostSteps<C>(c: C): seq<Step<C>> {
    [Enter(1), Enter(2), Enter(3), Return(1, c, Some(2)), LateTimeout(2), Throw(2)]
  }

  function LostStates<C(==)>(c: C): seq<State<C>> {
    var out := (two, three) => State([], {c}, map[1 := Running, 2 := two, 3 := three], [c], [c], []);
    var back := two => State([c], {}, map[1 := Running, 2 := two, 3 := Waiting], [c], [c], [c]);
    [Init([c], {1, 2, 3}), out(Running, Running), out(Waiting, Running), out(Waiting, Waiting),
     back(Notified), back(TimedOut), back(Running)]
  }

  lemma LostStep<C>(c: C, i: nat)
    requires i < |LostSteps(c)|
    ensures Enabled(LostStates(c)[i], LostSteps(c)[i])
    ensures LostStates(c)[i + 1].status == Apply(LostStates(c)[i], LostSteps(c)[i]).status
    ensures LostStates(c)[i + 1] == Apply(LostStates(c)[i], LostSteps(c)[i])
  {
  }

  /** The guarantee does fail: after LostSteps thread 3 stays blocked although the connection is
      free, because thread 2 threw without testing the deque again and nobody is left to wake it. */
  lemma LostWakeupHappens<C>(c: C)
    ensures IsRun(LostStates(c), LostSteps(c))
    ensures var last := LostStates(c)[6];
            last.free == [c] && HasStatus(last, 3, Waiting) && InStatus(last, Notified) == {} == InStatus(last, Spurious)
    ensures !NoLostWakeup(LostStates(c)[6])
  {
    forall i | 0 <= i < |LostSteps(c)|
      ensures Enabled(LostStates(c)[i], LostSteps(c)[i]) && LostStates(c)[i + 1] == Apply(LostStates(c)[i], LostSteps(c)[i])
    {
      LostStep(c, i);
    }
    var last := LostStates(c)[6];
    assert 3 in InStatus(last, Waiting);
    assert |InStatus(last, Notified)| == 0;
  }

  lemma ResumeFirst<C>(s: State<C>, order: seq<ThreadId>)
    requires order != [] && Distinct(order)
    requires forall i :: 0 <= i < |order| ==> HasStatus(s, order[i], Notified)
    ensures Enabled(s, Resume(order[0])) && Distinct(order[1..])
    ensures forall i :: 0 <= i < |order[1..]| ==> HasStatus(Apply(s, Resume(order[0])), order[1..][i], Notified)
  {
    var s1 := Apply(s, Resume(order[0]));
    forall i | 0 <= i < |order[1..]| ensures HasStatus(s1, order[1..][i], Notified) {
      var t := order[i + 1];
      assert order[1..][i] == t && t != order[0];
      assert HasStatus(s, t, Notified);
    }
  }

  /** Runs every notified thread once, in the given order. */
  function ResumeAll<C>(s: State<C>, order: seq<ThreadId>): State<C>
    requires forall i :: 0 <= i < |order| ==> HasStatus(s, order[i], Notified)
    requires Distinct(order)
    decreases |order|
  {
    if order == [] then s
    else
      ResumeFirst(s, order);
      ResumeAll(Apply(s, Resume(order[0])), order[1..])
  }

  /** Progress: once every notified thread has run, in whatever order, a thread that is still
      blocked means that the deque is empty. */
  lemma {:induction false} NotifiedThreadsDrain<C>(s: State<C>, order: seq<ThreadId>)
    requires NoLostWakeup(s) && Distinct(order)
    requires Elements(order) == InStatus(s, Notified)
    requires forall i :: 0 <= i < |order| ==> HasStatus(s, order[i], Notified)
    ensures var s' := ResumeAll(s, order);
            InStatus(s', Notified) == {} && (InStatus(s', Waiting) != {} ==> s'.free == [])
    decreases |order|
  {
    if order != [] {
      var s1 := Apply(s, Resume(order[0]));
      assert order[0] in Elements(order);
      StepWakes(s, Resume(order[0]));
      DistinctCons(order);
      assert InStatus(s1, Notified) == InStatus(s, Notified) - {order[0]};
      NotifiedThreadsDrain(s1, order[1..]);
    }
  }

  /** The thread is inside Acquire. */
  predicate Inside<C>(s: State<C>, t: ThreadId) {
    t in s.status && s.status[t] != Running
  }

  /** The thread has the connection that was in front of the deque, and nobody else has got one. */
  predicate GetsFront<C>(s: State<C>, s': State<C>) {
    && s.free != [] && s'.handedOut == s.handedOut + [s.free[0]] && s'.free == s.free[1..]
    && s'.held == s.held + {s.free[0]} && s'.returned == s.returned
  }

  /** The deque and what was handed out are as before. */
  predicate GetsNothing<C>(s: State<C>, s': State<C>) {
    s'.handedOut == s.handedOut && s'.free == s.free && s'.held == s.held && s'.returned == s.returned
  }

  /** Acquire answers: in every run a thread comes out of it only with the connection in front of the
      deque or with an exception, and the exception only after its wait has timed out. A woken thread
      that finds the deque empty stays inside. */
  lemma AcquireAnswers<C>(states: seq<State<C>>, steps: seq<Step<C>>, i: nat, t: ThreadId)
    requires IsRun(states, steps) && i < |steps| && Inside(states[i], t)
    ensures !Inside(states[i + 1], t) <==> steps[i] == Throw(t) || (steps[i] == Resume(t) && states[i].free != [])
    ensures steps[i] == Resume(t) ==> if states[i].free != [] then GetsFront(states[i], states[i + 1]) else HasStatus(states[i + 1], t, Waiting) && GetsNothing(states[i], states[i + 1])
    ensures steps[i] == Throw(t) ==> HasStatus(states[i], t, TimedOut) && GetsNothing(states[i], states[i + 1])
  {
    assert Enabled(states[i], steps[i]) && states[i + 1] == Apply(states[i], steps[i]);
  }

  /** A thread that calls Acquire has the front connection at once, or is inside when there is none. */
  lemma EnterAnswers<C>(states: seq<State<C>>, steps: seq<Step<C>>, i: nat, t: ThreadId)
    requires IsRun(states, steps) && i < |steps| && steps[i] == Enter(t)
    ensures Inside(states[i + 1], t) <==> states[i].free == []
    ensures if states[i].free != [] then GetsFront(states[i], states[i + 1]) else HasStatus(states[i + 1], t, Waiting) && GetsNothing(states[i], states[i + 1])
  {
    assert Enabled(states[i], steps[i]) && states[i + 1] == Apply(states[i], steps[i]);
  }

  /** A step changes the standing of its own thread only, but for a Return, which wakes the thread
      that it notifies. */
  lemma OthersKeepStatus<C>(states: seq<State<C>>, steps: seq<Step<C>>, i: nat, t: ThreadId)
    requires IsRun(states, steps) && i < |steps| && t in states[i].status && (steps[i].Return? || steps[i].thread != t)
    ensures t in states[i + 1].status
    ensures if steps[i].Return? && steps[i].woken == Some(t) then HasStatus(states[i], t, Waiting) && HasStatus(states[i + 1], t, Notified)
            else states[i + 1].status[t] == states[i].status[t]
  {
    assert Enabled(states[i], steps[i]) && states[i + 1] == Apply(states[i], steps[i]);
  }

  /** What a step makes of its own thread's standing. */
  lemma OwnStatus<C>(states: seq<State<C>>, steps: seq<Step<C>>, i: nat)
    requires IsRun(states, steps) && i < |steps|
    ensures var s, s', t := states[i], states[i + 1], steps[i].thread;
            match steps[i]
            case Enter(_) => HasStatus(s, t, Running) && HasStatus(s', t, if s.free == [] then Waiting else Running)
            case Resume(_) => (HasStatus(s, t, Notified) || HasStatus(s, t, Spurious)) && HasStatus(s', t, if s.free == [] then Waiting else Running)
            case Return(_, _, _) => HasStatus(s, t, Running) && HasStatus(s', t, Running)
            case SpuriousWake(_) => HasStatus(s, t, Waiting) && HasStatus(s', t, Spurious)
            case Timeout(_) => HasStatus(s, t, Waiting) && HasStatus(s', t, TimedOut)
            case LateTimeout(_) => (HasStatus(s, t, Notified) || HasStatus(s, t, Spurious)) && HasStatus(s', t, TimedOut)
            case Throw(_) => HasStatus(s, t, TimedOut) && HasStatus(s', t, Running)
  {
    assert Enabled(states[i], steps[i]) && states[i + 1] == Apply(states[i], steps[i]);
  }

  /** What a thread inside Acquire can do without anyone's help until it is out. */
  function WayOut<C>(s: State<C>, t: ThreadId): seq<Step<C>>
    requires Inside(s, t)
  {
    if s.status[t] == TimedOut then [Throw(t)]
    else if s.status[t] == Waiting then [Timeout(t), Throw(t)]
    else if s.free != [] then [Resume(t)]
    else [Resume(t), Timeout(t), Throw(t)]
  }

  predicate AllEnabled<C>(s: State<C>, steps: seq<Step<C>>)
    decreases |steps|
  {
    steps != [] ==> Enabled(s, steps[0]) && AllEnabled(Apply(s, steps[0]), steps[1..])
  }

  function ApplyAll<C>(s: State<C>, steps: seq<Step<C>>): State<C>
    requires AllEnabled(s, steps)
    decreases |steps|
  {
    if steps == [] then s else ApplyAll(Apply(s, steps[0]), steps[1..])
  }

  lemma ThrowsOut<C>(s: State<C>, t: ThreadId)
    requires HasStatus(s, t, TimedOut)
    ensures AllEnabled(s, [Throw(t)]) && ApplyAll(s, [Throw(t)]) == Apply(s, Throw(t))
  {
    var steps: seq<Step<C>> := [Throw(t)];
    assert steps[1..] == [];
  }

  lemma TimesOut<C>(s: State<C>, t: ThreadId)
    requires HasStatus(s, t, Waiting)
    ensures AllEnabled(s, [Timeout(t), Throw(t)])
    ensures ApplyAll(s, [Timeout(t), Throw(t)]) == Apply(Apply(s, Timeout(t)), Throw(t))
  {
    var steps: seq<Step<C>> := [Timeout(t), Throw(t)];
    assert steps[1..] == [Throw(t)];
    ThrowsOut(Apply(s, Timeout(t)), t);
  }

  /** No thread is stuck in Acquire: wherever it stands, at most three steps of its own take it out,
      with a connection exactly when it is woken and there is one. */
  lemma AcquireEnds<C>(s: State<C>, t: ThreadId)
    requires Inside(s, t)
    ensures var way := WayOut(s, t);
            && |way| <= 3 && AllEnabled(s, way) && !Inside(ApplyAll(s, way), t)
            && (ApplyAll(s, way).handedOut != s.handedOut <==> (HasStatus(s, t, Notified) || HasStatus(s, t, Spurious)) && s.free != [])
  {
    var way := WayOut(s, t);
    if s.status[t] == TimedOut {
      ThrowsOut(s, t);
    } else if s.status[t] == Waiting {
      TimesOut(s, t);
    } else {
      var s1 := Apply(s, Resume(t));
      if s.free == [] {
        TimesOut(s1, t);
        assert way[1..] == [Timeout(t), Throw(t)];
      } else {
        assert way[1..] == [];
        assert |s1.handedOut| == |s.handedOut| + 1;
      }
    }
  }
}

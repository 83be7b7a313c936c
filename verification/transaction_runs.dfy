/** The scope guards of many threads over one pool: who has a transaction open on which
    connection, in every interleaving of borrowing, BEGIN, COMMIT, destructors and lost
    connections. */
module TransactionRuns {
  import opened Wrappers
  import opened Sequences
  import P = PoolProtocol

  /** What matters of a connection: whether it is up, and whether it has a transaction open. */
  datatype Conn = Conn(isOpen: bool, busy: bool)

  /** What a borrowed connection is in: a bare wrapper, or a Transaction before or after its
      commit. A Transaction whose BEGIN throws is a wrapper until it is destroyed. */
  datatype Phase = Borrowed | Active | Committed

  datatype World<C(==)> = World(pool: P.State<C>, conns: map<C, Conn>, guards: map<C, Phase>)

  /** `works`: the server executes the command and the answer arrives. */
  datatype Action<C> =
    | Pool(step: P.Step<C>)  // anything that Acquire does
    | Begin(c: C, works: bool)
    | Commit(c: C, works: bool)
    | Destroy(c: C, thread: P.ThreadId, woken: Option<P.ThreadId>)
    | Lose(c: C)

  /** The three operations on one connection; Err where the code throws. */
  function BeginOn(conn: Conn, works: bool): Result<Conn, string> {
    if conn.busy then Err("A transaction is already active on this connection.")
    else if !conn.isOpen || !works then Err("BEGIN failed")
    else Ok(conn.(busy := true))
  }

  function CommitOn(conn: Conn, works: bool): Result<Conn, string> {
    if !conn.busy then Err("No active transaction to commit.")
    else if !conn.isOpen || !works then Err("COMMIT failed")
    else Ok(conn.(busy := false))
  }

  function RollbackOn(conn: Conn): Result<Conn, string> {
    if !conn.busy then Err("No active transaction to rollback.") else Ok(conn.(busy := false))
  }

  /** CleanupExistingTransaction rolls back in a live connection that has not committed. */
  predicate RollsBack(conn: Conn, phase: Phase) {
    phase == Active && conn.isOpen
  }

  function Cleaned(conn: Conn, phase: Phase): Conn {
    if RollsBack(conn, phase) then conn.(busy := false) else conn
  }

  /** A connection that leaves the deque is in a bare wrapper, and one that returns is in none. */
  function Guards<C>(pool: P.State<C>, guards: map<C, Phase>): map<C, Phase> {
    map c | c in pool.held :: if c in guards then guards[c] else Borrowed
  }

  function Start<C>(connections: seq<C>, threads: set<P.ThreadId>): World<C> {
    World(P.Init(connections, threads), map c | c in connections :: Conn(true, false), map[])
  }

  predicate IsIn<C>(w: World<C>, c: C, phase: Phase) {
    c in w.guards && w.guards[c] == phase
  }

  predicate Enabled<C>(w: World<C>, a: Action<C>) {
    match a
    case Pool(step) => !step.Return? && P.Enabled(w.pool, step)
    case Begin(c, works) => c in w.conns && IsIn(w, c, Borrowed)
    case Commit(c, works) => c in w.conns && IsIn(w, c, Active)
    case Destroy(c, t, woken) => c in w.conns && c in w.guards && P.Enabled(w.pool, P.Return(t, c, woken))
    case Lose(c) => c in w.conns
  }

  function Apply<C>(w: World<C>, a: Action<C>): World<C>
    requires Enabled(w, a)
  {
    match a
    case Pool(step) =>
      var pool := P.Apply(w.pool, step);
      World(pool, w.conns, Guards(pool, w.guards))
    case Begin(c, works) =>
      var begun := BeginOn(w.conns[c], works);
      if begun.Err? then w else w.(conns := w.conns[c := begun.value], guards := w.guards[c := Active])
    case Commit(c, works) =>
      var done := CommitOn(w.conns[c], works);
      if done.Err? then w else w.(conns := w.conns[c := done.value], guards := w.guards[c := Committed])
    case Destroy(c, t, woken) =>
      var pool := P.Apply(w.pool, P.Return(t, c, woken));
      World(pool, w.conns[c := Cleaned(w.conns[c], w.guards[c])], Guards(pool, w.guards))
    case Lose(c) => w.(conns := w.conns[c := w.conns[c].(isOpen := false)])
  }

  ghost predicate IsRun<C>(worlds: seq<World<C>>, actions: seq<Action<C>>) {
    && |worlds| == |actions| + 1
    && (exists threads: set<P.ThreadId> :: worlds[0] == Start(worlds[0].pool.initial, threads))
    && Distinct(worlds[0].pool.initial)
    && forall i {:trigger actions[i]} :: 0 <= i < |actions| ==> Enabled(worlds[i], actions[i]) && worlds[i + 1] == Apply(worlds[i], actions[i])
  }

  /** An uncommitted Transaction has its transaction open, a committed one has none, and any
      other connection that still has one is dead. */
  predicate Sound(conn: Conn, phase: Option<Phase>) {
    match phase
    case Some(Active) => conn.busy
    case Some(Committed) => !conn.busy
    case _ => conn.busy ==> !conn.isOpen
  }

  function PhaseOf<C>(w: World<C>, c: C): Option<Phase> {
    if c in w.guards then Some(w.guards[c]) else None
  }

  ghost predicate Inv<C>(w: World<C>) {
    && P.Conserved(w.pool)
    && w.conns.Keys == Elements(w.pool.initial)
    && w.guards.Keys == w.pool.held
    && forall c :: c in w.conns ==> Sound(w.conns[c], PhaseOf(w, c))
  }

  /** A connection that carries a transaction nobody can end any more. */
  predicate LeftOver<C>(w: World<C>, c: C) {
    c in w.conns && w.conns[c].busy && !w.conns[c].isOpen
  }

  /** The connection goes down with an uncommitted transaction on it. */
  predicate LostInTransaction<C>(w: World<C>, a: Action<C>, c: C) {
    a == Lose(c) && c in w.conns && w.conns[c].isOpen && IsIn(w, c, Active)
  }

  lemma PoolKeepsInv<C>(w: World<C>, step: P.Step<C>)
    requires Inv(w) && P.Enabled(w.pool, step) && !step.Return?
    ensures Inv(Apply(w, Pool(step)))
  {
    P.StepConserves(w.pool, step);
    var w' := Apply(w, Pool(step));
    assert w.pool.held <= w'.pool.held;
    forall c | c in w'.conns ensures Sound(w'.conns[c], PhaseOf(w', c)) {
      assert Sound(w.conns[c], PhaseOf(w, c));
    }
  }

  lemma DestroyKeepsInv<C>(w: World<C>, c: C, t: P.ThreadId, woken: Option<P.ThreadId>)
    requires Inv(w) && Enabled(w, Destroy(c, t, woken))
    ensures Inv(Apply(w, Destroy(c, t, woken)))
  {
    P.StepConserves(w.pool, P.Return(t, c, woken));
    var w' := Apply(w, Destroy(c, t, woken));
    assert w'.conns.Keys == w.conns.Keys;
    forall d | d in w'.conns ensures Sound(w'.conns[d], PhaseOf(w', d)) {
      assert Sound(w.conns[d], PhaseOf(w, d));
    }
  }

  lemma OthersStaySound<C>(w: World<C>, a: Action<C>, c: C)
    requires Inv(w) && Enabled(w, a) && (a.Begin? || a.Commit? || a.Lose?) && a.c == c
    ensures Inv(Apply(w, a))
  {
    var w' := Apply(w, a);
    assert w'.conns.Keys == w.conns.Keys;
    assert Sound(w.conns[c], PhaseOf(w, c));
    forall d | d in w'.conns ensures Sound(w'.conns[d], PhaseOf(w', d)) {
      assert Sound(w.conns[d], PhaseOf(w, d));
    }
  }

  lemma StepKeepsInv<C>(w: World<C>, a: Action<C>)
    requires Inv(w) && Enabled(w, a)
    ensures Inv(Apply(w, a))
  {
    match a
    case Pool(step) => PoolKeepsInv(w, step);
    case Destroy(c, t, woken) => DestroyKeepsInv(w, c, t, woken);
    case Begin(c, _) => OthersStaySound(w, a, c);
    case Commit(c, _) => OthersStaySound(w, a, c);
    case Lose(c) => OthersStaySound(w, a, c);
  }

  /** In every interleaving each connection is in exactly one place, and a transaction is open on
      a live connection exactly while an uncommitted Transaction holds it. */
  lemma {:induction false} RunKeepsInv<C>(worlds: seq<World<C>>, actions: seq<Action<C>>, i: nat)
    requires IsRun(worlds, actions) && i < |worlds|
    ensures Inv(worlds[i])
    ensures forall c :: c in worlds[i].conns && worlds[i].conns[c].isOpen ==> (worlds[i].conns[c].busy <==> IsIn(worlds[i], c, Active))
  {
    if i == 0 {
      assert P.Conserved(worlds[0].pool) by {
        assert worlds[0].pool.handedOut + worlds[0].pool.free == worlds[0].pool.initial + worlds[0].pool.returned;
      }
    } else {
      RunKeepsInv(worlds, actions, i - 1);
      StepKeepsInv(worlds[i - 1], actions[i - 1]);
    }
    forall c | c in worlds[i].conns && worlds[i].conns[c].isOpen ensures worlds[i].conns[c].busy <==> IsIn(worlds[i], c, Active) {
      assert Sound(worlds[i].conns[c], PhaseOf(worlds[i], c));
    }
  }

  /** No destructor of any run throws, and no Commit finds its transaction gone. */
  lemma RollbackNeverThrows<C>(worlds: seq<World<C>>, actions: seq<Action<C>>, i: nat)
    requires IsRun(worlds, actions) && i < |actions|
    ensures actions[i].Destroy? && RollsBack(worlds[i].conns[actions[i].c], worlds[i].guards[actions[i].c])
            ==> RollbackOn(worlds[i].conns[actions[i].c]).Ok?
    ensures actions[i].Commit? ==>
              (CommitOn(worlds[i].conns[actions[i].c], actions[i].works).Ok? <==> actions[i].works && worlds[i].conns[actions[i].c].isOpen)
  {
    RunKeepsInv(worlds, actions, i);
    assert Enabled(worlds[i], actions[i]);
    if actions[i].Destroy? || actions[i].Commit? {
      var c := actions[i].c;
      assert Sound(worlds[i].conns[c], PhaseOf(worlds[i], c));
    }
  }

  lemma LeftOverStep<C>(w: World<C>, a: Action<C>, c: C)
    requires Inv(w) && Enabled(w, a)
    ensures LeftOver(Apply(w, a), c) <==> LeftOver(w, c) || LostInTransaction(w, a, c)
  {
    if c in w.conns {
      assert Sound(w.conns[c], PhaseOf(w, c));
    }
  }

  /** Some earlier step of the run lost the connection under an uncommitted Transaction. */
  ghost predicate LostBefore<C>(worlds: seq<World<C>>, actions: seq<Action<C>>, i: nat, c: C)
    requires i <= |actions| <= |worlds|
  {
    exists k :: 0 <= k < i && LostInTransaction(worlds[k], actions[k], c)
  }

  lemma LostBeforeNext<C>(worlds: seq<World<C>>, actions: seq<Action<C>>, i: nat, c: C)
    requires i < |actions| <= |worlds|
    ensures LostBefore(worlds, actions, i + 1, c) <==> LostBefore(worlds, actions, i, c) || LostInTransaction(worlds[i], actions[i], c)
  {
    if LostBefore(worlds, actions, i, c) {
      var k :| 0 <= k < i && LostInTransaction(worlds[k], actions[k], c);
    }
  }

  /** A connection carries a dead transaction exactly when it was lost, at some step before, while
      an uncommitted Transaction held it. */
  lemma {:induction false} LeftOverExactly<C>(worlds: seq<World<C>>, actions: seq<Action<C>>, i: nat, c: C)
    requires IsRun(worlds, actions) && i < |worlds|
    ensures LeftOver(worlds[i], c) <==> LostBefore(worlds, actions, i, c)
  {
    if i > 0 {
      LeftOverExactly(worlds, actions, i - 1, c);
      RunKeepsInv(worlds, actions, i - 1);
      assert Enabled(worlds[i - 1], actions[i - 1]);
      LeftOverStep(worlds[i - 1], actions[i - 1], c);
      LostBeforeNext(worlds, actions, i - 1, c);
    }
  }

  /** A BEGIN throws "already active" exactly on a connection that some Transaction lost before
      its commit, no matter how often it has been returned and borrowed since. */
  lemma AlreadyActiveExactly<C>(worlds: seq<World<C>>, actions: seq<Action<C>>, i: nat)
    requires IsRun(worlds, actions) && i < |actions| && actions[i].Begin?
    ensures worlds[i].conns[actions[i].c].busy <==> LostBefore(worlds, actions, i, actions[i].c)
    ensures BeginOn(worlds[i].conns[actions[i].c], actions[i].works).Ok? <==> actions[i].works && worlds[i].conns[actions[i].c].isOpen
  {
    assert Enabled(worlds[i], actions[i]);
    var c := actions[i].c;
    RunKeepsInv(worlds, actions, i);
    LeftOverExactly(worlds, actions, i, c);
    assert Sound(worlds[i].conns[c], PhaseOf(worlds[i], c));
  }

  /** A lost connection is never replaced: it is dead in every later state. */
  lemma {:induction false} OpenExactly<C>(worlds: seq<World<C>>, actions: seq<Action<C>>, i: nat, c: C)
    requires IsRun(worlds, actions) && i < |worlds|
    ensures c in worlds[i].conns <==> c in worlds[0].pool.initial
    ensures c in worlds[i].conns ==> (worlds[i].conns[c].isOpen <==> forall k :: 0 <= k < i ==> actions[k] != Lose(c))
  {
    if i > 0 {
      OpenExactly(worlds, actions, i - 1, c);
      assert Enabled(worlds[i - 1], actions[i - 1]);
    }
  }

  /** The pool never recovers: once every connection has been lost, no BEGIN ever succeeds and no
      Commit ever does. */
  lemma NoRecovery<C>(worlds: seq<World<C>>, actions: seq<Action<C>>, i: nat, j: nat)
    requires IsRun(worlds, actions) && i <= j < |actions|
    requires forall c :: c in worlds[i].conns ==> !worlds[i].conns[c].isOpen
    ensures actions[j].Begin? ==> BeginOn(worlds[j].conns[actions[j].c], actions[j].works).Err?
    ensures actions[j].Commit? ==> CommitOn(worlds[j].conns[actions[j].c], actions[j].works).Err?
  {
    assert Enabled(worlds[j], actions[j]);
    if actions[j].Begin? || actions[j].Commit? {
      OpenExactly(worlds, actions, i, actions[j].c);
      OpenExactly(worlds, actions, j, actions[j].c);
    }
  }
}

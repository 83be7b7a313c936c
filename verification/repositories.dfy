/** The repositories: each operation borrows a connection, runs its statements in one transaction
    and lets the scope guards clean up, whatever happens on the way. */
module Repositories {
  import opened Wrappers
  import opened Sequences
  import opened SymbolicCrypto
  import opened Tables
  import opened P = PoolProtocol
  import opened Connections

  /** Everything outside the program that one operation meets: how long it waits for a connection
      and what happens to each of its commands. */
  datatype Env = Env(wakeups: nat, begin: Fault, statements: nat -> Fault, commit: Fault) {
    /** The first n statements go through, so COMMIT is sent. */
    ghost predicate ReachesCommit(n: nat) {
      begin.NoFault? && forall i :: 0 <= i < n ==> statements(i).NoFault?
    }

    ghost predicate Quiet(n: nat) {
      ReachesCommit(n) && commit.NoFault?
    }

    /** Every command arrives; at most the answer to COMMIT gets lost. */
    ghost predicate Delivered() {
      begin.NoFault? && Arrives(commit) && forall i: nat :: statements(i).NoFault?
    }

    ghost predicate Calm() {
      Delivered() && commit.NoFault?
    }
  }

  /** Executes the statements in order, up to the first exception. */
  method ExecuteAll(tx: Transaction, script: seq<Statement>, statements: nat -> Fault) returns (r: Result<(), string>)
    requires tx.connection.home.Valid() && tx.Valid() && !tx.isCommitted && tx.connection.connection != null
    requires tx.connection.connection.isOpen && tx.connection.connection.transaction == Some(Work([], false))
    modifies tx.connection.connection, tx.connection.connection.server
    ensures tx.connection.home.Valid() && tx.Valid()
    ensures tx.connection.connection.server.committed == old(tx.connection.connection.server.committed)
    ensures r.Ok? <==> (forall i :: 0 <= i < |script| ==> statements(i).NoFault?)
                       && Replay(script, tx.connection.connection.server.committed).Some?
    ensures r.Ok? ==> tx.connection.connection.isOpen && tx.connection.connection.transaction == Some(Work(script, false))
  {
    ghost var conn, committed := tx.connection.connection, tx.connection.connection.server.committed;
    for i := 0 to |script|
      invariant tx.Valid() && tx.connection.home.Valid()
      invariant conn.transaction == Some(Work(script[..i], false)) && conn.isOpen
      invariant Replay(script[..i], committed).Some? && conn.server.committed == committed
      invariant forall k :: 0 <= k < i ==> statements(k).NoFault?
    {
      assert script[..i + 1] == script[..i] + [script[i]];
      r := tx.Execute(script[i], statements(i));
      if r.Err? {
        PrefixFails(script, i + 1, committed);
        return;
      }
    }
    assert script[..|script|] == script;
    r := Ok(());
  }

  /** The statements and the commit. */
  method ExecuteAndCommit(tx: Transaction, script: seq<Statement>, env: Env) returns (r: Result<(), string>)
    requires tx.connection.home.Valid() && tx.Valid() && !tx.isCommitted && tx.connection.connection != null
    requires tx.connection.connection.isOpen && tx.connection.connection.transaction == Some(Work([], false))
    requires env.begin.NoFault?
    modifies tx, tx.connection.connection, tx.connection.connection.server
    ensures tx.connection.home.Valid() && tx.Valid()
    ensures var before, after := old(tx.connection.connection.server.committed), tx.connection.connection.server.committed;
            && (r.Ok? <==> env.Quiet(|script|) && Replay(script, before).Some?)
            && (if env.ReachesCommit(|script|) && Arrives(env.commit) && Replay(script, before).Some?
                then Some(after) == Replay(script, before) else after == before)
    ensures r.Ok? ==> tx.connection.connection.isOpen
  {
    r := ExecuteAll(tx, script, env.statements);
    if r.Ok? {
      r := tx.Commit(env.commit);
    }
  }

  /** The part of a writing operation that holds a connection. */
  method RunOnConnection(guard: PooledConnection, thread: ThreadId, script: seq<Statement>, env: Env) returns (r: Result<(), string>)
    requires guard.home.Valid() && guard.Owned() && guard.connection != null && guard.connection.Clean()
    requires guard.connection.server == guard.home.server && HasStatus(guard.home.View(), thread, Running)
    modifies guard, guard.home, guard.connection, guard.home.server
    ensures guard.home.Valid()
    ensures IsReturn(old(guard.home.View()), guard.home.View(), thread, old(guard.connection))
    ensures guard.home.owner == old(guard.home.owner) - {old(guard.connection)}
    ensures r.Ok? <==> old(guard.connection.isOpen) && env.Quiet(|script|) && Replay(script, old(guard.home.server.committed)).Some?
    ensures if old(guard.connection.isOpen) && env.ReachesCommit(|script|) && Arrives(env.commit) && Replay(script, old(guard.home.server.committed)).Some?
            then Some(guard.home.server.committed) == Replay(script, old(guard.home.server.committed))
            else guard.home.server.committed == old(guard.home.server.committed)
    ensures r.Ok? ==> old(guard.connection).isOpen
  {
    var begun := Transaction.Begin(thread, guard, env.begin);
    if begun.Err? {
      return Err(begun.error);
    }
    var tx := begun.value;
    r := ExecuteAndCommit(tx, script, env);
    tx.Destroy(thread);
  }

  /** All or nothing, and exactly when: the whole script is committed if COMMIT arrives on an open
      connection after statements that all went through, otherwise nothing is. So the tables change
      under an exception exactly when the connection breaks after an effective COMMIT was executed.
      The connection is back in the pool in every case. */
  method RunTransaction(pool: PqxxConnectionPool, thread: ThreadId, script: seq<Statement>, env: Env) returns (r: Result<(), string>)
    requires pool.Valid() && HasStatus(pool.View(), thread, Running)
    modifies pool, Elements(pool.initial), pool.server
    ensures pool.Valid() && pool.initial == old(pool.initial) && pool.owner == old(pool.owner)
    ensures HasStatus(pool.View(), thread, Running)
    ensures r.Ok? <==> old(pool.freeConnections) != [] && old(pool.freeConnections[0].isOpen) && env.Quiet(|script|)
                       && Replay(script, old(pool.server.committed)).Some?
    ensures if old(pool.freeConnections) != [] && old(pool.freeConnections[0].isOpen) && env.ReachesCommit(|script|) && Arrives(env.commit)
               && Replay(script, old(pool.server.committed)).Some?
            then Some(pool.server.committed) == Replay(script, old(pool.server.committed))
            else pool.server.committed == old(pool.server.committed)
    ensures r.Err? && pool.server.committed != old(pool.server.committed)
            <==> old(pool.freeConnections) != [] && old(pool.freeConnections[0].isOpen) && env.ReachesCommit(|script|) && env.commit.InDoubt?
                 && Replay(script, old(pool.server.committed)) !in {None, Some(old(pool.server.committed))}
    ensures pool.freeConnections == if old(pool.freeConnections) == [] then [] else old(pool.freeConnections[1..] + [pool.freeConnections[0]])
    ensures r.Ok? && old(pool.AllOpen()) ==> pool.AllOpen()
  {
    var acquired := pool.Acquire(thread, env.wakeups);
    if acquired.Err? {
      return Err(acquired.error);
    }
    ghost var conn := acquired.value.connection;
    assert conn in Elements(pool.initial);
    r := RunOnConnection(acquired.value, thread, script, env);
    assert pool.owner == old(pool.owner) by {
      assert conn !in old(pool.owner);
    }
  }

  /** An exception that has changed the tables: a fresh pool, one insert, and the connection lost
      between the COMMIT and its answer. */
  method ThrowsAndCommits(thread: ThreadId, user: UserId, publicKey: Term) returns (r: Result<(), string>, server: Server)
    ensures r.Err? && server.committed == EMPTY.(users := map[user := publicKey])
  {
    server := new Server();
    var pool := new PqxxConnectionPool(server, {thread});
    pool.Init();
    var script := [InsertUser(user, publicKey)];
    assert script[1..] == [];
    assert Replay(script, EMPTY) == Some(EMPTY.(users := map[user := publicKey]));
    r := RunTransaction(pool, thread, script, Env(0, NoFault, i => NoFault, InDoubt));
  }

  /** A reading operation: one SELECT in a transaction that is rolled back. What is committed stays
      as it is, and is what the query saw. */
  method ReadCommitted(pool: PqxxConnectionPool, thread: ThreadId, env: Env) returns (r: Result<Tables, string>)
    requires pool.Valid() && HasStatus(pool.View(), thread, Running)
    modifies pool, Elements(pool.initial)
    ensures pool.Valid() && pool.initial == old(pool.initial) && pool.owner == old(pool.owner)
    ensures HasStatus(pool.View(), thread, Running)
    ensures r.Ok? <==> old(pool.freeConnections) != [] && old(pool.freeConnections[0].isOpen)
                       && env.begin.NoFault? && env.statements(0).NoFault?
    ensures r.Ok? ==> r.value == pool.server.committed
    ensures pool.freeConnections == if old(pool.freeConnections) == [] then [] else old(pool.freeConnections[1..] + [pool.freeConnections[0]])
    ensures r.Ok? && old(pool.AllOpen()) ==> pool.AllOpen()
  {
    var acquired := pool.Acquire(thread, env.wakeups);
    if acquired.Err? {
      return Err(acquired.error);
    }
    ghost var conn := acquired.value.connection;
    assert conn in Elements(pool.initial);
    r := SelectOnConnection(acquired.value, thread, env);
    assert pool.owner == old(pool.owner) by {
      assert conn !in old(pool.owner);
    }
  }

  /** The part of a reading operation that holds a connection. */
  method SelectOnConnection(guard: PooledConnection, thread: ThreadId, env: Env) returns (r: Result<Tables, string>)
    requires guard.home.Valid() && guard.Owned() && guard.connection != null && guard.connection.Clean()
    requires guard.connection.server == guard.home.server && HasStatus(guard.home.View(), thread, Running)
    modifies guard, guard.home, guard.connection
    ensures guard.home.Valid()
    ensures IsReturn(old(guard.home.View()), guard.home.View(), thread, old(guard.connection))
    ensures guard.home.owner == old(guard.home.owner) - {old(guard.connection)}
    ensures r.Ok? <==> old(guard.connection.isOpen) && env.begin.NoFault? && env.statements(0).NoFault?
    ensures r.Ok? ==> r.value == guard.home.server.committed && old(guard.connection).isOpen
  {
    var begun := Transaction.Begin(thread, guard, env.begin);
    if begun.Err? {
      return Err(begun.error);
    }
    var tx := begun.value;
    r := tx.Select(env.statements(0));
    tx.Destroy(thread);
  }

  /** A script fails as soon as one of its prefixes does. */
  lemma PrefixFails(script: seq<Statement>, i: nat, t: Tables)
    requires i <= |script|
    ensures Replay(script[..i], t).None? ==> Replay(script, t).None?
  {
    assert script == script[..i] + script[i..];
    ReplayConcat(script[..i], script[i..], t);
  }
}

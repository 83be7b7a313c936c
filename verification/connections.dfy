/** Connections, the pool that lends them out, and the two scope guards around a borrowed one. A
    destructor is the method Destroy, a move is a method that empties its argument. What the
    network does during a call is the call's `fault` argument. */
module Connections {
  import opened Wrappers
  import opened Sequences
  import opened Tables
  import opened P = PoolProtocol
  import T = TransactionRuns

  datatype Fault =
    | NoFault
    | Rejected  // the server refuses the command, the connection stays up
    | Dropped   // the connection is lost and the command has had no effect
    | InDoubt   // the connection is lost after the server has executed the command

  /** An open pqxx::work: the statements that succeeded in it, and whether a later one failed. */
  datatype Work = Work(log: seq<Statement>, failed: bool)

  /** The server executes the command, although the client may not learn of it. */
  predicate Arrives(fault: Fault) {
    fault.NoFault? || fault.InDoubt?
  }

  /** An operation did what the connection of TransactionRuns does, except that one that throws
      may also have lost the connection. */
  predicate Follows(before: T.Conn, step: Result<T.Conn, string>, after: T.Conn, r: Result<(), string>) {
    match step
    case Ok(conn) => r == Ok(()) && after == conn
    case Err(error) => r == Err(error) && after.busy == before.busy && (after.isOpen ==> before.isOpen)
  }

  /** The database server: what is committed is what every other connection can see. */
  class Server {
    var committed: Tables

    constructor ()
      ensures committed == EMPTY
    {
      committed := EMPTY;
    }
  }

  class PqxxConnection {
    const server: Server
    var isOpen: bool
    var transaction: Option<Work>

    constructor (server: Server)
      ensures this.server == server && isOpen && transaction == None
    {
      this.server, isOpen, transaction := server, true, None;
    }

    function AsConn(): T.Conn
      reads this
    {
      T.Conn(isOpen, transaction.Some?)
    }

    /** Fit to lie in the pool: a left-over transaction only on a connection that is dead. */
    predicate Clean()
      reads this
    {
      transaction.Some? ==> !isOpen
    }

    method BeginTransaction(fault: Fault) returns (r: Result<(), string>)
      modifies this
      ensures r.Ok? <==> old(transaction).None? && old(isOpen) && fault.NoFault?
      ensures transaction == if r.Ok? then Some(Work([], false)) else old(transaction)
      ensures isOpen == (old(isOpen) && (old(transaction).Some? || fault.NoFault? || fault.Rejected?))
      ensures Follows(old(AsConn()), T.BeginOn(old(AsConn()), fault.NoFault?), AsConn(), r)
    {
      if transaction.Some? {
        return Err("A transaction is already active on this connection.");
      }
      if !isOpen || !fault.NoFault? {
        isOpen := isOpen && fault in {NoFault, Rejected};
        return Err("BEGIN failed");
      }
      transaction := Some(Work([], false));
      return Ok(());
    }

    /** Publishes the whole log or nothing. It throws although it has published exactly when the
        connection is lost after the server has executed an effective COMMIT. */
    method CommitTransaction(fault: Fault) returns (r: Result<(), string>)
      modifies this, server
      ensures r.Ok? <==> old(transaction).Some? && !old(transaction).value.failed && old(isOpen) && fault.NoFault?
                         && Replay(old(transaction).value.log, old(server.committed)).Some?
      ensures transaction == if r.Ok? then None else old(transaction)
      ensures var before := old(server.committed);
              if old(transaction).Some? && !old(transaction).value.failed && old(isOpen) && Arrives(fault) && Replay(old(transaction).value.log, before).Some?
              then Some(server.committed) == Replay(old(transaction).value.log, before)
              else server.committed == before
      ensures isOpen == (old(isOpen) && (old(transaction).None? || fault in {NoFault, Rejected}))
      ensures Follows(old(AsConn()), T.CommitOn(old(AsConn()), r.Ok?), AsConn(), r)
    {
      if transaction.None? {
        return Err("No active transaction to commit.");
      }
      var work := transaction.value;
      var after := Replay(work.log, server.committed);
      if work.failed || !isOpen || !fault.NoFault? || after.None? {
        if !work.failed && isOpen && fault.InDoubt? && after.Some? {
          server.committed := after.value;
        }
        isOpen := isOpen && fault in {NoFault, Rejected};
        return Err("COMMIT failed");
      }
      server.committed := after.value;
      transaction := None;
      return Ok(());
    }

    method RollbackTransaction() returns (r: Result<(), string>)
      modifies this`transaction
      ensures r.Ok? <==> old(transaction).Some?
      ensures transaction == None
      ensures Follows(old(AsConn()), T.RollbackOn(old(AsConn())), AsConn(), r)
    {
      if transaction.None? {
        return Err("No active transaction to rollback.");
      }
      transaction := None;
      return Ok(());
    }

    /** Execute on a connection with an open transaction: nothing is published. */
    method ExecuteInTransaction(statement: Statement, fault: Fault) returns (r: Result<(), string>)
      requires transaction.Some?
      modifies this
      ensures transaction.Some?
      ensures transaction.value.log == old(transaction).value.log + (if r.Ok? then [statement] else [])
      ensures transaction.value.failed == (old(transaction).value.failed || r.Err?)
      ensures r.Ok? <==> !old(transaction).value.failed && old(isOpen) && fault.NoFault?
                         && Replay(old(transaction).value.log + [statement], server.committed).Some?
      ensures isOpen == (old(isOpen) && fault in {NoFault, Rejected})
    {
      var work := transaction.value;
      if work.failed || !isOpen || !fault.NoFault? || Replay(work.log + [statement], server.committed).None? {
        isOpen := isOpen && fault in {NoFault, Rejected};
        transaction := Some(work.(failed := true));
        return Err("statement failed");
      }
      transaction := Some(work.(log := work.log + [statement]));
      return Ok(());
    }

    /** A SELECT inside a transaction: it sees what is committed and the transaction's own work. */
    method Select(fault: Fault) returns (r: Result<Tables, string>)
      requires transaction.Some?
      modifies this
      ensures transaction == Some(old(transaction).value.(failed := old(transaction).value.failed || r.Err?))
      ensures r.Ok? <==> !old(transaction).value.failed && old(isOpen) && fault.NoFault?
                         && Replay(old(transaction).value.log, server.committed).Some?
      ensures r.Ok? ==> Some(r.value) == Replay(old(transaction).value.log, server.committed)
      ensures isOpen == (old(isOpen) && fault in {NoFault, Rejected})
    {
      var work := transaction.value;
      var seen := Replay(work.log, server.committed);
      if work.failed || !isOpen || !fault.NoFault? || seen.None? {
        isOpen := isOpen && fault in {NoFault, Rejected};
        transaction := Some(work.(failed := true));
        return Err("query failed");
      }
      return Ok(seen.value);
    }

    /** Execute on a connection without one: the statement is a transaction of its own. */
    method ExecuteAlone(statement: Statement, fault: Fault) returns (r: Result<(), string>)
      requires transaction.None?
      modifies this`isOpen, server
      ensures r.Ok? <==> old(isOpen) && fault.NoFault? && Exec(statement, old(server.committed)).Some?
      ensures if old(isOpen) && Arrives(fault) && Exec(statement, old(server.committed)).Some?
              then Some(server.committed) == Exec(statement, old(server.committed))
              else server.committed == old(server.committed)
      ensures isOpen == (old(isOpen) && fault in {NoFault, Rejected})
    {
      var after := Exec(statement, server.committed);
      if !isOpen || !fault.NoFault? || after.None? {
        if isOpen && fault.InDoubt? && after.Some? {
          server.committed := after.value;
        }
        isOpen := isOpen && fault in {NoFault, Rejected};
        return Err("statement failed");
      }
      server.committed := after.value;
      return Ok(());
    }

    /** Inside a transaction nothing is published; outside one the statement commits by itself. */
    method Execute(statement: Statement, fault: Fault) returns (r: Result<(), string>)
      modifies this, server
      ensures transaction.Some? <==> old(transaction).Some?
      ensures old(transaction).Some? ==>
                && server.committed == old(server.committed)
                && transaction.value.log == old(transaction).value.log + (if r.Ok? then [statement] else [])
                && transaction.value.failed == (old(transaction).value.failed || r.Err?)
                && (r.Ok? <==> !old(transaction).value.failed && old(isOpen) && fault.NoFault?
                               && Replay(old(transaction).value.log + [statement], server.committed).Some?)
      ensures old(transaction).None? ==>
                && (r.Ok? <==> old(isOpen) && fault.NoFault? && Exec(statement, old(server.committed)).Some?)
                && (if old(isOpen) && Arrives(fault) && Exec(statement, old(server.committed)).Some?
                    then Some(server.committed) == Exec(statement, old(server.committed))
                    else server.committed == old(server.committed))
      ensures isOpen == (old(isOpen) && fault in {NoFault, Rejected})
    {
      if transaction.Some? {
        r := ExecuteInTransaction(statement, fault);
      } else {
        r := ExecuteAlone(statement, fault);
      }
    }
  }

  const CONNECTION_COUNT: nat := 50

  class PqxxConnectionPool {
    const server: Server
    var freeConnections: seq<PqxxConnection>

    ghost var status: map<ThreadId, Status>
    ghost var initial: seq<PqxxConnection>
    ghost var handedOut: seq<PqxxConnection>
    ghost var returned: seq<PqxxConnection>
    ghost var owner: map<PqxxConnection, PooledConnection>  // the one wrapper that holds a connection

    ghost function View(): State<PqxxConnection>
      reads this
    {
      State(freeConnections, owner.Keys, status, initial, handedOut, returned)
    }

    /** Everything but the connections in flight between a wrapper and the deque. */
    ghost predicate ValidBut(inFlight: set<PqxxConnection>)
      reads this, Elements(initial), owner.Values
    {
      && Conserved(View())
      && (forall c :: c in initial ==> c.server == server)
      && (forall c :: c in owner.Keys && c !in inFlight ==> owner[c].connection == c && owner[c].pool == this)
      && (forall c :: c in freeConnections ==> c in initial && c.Clean())
    }

    /** The pool conserves its connections, every borrowed one has exactly one wrapper, and a
        free connection with an open transaction is dead. */
    ghost predicate Valid()
      reads this, Elements(initial), owner.Values
    {
      ValidBut({})
    }

    /** A thread that is not inside the pool may use it. */
    ghost predicate Ready(thread: ThreadId)
      reads this, Elements(initial), owner.Values
    {
      Valid() && HasStatus(View(), thread, Running)
    }

    /** There are free connections and none of them has been lost. */
    predicate AllOpen()
      reads this, Elements(freeConnections)
    {
      freeConnections != [] && forall c :: c in freeConnections ==> c.isOpen
    }

    constructor (server: Server, threads: set<ThreadId>)
      ensures Valid() && this.server == server
      ensures View() == P.Init([], threads)
    {
      this.server := server;
      freeConnections, initial, handedOut, returned := [], [], [], [];
      status := map t | t in threads :: Running;
      owner := map[];
    }

    /** Fills a fresh pool with the fixed number of new connections. */
    method Init()
      requires freeConnections == [] && initial == [] && handedOut == [] && returned == [] && owner == map[]
      modifies this
      ensures Valid() && status == old(status)
      ensures |freeConnections| == 50 && initial == freeConnections && owner == map[]
      ensures fresh(Elements(freeConnections)) && handedOut == [] == returned
      ensures forall c :: c in freeConnections ==> c.isOpen && c.transaction.None?
    {
      for i := 0 to CONNECTION_COUNT
        invariant |freeConnections| == i && initial == freeConnections && owner == map[]
        invariant handedOut == [] == returned && status == old(status)
        invariant Distinct(freeConnections) && fresh(Elements(freeConnections))
        invariant forall c :: c in freeConnections ==> c.server == server && c.isOpen && c.transaction.None?
      {
        var c := new PqxxConnection(server);
        assert forall k :: 0 <= k < i ==> freeConnections[k] in Elements(freeConnections);
        assert Elements(freeConnections + [c]) == Elements(freeConnections) + {c};
        freeConnections := freeConnections + [c];
        initial := freeConnections;
      }
      assert handedOut + freeConnections == initial + returned;
    }

    /** The network may drop any connection, borrowed or free, at any time. */
    method Lose(c: PqxxConnection)
      requires Valid() && c in initial
      modifies c`isOpen
      ensures Valid() && !c.isOpen
    {
      c.isOpen := false;
    }

    /** `wakeups` is how often the wait ends without a timeout before the deadline passes. */
    method Acquire(thread: ThreadId, wakeups: nat) returns (r: Result<PooledConnection, string>)
      requires Valid() && HasStatus(View(), thread, Running)
      modifies this
      ensures Valid()
      ensures r.Ok? <==> old(freeConnections) != []
      ensures r.Ok? ==> View() == Apply(old(View()), Enter(thread))
      ensures r.Ok? ==> fresh(r.value) && r.value.connection == old(freeConnections[0]) && r.value.Owned() && r.value.pool == this == r.value.home
      ensures r.Ok? ==> owner == old(owner)[r.value.connection := r.value] && r.value.connection.Clean()
      ensures r.Err? ==> View() == old(View()) && owner == old(owner)
    {
      var left := wakeups;
      while |freeConnections| == 0
        invariant Valid() && owner == old(owner)
        invariant View() == old(View()).(status := status)
        invariant thread in status && status == old(status)[thread := status[thread]]
        invariant freeConnections == old(freeConnections)
        decreases left
      {
        status := status[thread := Waiting];
        if left == 0 {
          status := status[thread := TimedOut];
          status := status[thread := Running];
          assert status == old(status);
          return Err("Failed to acquire a free database connection within a given time.");
        }
        status := status[thread := Spurious];
        left := left - 1;
      }
      var guard := Take(thread);
      r := Ok(guard);
    }

    /** The end of Acquire: pops the front of the deque into a new wrapper. */
    method Take(thread: ThreadId) returns (guard: PooledConnection)
      requires Valid() && freeConnections != [] && thread in status
      modifies this
      ensures Valid() && View() == TakeOrWait(old(View()), thread)
      ensures fresh(guard) && guard.connection == old(freeConnections[0]) && guard.Owned() && guard.pool == this == guard.home
      ensures owner == old(owner)[guard.connection := guard] && guard.connection.Clean()
    {
      ghost var before := View();
      TakeOrWaitConserves(before, thread);
      var conn := freeConnections[0];
      assert conn in Elements(freeConnections);
      freeConnections := freeConnections[1..];
      handedOut := handedOut + [conn];
      status := status[thread := Running];
      guard := new PooledConnection(conn, this, this);
      owner := owner[conn := guard];
      assert View() == TakeOrWait(before, thread);
    }

    /** push_back and notify_one, for a connection that its wrapper has just let go of. */
    method Return(thread: ThreadId, connection: PqxxConnection)
      requires ValidBut({connection}) && connection in owner && connection.Clean()
      requires HasStatus(View(), thread, Running)
      modifies this
      ensures Valid()
      ensures owner == old(owner) - {connection}
      ensures IsReturn(old(View()), View(), thread, connection)
    {
      ghost var before := View();
      freeConnections := freeConnections + [connection];
      returned := returned + [connection];
      owner := owner - {connection};
      ghost var woken: Option<ThreadId> := None;
      if InStatus(before, Waiting) != {} {
        ghost var t :| t in InStatus(before, Waiting);
        woken := Some(t);
        status := status[t := Notified];
      }
      assert View() == Apply(before, P.Return(thread, connection, woken));
      StepConserves(before, P.Return(thread, connection, woken));
    }
  }

  /** One Return step of the protocol, whichever waiter it wakes. */
  ghost predicate IsReturn(s: State<PqxxConnection>, s': State<PqxxConnection>, thread: ThreadId, c: PqxxConnection) {
    exists w :: Enabled(s, P.Return(thread, c, w)) && s' == Apply(s, P.Return(thread, c, w))
  }

  /** A borrowed connection, given back by the destructor. */
  class PooledConnection {
    var connection: PqxxConnection?
    var pool: PqxxConnectionPool?
    ghost const home: PqxxConnectionPool  // the pool that the connection comes from

    constructor (connection: PqxxConnection?, pool: PqxxConnectionPool?, ghost home: PqxxConnectionPool)
      ensures this.connection == connection && this.pool == pool && this.home == home
    {
      this.connection, this.pool, this.home := connection, pool, home;
    }

    /** A wrapper that holds a connection is the one wrapper that the pool knows for it. */
    ghost predicate Owned()
      reads this, home
    {
      connection != null ==> pool == home && connection in home.owner && home.owner[connection] == this
    }

    /** What the two moves share: the pointers change hands and the other wrapper is emptied. */
    method TakeOver(other: PooledConnection)
      requires home.Valid() && connection == null && other != this && other.home == home && other.Owned()
      modifies this, other, home`owner
      ensures home.Valid() && Owned() && home.View() == old(home.View())
      ensures connection == old(other.connection) && pool == old(other.pool)
      ensures other.connection == null && other.pool == null
      ensures connection == null ==> home.owner == old(home.owner)
      ensures connection != null ==> home.owner == old(home.owner)[connection := this]
    {
      connection := other.connection;
      pool := other.pool;
      other.connection := null;
      other.pool := null;
      if connection != null {
        home.owner := home.owner[connection := this];
      }
      assert home.owner.Keys == old(home.owner.Keys);
    }

    /** The move constructor. */
    static method Move(other: PooledConnection) returns (r: PooledConnection)
      requires other.home.Valid() && other.Owned()
      modifies other, other.home`owner
      ensures fresh(r) && r.home == other.home && r.Owned() && r.home.Valid()
      ensures r.connection == old(other.connection) && r.pool == old(other.pool)
      ensures other.connection == null && other.pool == null
      ensures other.home.View() == old(other.home.View())
      ensures other.home.owner == if r.connection == null then old(other.home.owner) else old(other.home.owner)[r.connection := r]
    {
      r := new PooledConnection(null, null, other.home);
      r.TakeOver(other);
    }

    method ReturnExistingConnectionToPool(thread: ThreadId)
      requires home.Valid() && Owned() && (connection != null ==> connection.Clean())
      requires HasStatus(home.View(), thread, Running)
      modifies this`connection, home
      ensures home.Valid() && connection == null
      ensures old(connection) == null ==> home.View() == old(home.View()) && home.owner == old(home.owner)
      ensures old(connection) != null ==> home.owner == old(home.owner) - {old(connection)}
                                          && IsReturn(old(home.View()), home.View(), thread, old(connection))
    {
      if connection != null && pool != null {
        var c := connection;
        connection := null;
        pool.Return(thread, c);
      }
    }

    method Destroy(thread: ThreadId)
      requires home.Valid() && Owned() && (connection != null ==> connection.Clean())
      requires HasStatus(home.View(), thread, Running)
      modifies this`connection, home
      ensures home.Valid() && connection == null
      ensures old(connection) == null ==> home.View() == old(home.View()) && home.owner == old(home.owner)
      ensures old(connection) != null ==> home.owner == old(home.owner) - {old(connection)}
                                          && IsReturn(old(home.View()), home.View(), thread, old(connection))
    {
      ReturnExistingConnectionToPool(thread);
    }

    /** The move assignment: what this wrapper held goes back, then it takes over the other's. */
    method MoveAssign(thread: ThreadId, other: PooledConnection)
      requires home.Valid() && Owned() && (connection != null ==> connection.Clean())
      requires other.home == home && other.Owned()
      requires HasStatus(home.View(), thread, Running)
      modifies this, other, home
      ensures home.Valid() && Owned() && other.Owned()
      ensures other == this ==> home.View() == old(home.View()) && home.owner == old(home.owner)
                                && connection == old(connection) && pool == old(pool)
      ensures other != this ==> connection == old(other.connection) && pool == old(other.pool)
                                && other.connection == null && other.pool == null
      ensures other != this && old(connection) == null ==> home.View() == old(home.View())
      ensures other != this && old(connection) != null ==> IsReturn(old(home.View()), home.View(), thread, old(connection))
      ensures other != this ==> forall c :: c in home.owner && c != connection ==> c in old(home.owner) && home.owner[c] == old(home.owner[c])
    {
      if other != this {
        ReturnExistingConnectionToPool(thread);
        TakeOver(other);
      }
    }

    /** GetConnection().BeginTransaction(). */
    method BeginTransaction(fault: Fault) returns (r: Result<(), string>)
      requires home.Valid() && Owned() && connection != null && connection.Clean()
      modifies connection
      ensures home.Valid() && Owned()
      ensures r.Ok? <==> old(connection.isOpen) && fault.NoFault?
      ensures r.Ok? ==> connection.transaction == Some(Work([], false)) && connection.isOpen
      ensures r.Err? ==> connection.Clean()
    {
      assert connection in home.View().held;
      r := connection.BeginTransaction(fault);
    }

    predicate IsAlive()
      reads this, connection
    {
      connection != null && connection.isOpen
    }
  }

  /** A transaction that rolls back in its destructor unless it was committed. */
  class Transaction {
    const connection: PooledConnection
    var isCommitted: bool

    /** The connection has an open transaction exactly until the commit. */
    ghost predicate Valid()
      reads this, connection, connection.home, connection.connection
    {
      && connection.Owned()
      && (connection.connection != null ==> (connection.connection.transaction.Some? <==> !isCommitted))
    }

    constructor (connection: PooledConnection, isCommitted: bool)
      ensures this.connection == connection && this.isCommitted == isCommitted
    {
      this.connection, this.isCommitted := connection, isCommitted;
    }

    /** The constructor: takes the connection over and begins. If BEGIN throws, the member that
        already holds the connection is destroyed and so gives it back. A connection that is
        alive when borrowed never fails as "already active". */
    static method Begin(thread: ThreadId, source: PooledConnection, fault: Fault) returns (r: Result<Transaction, string>)
      requires source.home.Valid() && source.Owned() && source.connection != null && source.connection.Clean()
      requires HasStatus(source.home.View(), thread, Running)
      modifies source, source.home, source.connection
      ensures source.home.Valid() && source.connection == null
      ensures r.Ok? <==> old(source.connection.isOpen) && fault.NoFault?
      ensures r.Ok? ==> fresh(r.value) && fresh(r.value.connection) && r.value.connection.home == source.home
      ensures r.Ok? ==> r.value.Valid() && !r.value.isCommitted && r.value.connection.connection == old(source.connection)
                        && old(source.connection).transaction == Some(Work([], false)) && old(source.connection).isOpen
                        && source.home.View() == old(source.home.View())
                        && source.home.owner == old(source.home.owner)[old(source.connection) := r.value.connection]
      ensures r.Err? ==> IsReturn(old(source.home.View()), source.home.View(), thread, old(source.connection))
                         && source.home.owner == old(source.home.owner) - {old(source.connection)}
    {
      var member := PooledConnection.Move(source);
      r := BeginOn(thread, member, fault);
    }

    /** The body of the constructor, with the member in place. */
    static method BeginOn(thread: ThreadId, member: PooledConnection, fault: Fault) returns (r: Result<Transaction, string>)
      requires member.home.Valid() && member.Owned() && member.connection != null && member.connection.Clean()
      requires HasStatus(member.home.View(), thread, Running)
      modifies member`connection, member.home, member.connection
      ensures member.home.Valid()
      ensures r.Ok? <==> old(member.connection.isOpen) && fault.NoFault?
      ensures r.Ok? ==> fresh(r.value) && r.value.connection == member && member.connection == old(member.connection)
                        && r.value.Valid() && !r.value.isCommitted
                        && member.connection.transaction == Some(Work([], false)) && member.connection.isOpen
                        && member.home.View() == old(member.home.View()) && member.home.owner == old(member.home.owner)
      ensures r.Err? ==> IsReturn(old(member.home.View()), member.home.View(), thread, old(member.connection))
                         && member.home.owner == old(member.home.owner) - {old(member.connection)}
    {
      var begun := member.BeginTransaction(fault);
      if begun.Err? {
        member.Destroy(thread);
        return Err(begun.error);
      }
      var tx := new Transaction(member, false);
      return Ok(tx);
    }

    /** The defaulted move constructor: the connection moves, the flag is copied. */
    static method Move(other: Transaction) returns (r: Transaction)
      requires other.connection.home.Valid() && other.Valid()
      modifies other.connection, other.connection.home`owner
      ensures fresh(r) && fresh(r.connection) && r.connection.home == other.connection.home && r.connection.home.Valid()
      ensures r.Valid() && r.isCommitted == other.isCommitted && r.connection.connection == old(other.connection.connection)
      ensures other.Valid() && other.connection.connection == null
      ensures other.connection.home.View() == old(other.connection.home.View())
    {
      var member := PooledConnection.Move(other.connection);
      r := new Transaction(member, other.isCommitted);
    }

    method Commit(fault: Fault) returns (r: Result<(), string>)
      requires connection.home.Valid() && Valid() && connection.connection != null
      modifies this`isCommitted, connection.connection, connection.connection.server
      ensures connection.home.Valid() && Valid()
      ensures old(isCommitted) ==> r.Ok? && isCommitted && connection.connection.server.committed == old(connection.connection.server.committed)
      ensures !old(isCommitted) ==> var work, before, after :=
                  old(connection.connection.transaction.value), old(connection.connection.server.committed), connection.connection.server.committed;
                && isCommitted == r.Ok?
                && (r.Ok? <==> !work.failed && old(connection.connection.isOpen) && fault.NoFault? && Replay(work.log, before).Some?)
                && (if !work.failed && old(connection.connection.isOpen) && Arrives(fault) && Replay(work.log, before).Some?
                    then Some(after) == Replay(work.log, before) else after == before)
      ensures r.Ok? ==> connection.connection.isOpen == old(connection.connection.isOpen)
    {
      if isCommitted {
        return Ok(());
      }
      r := connection.connection.CommitTransaction(fault);
      if r.Ok? {
        isCommitted := true;
      }
    }

    /** Collected for the commit before it; after it, each statement is on its own. */
    method Execute(statement: Statement, fault: Fault) returns (r: Result<(), string>)
      requires connection.home.Valid() && Valid() && connection.connection != null
      modifies connection.connection, connection.connection.server
      ensures connection.home.Valid() && Valid()
      ensures !isCommitted ==> var work, work' := old(connection.connection.transaction.value), connection.connection.transaction.value;
              && connection.connection.server.committed == old(connection.connection.server.committed)
              && work'.log == work.log + (if r.Ok? then [statement] else [])
              && work'.failed == (work.failed || r.Err?)
              && (r.Ok? <==> !work.failed && old(connection.connection.isOpen) && fault.NoFault?
                             && Replay(work.log + [statement], connection.connection.server.committed).Some?)
      ensures isCommitted && r.Ok? ==> Some(connection.connection.server.committed) == Exec(statement, old(connection.connection.server.committed))
      ensures connection.connection.isOpen == (old(connection.connection.isOpen) && fault in {NoFault, Rejected})
    {
      r := connection.connection.Execute(statement, fault);
    }

    /** A SELECT in an uncommitted transaction. */
    method Select(fault: Fault) returns (r: Result<Tables, string>)
      requires connection.home.Valid() && Valid() && connection.connection != null && !isCommitted
      modifies connection.connection
      ensures connection.home.Valid() && Valid()
      ensures var work := old(connection.connection.transaction.value);
              && (r.Ok? <==> !work.failed && old(connection.connection.isOpen) && fault.NoFault?
                             && Replay(work.log, connection.connection.server.committed).Some?)
              && (r.Ok? ==> Some(r.value) == Replay(work.log, connection.connection.server.committed))
      ensures r.Ok? ==> connection.connection.isOpen
    {
      r := connection.connection.Select(fault);
    }

    /** Leaves the connection fit for the pool. Its rollback cannot throw "No active transaction". */
    method CleanupExistingTransaction()
      requires connection.home.Valid() && Valid()
      modifies if connection.connection != null then {connection.connection} else {}
      ensures connection.home.Valid()
      ensures connection.connection != null ==> connection.connection.Clean()
      ensures connection.connection != null ==> connection.connection.isOpen == old(connection.connection.isOpen)
      ensures connection.connection != null ==>
                connection.connection.AsConn() == T.Cleaned(old(connection.connection.AsConn()), if isCommitted then T.Committed else T.Active)
    {
      if !isCommitted && connection.IsAlive() {
        var rolledBack := connection.connection.RollbackTransaction();
        assert rolledBack.Ok?;
      }
    }

    /** The destructor: nothing is published, the connection goes back to the pool. */
    method Destroy(thread: ThreadId)
      requires connection.home.Valid() && Valid() && HasStatus(connection.home.View(), thread, Running)
      modifies connection, connection.home, if connection.connection != null then {connection.connection} else {}
      ensures connection.home.Valid() && connection.connection == null
      ensures old(connection.connection) == null ==> connection.home.View() == old(connection.home.View())
      ensures old(connection.connection) != null ==>
                && IsReturn(old(connection.home.View()), connection.home.View(), thread, old(connection.connection))
                && connection.home.owner == old(connection.home.owner) - {old(connection.connection)}
                && old(connection.connection).isOpen == old(connection.connection.isOpen)
    {
      CleanupExistingTransaction();
      connection.Destroy(thread);
    }

    /** The move assignment: an uncommitted transaction of this object is rolled back first. */
    method MoveAssign(thread: ThreadId, other: Transaction)
      requires connection.home.Valid() && Valid() && other.Valid() && HasStatus(connection.home.View(), thread, Running)
      requires other.connection.home == connection.home && (other != this ==> other.connection != connection)
      modifies this, connection, other.connection, connection.home, if connection.connection != null then {connection.connection} else {}
      ensures connection.home.Valid() && Valid() && other.Valid()
      ensures other != this ==>
                && connection.connection == old(other.connection.connection) && isCommitted == old(other.isCommitted)
                && other.connection.connection == null
                && (old(connection.connection) != null ==> IsReturn(old(connection.home.View()), connection.home.View(), thread, old(connection.connection)))
      ensures other == this ==> connection.connection == old(connection.connection) && isCommitted == old(isCommitted)
                                && connection.home.View() == old(connection.home.View())
    {
      if other != this {
        CleanupExistingTransaction();
        connection.MoveAssign(thread, other.connection);
        isCommitted := other.isCommitted;
      }
    }
  }
}

# A verified model of the messenger's server core and its end-to-end encryption

The project models, in Dafny, the parts of a C++ messenger in which something can go wrong between
two steps or between two programs, and proves what the design promises about them.

- **Connection pool and transactions** (`pool_protocol`, `transaction_runs`, `connections`,
  `repositories`). The mutex, condition variable and deque of the pool as a protocol whose runs are
  all interleavings of any number of threads, with the scope guards of the threads on top; and the C++
  objects as classes: connection, pool, the wrapper of a borrowed connection and the transaction
  guard, with moves that empty their source and destructors as methods. Each pool method is proved to be a step of the protocol. The network may refuse a command,
  drop the connection, or drop it after the server has executed the command.
- **Chat and message store** (`tables`, `queries`, `pages`, `pqxx_repositories`, `message_service`,
  `chat_service`, `participants`, `uuids`, `effects`). The tables as maps with the keys, cascades and
  SET NULL of the migrations; the repositories and services as classes over the pool; what each write
  does in terms of what the queries answer before and after it. User ids of a request are texts, of
  which the database may read several as one UUID: `canon` is its spelling of a text.
- **Whole runs of the services** (`service_runs`, `service_guarantees`, `send_runs`,
  `observed_runs`, `service_refinement`, `delivery`, `delivery_losses`, `direct_chats`,
  `pair_runs`). A machine in which any number of service calls interleave at every point where they
  let go of the database, what it guarantees forever, and what every query answers in terms of the
  steps before it. Every outcome that the service classes' contracts allow is one of the machine.
- **End-to-end encryption** (`symbolic_crypto`, `end_to_end`). Keys and ciphertexts as terms, from
  the sending client over the server's tables to the receiving client.
- **Codecs between client and server** (`getline`, `router`, `route_templates`, `server_routes`,
  `client_calls`, `base64`, `passwords`). Route templates, first-match routing, the server's own routes
  and the client's requests to them, Base64 after section 4 of RFC 4648 and the `$scrypt$salt$hash`
  record.
- **Validation engine and notification bus** (`validation`, `notifications`).

What the program cannot control is an argument: what the network does to each command, random bytes
and generated ids, the clock, which waiter is woken, the order in which the database returns ties and
aggregated rows (restricted by the query's own clauses), and what other threads do in between.

## Results where the code is not what one would expect

- A waiter that was notified and is nevertheless reported as timed out throws without looking at the
  deque again. `PoolProtocol.RunLosesNoWakeupExactly` says of whole runs exactly when that loses a
  wake-up and `LostWakeupHappens` is a run in which it does.
- A COMMIT whose connection breaks may have taken effect although it throws. All-or-nothing holds;
  "an exception means nothing happened" does not: `Repositories.RunTransaction` says exactly when the
  tables change under an exception, and `ThrowsAndCommits` is such a call.
- SendChatMessage looks its chat up once more to know whom to notify, and dereferences the answer
  unchecked. `SendRuns.LookUpFindsExactly`: it is there exactly when no DeleteChat of the chat was
  committed after the message was stored, be it before or after the second write; `LookUpCanFail`
  gives a run for each.
- The Base64 length check admits 2147483647 bytes, but above 1610612733 the encoded length no longer
  fits the int that counts it, and no decoder of the program accepts such a text: `Base64.RoundTrip`.
- Base64Decode lets OpenSSL trim white space but counts the padding on the untrimmed text, so a
  newline behind an encoded byte yields a zero byte too many (`Base64.NewlineAddsAByte`). Its answer
  for a negative length is never given (`Base64.CorrectionFits`).
- A stored record whose hash part decodes to fewer than 32 bytes is compared beyond its end. The model
  gives this its own verdict; `Passwords.VerdictExactly` says exactly when, `EmptyRecordIsOverread` is
  such a record, and `RecordAcceptsExactly` shows that none made by `HashPassword` is.
- AES-256-CBC has no authentication, so a wrong password may count as unlocking, with garbage loaded
  (`EndToEnd.UnlockExactly`); what it loads opens no message.
- An empty id at the end of a route template is lost by the server's splitting, so the path no longer
  matches its template (`RouteTemplates.ResolvedPathRoutesBack`).
- Passing the last id as cursor skips a pending message exactly when that message shares the
  cursor's timestamp (`Delivery.CursorSeesSameRows`, and `CursorHidesATie` for an input).
- The search for an existing direct chat looks at 100 chats and accepts any chat with the other user
  in it; `DirectChats.CreateKeepsPairsUniqueExactly` says exactly when this is enough and
  `SearchCanMissAPair` is a store in which it is not.
- The search compares texts while the database compares UUIDs, so a request that spells the other id
  in upper case never finds the chat and inserts another one each time. `DirectChats.SpellingDecides`
  is the exact condition, `PairRuns.UpperCaseInsertsTwice` a run of two calls, one after the other. A
  request that lists one id in two spellings meets a duplicate key (`ChatServices.NormalisedImages`).
- Overlapping CreateChat calls can miss each other: `PairRuns.SearchedPairsStayUniqueExactly` says
  exactly when pairs stay unique over a run, and `RacingCallsInsertTwice` is a run in which they do
  not. Naming the other user twice skips the search (`DirectChats.NamedTwiceSkipsTheSearch`).
- GetUndelivered marks its page before it returns it. When a marking throws, the messages marked
  before it are lost: `DeliveryLosses.LostExactly` says exactly which, `CallLosesAMessage` is such a
  call, and `ServiceGuarantees.NeverRedelivered` makes it permanent.
- The pool never replaces a lost connection and does not look whether the one it hands out is alive:
  after all have been lost no transaction begins or commits again (`TransactionRuns.NoRecovery`).
  One that is lost under an open transaction keeps it, so that BEGIN on it throws "already active"
  from then on (`TransactionRuns.AlreadyActiveExactly`).
- A request that names the creator twice makes a chat with one member
  (`DirectChats.CreatorNamedTwiceIsAlone`; `NewChatHasTwoMembersExactly` for the exact condition).
- The three membership queries agree in every reachable state, but only because no service sets
  `left_at` (`ServiceGuarantees.MembershipViewsAgreeExactly`, `LeftUserSplitsTheViews`).
- Subscriber ids repeat after 2^64 subscriptions (`Notifications.PushesShareAnIdExactly`, and
  `TwoSubscriptionsShareAnId` for a run).
- The documentation names AES-256-GCM where the code uses AES-256-CBC
  (`docs/end_to_end_encryption.md:16`, `App/Source/Cryptography/open_ssl_client_encryption_service.cpp:66`),
  and says that logging out clears the private key from memory where the code only empties the key
  store (`docs/end_to_end_encryption.md:45`, `App/Source/Cryptography/client_key_manager.cpp:57-59`).
  The model follows the code.
- The client marks messages as read with POST while the server registers PUT for that route, so the
  answer is 404 for every id; and it logs out with a POST to the log-in route
  (`App/Source/Services/client_auth_service.cpp:48`). `ClientCalls.CallsReachExactly` says of every
  request of the client exactly when it reaches the handler that it is for, `ServerRoutes.ReachedExactly`
  the same of every route with one parameter.

## Model

| member | source | states |
|---|---|---|
| `PoolProtocol.RunConserves` | Server/Source/Database/Postgres/pqxx_connection_pool.cpp:13-49 | In every interleaving of acquires, returns, wakes and timeouts, free plus borrowed connections are those made at start-up, each once |
| `PoolProtocol.HandedOutInOrder` | Server/Source/Database/Postgres/pqxx_connection_pool.cpp:27-38 | Connections leave the deque in the order in which they entered it: handed out ++ free = initial ++ returned, so what was handed out is a prefix of that list |
| `PoolProtocol.RunLosesNoWakeup` | Server/Source/Database/Postgres/pqxx_connection_pool.cpp:18-42 | If no notified waiter is reported as timed out, then while some thread is blocked un-notified the free connections number at most the notified threads that have not run yet |
| `PoolProtocol.LateTimeoutExactly` | Server/Source/Database/Postgres/pqxx_connection_pool.cpp:20-24 | A timeout reported to a woken waiter keeps that guarantee exactly when it is harmless: nobody else is blocked or the waiter was not counted on |
| `PoolProtocol.RunLosesNoWakeupExactly` | Server/Source/Database/Postgres/pqxx_connection_pool.cpp:18-42 | Over whole runs with any timeouts: no state loses a wake-up exactly when every late timeout is harmless in the state in which it happens |
| `PoolProtocol.LostWakeupHappens` | Server/Source/Database/Postgres/pqxx_connection_pool.cpp:20-24 | A concrete run in which a notified waiter throws and another stays blocked beside a free connection |
| `PoolProtocol.NotifiedThreadsDrain` | Server/Source/Database/Postgres/pqxx_connection_pool.cpp:18-33 | Progress: from any state without a lost wake-up, once every notified thread has run, in whatever order, a thread that is still blocked means that the deque is empty |
| `PoolProtocol.AcquireAnswers` | Server/Source/Database/Postgres/pqxx_connection_pool.cpp:18-33 | In every run a thread comes out of Acquire exactly by throwing, after its wait has timed out, or by resuming with a connection in the deque, and then with the front one; a woken thread that finds the deque empty waits again |
| `PoolProtocol.EnterAnswers` | Server/Source/Database/Postgres/pqxx_connection_pool.cpp:13-33 | In every run a call of Acquire has the front connection at once, or waits exactly when there is none |
| `PoolProtocol.OwnStatus` | Server/Source/Database/Postgres/pqxx_connection_pool.cpp:13-43 | Which standing each step needs of its own thread and which it leaves |
| `PoolProtocol.OthersKeepStatus` | Server/Source/Database/Postgres/pqxx_connection_pool.cpp:35-43 | A step changes no other thread's standing, but a Return wakes the one waiting thread that it notifies |
| `PoolProtocol.AcquireEnds` | Server/Source/Database/Postgres/pqxx_connection_pool.cpp:18-25 | No thread is stuck in Acquire: from any state at most three steps of its own take it out, with a connection exactly when it is woken and there is one |
| `Connections.PqxxConnection.BeginTransaction` | Server/Source/Database/Postgres/pqxx_connection.cpp:13-18 | Fails exactly when a transaction is open, the connection is dead or BEGIN fails; a new transaction is empty |
| `Connections.PqxxConnection.CommitTransaction` | Server/Source/Database/Postgres/pqxx_connection.cpp:20-27 | Publishes the whole log exactly when an effective COMMIT arrives on an open connection, also if its answer is lost and it throws; otherwise publishes nothing. A throw leaves the transaction open |
| `Connections.PqxxConnection.RollbackTransaction` | Server/Source/Database/Postgres/pqxx_connection.cpp:29-36 | Throws exactly without a transaction; afterwards there is none and nothing was published |
| `Connections.PqxxConnection.Execute` | Server/Source/Database/Postgres/pqxx_connection.cpp:68-95 | Inside a transaction nothing is published and the statement joins the log; outside one it commits by itself |
| `Connections.PqxxConnectionPool.constructor` | Server/Source/Database/Postgres/pqxx_connection_pool.h:23-52 | A new pool is the initial state of the protocol with no connection |
| `Connections.PqxxConnectionPool.Init` | Server/Source/Database/Postgres/pqxx_connection_pool.cpp:45-49 | Fills the deque with 50 distinct, open, transaction-free connections |
| `Connections.PqxxConnectionPool.Acquire` | Server/Source/Database/Postgres/pqxx_connection_pool.cpp:13-33 | A success is the protocol step that pops the front into one fresh wrapper, and the connection is clean; a timeout leaves pool and ownership as they were |
| `Connections.PqxxConnectionPool.Return` | Server/Source/Database/Postgres/pqxx_connection_pool.cpp:35-43 | Is the protocol step that appends the connection and wakes a waiter if there is one; every free connection with an open transaction is dead |
| `Connections.PooledConnection.Move` | Server/Include/Database/pooled_connection.h:50-53 | The new wrapper owns the connection, the old one is empty, the pool sees no difference |
| `Connections.PooledConnection.MoveAssign` | Server/Include/Database/pooled_connection.h:59-70 | The connection held before goes back to the pool, the other one is taken over, self-assignment changes nothing, all other owners stay |
| `Connections.PooledConnection.ReturnExistingConnectionToPool` | Server/Include/Database/pooled_connection.h:76-80 | Returns a held connection exactly once and forgets it; an empty wrapper does nothing |
| `Connections.PooledConnection.Destroy` | Server/Include/Database/pooled_connection.h:72-74 | A destroyed wrapper holds nothing, and what it held is back in the pool |
| `Connections.Transaction.Begin` | Server/Include/Database/transaction.h:50-52 | On a live borrowed connection BEGIN never fails as already active; if it throws, the connection is back in the pool |
| `Connections.Transaction.Move` | Server/Include/Database/transaction.h:34 | The moved-to transaction has the connection and the flag, the moved-from one holds nothing |
| `Connections.Transaction.MoveAssign` | Server/Include/Database/transaction.h:54-63 | An uncommitted transaction of the target is rolled back and its connection returned before the other is taken over |
| `Connections.Transaction.Commit` | Server/Include/Database/transaction.h:74-82 | Commits once: a second call changes nothing, a failed one leaves the transaction uncommitted; the tables change exactly when an effective COMMIT arrives |
| `Connections.Transaction.Execute` | Server/Include/Database/transaction.h:84-86 | Before the commit statements only collect; after it each one commits by itself |
| `Connections.Transaction.CleanupExistingTransaction` | Server/Include/Database/transaction.h:68-72 | Leaves the connection fit for the pool; the rollback it runs in a destructor never throws |
| `Connections.Transaction.Destroy` | Server/Include/Database/transaction.h:65-67 | Publishes nothing and gives the connection back, on every path |
| `TransactionRuns.RunKeepsInv` | Server/Include/Database/transaction.h:50-82 | In every interleaving of any number of threads, with connections lost at any time: each connection is in one place, and a live one has a transaction open exactly while an uncommitted Transaction holds it |
| `TransactionRuns.RollbackNeverThrows` | Server/Include/Database/transaction.h:65-82 | In no run does a destructor's rollback throw, and a Commit never finds its transaction gone |
| `TransactionRuns.LeftOverExactly` | Server/Include/Database/transaction.h:68-72 | A connection carries a transaction that nobody can end exactly when it was lost, at some step before, under an uncommitted Transaction |
| `TransactionRuns.AlreadyActiveExactly` | Server/Source/Database/Postgres/pqxx_connection.cpp:13-18 | BEGIN throws "already active" exactly on such a connection, however often it has been returned and borrowed since, and succeeds exactly on a live one when the server executes it |
| `TransactionRuns.OpenExactly` | Server/Source/Database/Postgres/pqxx_connection_pool.cpp:35-49 | A connection is open exactly when no step so far has lost it: none is ever replaced |
| `TransactionRuns.NoRecovery` | Server/Source/Database/Postgres/pqxx_connection_pool.cpp:13-49 | Once all connections have been lost, no BEGIN and no Commit of the rest of the run succeeds |
| `Repositories.ExecuteAll` | Server/Source/Database/Postgres/Repositories/pqxx_message_repository.cpp:33-39 | The insert loop succeeds exactly when no statement fails, and stops at the first that does with nothing published |
| `Repositories.RunTransaction` | Server/Source/Database/Postgres/Repositories/pqxx_message_repository.cpp:18-44 | All or nothing, exactly when: the whole script is published if and only if its statements go through and COMMIT arrives on an open connection. It returns exactly when the answer arrives too, so it throws with changed tables exactly when COMMIT breaks the connection after an effective execution; the connection always returns |
| `Repositories.ExecuteAndCommit` | Server/Source/Database/Postgres/Repositories/pqxx_message_repository.cpp:33-42 | The same for the part between BEGIN and the end of the scope |
| `Repositories.ThrowsAndCommits` | Server/Source/Database/Postgres/Repositories/pqxx_message_repository.cpp:42 | An input for that: a fresh pool and one insert whose COMMIT answer is lost; the call throws and the row is there |
| `Repositories.ReadCommitted` | Server/Source/Database/Postgres/Repositories/pqxx_message_repository.cpp:69-84 | A query sees what is committed, changes nothing and gives its connection back |
| `Tables.ExecKeepsForeignKeys` | db/migrations/V1__Init.sql:27-49 | No statement, with its cascades and SET NULL, leaves a dangling reference |
| `Tables.AddMessageAllOrNothing` | Server/Source/Database/Postgres/Repositories/pqxx_message_repository.cpp:18-44 | For ids as the database sees them, the script inserts the message with all of its wrapped keys or fails, and fails exactly when the id is taken, the chat or sender is gone or a key names an unknown user |
| `Tables.AddChatAllOrNothing` | Server/Source/Database/Postgres/Repositories/pqxx_chat_repository.cpp:17-44 | For ids as the database sees them, the script inserts the chat with all of its seats or fails, and fails exactly for a taken id, a repeated participant or an unknown one |
| `Effects.MarkReadEffect` | Server/Source/Database/Postgres/Repositories/pqxx_message_repository.cpp:168-184 | MARK READ fails exactly for an unknown message or user; otherwise the user has read it now, a delivery time that was there stays, the user and nobody else joins the readers, and no other row changes |
| `Effects.MarkDeliveredEffect` | Server/Source/Database/Postgres/Repositories/pqxx_message_repository.cpp:151-166 | The same for delivery: the first time stays, and nobody becomes a reader |
| `Effects.SetLastEffect` | Server/Source/Database/Postgres/Repositories/pqxx_chat_repository.cpp:142-151 | The UPDATE fails exactly for an existing chat and a missing message; the chat then shows this message and time, and no other row changes |
| `Effects.DeleteMessageEffect` | Server/Source/Database/Postgres/Repositories/pqxx_message_repository.cpp:86-92 | Exactly the message, its keys and its receipts go; a chat loses its last message exactly when it was this one, and keeps its time |
| `Effects.DeleteChatEffect` | Server/Source/Database/Postgres/Repositories/pqxx_chat_repository.cpp:162-168 | Exactly the chat, its seats and its messages with their keys and receipts go |
| `Effects.NewChatEffect` | Server/Source/Database/Postgres/Repositories/pqxx_chat_repository.cpp:17-44 | A new chat has exactly these members, its time of creation and no last message; no other row changes |
| `Effects.NewMessageEffect` | Server/Source/Database/Postgres/Repositories/pqxx_message_repository.cpp:18-44 | A new message is stored as sent, exactly the users of the map have a key, the one that the map says, nobody has a receipt; no other row changes |
| `Effects.RegisterEffect` | db/migrations/V1__Init.sql:3-11 | A new user has the public key of the registration; no other row changes |
| `Uuids.DistinctImages` | db/migrations/V1__Init.sql:27-33 | A list of distinct texts is a list of distinct ids exactly when no id is spelled in two ways |
| `Uuids.AddTextsAllOrNothing` | Server/Source/Database/Postgres/Repositories/pqxx_message_repository.cpp:18-44 | For the texts of a request: the send commits with one key per user, under the database's spelling, exactly when the ids are free and known and no two texts spell one id; otherwise nothing is stored |
| `PostgresUuids.ReadOfWrite` | db/migrations/V1__Init.sql:27-33 | Reading a written UUID gives its digits back, in upper or lower case |
| `PostgresUuids.SpelledIsCanon` | db/migrations/V1__Init.sql:27-33 | PostgreSQL's spelling is an instance of the assumed one: what it answers, it answers again unchanged |
| `PostgresUuids.TwoSpellings` | Core/Include/Id/base_id.h:35-43 | A UUID that starts with a letter has a second, different text with the same id |
| `PostgresUuids.BracedSpelling` | Core/Include/Id/base_id.h:35-43 | Any UUID has another text with the same id, in braces |
| `PqxxRepositories.PqxxMessageRepository.Add` | Server/Source/Database/Postgres/Repositories/pqxx_message_repository.cpp:18-44 | The method commits exactly the message with all keys, or nothing; on a live pool a lost COMMIT answer makes it throw and commit |
| `PqxxRepositories.PqxxMessageRepository.FindById` | Server/Source/Database/Postgres/Repositories/pqxx_message_repository.cpp:69-84 | Returns the committed row, or none |
| `PqxxRepositories.PqxxMessageRepository.FindUndelivered` | Server/Source/Database/Postgres/Repositories/pqxx_message_repository.cpp:113-149 | Returns the committed messages of a page that the WHERE, ORDER BY and LIMIT clauses allow |
| `PqxxRepositories.PqxxMessageRepository.MarkDelivered` | Server/Source/Database/Postgres/Repositories/pqxx_message_repository.cpp:151-166 | A call that returns has set delivered_at only where it was NULL, and has changed nothing else |
| `PqxxRepositories.PqxxMessageRepository.MarkRead` | Server/Source/Database/Postgres/Repositories/pqxx_message_repository.cpp:168-184 | A call that returns has set read_at to now and delivered_at only where it was NULL, and has changed no other row |
| `PqxxRepositories.PqxxMessageRepository.DeleteById` | Server/Source/Database/Postgres/Repositories/pqxx_message_repository.cpp:86-92 | Commits the deletion with its cascades |
| `PqxxRepositories.PqxxChatRepository.Add` | Server/Source/Database/Postgres/Repositories/pqxx_chat_repository.cpp:17-44 | The method commits exactly the chat with all participant rows, or nothing |
| `PqxxRepositories.ReadParticipants` | Server/Source/Database/Postgres/Repositories/pqxx_chat_repository.cpp:71-77 | The comma-joined id list read back by getline is the list itself for UUID texts; an empty aggregate (NULL) is an error |
| `PqxxRepositories.PqxxChatRepository.FindById` | Server/Source/Database/Postgres/Repositories/pqxx_chat_repository.cpp:46-83 | Returns the chat with its last message and exactly its members that have not left |
| `PqxxRepositories.ChatAtShows` | Server/Source/Database/Mappers/chat_mapper.cpp:22-48 | A chat that is read has its own id, members and time of creation, and as last message the message that its row names, with this chat as its chat, or none if it names none |
| `PqxxRepositories.ChatAfterDelete` | Server/Source/Database/Postgres/Repositories/pqxx_chat_repository.cpp:46-83 | After the deletion of a message a chat that had it as last message shows none, and any other chat what it showed before |
| `PqxxRepositories.PqxxChatRepository.FindByUserId` | Server/Source/Database/Postgres/Repositories/pqxx_chat_repository.cpp:85-124 | For any limit and offset, returns the chats of the window in order, each with exactly its members |
| `PqxxRepositories.PqxxChatRepository.IsParticipant` | Server/Source/Database/Postgres/Repositories/pqxx_chat_repository.cpp:153-160 | Answers whether there is a seat row, whatever its left_at |
| `PqxxRepositories.PqxxChatRepository.UpdateLastMessage` | Server/Source/Database/Postgres/Repositories/pqxx_chat_repository.cpp:142-151 | Commits the new last message of the chat |
| `PqxxRepositories.PqxxChatRepository.DeleteById` | Server/Source/Database/Postgres/Repositories/pqxx_chat_repository.cpp:162-168 | Commits the deletion with its cascades |
| `MessageServices.MessageService.SendChatMessage` | Server/Source/Services/message_service.cpp:32-67 | A call with the tables to itself. Returning means: stored with all keys, last message of its chat, every other member's current subscriptions called; throwing means none, one or both writes in order and no notification; with a calm network it returns whenever the checks and constraints allow it |
| `MessageServices.SendIsVisible` | Server/Source/Services/message_service.cpp:54-58 | After a complete send: the message reads as sent, exactly the users of the map have their key, its chat reads as before but with this message as last, and no other message or chat has changed |
| `MessageServices.MessageService.CheckSend` | Server/Source/Services/message_service.cpp:39-52 | The checks pass only for an existing chat with a member left, a sender in it and a valid message, and pass for those when the network is calm |
| `MessageServices.MessageService.EnforceChatExistence` | Server/Source/Services/message_service.cpp:26-30 | Passes only for an existing chat whose member list can be read, and for that always with a calm network |
| `MessageServices.MessageService.EnforceParticipant` | Server/Source/Services/message_service.cpp:19-25 | Passes only for a user with a seat row, and for that always with a calm network |
| `MessageServices.MessageService.MarkAsRead` | Server/Source/Services/message_service.cpp:81-95 | Own message: no effect; otherwise the reader is afterwards among the readers, read now, with an earlier delivery time kept and no other row changed, and the sender's subscriptions are called in order; unknown id: error |
| `MessageServices.MessageService.GetUndelivered` | Server/Source/Services/message_service.cpp:97-109 | Returns one page of at most min(100, limit) pending messages with all of them marked, each at its own time; an exception leaves a prefix of the page marked. Either way it is one attempt of module DeliveryLosses |
| `MessageServices.MessageService.DeleteMessage` | Server/Source/Services/message_service.cpp:111-123 | Succeeds only for the sender; exactly that message with its keys and receipts is gone, and its chat has no last message exactly if it was that one |
| `ChatServices.FirstWith` | Server/Source/Services/chat_service.h:125-134 | The scan returns the first fetched chat with the other user in it, or none |
| `ChatServices.ChatService.FindExistingChat` | Server/Source/Services/chat_service.h:121-135 | Scanning the fetched chats finds what the tables say: the first chat of the page with the other user among its members |
| `ChatServices.ChatService.EnforceUsersExistence` | Server/Source/Services/chat_service.cpp:23-47 | Passes exactly when creator and all participants exist, in whatever spelling, with a calm network |
| `ChatServices.ChatService.CreateNewChatType` | Server/Source/Services/chat_service.cpp:49-71 | Inserts one chat whose members are exactly the users that creator and named texts spell, or fails; with a calm network it fails exactly when two of the texts spell one id |
| `ChatServices.ChatService.CreateChat` | Server/Source/Services/chat_service.cpp:79-97 | A call with the tables to itself is the atomic creation step of module DirectChats for texts in any spelling: same chat, same tables, same refusals. A request that names nobody, exactly the creator or an unknown user is refused and changes nothing |
| `ChatServices.NormalisedImages` | Server/Source/Services/chat_service.cpp:50-55 | The sorted list meets a duplicate (chat, user) key in the insert loop exactly when two of the texts spell one id; its ids are those of creator and named users |
| `ChatServices.ChatService.DeleteChat` | Server/Source/Services/chat_service.cpp:130-134 | Succeeds only for a participant, and deletes the chat with everything in it |
| `ServiceRefinement.SendIsSteps` | Server/Source/Services/message_service.cpp:32-67 | Every outcome that SendChatMessage's contract allows, after an exception too, is what steps of one call of the concurrent machine leave; a call that returns ends with a lookup that found the others in the chat |
| `ServiceRefinement.DeliverIsSteps` | Server/Source/Services/message_service.cpp:97-109 | What GetUndelivered leaves, complete or with only a prefix marked, is what the machine's fetch, marking and end steps leave |
| `ServiceRefinement.ReadIsSteps` | Server/Source/Services/message_service.cpp:81-95 | The same for every outcome of MarkAsRead |
| `ServiceRefinement.DeleteIsSteps` | Server/Source/Services/message_service.cpp:111-123 | The same for every outcome of DeleteMessage |
| `ServiceRefinement.CreateIsSteps` | Server/Source/Services/chat_service.cpp:79-97 | The same for every outcome of CreateChat |
| `ServiceRefinement.DeleteChatIsSteps` | Server/Source/Services/chat_service.cpp:130-134 | The same for every outcome of DeleteChat |
| `SendRuns.ChatLivesExactly` | Server/Source/Database/Postgres/Repositories/pqxx_chat_repository.cpp:162-168 | In every interleaving a chat that exists at one point exists at a later one exactly when no DeleteChat of it was committed in between |
| `SendRuns.LookUpFindsExactly` | Server/Source/Services/message_service.cpp:54-64 | In every interleaving the lookup at the end of a send finds its chat exactly when no DeleteChat of it was committed after the message was stored; then exactly those who were in the chat when the message was stored, without the sender, are notified, and otherwise an empty optional is dereferenced |
| `SendRuns.LookUpCanFail` | Server/Source/Services/message_service.cpp:54-60 | Two such runs: the chat is deleted between the two writes, whose UPDATE then matches no row and succeeds, and after both |
| `ObservedRuns.ReadersExactly` | Server/Source/Database/Postgres/Repositories/pqxx_message_repository.cpp:168-215 | In every state of every run a user is among the readers of a message exactly when the message exists and a MarkAsRead of that user for it was committed before |
| `ObservedRuns.DeliveredExactly` | Server/Source/Database/Postgres/Repositories/pqxx_message_repository.cpp:151-199 | It counts as delivered exactly when it exists and such a MarkAsRead or a marking by that user's GetUndelivered was committed before |
| `ObservedRuns.LastMessageExactly` | Server/Source/Services/message_service.cpp:54-58 | In every state of every run a chat's last message is the one to which it was last updated, as long as that message exists, and none otherwise |
| `ObservedRuns.MessageLivesExactly` | Server/Source/Services/message_service.cpp:111-123 | A message that exists at one point exists at a later one exactly when neither it nor its chat was deleted in between |
| `ObservedRuns.MessagesWereSent` | Server/Source/Services/message_service.cpp:32-54 | Every message in a reachable state was stored as it is by a send, and has a time of creation and a ciphertext |
| `ObservedRuns.ChatsWereCreated` | Server/Source/Services/chat_service.cpp:49-71 | Every chat in a reachable state has the time of creation and exactly the members of the CreateChat that made it |
| `ObservedRuns.ChatReadsExactly` | Server/Source/Database/Postgres/Repositories/pqxx_chat_repository.cpp:46-83 | What FindById shows in any reachable state: the time of creation of the CreateChat, and a last message exactly if it exists, which is then of this chat and the one to which it was last updated |
| `ServiceRuns.RunKeepsInv` | Server/Source/Services/message_service.cpp:32-123 | In every interleaving of all calls: senders are participants, keys and receipts name existing messages, a last message is of its own chat with its timestamp, receipts are delivered and never the sender's own |
| `ServiceGuarantees.OnlyOwnersRemoveMessages` | Server/Source/Services/message_service.cpp:111-123 | A message disappears only through its sender's DeleteMessage or a participant's DeleteChat |
| `ServiceGuarantees.LiveMessagesAreUnaltered` | Server/Source/Services/message_service.cpp:32-58 | A message that exists at both ends of a stretch of a run existed all along, unaltered |
| `ServiceGuarantees.RunKeepsRows` | Server/Source/Database/Postgres/Repositories/pqxx_message_repository.cpp:151-184 | While a message lives, its keys and receipts stay, its delivery times do not change and read stays read |
| `ServiceGuarantees.ReceiptsAreSound` | Server/Source/Database/Postgres/Repositories/pqxx_message_repository.cpp:186-215 | Read implies delivered, a receipt is delivered from creation on, and no sender has one on their own message |
| `ServiceGuarantees.NeverRedelivered` | Server/Source/Database/Postgres/Repositories/pqxx_message_repository.cpp:113-149 | A message delivered to a user is never pending for that user again, in any later state of any run |
| `ServiceGuarantees.MembershipViewsAgree` | Server/Source/Database/Postgres/Repositories/pqxx_chat_repository.cpp:46-160 | In every reachable state the three membership queries agree, although only two look at left_at |
| `ServiceGuarantees.MembershipViewsAgreeExactly` | Server/Source/Database/Postgres/Repositories/pqxx_chat_repository.cpp:153-160 | For any tables they agree on a pair exactly when its row carries no left_at |
| `ServiceGuarantees.LeftUserSplitsTheViews` | Server/Source/Database/Postgres/Repositories/pqxx_chat_repository.cpp:153-160 | Tables in which they disagree: a participant who has left |
| `Delivery.MarkAllDelivers` | Server/Source/Services/message_service.cpp:104-106 | Marking a page removes exactly the page from what is pending for the user and nothing from anyone else |
| `Delivery.MarkAllTimes` | Server/Source/Services/message_service.cpp:104-106 | Each message of the page gets the time of its own marking |
| `Delivery.PendingExactly` | Server/Source/Database/Postgres/Repositories/pqxx_message_repository.cpp:116-134 | Pending are exactly the messages of others, in chats where the user has a seat, that were not delivered to the user; after a cursor only those newer than that message, and none if it does not exist |
| `Delivery.PageIsOldestFirst` | Server/Source/Database/Postgres/Repositories/pqxx_message_repository.cpp:129-141 | A page has at most 100 messages and at most the limit, fewer only if nothing else is pending, in order of creation, and leaves out nothing older |
| `Delivery.DrainIsOnePage` | Server/Source/Services/message_service.cpp:97-109 | k calls return together what one query with k times the limit could: pending only, each once, oldest first across calls |
| `Delivery.DrainIsComplete` | Server/Source/Services/message_service.cpp:97-109 | Nothing is pending exactly after ceil(n / min(100, limit)) calls, and then each of the n messages was returned exactly once |
| `Delivery.CursorSeesSameRows` | Server/Source/Database/Postgres/Repositories/pqxx_message_repository.cpp:129-134 | At any point of a drain, passing the last returned id as cursor sees the same rows exactly when no pending message shares its timestamp |
| `Delivery.CursorHidesATie` | Server/Source/Database/Postgres/Repositories/pqxx_message_repository.cpp:129-134 | A tie: two pending messages of one instant, of which limit 1 and the cursor hide the second |
| `Delivery.CursorDrainIsDrain` | Server/Source/Database/Postgres/Repositories/pqxx_message_repository.cpp:129-141 | With distinct timestamps every call of a drain that passes cursors throughout is a call without a cursor |
| `Delivery.CursorDrainIsComplete` | Server/Source/Database/Postgres/Repositories/pqxx_message_repository.cpp:129-141 | So it returns every pending message exactly once in ceil(n / min(100, limit)) calls |
| `Delivery.CursorGivesSamePages` | Server/Source/Database/Postgres/Repositories/pqxx_message_repository.cpp:129-141 | With distinct timestamps a drain with cursors and a drain without return the same pages, call by call |
| `DeliveryLosses.AttemptsSettle` | Server/Source/Services/message_service.cpp:97-109 | Over any calls, whatever fails and whatever cursors they pass: exactly what they marked has left the pending messages, each message marked once |
| `DeliveryLosses.LostExactly` | Server/Source/Services/message_service.cpp:104-108 | A message that was pending is no longer pending and returned by no call exactly when some call marked it and threw; no two calls return or lose the same message |
| `DeliveryLosses.CallLosesAMessage` | Server/Source/Services/message_service.cpp:104-108 | Such a call: the second of two markings throws, and the first message is lost |
| `Participants.Sort` | Server/Source/Services/chat_service.cpp:53 | A sorted permutation |
| `Participants.EraseAdjacentDuplicates` | Server/Source/Services/chat_service.cpp:55 | Strictly ascending, with the same elements |
| `Participants.Normalise` | Server/Source/Services/chat_service.cpp:50-55 | Strictly ascending, with exactly the creator and the named users as elements |
| `Participants.AscendingIsDistinct` | Server/Source/Services/chat_service.cpp:53-55 | The normalised list repeats no text |
| `Participants.NormaliseIsDetermined` | Server/Source/Services/chat_service.cpp:50-55 | The set of participants alone determines the list, whatever the sorting algorithm and the order of the request |
| `Participants.LessTextExactly` | Server/Source/Services/chat_service.cpp:53 | The order is lexicographic: the texts agree up to a place where the first one ends or has the smaller character |
| `DirectChats.CreateSucceedsExactly` | Server/Source/Services/chat_service.cpp:79-97 | CreateChat succeeds exactly for a request that names somebody, not exactly the creator, whose users are all known, if the search sees a chat with the one other user or a chat can be inserted; it returns the one or inserts the other, with exactly the named users and its time |
| `DirectChats.RefusedRequests` | Server/Source/Services/chat_service.cpp:73-89 | A request that names nobody, exactly the creator or an unknown user is refused |
| `DirectChats.SearchSeesNewest` | Server/Source/Services/chat_service.h:121-135 | The search looks at no more than 100 chats, leaves out none that is newer than one it sees, and sees every chat before which fewer than 100 can be listed |
| `DirectChats.CreateKeepsPairsUniqueExactly` | Server/Source/Services/chat_service.cpp:88-96 | Creating a chat for two, whichever way the request spells the other id, keeps pairs unique exactly when the search sees a chat with that text whenever the pair has one |
| `DirectChats.SeesExactly` | Server/Source/Services/chat_service.h:121-135 | For a caller in at most 100 chats the search finds a chat exactly when the two users share one and the request spells the id as the database does |
| `DirectChats.SpellingDecides` | Server/Source/Services/chat_service.h:125-134 | For such a caller pairs stay unique exactly when the pair has no chat yet or the request spells the id as the database does |
| `DirectChats.NamedTwiceSkipsTheSearch` | Server/Source/Services/chat_service.cpp:88-96 | Naming the other user twice passes the check for two users without a search; the pair gets a second chat exactly when it has one |
| `DirectChats.SearchCanMissAPair` | Server/Source/Services/chat_service.h:123 | Tables with the store invariant, a caller in 101 chats and an allowed page of 100 with which the call inserts a second chat for the pair |
| `DirectChats.NewChatHasTwoMembersExactly` | Server/Source/Services/chat_service.cpp:49-71 | A newly inserted chat has exactly the creator and the named users as members, so at least two exactly when somebody other than the creator is named |
| `DirectChats.CreatorNamedTwiceIsAlone` | Server/Source/Services/chat_service.cpp:88-96 | Naming the creator twice passes the self-chat check and makes a chat with one member |
| `DirectChats.SharedChatIsFoundExactly` | Server/Source/Services/chat_service.h:121-135 | Once two users share a chat and the caller is in at most 100, a call from either side inserts nothing and returns a chat with both if the other id is spelled as the database does, and inserts a chat of the two otherwise |
| `PairRuns.PairsStayUniqueExactly` | Server/Source/Services/chat_service.cpp:79-97 | Over whole runs of overlapping calls: pairs stay unique exactly when no step commits a chat of two for a pair that has one |
| `PairRuns.SearchedPairsStayUniqueExactly` | Server/Source/Services/chat_service.cpp:88-96 | Where callers are in at most 100 chats and spell ids as the database does, exactly when no call inserts for a pair that received a chat since that call's search |
| `PairRuns.RacingCallsInsertTwice` | Server/Source/Services/chat_service.cpp:88-96 | A run of two overlapping calls, one from either side, that both search before either inserts and leave two chats of one pair |
| `PairRuns.SpelledOtherwiseInsertsTwice` | Server/Source/Networking/Controllers/chat_controller.cpp:201-210 | A run in which one request that spells the other id differently is sent twice, one call after the other, and leaves two chats of one pair |
| `PairRuns.UpperCaseInsertsTwice` | Server/Source/Networking/Controllers/chat_controller.cpp:201-210 | The same run with PostgreSQL's reading of UUIDs, for any two users of which the second one's id starts with a letter and is sent in upper case |
| `PairRuns.NoSecondChatForAPair` | Server/Source/Services/chat_service.cpp:79-97 | Over whole runs with CreateChat as one atomic step, searched pairs, ids spelled as the database does and at most 100 chats per caller, no two chats have the same pair |
| `EndToEnd.UnlockExactly` | App/Source/Cryptography/client_key_manager.cpp:34-51 | The registration password unlocks the registered private key and no other password yields it; a wrong one passes exactly when the CBC padding happens to fit, and what it loads unwraps nothing |
| `EndToEnd.UnlocksExactly` | App/Source/Cryptography/client_key_manager.cpp:34-51 | For any key store, unlocking succeeds exactly when there is material with a readable algorithm id and its key is encrypted under what those numbers derive from the password, or the padding fits |
| `EndToEnd.ClientKeyManager.GenerateAndProtectKeyPair` | App/Source/Cryptography/client_key_manager.cpp:14-32 | Stores the protected private key of the returned pair and loads nothing |
| `EndToEnd.ClientKeyManager.UnlockPrivateKey` | App/Source/Cryptography/client_key_manager.cpp:34-51 | Loads what the stored material and the password yield; on failure the loaded key stays as it was |
| `EndToEnd.ClientKeyManager.DeleteProtectedKeys` | App/Source/Cryptography/client_key_manager.cpp:57-59 | Empties the key store and, by its frame, leaves a loaded key loaded |
| `EndToEnd.BuildSendMessagePayload` | App/Source/Services/client_message_service.cpp:132-153 | The payload carries one copy of the key per listed user, wrapped with that user's public key; it fails exactly when some user has no usable key |
| `EndToEnd.ExtractEncryptedKeys` | Server/Source/Networking/Controllers/message_controller.cpp:214-222 | The server reads the same map, keyed by user id |
| `EndToEnd.KeyOfUser` | Server/Source/Networking/Controllers/message_controller.cpp:214-222 | What the database stores for a user is the key that was wrapped for some spelling of that user, and nothing for users that no listed text spells |
| `EndToEnd.StoredKeysArePayloadKeys` | Server/Source/Database/Postgres/Repositories/pqxx_message_repository.cpp:18-67 | In every later state with the message, the stored key of a user is the payload's, and users not in the payload have none |
| `EndToEnd.ReadableExactlyByTheListed` | App/Source/Services/client_message_service.cpp:115-153 | After an accepted send, in every later state of every run until deletion, a registered user whose unlocking did not fail reads exactly the plaintext if listed, in whatever spelling, and the password was right, and gets an error otherwise |
| `Router.Router.AddRoute` | Server/Source/Networking/router.cpp:8-17 | Appends the compiled template to the routes |
| `Router.Router.ProcessRouteTemplate` | Server/Source/Networking/router.cpp:95-109 | Compiles the template into the segments, names and dynamic flags of the declarative definition |
| `Router.Router.TryExtractParams` | Server/Source/Networking/router.cpp:111-127 | Succeeds exactly when the static positions agree, with the dynamic positions as parameters in order |
| `Router.Router.RouteRequest` | Server/Source/Networking/router.cpp:44-73 | Calls what first-match dispatch over the registrations calls, with no parameter left over from a failed attempt |
| `Router.DispatchIsFirstMatch` | Server/Source/Networking/router.cpp:61-72 | A handler is called exactly when its route is the earliest registered match, with its own bindings; 404 exactly when none matches |
| `Router.PositionsAreExactlyTheDynamic` | Server/Source/Networking/router.cpp:95-109 | The positions that bind are exactly the dynamic segments, ascending |
| `Router.BindingsFollowThePositions` | Server/Source/Networking/router.cpp:118-124 | The i-th parameter is the name and the request segment at the i-th dynamic position |
| `Router.ParameterExactly` | Server/Source/Networking/router.cpp:75-85 | A segment is a parameter exactly when it is a name in braces, and the name is what is between them |
| `Router.LeadingSlash` | Server/Source/Networking/router.cpp:34-42 | One slash in front of a path makes no difference to its segments |
| `Getline.ReadAll` | Server/Source/Networking/router.cpp:34-42 | The loop reads exactly the pieces between delimiters, without an empty last one |
| `Getline.SplitOfJoin` | Server/Source/Database/Postgres/Repositories/pqxx_chat_repository.cpp:72-77 | Splitting a join gives the pieces back, except that an empty last piece is lost |
| `Getline.JoinOfSplit` | Server/Source/Networking/router.cpp:34-42 | Joining what was read gives the text back up to one final delimiter, and no piece has a delimiter in it |
| `RouteTemplates.ResolveIdRoute` | App/Source/Services/client_services_utils.cpp:22-31 | a + placeholder + c with no earlier occurrence becomes a + id + c; a template without the placeholder is unchanged |
| `RouteTemplates.ResolvedPathRoutesBack` | Server/Source/Networking/router.cpp:61-72 | Once the target parses: in a router with any routes, for any well-formed template with one parameter and any id without slash or question mark, with any query string: the resolved path matches the template's route unless the id is empty at the end of the path, and where no earlier route matches, dispatch gives that route's handler exactly [(name, id)] |
| `ServerRoutes.OverlapsExactly` | Server/Source/Networking/Controllers/user_controller.cpp:192-204 | Among the 21 registered routes exactly two pairs of one verb can match one request |
| `ServerRoutes.ReachedExactly` | Server/Source/Networking/router.cpp:61-72 | For every route with one parameter and every id, once the target parses: the client's resolved template reaches that route's handler with this id, unless the id is empty at the end of the path or is "search" or "tag" in the two overlapping routes |
| `ServerRoutes.ReadNeedsPut` | Server/Source/Networking/Controllers/message_controller.cpp:255-257 | The resolved read template is answered for PUT and is 404 for any other verb, whatever the id; the client sends POST |
| `ServerRoutes.ServerAnswersExactly` | Server/Source/Networking/router.cpp:61-72 | Every request that fits one of the 21 routes is answered by that route's handler with its own bindings, but for the two ids that an earlier route takes |
| `ServerRoutes.NotFoundExactly` | Server/Source/Networking/router.cpp:61-72 | 404 exactly for requests that fit none of the 21 routes |
| `ClientCalls.CallsReachExactly` | App/Source/Services/client_auth_service.cpp:9-55 | For each of the client's 14 requests, with any id and query string: it reaches the handler that it is for, with its id as only parameter, exactly unless it is the log-out, which reaches the log-in handler, the marking as read, which is 404, or a user or chat lookup with one of three ids |
| `Base64.RoundTrip` | Server/Source/Cryptography/open_ssl_server_encryption_service.cpp:134-183 | Decoding an encoding returns the bytes exactly up to 1610612733 of them; beyond, the decoder refuses the text as too long |
| `Base64.EncodeShape` | Server/Source/Cryptography/open_ssl_server_encryption_service.cpp:134-143 | The encoded length is 4 * ((n + 2) / 3), a multiple of four, and '$' is not in the alphabet |
| `Base64.AlphabetExactly` | Server/Source/Cryptography/open_ssl_server_encryption_service.cpp:140 | The characters of table 1 of RFC 4648, in its order |
| `Base64.EncodeLast` | Server/Source/Cryptography/open_ssl_server_encryption_service.cpp:140 | How one, two and three bytes are encoded, character by character |
| `Base64.EncodeFirst` | Server/Source/Cryptography/open_ssl_server_encryption_service.cpp:140 | A longer input is encoded group by group |
| `Base64.DecodableExactly` | Server/Source/Cryptography/open_ssl_server_encryption_service.cpp:168 | Decodable are exactly the characters of the alphabet and the padding |
| `Base64.DecodeBlockTrims` | Server/Source/Cryptography/open_ssl_server_encryption_service.cpp:168 | Blanks in front and white space or a hyphen at the end make no difference to the decoded block |
| `Base64.BadTextIsRefused` | Server/Source/Cryptography/open_ssl_server_encryption_service.cpp:168 | A text with any other character in it is refused |
| `Base64.DecodedExactly` | Server/Source/Cryptography/open_ssl_server_encryption_service.cpp:145-183 | What is returned for which input: the decoded block without as many bytes as there are '=' among the last two characters of the input |
| `Base64.CorrectionFits` | Server/Source/Cryptography/open_ssl_server_encryption_service.cpp:174-178 | The corrected length is never negative, so the code's answer for that is never given |
| `Base64.NewlineAddsAByte` | Server/Source/Cryptography/open_ssl_server_encryption_service.cpp:145-155 | The padding is counted on the untrimmed input: an encoded byte with a newline behind it decodes to that byte and a zero |
| `Base64.EvpEncodeBlock` | Server/Source/Cryptography/open_ssl_server_encryption_service.cpp:140 | Writes the encoding and its NUL inside the buffer and nothing behind them |
| `Base64.Base64Encode` | Server/Source/Cryptography/open_ssl_server_encryption_service.cpp:134-143 | Up to that size the buffer of GetMaxBase64StrSize is large enough for text and NUL, and the text is the encoding of section 4 of RFC 4648 |
| `Base64.EvpDecodeBlock` | Server/Source/Cryptography/open_ssl_server_encryption_service.cpp:168 | The decoded block fits in a buffer of the input's size |
| `Base64.Base64Decode` | Server/Source/Cryptography/open_ssl_server_encryption_service.cpp:157-183 | Returns the block cut by the padding correction, an error for bad input |
| `Passwords.HashPassword` | Server/Source/Cryptography/open_ssl_server_encryption_service.cpp:86-94 | Makes the tagged record of salt and scrypt hash |
| `Passwords.VerifyPassword` | Server/Source/Cryptography/open_ssl_server_encryption_service.cpp:96-122 | Accepts exactly when the record holds a salt and a hash that starts with the 32 bytes derived under that salt, reads past the end exactly when it holds fewer than 32 and the derivation succeeds, rejects everything else |
| `Passwords.VerdictExactly` | Server/Source/Cryptography/open_ssl_server_encryption_service.cpp:96-122 | The same for every password and every stored text |
| `Passwords.EmptyRecordIsOverread` | Server/Source/Cryptography/open_ssl_server_encryption_service.cpp:117 | An input that is read past its end: the tag, an empty salt and an empty hash |
| `Passwords.RecordParses` | Server/Source/Cryptography/open_ssl_server_encryption_service.cpp:101-110 | The delimiter is found where it was put, so both fields are read back |
| `Passwords.RecordLength` | Server/Source/Cryptography/open_ssl_server_encryption_service.cpp:86-94 | Every record starts with the tag and has 77 characters |
| `Passwords.RecordAcceptsExactly` | Server/Source/Cryptography/open_ssl_server_encryption_service.cpp:86-122 | A record accepts its own password, and any other exactly when it has the same hash under that salt; it never reads past its end |
| `Passwords.RehashExactly` | Server/Source/Cryptography/open_ssl_server_encryption_service.cpp:124-131 | A hash needs a rehash exactly when it does not start with "$scrypt$"; a record made by HashPassword needs none, and a hash that needs one verifies nothing |
| `Validation.ValidationResult.constructor` | Core/Include/Validation/Core/validation_result.h:76-96 | An empty result of the given capacity |
| `Validation.ValidationResult.AddError` | Core/Include/Validation/Core/validation_result.h:76-96 | Appends while there is room, ignores beyond |
| `Validation.WriteAppliedRuleErrors` | Core/Include/Validation/Rules/and_rule.h:63-70 | Appends all errors of one result to another that has room |
| `Validation.Combine` | Core/Include/Validation/Rules/and_rule.h:75-86 | The errors of both sides in order, in a fresh result of the summed capacity |
| `Validation.RenameFields` | Core/Include/Validation/Rules/bound_rule.h:63-65 | Overwrites the field of every recorded error and nothing else |
| `Validation.Apply` | Core/Include/Validation/Rules/and_rule.h:72-86 | Evaluation into the fixed arrays yields exactly what the tree reports; no error is dropped |
| `Validation.CapacitySuffices` | Core/Include/Validation/Rules/and_rule.h:63-86 | A rule never reports more errors than its compile-time capacity |
| `Validation.ErrorsAreTheFailingLeaves` | Core/Include/Validation/Rules/bound_rule.h:57-68 | The errors are the failing leaves from left to right with the bound field name |
| `Validation.OkExactlyWhenAllPass` | Core/Include/Validation/Core/validation_result.h:71-74 | Ok exactly when every leaf passes |
| `Validation.SessionErrorsExactly` | Core/Include/Session/session_validator.h:48-69 | Which errors a session has, by field and message, in order |
| `Validation.UserErrorsExactly` | Core/Include/User/user_validator.h:49-75 | Which errors a user has, by field and message, in order |
| `Validation.ValidateSession` | Core/Include/Session/session_validator.h:48-69 | The session rules fit in their array, and the result names exactly the failed conditions |
| `Validation.ValidateUser` | Core/Include/User/user_validator.h:49-75 | The user rules fit in their array, and the result names exactly the failed conditions |
| `Notifications.RunKeepsIdsUnique` | Server/Source/Services/notification_service.cpp:6-28 | In every interleaving no list is empty and, up to 2^64 subscriptions, no two share an id |
| `Notifications.IdsRepeatExactly` | Server/Source/Services/notification_service.cpp:7 | Two fetches of a run return the same id exactly when a multiple of 2^64 fetches lies between them |
| `Notifications.PushesShareAnIdExactly` | Server/Source/Services/notification_service.cpp:6-14 | Two subscriptions of a run have the same id exactly when a multiple of 2^64 fetches lies between theirs |
| `Notifications.TwoSubscriptionsShareAnId` | Server/Source/Services/notification_service.cpp:6-14 | A run for any two users that ends with two subscriptions of one id |
| `Notifications.SubscribedExactly` | Server/Source/Services/notification_service.cpp:6-28 | In every state of every run a user has a subscription exactly from its push until an Unsubscribe of that user and id |
| `Notifications.DispatchReachesExactly` | Server/Source/Services/notification_service.cpp:30-39 | So a Dispatch to the user, at any point of any run, calls exactly those |
| `Notifications.UnsubscribeExactly` | Server/Source/Services/notification_service.cpp:16-28 | Unsubscribing takes this id from this user's list and nothing else from anyone's |
| `Notifications.UnsubscribeCutsOne` | Server/Source/Services/notification_service.cpp:21 | Where ids are unique the others keep their order |
| `Notifications.PushExactly` | Server/Source/Services/notification_service.cpp:9-10 | Subscribing adds the subscription at the end of the user's list and changes nobody else's |
| `Notifications.IdComesRound` | Server/Source/Services/notification_service.cpp:7 | A run in which an id comes round again |
| `Notifications.NotificationService.Subscribe` | Server/Source/Services/notification_service.cpp:6-14 | The id is fetched before the lock; other threads may act in between; the subscription is then last in its list |
| `Notifications.NotificationService.Unsubscribe` | Server/Source/Services/notification_service.cpp:16-28 | Takes exactly this id from the user's list, leaves all other subscriptions, and removes the list when it becomes empty |
| `Notifications.NotificationService.Dispatch` | Server/Source/Services/notification_service.cpp:30-39 | Calls the user's subscribers in list order, and nobody for an offline user |
| `Notifications.NotificationService.NotifyOthers` | Server/Source/Services/message_service.cpp:58-64 | The loop dispatches to each participant but the sender, on the bus as it is at that turn |
| `Notifications.EachSubscriptionIsCalledOnce` | Server/Source/Services/message_service.cpp:58-64 | Whatever other threads do during a fan-out, each subscription that a participant other than the sender has at its turn is called exactly once, and no other |

## Left out

- PoolProtocol.RunLosesNoWakeup: assumes that no woken waiter is reported as timed out, because the code breaks the guarantee in that case; RunLosesNoWakeupExactly gives the exact condition over whole runs.
- Connections.PqxxConnectionPool.Acquire: one thread with the pool to itself, so a wait cannot end with a connection in the deque; threads that return connections during a wait are in module PoolProtocol, of which the method is proved to take one step.
- Connections.PqxxConnection.CommitTransaction: a transaction's statements are replayed on the tables as they are at the commit, so anomalies of weak isolation between overlapping transactions do not appear.
- Repositories.RunTransaction: has the pool to itself for its whole length, like every repository and service method; runs in which calls overlap are those of module ServiceRuns, where one committed transaction is one step.
- Participants.Sort: std::sort is modelled as an insertion sort; NormaliseIsDetermined shows that the result does not depend on it.
- MessageServices.MessageService.SendChatMessage: has the tables to itself, so its last lookup finds the chat; the runs in which it does not are those of module SendRuns. Callbacks that throw are not modelled.
- Tables.ExecKeepsForeignKeys: no statement deletes a user, so the ON DELETE rules on users are not exercised; no service deletes one.
- PairRuns.NoSecondChatForAPair: CreateChat is one atomic step, every chat of two comes from a search, callers are in at most 100 chats and ids are spelled as the database does; RacingCallsInsertTwice, NamedTwiceSkipsTheSearch, SearchCanMissAPair and SpelledOtherwiseInsertsTwice show that each is needed.
- Uuids.AddTextsAllOrNothing: a text that is no UUID is an unknown user here, where the query fails; chats and messages are named by UUID values, since the services compare their ids only in the database.
- DeliveryLosses.LostExactly: the calls of one user one after the other; what the other services do in between is in module ServiceRuns.
- EndToEnd.ReadableExactlyByTheListed: the participant list is an input, and the public-key lookup returns the registered key.
- EndToEnd.ClientKeyManager.UnlockPrivateKey: the sscanf of the stored algorithm id is two cases, three numbers or text that does not parse.
- Base64.Base64Encode: the int overflow of EVP_EncodeBlock above 1610612733 bytes is an error value of the model that the code does not raise; what OpenSSL does then is undefined.
- Real AES, RSA, scrypt and random bytes: terms, uninterpreted deterministic functions and fresh ids; whether a wrong key gets past the padding check is one of these functions.
- SQL text, query plans, parameter binding and the pqxx driver: each statement is its effect on the tables.
- Sockets, TLS, HTTP and URL parsing, JSON text and the user interface: requests are records, parse_origin_form is a flag of the request.
- The SQLite cache and the bodies of the client's chat, auth and user services: field-by-field binding; of their requests, verb and path are in module ClientCalls.
- Account deletion and membership changes (AddParticipant, RemoveParticipant): no service performs them.
- GetHistory, GetChatsForUser, GetParticipants and the remaining controllers: checks followed by one query.
- ValidationResult::Summary, which also prints unused slots: text output.
- Wall-clock time: times are numbers passed in, timeouts are nondeterministic.
